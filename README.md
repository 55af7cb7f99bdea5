# Pixelated mail search engine — a Dafny model

This project models the core of Pixelated's mail search engine
(`SearchEngine` in `service/pixelated/adapter/search/__init__.py`), which
keeps a full-text index of a user's mails and answers searches and tag
counts over it:

- **Tag counts** (`tags.dfy`). The `tags` query seeds the four default tags
  `inbox`, `sent`, `drafts` and `trash` unless `skip_default_tags` is set.
  It then folds the grouped `total` counts into a map of tag entries under a
  tag filter. When no filter is given, it also folds the grouped `read`
  counts. `_add_to_tags` is a `TagTable` class whose `AddToTags` method
  updates its dictionary in place. That method is proved equal to the fold
  `AddAll`, and the tag-level lemmas are proved about `AddAll`.
- **Query rewriting** (`query.dfy`, `text.dfy`). `prepare_query` runs three
  ordered replace-all rewrites: it drops `"`, turns `-in:` into
  `AND NOT tag:` and turns `in:all` into `*`.
- **Searching** (`search.dfy`, `sequences.dfy`). This covers the coercion of
  the `page` and `window` parameters, the order-preserving deduplication of
  result idents in both search modes, the page's total count, and the
  empty-query branch of `contacts`.
- **Index documents** (`documents.dfy`). `_index_mail` builds a document
  from a mail. A missing `header`, `textPlainBody` or `ident` key raises
  `KeyError`. The tags, with the lower-cased mailbox name added, and the
  flags are deduplicated and comma-joined.
- **Index writes** (`engine.dfy`). The index is a map from `ident` to
  document. `update_document` on the unique `ident` field is an upsert and
  `delete_by_term` is a removal. `index_mail`, `index_mails` (one writer
  session for a whole batch, committed only if every mail was indexed) and
  `remove_from_index` (which always commits) are methods of a
  `SearchEngine` class. The class holds the index and a count of committed
  writer sessions.

The index's own searches (query parsing, ranking, paging, faceted grouping,
masks) are inputs here. Grouped tag counts are sequences of
`(tag, count)` entries. Search hits are function parameters returning the
idents the search would return.

Python's `None` and `""` queries are both falsy in the source and are both
modelled as `""`.

The tag filter is modelled as the code writes it, not as a
case-insensitive substring match. The code builds the regular expression
`.*<query lower-cased>.*` and applies `re.match` to the tag without
lower-casing the tag. So a tag passes exactly when the lower-cased query
occurs in the tag as written, with no newline before that occurrence.
`Tags.QueryMatches` states this.

The default tags are seeded whatever the filter query is (lines 87-88 seed
them whenever `skip_default_tags` is false). So a filtered
`tags("inb", False)` returns `inbox` and also `sent`, `drafts` and `trash`,
the last three with zero counts when the filter rejects them.
`Tags.DefaultsAlwaysPresent` and `Tags.TagsAt` state this behaviour of the
code.

Each `SearchEngine` keeps every document under its own `ident`
(`SearchEngine.Valid`). This reflects the schema's unique `ident` field,
which the searches read back as each hit's ident.

## Model

| member | source | states |
|---|---|---|
| Tags.AddCount | service/pixelated/adapter/search/__init__.py:57 | the named counter grows by the count and the other counter is kept |
| Tags.Merge | service/pixelated/adapter/search/__init__.py:54-57 | merging one entry adds the tag if missing and changes only that tag's named counter; every other tag and every other field of the entry is untouched |
| Tags.AddAllAt | service/pixelated/adapter/search/__init__.py:46-57 | after folding a group, a tag is present exactly when it was before or an admitted entry names it; its counter grows by the sum of the counts of its entries, and nothing else changes |
| Tags.HasNameAt | service/pixelated/adapter/search/__init__.py:49 | the recursive "some entry is named k" agrees with an index-based existence statement over the group |
| Tags.TagTable.AddToTags | service/pixelated/adapter/search/__init__.py:46-57 | the in-place loop over the group leaves the dictionary equal to the fold of the admitted entries over its old value |
| Tags.InitTagsDefaults | service/pixelated/adapter/search/__init__.py:70-83 | the seeded map holds exactly the four default tags, each flagged default with zero counts and no mails |
| Tags.BuildTags | service/pixelated/adapter/search/__init__.py:85-92 | seeding unless skipped, the `total` pass under the filter, then the unfiltered `read` pass only for a non-empty `read` group |
| Tags.Tags | service/pixelated/adapter/search/__init__.py:94-97 | the `read` group is used only when no filter query is given |
| Tags.TagsAt | service/pixelated/adapter/search/__init__.py:85-97 | for every tag: when it is in the result, and its ident, name, default flag, total and read counters in terms of the grouped counts |
| Tags.SkippedDefaultsAbsent | service/pixelated/adapter/search/__init__.py:51 | with `skip_default_tags`, no default tag appears in the result |
| Tags.DefaultsAlwaysPresent | service/pixelated/adapter/search/__init__.py:85-91 | without `skip_default_tags`, all four default tags appear and stay flagged default |
| Tags.FilteredTagsHaveNoReadCounts | service/pixelated/adapter/search/__init__.py:95-96 | with a filter query, every read counter in the result is 0 |
| Tags.ResultTagsMatchFilter | service/pixelated/adapter/search/__init__.py:47-52 | a non-default tag in the result passes the filter and is named by one of the grouped counts |
| Tags.ThreeMailsScenario | service/pixelated/adapter/search/__init__.py:85-97 | unfiltered grouped totals inbox 2, sent 1, trash 1 with no read group give those totals, drafts seeded with 0, and exactly the four default tags as keys |
| Query.PrepareQueryText | service/pixelated/adapter/search/__init__.py:182-187 | the rewritten query contains no `"`, no `-in:` and no `in:all` |
| Query.PlainQueryUnchanged | service/pixelated/adapter/search/__init__.py:182-187 | a query using none of the shorthand is passed on unchanged |
| Query.PrepareQueryIdempotent | service/pixelated/adapter/search/__init__.py:182-187 | rewriting an already rewritten query changes nothing |
| Query.ExcludeTagRewritten | service/pixelated/adapter/search/__init__.py:185 | `-in:` followed by any text without `"`, `-in:` or `in:all` becomes `AND NOT tag:` followed by the same text (so `-in:inbox x` becomes `AND NOT tag:inbox x`) |
| Query.AllMailboxesRewritten | service/pixelated/adapter/search/__init__.py:186 | `in:all` followed by any text without `"`, `-in:` or `in:all` becomes `*` followed by the same text |
| Query.RewriteOrder | service/pixelated/adapter/search/__init__.py:185-186 | `-in:all` followed by any text without the shorthand becomes `AND NOT tag:all` followed by that text: the exclusion rewrite runs first and consumes the `in:` |
| Text.ReplaceAllAvoids | service/pixelated/adapter/search/__init__.py:184-186 | after a replace-all, the result avoids the replaced pattern, and any other pattern the input avoided, when the replacement cannot create it |
| Text.ReplaceAllWithoutPattern | service/pixelated/adapter/search/__init__.py:184-186 | replacing a pattern that does not occur leaves the text unchanged |
| Text.SplitJoin | service/pixelated/adapter/search/__init__.py:134 | splitting the comma-joined list at the separator gives the list back when no piece contains the separator |
| Sequences.UniqueSpec | service/pixelated/adapter/search/__init__.py:169 | `unique` keeps each element once and keeps exactly the elements of its input |
| Sequences.UniqueKeepsFirstOccurrenceOrder | service/pixelated/adapter/search/__init__.py:169 | `unique` lists the elements in the order of their first occurrence in the input |
| Sequences.UniqueIdempotent | service/pixelated/adapter/search/__init__.py:169 | deduplicating a deduplicated list changes nothing |
| Search.CoercePage | service/pixelated/adapter/search/__init__.py:172 | the page is at least 1; a given page of at least 1 is kept, and a missing or smaller page becomes 1 |
| Search.CoerceWindow | service/pixelated/adapter/search/__init__.py:173 | a missing window becomes 25 and a given one is kept |
| Search.SearchAllMails | service/pixelated/adapter/search/__init__.py:165-169 | the idents of all hits with no duplicates, every hit present and nothing else, in first-occurrence order |
| Search.PaginatedSearch | service/pixelated/adapter/search/__init__.py:171-179 | the page asked for is the coerced one; its idents are deduplicated in first-occurrence order and the total is the sum of the group counts |
| Search.SearchMails | service/pixelated/adapter/search/__init__.py:161-163 | the mode follows `all_mails` and the rewritten query is searched in it; all-mails mode returns every hit once in first-occurrence order; paginated mode asks for the coerced page and window, returns every hit of that page once in first-occurrence order, and the sum of its group counts |
| Search.Contacts | service/pixelated/adapter/search/__init__.py:198-214 | an empty query gives no contacts; any other query gives what the address searches return |
| Documents.Addresses | service/pixelated/adapter/search/__init__.py:131-133 | a missing address list is indexed as the empty text |
| Documents.BuildDocument | service/pixelated/adapter/search/__init__.py:122-139 | the document is built exactly when `header`, `textPlainBody` and `ident` are present; otherwise it fails on the first missing key in that order; on success it carries the mail's ident and body, its `to`, `cc` and `bcc` are the joined address lists (empty text when missing), and a mail without flags has an empty `flags` field |
| Documents.OccurrencesOfDistinct | service/pixelated/adapter/search/__init__.py:134 | in a list without duplicates an element occurs once if present and not at all otherwise |
| Documents.TagFieldHoldsMailboxOnce | service/pixelated/adapter/search/__init__.py:125-134 | the `tag` field, split at commas, is the deduplicated tags with the lower-cased mailbox name, which occurs exactly once |
| Documents.FlagsFieldDeduplicated | service/pixelated/adapter/search/__init__.py:137 | the `flags` field, split at commas, is the flags without duplicates in first-occurrence order |
| Engine.IndexAllSucceedsIff | service/pixelated/adapter/search/__init__.py:143-153 | a batch is written exactly when every mail's document could be built |
| Engine.FirstBadMailFailsBatch | service/pixelated/adapter/search/__init__.py:143-153 | a failing batch fails with the error of its first mail whose document cannot be built |
| Engine.BatchSucceedsIffKeysPresent | service/pixelated/adapter/search/__init__.py:143-153 | a batch is written exactly when every mail has its `header`, `textPlainBody` and `ident` keys |
| Engine.IndexAllAt | service/pixelated/adapter/search/__init__.py:141 | after a batch, each ident holds the last document written for it (upsert); other idents keep their document or stay absent |
| Engine.IndexAllKeepsIdents | service/pixelated/adapter/search/__init__.py:141 | a batch written into an index that keeps every document under its own ident keeps that property |
| Engine.IndexAllStep | service/pixelated/adapter/search/__init__.py:147-148 | one more mail either upserts its document or fails the batch with its error |
| Engine.FailureKept | service/pixelated/adapter/search/__init__.py:144-153 | once a prefix of the batch fails, the whole batch fails with the same error |
| Engine.SearchEngine.IndexMail | service/pixelated/adapter/search/__init__.py:118-120 | one upsert and one commit on success; on a missing key nothing changes and nothing is committed; every document stays stored under its own ident |
| Engine.SearchEngine.IndexMails | service/pixelated/adapter/search/__init__.py:143-153 | the whole batch is written and committed once, with the callback called, exactly when it succeeds; otherwise the index is unchanged and the error is passed on; every document stays stored under its own ident |
| Engine.SearchEngine.RemoveFromIndex | service/pixelated/adapter/search/__init__.py:190-196 | the ident is absent afterwards, every other document is untouched, removing an absent ident changes nothing, and the writer always commits; every document stays stored under its own ident |

## Left out

- Whoosh's query parsing, ranking by date, paging, faceted grouping, masks and sorting are not modelled. Their outputs (grouped tag counts, hit idents, page group counts) are inputs or function parameters.
- `_search_tag_groups` is modelled only by which groups it returns: `total` always, `read` only when no filter query is given. The two grouped searches are the `totalGroups` and `seenGroups` inputs.
- `contacts` for a non-empty query is the abstract `lookup` parameter. The three masked searches over `to`, `cc` and `bcc` and `flatten` are not modelled.
- `_create_index`, `_mail_schema`, the encrypted file storage, the master key and the creation of the index folder are not modelled. The uniqueness of `ident` is modelled by the index map's keys.
- The write lock and concurrency are not modelled, including the fact that `index_mail` takes no lock.
- The traceback printed by `index_mails` before it re-raises is not modelled; the error is returned in `Failed`.
- The callback of `index_mails` is a flag. `Done(true)` records that it was called once; its effects are not modelled.
- Documents.BuildDocument: `milliseconds` is not modelled. The `date` field keeps the header's date text.
- Documents.BuildDocument: the only errors modelled are missing dictionary keys. A `tags` key holding a non-list, or a failure inside `unicode`, is not modelled.
- Documents.BuildDocument: `tags.append` also changes the list inside the mail's dictionary. That aliasing is not modelled; the model builds a new list.
- Text.Lower: only ASCII letters are lower-cased.
- Tags.QueryMatches: regular-expression metacharacters in the filter query are assumed absent, so the query is matched literally.
- Search.CoercePage: the `int(...)` conversion of non-integer page and window values is not modelled. They are given as integers.
- Tags.Tags: `tags.values()` returns the entries in dictionary order. The model returns the map itself, keyed by tag name, and `TagsAt` proves that each entry's `ident` and `name` equal its key.
- Documents.TagFieldHoldsMailboxOnce: the stored field is read back with `str.split(',')` semantics, not with Whoosh's keyword tokenizer.
