/**
 The text step of `prepare_query`: three ordered replace-all rewrites that
 turn the mail client's shorthand into the query syntax of the parser.
 Parsing the rewritten text over the `raw` and `body` fields is not part of
 this model.
 */
module Query {
  import opened Text

  const Quote: string := "\""
  const ExcludeTag: string := "-in:"
  const ExcludeTagRewrite: string := "AND NOT tag:"
  const AllMailboxes: string := "in:all"
  const Everything: string := "*"

  /** Drops every `"`, then rewrites `-in:` to `AND NOT tag:`, then `in:all` to `*`. */
  function PrepareQueryText(query: string): (r: string)
    ensures !Contains(r, Quote)
    ensures !Contains(r, ExcludeTag)
    ensures !Contains(r, AllMailboxes)
  {
    var unquoted := ReplaceAll(query, Quote, "");
    var excluded := ReplaceAll(unquoted, ExcludeTag, ExcludeTagRewrite);
    var r := ReplaceAll(excluded, AllMailboxes, Everything);
    ReplaceAllAvoids(query, Quote, "", Quote);
    ReplaceAllAvoids(unquoted, ExcludeTag, ExcludeTagRewrite, Quote);
    ReplaceAllAvoids(unquoted, ExcludeTag, ExcludeTagRewrite, ExcludeTag);
    ReplaceAllAvoids(excluded, AllMailboxes, Everything, Quote);
    ReplaceAllAvoids(excluded, AllMailboxes, Everything, ExcludeTag);
    ReplaceAllAvoids(excluded, AllMailboxes, Everything, AllMailboxes);
    r
  }

  /** A query using none of the shorthand reaches the parser unchanged. */
  lemma PlainQueryUnchanged(query: string)
    requires !Contains(query, Quote) && !Contains(query, ExcludeTag) && !Contains(query, AllMailboxes)
    ensures PrepareQueryText(query) == query
  {
    ReplaceAllWithoutPattern(query, Quote, "");
    ReplaceAllWithoutPattern(query, ExcludeTag, ExcludeTagRewrite);
    ReplaceAllWithoutPattern(query, AllMailboxes, Everything);
  }

  /** Preparing a prepared query changes nothing more. */
  lemma PrepareQueryIdempotent(query: string)
    ensures PrepareQueryText(PrepareQueryText(query)) == PrepareQueryText(query)
  {
    PlainQueryUnchanged(PrepareQueryText(query));
  }

  /**
   The tag-exclusion shorthand becomes a negated tag clause: `-in:inbox
   urgent` reaches the parser as `AND NOT tag:inbox urgent`, whenever the
   rest of the query uses no further shorthand.
   */
  lemma {:induction false} ExcludeTagRewritten(rest: string)
    requires !Contains(rest, Quote) && !Contains(rest, ExcludeTag) && !Contains(rest, AllMailboxes)
    ensures PrepareQueryText(ExcludeTag + rest) == ExcludeTagRewrite + rest
  {
    var q := ExcludeTag + rest;
    AvoidsAfterReplacement(ExcludeTag, rest, Quote);
    ReplaceAllWithoutPattern(q, Quote, "");
    ReplaceAllAtStart(ExcludeTag, rest, ExcludeTagRewrite);
    ReplaceAllWithoutPattern(rest, ExcludeTag, ExcludeTagRewrite);
    AvoidsAfterReplacement(ExcludeTagRewrite, rest, AllMailboxes);
    ReplaceAllWithoutPattern(ExcludeTagRewrite + rest, AllMailboxes, Everything);
  }

  /**
   `in:all` becomes the match-everything wildcard: `in:all minutes` reaches
   the parser as `* minutes`, whenever the rest of the query uses no
   further shorthand.
   */
  lemma {:induction false} AllMailboxesRewritten(rest: string)
    requires !Contains(rest, Quote) && !Contains(rest, ExcludeTag) && !Contains(rest, AllMailboxes)
    ensures PrepareQueryText(AllMailboxes + rest) == Everything + rest
  {
    var q := AllMailboxes + rest;
    AvoidsAfterReplacement(AllMailboxes, rest, Quote);
    ReplaceAllWithoutPattern(q, Quote, "");
    AvoidsAfterReplacement(AllMailboxes, rest, ExcludeTag);
    ReplaceAllWithoutPattern(q, ExcludeTag, ExcludeTagRewrite);
    ReplaceAllAtStart(AllMailboxes, rest, Everything);
    ReplaceAllWithoutPattern(rest, AllMailboxes, Everything);
  }

  /**
   The rewrites run in order: in `-in:all` the exclusion rewrite fires
   first and consumes the `in:`, so the wildcard rewrite no longer applies.
   */
  lemma RewriteOrder(rest: string)
    requires !Contains(rest, Quote) && !Contains(rest, ExcludeTag) && !Contains(rest, AllMailboxes)
    ensures PrepareQueryText("-in:all" + rest) == "AND NOT tag:all" + rest
  {
    AvoidsAfterReplacement("all", rest, Quote);
    AvoidsAfterReplacement("all", rest, ExcludeTag);
    AvoidsAfterReplacement("all", rest, AllMailboxes);
    assert "-in:all" + rest == ExcludeTag + ("all" + rest);
    ExcludeTagRewritten("all" + rest);
  }
}
