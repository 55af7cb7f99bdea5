/**
 Tag-count aggregation: the default-tag seed, the fold of grouped
 `(tag, count)` entries into a map of tag counts, and the `tags` query that
 combines a `total` pass with a `read` pass.

 The grouped counts come from the index's faceted searches, which are not
 part of this model: they are given as sequences of entries.
 */
module Tags {
  import opened Wrappers
  import opened Text

  datatype Counts = Counts(total: nat, read: nat)

  /** One entry of the result: `{ident, name, default, counts, mails}`. */
  datatype TagCount = TagCount(ident: string, name: string, isDefault: bool, counts: Counts, mails: seq<string>)

  /** Which counter an aggregation pass adds to. */
  datatype CountType = Total | Read

  /** A grouped count: tag names with the number of mails carrying each. */
  type Group = seq<(string, nat)>

  type TagMap = map<string, TagCount>

  const DefaultTags: seq<string> := ["inbox", "sent", "drafts", "trash"]

  function Counter(c: Counts, ct: CountType): nat
  {
    match ct
    case Total => c.total
    case Read => c.read
  }

  function Other(ct: CountType): (r: CountType)
    ensures r != ct
  {
    match ct
    case Total => Read
    case Read => Total
  }

  /** `counts[count_type] += n`: the named counter grows, the other is kept. */
  function AddCount(c: Counts, ct: CountType, n: nat): (r: Counts)
    ensures Counter(r, ct) == Counter(c, ct) + n
    ensures Counter(r, Other(ct)) == Counter(c, Other(ct))
  {
    match ct
    case Total => c.(total := c.total + n)
    case Read => c.(read := c.read + n)
  }

  /** The entry a default tag is seeded with. */
  function DefaultEntry(name: string): TagCount
  {
    TagCount(name, name, true, Counts(0, 0), [])
  }

  /** The entry created for a tag met for the first time while merging. */
  function NewEntry(name: string): TagCount
  {
    TagCount(name, name, false, Counts(0, 0), [])
  }

  /**
   The tag filter: `re.compile(".*%s.*" % query.lower()).match(tag)`. The
   pattern is matched at the start of the tag, and `.` does not match a
   newline, so the lower-cased query must occur in the tag as written with
   no newline before it. The tag itself is not lower-cased. An empty query
   (or None) compiles to `.*`, which matches every tag.
   */
  predicate QueryMatches(query: string, tag: string)
  {
    query == "" || exists i | 0 <= i <= |tag| :: MatchesAt(Lower(query), tag, i)
  }

  predicate MatchesAt(pattern: string, tag: string, i: int)
  {
    OccursAt(tag, pattern, i) && '\n' !in tag[..i]
  }

  /** An entry is merged unless it is a default tag being skipped or the filter rejects it. */
  predicate Admitted(tag: string, skip: bool, query: string)
  {
    !(skip && tag in DefaultTags) && QueryMatches(query, tag)
  }

  /**
   Merging one admitted entry: the tag's entry is created if missing, and
   only its `ct` counter changes; every other tag is untouched.
   */
  function Merge(tags: TagMap, tag: string, count: nat, ct: CountType): (r: TagMap)
    ensures r.Keys == tags.Keys + {tag}
    ensures forall k :: k in tags && k != tag ==> r[k] == tags[k]
    ensures var before := if tag in tags then tags[tag] else NewEntry(tag);
            && Counter(r[tag].counts, ct) == Counter(before.counts, ct) + count
            && Counter(r[tag].counts, Other(ct)) == Counter(before.counts, Other(ct))
            && r[tag] == before.(counts := r[tag].counts)
  {
    var entry := if tag in tags then tags[tag] else NewEntry(tag);
    tags[tag := entry.(counts := AddCount(entry.counts, ct, count))]
  }

  /** `_add_to_tags`: folds the entries of a group, in order, into the map. */
  function AddAll(tags: TagMap, group: Group, skip: bool, ct: CountType, query: string): TagMap
    decreases |group|
  {
    if group == [] then tags
    else
      var prev := AddAll(tags, group[..|group| - 1], skip, ct, query);
      var (tag, count) := group[|group| - 1];
      if Admitted(tag, skip, query) then Merge(prev, tag, count, ct) else prev
  }

  /** Some entry of the group is named `k`. */
  predicate HasName(group: Group, k: string)
    decreases |group|
  {
    group != [] && (group[|group| - 1].0 == k || HasName(group[..|group| - 1], k))
  }

  lemma {:induction false} HasNameAt(group: Group, k: string)
    ensures HasName(group, k) <==> exists i :: 0 <= i < |group| && group[i].0 == k
    decreases |group|
  {
    if group != [] {
      var init := group[..|group| - 1];
      HasNameAt(init, k);
      assert forall i :: 0 <= i < |init| ==> init[i] == group[i];
    }
  }

  /** The sum of the counts of the group's entries named `k`. */
  function CountFor(group: Group, k: string): nat
    decreases |group|
  {
    if group == [] then 0
    else CountFor(group[..|group| - 1], k) + (if group[|group| - 1].0 == k then group[|group| - 1].1 else 0)
  }

  /** The default tags, each with its seeded entry. */
  function Seed(): TagMap
  {
    map t | t in DefaultTags :: DefaultEntry(t)
  }

  /**
   `_build_tags`: seed the defaults unless they are skipped, merge the
   `total` group under the tag filter, then, when there is a non-empty
   `read` group, merge it with no filter.
   */
  function BuildTagsSpec(seen: Option<Group>, total: Group, skip: bool, query: string): TagMap
  {
    var counted := AddAll(Start(skip), total, skip, Total, query);
    if seen.Some? && seen.value != [] then AddAll(counted, seen.value, skip, Read, "") else counted
  }

  /**
   `tags`: the `read` group is searched only when no tag filter is given;
   `totalGroups` and `seenGroups` stand for the two grouped searches.
   */
  function TagsSpec(query: string, skip: bool, totalGroups: Group, seenGroups: Group): TagMap
  {
    var filtering := query != "";
    BuildTagsSpec(if filtering then None else Some(seenGroups), totalGroups, skip, query)
  }

  /**
   What one aggregation pass does to tag `k`: the tag is present afterwards
   exactly when it was before or an admitted entry names it; its `ct`
   counter grows by the sum of the counts of the entries named `k` (if the
   tag is admitted), and nothing else about it changes.
   */
  lemma {:induction false} AddAllAt(tags: TagMap, group: Group, skip: bool, ct: CountType, query: string, k: string)
    ensures var r := AddAll(tags, group, skip, ct, query);
            && (k in r <==> k in tags || (Admitted(k, skip, query) && HasName(group, k)))
            && (k in r ==>
                  var before := if k in tags then tags[k] else NewEntry(k);
                  var added := if Admitted(k, skip, query) then CountFor(group, k) else 0;
                  && Counter(r[k].counts, ct) == Counter(before.counts, ct) + added
                  && Counter(r[k].counts, Other(ct)) == Counter(before.counts, Other(ct))
                  && r[k] == before.(counts := r[k].counts))
    decreases |group|
  {
    if group != [] {
      var init := group[..|group| - 1];
      var (tag, count) := group[|group| - 1];
      var prev := AddAll(tags, init, skip, ct, query);
      AddAllAt(tags, init, skip, ct, query, k);
      if !HasName(init, k) {
        NoNameNoCount(init, k);
      }
      if !Admitted(tag, skip, query) || tag != k {
        assert AddAll(tags, group, skip, ct, query) == if Admitted(tag, skip, query) then Merge(prev, tag, count, ct) else prev;
      } else {
        assert AddAll(tags, group, skip, ct, query) == Merge(prev, k, count, ct);
        assert CountFor(group, k) == CountFor(init, k) + count;
      }
    }
  }

  lemma {:induction false} NoNameNoCount(group: Group, k: string)
    requires !HasName(group, k)
    ensures CountFor(group, k) == 0
    decreases |group|
  {
    if group != [] {
      NoNameNoCount(group[..|group| - 1], k);
    }
  }

  /** The map the `total` pass starts from. */
  function Start(skip: bool): TagMap
  {
    if skip then map[] else Seed()
  }

  lemma SeedAt(k: string)
    ensures k in Seed() <==> k in DefaultTags
    ensures k in Seed() ==> Seed()[k] == DefaultEntry(k)
  {
  }

  /** Tag `k` after the seed and the `total` pass. */
  lemma CountedAt(total: Group, skip: bool, query: string, k: string)
    ensures var c := AddAll(Start(skip), total, skip, Total, query);
            && (k in c <==> (!skip && k in DefaultTags) || (Admitted(k, skip, query) && HasName(total, k)))
            && (k in c ==>
                  && c[k].ident == k && c[k].name == k && c[k].mails == []
                  && (c[k].isDefault <==> k in DefaultTags)
                  && c[k].counts.total == (if QueryMatches(query, k) then CountFor(total, k) else 0)
                  && c[k].counts.read == 0)
  {
    SeedAt(k);
    AddAllAt(Start(skip), total, skip, Total, query, k);
  }

  /**
   The result of `tags`, tag by tag: which tags are present, that every
   entry is keyed by its own name and flagged default exactly for the
   default tags, and what its two counters hold.
   */
  lemma TagsAt(query: string, skip: bool, totalGroups: Group, seenGroups: Group, k: string)
    ensures var r := TagsSpec(query, skip, totalGroups, seenGroups);
            && (k in r <==>
                  || (!skip && k in DefaultTags)
                  || (Admitted(k, skip, query) && HasName(totalGroups, k))
                  || (query == "" && !(skip && k in DefaultTags) && HasName(seenGroups, k)))
            && (k in r ==>
                  && r[k].ident == k && r[k].name == k && r[k].mails == []
                  && (r[k].isDefault <==> k in DefaultTags)
                  && r[k].counts.total == (if QueryMatches(query, k) then CountFor(totalGroups, k) else 0)
                  && r[k].counts.read == (if query == "" then CountFor(seenGroups, k) else 0))
  {
    var counted := AddAll(Start(skip), totalGroups, skip, Total, query);
    CountedAt(totalGroups, skip, query, k);
    if query != "" {
      assert TagsSpec(query, skip, totalGroups, seenGroups) == counted;
    } else if seenGroups == [] {
      assert TagsSpec(query, skip, totalGroups, seenGroups) == counted;
      assert !HasName(seenGroups, k) && CountFor(seenGroups, k) == 0;
    } else {
      assert TagsSpec(query, skip, totalGroups, seenGroups) == AddAll(counted, seenGroups, skip, Read, "");
      assert Admitted(k, skip, "") == !(skip && k in DefaultTags);
      var r := AddAll(counted, seenGroups, skip, Read, "");
      AddAllAt(counted, seenGroups, skip, Read, "", k);
      if k in r {
        var before := if k in counted then counted[k] else NewEntry(k);
        assert Counter(r[k].counts, Other(Read)) == Counter(before.counts, Other(Read));
        assert r[k].counts.total == before.counts.total;
        assert k !in counted ==> !HasName(totalGroups, k);
        if k !in counted { NoNameNoCount(totalGroups, k); }
      }
    }
  }

  /** With `skip_default_tags`, no default tag is in the result. */
  lemma SkippedDefaultsAbsent(query: string, totalGroups: Group, seenGroups: Group)
    ensures forall d :: d in DefaultTags ==> d !in TagsSpec(query, true, totalGroups, seenGroups)
  {
    forall d | d in DefaultTags ensures d !in TagsSpec(query, true, totalGroups, seenGroups) {
      TagsAt(query, true, totalGroups, seenGroups, d);
    }
  }

  /**
   Without `skip_default_tags`, every default tag is in the result and is
   still flagged default: merging never re-creates an existing entry.
   */
  lemma DefaultsAlwaysPresent(query: string, totalGroups: Group, seenGroups: Group)
    ensures var r := TagsSpec(query, false, totalGroups, seenGroups);
            forall d :: d in DefaultTags ==> d in r && r[d].isDefault
  {
    var r := TagsSpec(query, false, totalGroups, seenGroups);
    forall d | d in DefaultTags ensures d in r && r[d].isDefault {
      TagsAt(query, false, totalGroups, seenGroups, d);
    }
  }

  /** A tag filter suppresses the `read` pass: every `read` counter stays 0. */
  lemma FilteredTagsHaveNoReadCounts(query: string, skip: bool, totalGroups: Group, seenGroups: Group)
    requires query != ""
    ensures var r := TagsSpec(query, skip, totalGroups, seenGroups);
            forall k :: k in r ==> r[k].counts.read == 0
  {
    var r := TagsSpec(query, skip, totalGroups, seenGroups);
    forall k | k in r ensures r[k].counts.read == 0 {
      TagsAt(query, skip, totalGroups, seenGroups, k);
    }
  }

  /**
   Only tags the filter accepts come from the grouped counts: a tag that is
   not a seeded default is in the result only if the filter matches it.
   */
  lemma ResultTagsMatchFilter(query: string, skip: bool, totalGroups: Group, seenGroups: Group)
    ensures var r := TagsSpec(query, skip, totalGroups, seenGroups);
            forall k :: k in r && k !in DefaultTags ==> QueryMatches(query, k) && (HasName(totalGroups, k) || HasName(seenGroups, k))
  {
    var r := TagsSpec(query, skip, totalGroups, seenGroups);
    forall k | k in r && k !in DefaultTags
      ensures QueryMatches(query, k) && (HasName(totalGroups, k) || HasName(seenGroups, k))
    {
      TagsAt(query, skip, totalGroups, seenGroups, k);
    }
  }

  /**
   Three mails tagged `inbox`, `inbox, sent` and `trash`, none of them read,
   give `inbox` 2, `sent` 1, `trash` 1 and `drafts` 0 without a filter.
   */
  lemma ThreeMailsScenario()
    ensures var r := TagsSpec("", false, [("inbox", 2), ("sent", 1), ("trash", 1)], []);
            && "inbox" in r && r["inbox"].counts.total == 2
            && "sent" in r && r["sent"].counts.total == 1
            && "trash" in r && r["trash"].counts.total == 1
            && "drafts" in r && r["drafts"].counts.total == 0
            && r.Keys == {"inbox", "sent", "drafts", "trash"}
  {
    var total: Group := [("inbox", 2), ("sent", 1), ("trash", 1)];
    var r := TagsSpec("", false, total, []);
    TagsAt("", false, total, [], "inbox");
    TagsAt("", false, total, [], "sent");
    TagsAt("", false, total, [], "trash");
    TagsAt("", false, total, [], "drafts");
    forall k | k in r ensures k in DefaultTags {
      TagsAt("", false, total, [], k);
      HasNameAt(total, k);
      HasNameAt([], k);
    }
  }

  /** The mutable dictionary `_add_to_tags` updates in place. */
  class TagTable {
    var tags: TagMap

    constructor (initial: TagMap)
      ensures tags == initial
    {
      tags := initial;
    }

    /** `_add_to_tags`: merges the admitted entries of `group`, in order. */
    method AddToTags(group: Group, skip: bool, ct: CountType, query: string)
      modifies this
      ensures tags == AddAll(old(tags), group, skip, ct, query)
    {
      var i := 0;
      while i < |group|
        invariant 0 <= i <= |group|
        invariant tags == AddAll(old(tags), group[..i], skip, ct, query)
      {
        var (tag, count) := group[i];
        assert group[..i + 1][..i] == group[..i];
        if (skip && tag in DefaultTags) || !QueryMatches(query, tag) {
          i := i + 1;
          continue;
        }
        var entry := if tag in tags then tags[tag] else NewEntry(tag);
        tags := tags[tag := entry.(counts := AddCount(entry.counts, ct, count))];
        i := i + 1;
      }
      assert group[..i] == group;
    }
  }

  /** `_init_tags_defaults`: a fresh map holding each default tag's seeded entry. */
  method InitTagsDefaults() returns (tags: TagMap)
    ensures forall t :: t in tags <==> t in DefaultTags
    ensures forall t :: t in tags ==> tags[t] == DefaultEntry(t)
  {
    tags := map[];
    for i := 0 to |DefaultTags|
      invariant forall t :: t in tags <==> t in DefaultTags[..i]
      invariant forall t :: t in tags ==> tags[t] == DefaultEntry(t)
    {
      var name := DefaultTags[i];
      tags := tags[name := DefaultEntry(name)];
    }
  }

  /** `_build_tags`, over one `TagTable` that both passes update. */
  method BuildTags(seen: Option<Group>, total: Group, skip: bool, query: string) returns (r: TagMap)
    ensures r == BuildTagsSpec(seen, total, skip, query)
  {
    var initial: TagMap := map[];
    if !skip {
      initial := InitTagsDefaults();
      assert initial == Seed();
    }
    var table := new TagTable(initial);
    table.AddToTags(total, skip, Total, query);
    if seen.Some? && seen.value != [] {
      table.AddToTags(seen.value, skip, Read, "");
    }
    r := table.tags;
  }

  /**
   `tags`: the `read` group is used only when the query is empty; the two
   grouped searches are given as `totalGroups` and `seenGroups`.
   */
  method Tags(query: string, skip: bool, totalGroups: Group, seenGroups: Group) returns (r: TagMap)
    ensures r == TagsSpec(query, skip, totalGroups, seenGroups)
  {
    var filtering := query != "";
    var seen: Option<Group> := if filtering then None else Some(seenGroups);
    r := BuildTags(seen, totalGroups, skip, query);
  }
}
