/**
 Sequence helpers the search engine relies on: `unique` (order-preserving,
 first-occurrence deduplication) and `sum`.
 */
module Sequences {

  predicate NoDuplicates<T(==)>(s: seq<T>)
  {
    forall i, j :: 0 <= i < j < |s| ==> s[i] != s[j]
  }

  /** Index of the first occurrence of `x` in `s`. */
  function FirstIndex<T(==)>(s: seq<T>, x: T): (i: nat)
    requires x in s
    ensures i < |s| && s[i] == x && x !in s[..i]
  {
    if s[0] == x then 0
    else
      var i := FirstIndex(s[1..], x);
      assert s[..i + 1] == [s[0]] + s[1..][..i];
      i + 1
  }

  /**
   `unique(s)`: the distinct elements of `s`, each kept at its first
   occurrence.
   */
  function Unique<T(==)>(s: seq<T>): seq<T>
  {
    if s == [] then []
    else
      var r := Unique(s[..|s| - 1]);
      var last := s[|s| - 1];
      if last in r then r else r + [last]
  }

  /** `unique(s)` holds no element twice, and exactly the elements of `s`. */
  lemma {:induction false} UniqueSpec<T>(s: seq<T>)
    ensures var r := Unique(s);
            && NoDuplicates(r)
            && (forall i :: 0 <= i < |r| ==> r[i] in s)
            && (forall i :: 0 <= i < |s| ==> s[i] in r)
            && |r| <= |s|
  {
    if s != [] {
      var p := s[..|s| - 1];
      var last := s[|s| - 1];
      var rp := Unique(p);
      UniqueSpec(p);
      assert s == p + [last];
      assert forall x :: x in p ==> x in s;
      if last !in rp {
        var r := rp + [last];
        assert forall i :: 0 <= i < |rp| ==> r[i] == rp[i];
        assert forall i, j :: 0 <= i < j < |r| ==> r[i] != r[j];
      }
    }
  }

  /** `FirstIndex` is the one index holding `x` with no `x` before it. */
  lemma FirstIndexIs<T>(s: seq<T>, x: T, i: nat)
    requires i < |s| && s[i] == x && x !in s[..i]
    ensures FirstIndex(s, x) == i
  {
    var k := FirstIndex(s, x);
    forall j | 0 <= j < i ensures s[j] != x { assert s[..i][j] == s[j]; }
    forall j | 0 <= j < k ensures s[j] != x { assert s[..k][j] == s[j]; }
  }

  lemma FirstIndexOfPrefix<T>(s: seq<T>, x: T)
    requires |s| > 0 && x in s[..|s| - 1]
    ensures FirstIndex(s, x) == FirstIndex(s[..|s| - 1], x)
  {
    var p := s[..|s| - 1];
    var k := FirstIndex(p, x);
    assert s[..k] == p[..k];
    FirstIndexIs(s, x, k);
  }

  /** Each element of `r` first occurs in `s` after the previous one does. */
  ghost predicate InFirstOccurrenceOrder<T>(r: seq<T>, s: seq<T>)
  {
    && (forall i :: 0 <= i < |r| ==> r[i] in s)
    && (forall i, j :: 0 <= i < j < |r| ==> FirstIndex(s, r[i]) < FirstIndex(s, r[j]))
  }

  lemma OrderExtends<T>(s: seq<T>, rp: seq<T>)
    requires |s| > 0 && InFirstOccurrenceOrder(rp, s[..|s| - 1])
    ensures InFirstOccurrenceOrder(rp, s)
    ensures s[|s| - 1] !in s[..|s| - 1] ==> InFirstOccurrenceOrder(rp + [s[|s| - 1]], s)
  {
    var p := s[..|s| - 1];
    forall i | 0 <= i < |rp| ensures rp[i] in s && FirstIndex(s, rp[i]) == FirstIndex(p, rp[i]) < |p| {
      FirstIndexOfPrefix(s, rp[i]);
    }
    forall i, j | 0 <= i < j < |rp| ensures FirstIndex(s, rp[i]) < FirstIndex(s, rp[j]) {
      assert FirstIndex(p, rp[i]) < FirstIndex(p, rp[j]);
    }
    var last := s[|s| - 1];
    if last !in p {
      FirstIndexIs(s, last, |s| - 1);
      var r := rp + [last];
      forall i | 0 <= i < |r| ensures r[i] in s {
        if i < |rp| { assert r[i] == rp[i]; }
      }
      forall i, j | 0 <= i < j < |r| ensures FirstIndex(s, r[i]) < FirstIndex(s, r[j]) {
        assert r[i] == rp[i];
        if j < |rp| { assert r[j] == rp[j]; }
      }
    }
  }

  /**
   The result of `unique` lists its elements in the order of their first
   occurrence in the input.
   */
  lemma {:induction false} UniqueKeepsFirstOccurrenceOrder<T>(s: seq<T>)
    ensures InFirstOccurrenceOrder(Unique(s), s)
  {
    if s != [] {
      var p := s[..|s| - 1];
      UniqueKeepsFirstOccurrenceOrder(p);
      UniqueSpec(p);
      OrderExtends(s, Unique(p));
    }
  }

  /** A sequence without duplicates is its own deduplication. */
  lemma {:induction false} UniqueOfDistinct<T>(s: seq<T>)
    requires NoDuplicates(s)
    ensures Unique(s) == s
  {
    if s != [] {
      var p := s[..|s| - 1];
      assert NoDuplicates(p);
      UniqueOfDistinct(p);
      assert s[|s| - 1] !in p;
      assert p + [s[|s| - 1]] == s;
    }
  }

  /** Deduplicating twice is deduplicating once. */
  lemma UniqueIdempotent<T>(s: seq<T>)
    ensures Unique(Unique(s)) == Unique(s)
  {
    UniqueSpec(s);
    UniqueOfDistinct(Unique(s));
  }

  /** `sum(xs)`. */
  function Sum(xs: seq<nat>): nat
  {
    if xs == [] then 0 else Sum(xs[..|xs| - 1]) + xs[|xs| - 1]
  }
}
