/**
 String operations the search engine takes from Python's `str`: lower-casing,
 `replace`, `','.join` and, as the inverse of the join, `split`.
 */
module Text {

  /** Lower-cases one ASCII letter; every other character is kept. */
  function LowerChar(c: char): char
  {
    if 'A' <= c <= 'Z' then (c as int + 32) as char else c
  }

  /** `s.lower()` restricted to ASCII letters. */
  function Lower(s: string): (r: string)
    ensures |r| == |s|
    ensures forall i :: 0 <= i < |s| ==> r[i] == LowerChar(s[i])
  {
    seq(|s|, i requires 0 <= i < |s| => LowerChar(s[i]))
  }

  /** `p` occurs in `s` starting at index `i`. */
  predicate OccursAt(s: string, p: string, i: int)
  {
    0 <= i && i + |p| <= |s| && s[i..i + |p|] == p
  }

  predicate Contains(s: string, p: string)
  {
    exists i | 0 <= i <= |s| :: OccursAt(s, p, i)
  }

  /**
   `s.replace(pat, rep)`: scans left to right and replaces every
   non-overlapping occurrence of `pat` by `rep`.
   */
  function ReplaceAll(s: string, pat: string, rep: string): string
    requires |pat| > 0
    decreases |s|
  {
    if |s| < |pat| then s
    else if s[..|pat|] == pat then rep + ReplaceAll(s[|pat|..], pat, rep)
    else [s[0]] + ReplaceAll(s[1..], pat, rep)
  }

  lemma OccursInSuffix(s: string, p: string, k: nat, j: int)
    requires k <= |s| && OccursAt(s[k..], p, j)
    ensures OccursAt(s, p, j + k)
  {
    assert s[k..][j..j + |p|] == s[j + k..j + k + |p|];
  }

  /** A text lacking the first character of `p` does not contain `p`. */
  lemma FirstCharAbsent(s: string, p: string)
    requires |p| > 0 && p[0] !in s
    ensures !Contains(s, p)
  {
    forall j | 0 <= j && j + |p| <= |s| ensures !OccursAt(s, p, j) {
      assert s[j..j + |p|][0] == s[j];
    }
  }

  /** An occurrence at the very start is replaced, and the scan resumes after it. */
  lemma ReplaceAllAtStart(pat: string, t: string, rep: string)
    requires |pat| > 0
    ensures ReplaceAll(pat + t, pat, rep) == rep + ReplaceAll(t, pat, rep)
  {
    assert (pat + t)[..|pat|] == pat;
    assert (pat + t)[|pat|..] == t;
  }

  /** A text without the pattern comes back unchanged. */
  lemma {:induction false} ReplaceAllWithoutPattern(s: string, pat: string, rep: string)
    requires |pat| > 0 && !Contains(s, pat)
    ensures ReplaceAll(s, pat, rep) == s
    decreases |s|
  {
    if |s| >= |pat| {
      assert !OccursAt(s, pat, 0);
      if Contains(s[1..], pat) {
        var j :| OccursAt(s[1..], pat, j);
        OccursInSuffix(s, pat, 1, j);
      }
      ReplaceAllWithoutPattern(s[1..], pat, rep);
    }
  }

  /**
   The first `n` characters of a replacement's output are either copied
   unchanged from the input, or one of them is the first character of `rep`.
   */
  lemma {:induction false} PrefixCopiedOrReplaced(t: string, pat: string, rep: string, n: nat)
    requires |pat| > 0 && |rep| > 0
    requires n <= |ReplaceAll(t, pat, rep)|
    ensures || (n <= |t| && ReplaceAll(t, pat, rep)[..n] == t[..n])
            || (exists p :: 0 <= p < n && ReplaceAll(t, pat, rep)[p] == rep[0])
    decreases |t|
  {
    var o := ReplaceAll(t, pat, rep);
    if n == 0 || |t| < |pat| {
    } else if t[..|pat|] == pat {
      assert o[0] == rep[0];
    } else {
      var o' := ReplaceAll(t[1..], pat, rep);
      assert o == [t[0]] + o';
      PrefixCopiedOrReplaced(t[1..], pat, rep, n - 1);
      if n - 1 <= |t[1..]| && o'[..n - 1] == t[1..][..n - 1] {
        assert o[..n] == t[..n];
      } else {
        var p :| 0 <= p < n - 1 && o'[p] == rep[0];
        assert o[p + 1] == rep[0];
      }
    }
  }

  /** Text placed before an output free of `q` cannot start an occurrence of `q`. */
  lemma AvoidsAfterReplacement(rep: string, o': string, q: string)
    requires |q| > 0 && q[0] !in rep && !Contains(o', q)
    ensures !Contains(rep + o', q)
  {
    var o := rep + o';
    forall j | 0 <= j && j + |q| <= |o| ensures !OccursAt(o, q, j) {
      if j < |rep| {
        assert o[j..j + |q|][0] == rep[j];
        assert rep[j] != q[0];
      } else {
        assert o[j..j + |q|] == o'[j - |rep|..j - |rep| + |q|];
        assert !OccursAt(o', q, j - |rep|);
      }
    }
  }

  /**
   A character copied in front of the rest `o'` of the output does not start
   an occurrence of `q`, when the input had none at that position and the
   first `|q| - 1` characters of `o'` are either copied from the input or
   hold the first character of `rep`, which `q` lacks.
   */
  lemma AvoidsAfterCopy(s: string, o': string, rep: string, q: string)
    requires |q| > 0 && |s| > 0
    requires !OccursAt(s, q, 0) && !Contains(o', q)
    requires || |q| == 1
             || |o'| < |q| - 1
             || (|q| - 1 <= |s| - 1 && o'[..|q| - 1] == s[1..][..|q| - 1])
             || (|rep| > 0 && rep[0] !in q && exists p :: 0 <= p < |q| - 1 && p < |o'| && o'[p] == rep[0])
    ensures !Contains([s[0]] + o', q)
  {
    var o := [s[0]] + o';
    if |q| <= |o| {
      if |q| == 1 {
        assert o[..1] == s[..1];
      } else if |q| - 1 <= |s| - 1 && o'[..|q| - 1] == s[1..][..|q| - 1] {
        assert o[..|q|] == s[..|q|];
      } else {
        var p :| 0 <= p < |q| - 1 && p < |o'| && o'[p] == rep[0];
        assert o[..|q|][p + 1] == rep[0];
        assert rep[0] != q[p + 1];
      }
    }
    assert !OccursAt(o, q, 0);
    forall j | 1 <= j && j + |q| <= |o| ensures !OccursAt(o, q, j) {
      assert o[j..j + |q|] == o'[j - 1..j - 1 + |q|];
      assert !OccursAt(o', q, j - 1);
    }
  }

  /**
   After `ReplaceAll(s, pat, rep)` the text `q` does not occur, when either
   `q` is the pattern itself or `q` did not occur before, and the
   replacement cannot start or complete an occurrence of `q`: the first
   character of `q` is not in `rep` and, for a `q` longer than one character,
   the first character of `rep` is not in `q`.
   */
  lemma {:induction false} ReplaceAllAvoids(s: string, pat: string, rep: string, q: string)
    requires |pat| > 0 && |q| > 0
    requires q == pat || !Contains(s, q)
    requires q[0] !in rep
    requires |q| == 1 || (|rep| > 0 && rep[0] !in q)
    ensures !Contains(ReplaceAll(s, pat, rep), q)
    decreases |s|
  {
    if |s| < |pat| {
      if q == pat {
        forall j ensures !OccursAt(s, q, j) { }
      }
    } else if s[..|pat|] == pat {
      var rest := s[|pat|..];
      if q != pat && Contains(rest, q) {
        var j :| OccursAt(rest, q, j);
        OccursInSuffix(s, q, |pat|, j);
      }
      ReplaceAllAvoids(rest, pat, rep, q);
      AvoidsAfterReplacement(rep, ReplaceAll(rest, pat, rep), q);
    } else {
      var t := s[1..];
      if q != pat && Contains(t, q) {
        var j :| OccursAt(t, q, j);
        OccursInSuffix(s, q, 1, j);
      }
      ReplaceAllAvoids(t, pat, rep, q);
      assert !OccursAt(s, q, 0);
      var o' := ReplaceAll(t, pat, rep);
      if |q| > 1 && |q| - 1 <= |o'| {
        PrefixCopiedOrReplaced(t, pat, rep, |q| - 1);
      }
      AvoidsAfterCopy(s, o', rep, q);
      assert ReplaceAll(s, pat, rep) == [s[0]] + o';
    }
  }

  /** `sep.join(xs)` for a one-character separator. */
  function Join(xs: seq<string>, sep: char): string
  {
    if |xs| == 0 then ""
    else if |xs| == 1 then xs[0]
    else xs[0] + [sep] + Join(xs[1..], sep)
  }

  /** `s.split(sep)`: the pieces between the separators; never empty. */
  function Split(s: string, sep: char): (r: seq<string>)
    ensures |r| >= 1
  {
    if s == [] then [""]
    else
      var rest := Split(s[1..], sep);
      if s[0] == sep then [""] + rest
      else [[s[0]] + rest[0]] + rest[1..]
  }

  lemma {:induction false} SplitAfterPiece(a: string, sep: char, b: string)
    requires sep !in a
    ensures Split(a + [sep] + b, sep) == [a] + Split(b, sep)
    ensures Split(a, sep) == [a]
    decreases |a|
  {
    if a == [] {
      assert [] + [sep] + b == [sep] + b;
      assert ([sep] + b)[1..] == b;
    } else {
      SplitAfterPiece(a[1..], sep, b);
      assert (a + [sep] + b)[1..] == a[1..] + [sep] + b;
      assert [a[0]] + a[1..] == a;
    }
  }

  /**
   Joining pieces that do not contain the separator can be undone by
   splitting: the join loses nothing.
   */
  lemma {:induction false} SplitJoin(xs: seq<string>, sep: char)
    requires |xs| > 0
    requires forall i :: 0 <= i < |xs| ==> sep !in xs[i]
    ensures Split(Join(xs, sep), sep) == xs
    decreases |xs|
  {
    if |xs| == 1 {
      SplitAfterPiece(xs[0], sep, "");
    } else {
      SplitJoin(xs[1..], sep);
      SplitAfterPiece(xs[0], sep, Join(xs[1..], sep));
      assert [xs[0]] + xs[1..] == xs;
    }
  }
}
