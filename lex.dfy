/**
 * Python's ordering of strings (lexicographic by code point) and `sorted`
 * applied to a set of strings.
 */
module Lex {
  import opened Text

  /** Python's `a < b` on `str`. */
  predicate Less(a: string, b: string)
    decreases |a|
  {
    b != [] && (a == [] || a[0] < b[0] || (a[0] == b[0] && Less(a[1..], b[1..])))
  }

  lemma {:induction false} LessIrreflexive(a: string)
    ensures !Less(a, a)
    decreases |a|
  {
    if a != [] {
      LessIrreflexive(a[1..]);
    }
  }

  lemma {:induction false} LessTransitive(a: string, b: string, c: string)
    requires Less(a, b) && Less(b, c)
    ensures Less(a, c)
    decreases |a|
  {
    if a != [] && a[0] == b[0] && b[0] == c[0] {
      LessTransitive(a[1..], b[1..], c[1..]);
    }
  }

  lemma {:induction false} LessTotal(a: string, b: string)
    ensures a == b || Less(a, b) || Less(b, a)
    decreases |a|
  {
    if a != [] && b != [] && a[0] == b[0] {
      LessTotal(a[1..], b[1..]);
      if a[1..] == b[1..] {
        assert a == [a[0]] + a[1..] && b == [b[0]] + b[1..];
      }
    }
  }

  /** Each element is below its successor. */
  predicate Sorted(s: seq<string>) {
    forall i :: 0 < i < |s| ==> Less(s[i - 1], s[i])
  }

  /** Each element is below every later one; in particular no duplicates. */
  predicate StrictlySorted(s: seq<string>) {
    forall i, j :: 0 <= i < j < |s| ==> Less(s[i], s[j])
  }

  lemma {:induction false} SortedIsStrict(s: seq<string>)
    requires Sorted(s)
    ensures StrictlySorted(s) && Distinct(s)
  {
    if |s| > 1 {
      var t := s[..|s| - 1];
      assert Sorted(t);
      SortedIsStrict(t);
      forall i | 0 <= i < |s| - 1
        ensures Less(s[i], s[|s| - 1])
      {
        if i < |s| - 2 {
          assert Less(t[i], t[|t| - 1]);
          LessTransitive(s[i], s[|s| - 2], s[|s| - 1]);
        }
      }
    }
    forall i, j | 0 <= i < j < |s|
      ensures s[i] != s[j]
    {
      LessIrreflexive(s[i]);
    }
  }

  /** Inserts `x`, which is not yet present, at its place in a sorted `r`. */
  method InsertSorted(r: seq<string>, x: string) returns (r': seq<string>)
    requires Sorted(r) && x !in r
    ensures Sorted(r')
    ensures |r'| == |r| + 1
    ensures forall y :: y in r' <==> y in r || y == x
  {
    var i := 0;
    while i < |r| && Less(r[i], x)
      invariant 0 <= i <= |r|
      invariant forall k :: 0 <= k < i ==> Less(r[k], x)
    {
      i := i + 1;
    }
    if i < |r| {
      LessTotal(r[i], x);
    }
    r' := r[..i] + [x] + r[i..];
    assert forall k :: 0 <= k < |r'| ==> r'[k] == if k < i then r[k] else if k == i then x else r[k - 1];
    assert forall y :: y in r' <==> y in r[..i] || y == x || y in r[i..];
    assert r == r[..i] + r[i..];
  }

  /** `sorted(xs)` for a set of strings: ascending, each element once. */
  method SortedFromSet(xs: set<string>) returns (r: seq<string>)
    ensures StrictlySorted(r) && Distinct(r)
    ensures |r| == |xs|
    ensures forall y :: y in r <==> y in xs
  {
    r := [];
    var rest := xs;
    while rest != {}
      invariant rest <= xs
      invariant Sorted(r)
      invariant forall y :: y in r <==> y in xs - rest
      invariant |r| == |xs - rest|
      decreases |rest|
    {
      var x :| x in rest;
      assert xs - (rest - {x}) == (xs - rest) + {x};
      r := InsertSorted(r, x);
      rest := rest - {x};
    }
    assert xs - rest == xs;
    SortedIsStrict(r);
  }
}
