/**
 * `sorted(set(xs))` over integers: the distinct values of a list in ascending order, and
 * the consecutive (start, end) ranges such a list of offsets cuts a file into.
 */
module Sorted {
  import opened Symbols

  ghost predicate Increasing(s: seq<int>)
  {
    forall i, j :: 0 <= i < j < |s| ==> s[i] < s[j]
  }

  /** Puts x into its place in an ascending list, unless it is there already. */
  function Insert(s: seq<int>, x: int): (r: seq<int>)
    requires Increasing(s)
    ensures Increasing(r)
    ensures forall y :: y in r <==> y in s || y == x
  {
    if s == [] then [x]
    else if x < s[0] then [x] + s
    else if x == s[0] then s
    else
      var rest := Insert(s[1..], x);
      var r := [s[0]] + rest;
      assert Increasing(r) by {
        assert forall y :: y in s[1..] ==> s[0] < y;
        forall i, j | 0 <= i < j < |r|
          ensures r[i] < r[j]
        {
          assert r[j] == rest[j - 1] && rest[j - 1] in rest;
          assert i > 0 ==> r[i] == rest[i - 1];
        }
      }
      r
  }

  /** sorted(set(s)) */
  function SortedSet(s: seq<int>): (r: seq<int>)
    ensures Increasing(r)
    ensures forall y :: y in r <==> y in s
  {
    if s == [] then [] else Insert(SortedSet(s[..|s| - 1]), s[|s| - 1])
  }

  /** An ascending list that holds lo and hi and nothing outside [lo, hi] starts at lo and ends at hi. */
  lemma Ends(s: seq<int>, lo: int, hi: int)
    requires Increasing(s) && lo in s && hi in s
    requires forall y :: y in s ==> lo <= y <= hi
    ensures s[0] == lo && s[|s| - 1] == hi
  {
    assert s[0] in s && s[|s| - 1] in s;
  }

  /** sum(end - start for start, end in spans) */
  function Covered(spans: seq<(int, int)>): int
  {
    if spans == [] then 0 else Covered(spans[..|spans| - 1]) + (spans[|spans| - 1].1 - spans[|spans| - 1].0)
  }

  /** The ranges between consecutive boundaries add up to the distance from the first to the last. */
  lemma {:induction false} CoveredTelescopes(b: seq<int>)
    requires |b| >= 1
    ensures Covered(Adjacent(b)) == b[|b| - 1] - b[0]
  {
    if |b| > 1 {
      var n := |b| - 1;
      assert Adjacent(b)[..|Adjacent(b)| - 1] == Adjacent(b[..n]);
      CoveredTelescopes(b[..n]);
    }
  }

  /** Every offset from the first boundary up to the last lies between two consecutive boundaries. */
  lemma {:induction false} Bracket(b: seq<int>, p: int) returns (i: nat)
    requires |b| >= 1 && b[0] <= p < b[|b| - 1]
    ensures i < |b| - 1 && b[i] <= p < b[i + 1]
  {
    var n := |b| - 1;
    if p < b[n - 1] {
      i := Bracket(b[..n], p);
    } else {
      i := n - 1;
    }
  }

  /** With ascending boundaries, each range ends no later than every later range starts. */
  lemma SpansOrdered(b: seq<int>)
    requires Increasing(b)
    ensures forall i, j :: 0 <= i < j < |Adjacent(b)| ==> Adjacent(b)[i].1 <= Adjacent(b)[j].0
  {
    forall i, j | 0 <= i < j < |Adjacent(b)|
      ensures Adjacent(b)[i].1 <= Adjacent(b)[j].0
    {
      assert i + 1 == j || b[i + 1] < b[j];
    }
  }

  /**
   * With ascending boundaries, every offset between the first and the last lies in
   * exactly one range [start, end).
   */
  lemma SpansPartition(b: seq<int>, p: int)
    requires Increasing(b) && |b| >= 1 && b[0] <= p < b[|b| - 1]
    ensures exists i :: 0 <= i < |Adjacent(b)| && Adjacent(b)[i].0 <= p < Adjacent(b)[i].1
    ensures forall i, j ::
              0 <= i < |Adjacent(b)| && 0 <= j < |Adjacent(b)| &&
              Adjacent(b)[i].0 <= p < Adjacent(b)[i].1 && Adjacent(b)[j].0 <= p < Adjacent(b)[j].1
              ==> i == j
  {
    var k := Bracket(b, p);
    assert Adjacent(b)[k].0 <= p < Adjacent(b)[k].1;
    SpansOrdered(b);
  }
}
