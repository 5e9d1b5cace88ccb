/** Small vocabulary over integer sequences shared by the other modules. */
module Seqs {

  /** No element occurs twice (dates of a week, block ids). */
  predicate Distinct(s: seq<int>) {
    forall i, j :: 0 <= i < j < |s| ==> s[i] != s[j]
  }

  /** Strictly increasing, as a list of dates produced in calendar order is. */
  predicate Increasing(s: seq<int>) {
    forall i, j :: 0 <= i < j < |s| ==> s[i] < s[j]
  }

  lemma IncreasingCons(x: int, rest: seq<int>)
    requires Increasing(rest)
    requires forall d :: d in rest ==> x < d
    ensures Increasing([x] + rest)
  {
    forall i, j | 0 <= i < j < |[x] + rest| ensures ([x] + rest)[i] < ([x] + rest)[j] {
      assert ([x] + rest)[j] == rest[j - 1];
      assert rest[j - 1] in rest;
      if i > 0 {
        assert ([x] + rest)[i] == rest[i - 1];
      }
    }
  }

  lemma IncreasingTail(s: seq<int>)
    requires Increasing(s) && s != []
    ensures Increasing(s[1..])
    ensures forall d :: d in s[1..] ==> s[0] < d
  {
    forall d | d in s[1..] ensures s[0] < d {
      var j :| 0 <= j < |s[1..]| && s[1..][j] == d;
      assert s[j + 1] == d;
    }
  }

  function Min(a: int, b: int): int {
    if a <= b then a else b
  }

  /** Sum of the elements, taken from the end so that appending is one unfolding. */
  function Sum(s: seq<int>): int {
    if s == [] then 0 else Sum(s[..|s| - 1]) + s[|s| - 1]
  }
}
