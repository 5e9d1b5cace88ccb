/** The slicing rotations of generate_schedule: s[k:] + s[:k] with Python's
    slice semantics, where a slice bound past the end is clamped. */
module Rotation {
  import opened Seqs

  /** s[k:] for k >= 0 */
  function Drop<T>(s: seq<T>, k: nat): seq<T> {
    if k <= |s| then s[k..] else []
  }

  /** s[:k] for k >= 0 */
  function Take<T>(s: seq<T>, k: nat): seq<T> {
    if k <= |s| then s[..k] else s
  }

  /** s[k:] + s[:k]: a left rotation by k while k < |s|, and s unchanged once
      k reaches |s| (the block rotation is not taken modulo the length).
      Written position by position; RotateLeftIsSlices shows it is the
      concatenation of the two slices. */
  function RotateLeft<T>(s: seq<T>, k: nat): (r: seq<T>)
    ensures |r| == |s|
    ensures k >= |s| ==> r == s
  {
    if k >= |s| then s
    else seq(|s|, i requires 0 <= i < |s| => if i < |s| - k then s[i + k] else s[i + k - |s|])
  }

  /** The rotation is exactly the slice expression s[k:] + s[:k]. */
  lemma RotateLeftIsSlices<T>(s: seq<T>, k: nat)
    ensures RotateLeft(s, k) == Drop(s, k) + Take(s, k)
  {
    if k < |s| {
      var r, a, b := RotateLeft(s, k), s[k..], s[..k];
      forall i | 0 <= i < |s| ensures r[i] == (a + b)[i] {
        RotateLeftSlot(s, k, i);
      }
      assert r == a + b;
    }
  }

  lemma RotateLeftSlot<T>(s: seq<T>, k: nat, i: int)
    requires k < |s| && 0 <= i < |s|
    ensures RotateLeft(s, k)[i] == (s[k..] + s[..k])[i]
  {
    var a, b := s[k..], s[..k];
    assert |a| == |s| - k;
    if i < |a| {
      assert RotateLeft(s, k)[i] == s[i + k] == a[i];
    } else {
      assert RotateLeft(s, k)[i] == s[i - |a|] == b[i - |a|];
    }
  }

  /** Position i of the rotation holds the element k places further on,
      wrapping around at the end. */
  lemma RotateLeftAt<T>(s: seq<T>, k: nat)
    requires k < |s|
    ensures forall i :: 0 <= i < |s| ==> RotateLeft(s, k)[i] == s[(i + k) % |s|]
  {
    forall i | 0 <= i < |s| ensures RotateLeft(s, k)[i] == s[(i + k) % |s|] {
      RotateLeftIndex(s, k, i);
    }
  }

  lemma RotateLeftIndex<T>(s: seq<T>, k: nat, i: int)
    requires k < |s| && 0 <= i < |s|
    ensures RotateLeft(s, k)[i] == s[(i + k) % |s|]
  {
    var p := if i + k < |s| then i + k else i + k - |s|;
    assert (i + k) % |s| == p by {
      DivModUnique(i + k, |s|, if i + k < |s| then 0 else 1, p);
    }
    assert RotateLeft(s, k)[i] == s[p];
  }

  /** A rotation is a rearrangement: every element keeps its multiplicity, so
      the rotation holds exactly the elements of s. */
  lemma RotateLeftPermutes<T(!new)>(s: seq<T>, k: nat)
    ensures multiset(RotateLeft(s, k)) == multiset(s)
    ensures forall x :: x in RotateLeft(s, k) <==> x in s
  {
    var a, b := Drop(s, k), Take(s, k);
    RotateLeftIsSlices(s, k);
    assert s == b + a;
    calc {
      multiset(RotateLeft(s, k));
      multiset(a + b);
      multiset(a) + multiset(b);
      multiset(b + a);
    }
    SameMultisetSameMembers(RotateLeft(s, k), s);
  }

  /** Two sequences with the same multiset have the same elements. */
  lemma SameMultisetSameMembers<T(!new)>(r: seq<T>, s: seq<T>)
    requires multiset(r) == multiset(s)
    ensures forall x :: x in r <==> x in s
  {
    forall x ensures x in r <==> x in s {
      assert x in r <==> x in multiset(r);
      assert x in s <==> x in multiset(s);
    }
  }

  /** Euclidean division is determined by its quotient/remainder equation. */
  lemma DivModUnique(x: int, n: int, q: int, r: int)
    requires n > 0 && 0 <= r < n && x == q * n + r
    ensures x % n == r
  {
    var q', r' := x / n, x % n;
    assert x == q' * n + r';
    assert (q - q') * n == r' - r;
    MulBound(q - q', n);
  }

  lemma MulBound(m: int, n: int)
    requires n > 0
    ensures m >= 1 ==> m * n >= n
    ensures m <= -1 ==> m * n <= -n
  {
  }

  /** Rotating a list without repeats gives a list without repeats. */
  lemma RotateLeftDistinct(s: seq<int>, k: nat)
    requires Distinct(s)
    ensures Distinct(RotateLeft(s, k))
  {
    var r := RotateLeft(s, k);
    if k < |s| {
      forall i, j | 0 <= i < j < |r| ensures r[i] != r[j] {
        var n := |s|;
        var pi := if i < n - k then i + k else i + k - n;
        var pj := if j < n - k then j + k else j + k - n;
        assert r[i] == s[pi] && r[j] == s[pj];
      }
    }
  }
}
