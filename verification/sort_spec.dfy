/**
  Shared vocabulary for the three in-place integer sorts.

  An `int` array is modelled by the sequence of its contents: each sorting
  routine takes the contents before the call and returns the contents after
  it. `SortedRange` and `PermutesRange` describe a slice `[lo, hi)` of such a
  sequence; `Swap` is the element exchange every sort is built from.
*/
module SortSpec {

  /** The slice s[lo..hi) is non-decreasing. */
  predicate SortedRange(s: seq<int>, lo: int, hi: int)
    requires 0 <= lo <= hi <= |s|
  {
    forall i, j :: lo <= i < j < hi ==> s[i] <= s[j]
  }

  predicate Sorted(s: seq<int>) {
    SortedRange(s, 0, |s|)
  }

  /** b is a with only the slice [lo, hi) rearranged. */
  predicate PermutesRange(a: seq<int>, b: seq<int>, lo: int, hi: int)
    requires 0 <= lo <= hi <= |a|
  {
    && |b| == |a|
    && b[..lo] == a[..lo]
    && b[hi..] == a[hi..]
    && multiset(b[lo..hi]) == multiset(a[lo..hi])
  }

  /** Exchange of the elements at positions i and j. */
  function Swap(s: seq<int>, i: int, j: int): (r: seq<int>)
    requires 0 <= i < |s| && 0 <= j < |s|
    ensures |r| == |s|
    ensures r[i] == s[j] && r[j] == s[i]
    ensures forall k :: 0 <= k < |s| && k != i && k != j ==> r[k] == s[k]
    ensures multiset(r) == multiset(s)
  {
    s[i := s[j]][j := s[i]]
  }

  /** Swapping is an involution: swapping the same pair twice restores s. */
  lemma SwapTwice(s: seq<int>, i: int, j: int)
    requires 0 <= i < |s| && 0 <= j < |s|
    ensures Swap(Swap(s, i, j), i, j) == s
  {
  }

  lemma PermutesRangeRefl(a: seq<int>, lo: int, hi: int)
    requires 0 <= lo <= hi <= |a|
    ensures PermutesRange(a, a, lo, hi)
  {
  }

  /** A sequence that agrees with a outside [lo, hi) and has the same multiset
      of elements as a rearranges only [lo, hi). */
  lemma SameMultisetPermutesRange(a: seq<int>, b: seq<int>, lo: int, hi: int)
    requires 0 <= lo <= hi <= |a| == |b|
    requires b[..lo] == a[..lo] && b[hi..] == a[hi..]
    requires multiset(b) == multiset(a)
    ensures PermutesRange(a, b, lo, hi)
  {
    assert a == a[..lo] + a[lo..hi] + a[hi..];
    assert b == b[..lo] + b[lo..hi] + b[hi..];
    assert multiset(a) == multiset(a[..lo]) + multiset(a[lo..hi]) + multiset(a[hi..]);
    assert multiset(b) == multiset(b[..lo]) + multiset(b[lo..hi]) + multiset(b[hi..]);
    calc {
      multiset(b[lo..hi]);
      multiset(b) - multiset(b[..lo]) - multiset(b[hi..]);
      multiset(a) - multiset(a[..lo]) - multiset(a[hi..]);
      multiset(a[lo..hi]);
    }
  }

  lemma PermutesRangeTrans(a: seq<int>, b: seq<int>, c: seq<int>, lo: int, hi: int)
    requires 0 <= lo <= hi <= |a|
    requires PermutesRange(a, b, lo, hi) && PermutesRange(b, c, lo, hi)
    ensures PermutesRange(a, c, lo, hi)
  {
  }

  /** Rearranging a slice also rearranges every wider slice. */
  lemma PermutesRangeWiden(a: seq<int>, b: seq<int>, lo: int, hi: int, lo': int, hi': int)
    requires 0 <= lo' <= lo <= hi <= hi' <= |a|
    requires PermutesRange(a, b, lo, hi)
    ensures PermutesRange(a, b, lo', hi')
  {
    assert a[lo'..hi'] == a[lo'..lo] + a[lo..hi] + a[hi..hi'];
    assert b[lo'..hi'] == b[lo'..lo] + b[lo..hi] + b[hi..hi'];
    assert a[lo'..lo] == a[..lo][lo'..];
    assert b[lo'..lo] == b[..lo][lo'..];
    assert a[hi..hi'] == a[hi..][..hi' - hi];
    assert b[hi..hi'] == b[hi..][..hi' - hi];
    assert b[..lo'] == b[..lo][..lo'];
    assert a[..lo'] == a[..lo][..lo'];
    assert b[hi'..] == b[hi..][hi' - hi..];
    assert a[hi'..] == a[hi..][hi' - hi..];
  }

  /** Positions outside the rearranged slice keep their elements. */
  lemma PermutesRangeOutside(a: seq<int>, b: seq<int>, lo: int, hi: int)
    requires 0 <= lo <= hi <= |a|
    requires PermutesRange(a, b, lo, hi)
    ensures forall k :: 0 <= k < lo ==> b[k] == a[k]
    ensures forall k :: hi <= k < |a| ==> b[k] == a[k]
  {
    forall k | 0 <= k < lo
      ensures b[k] == a[k]
    {
      assert b[k] == b[..lo][k];
    }
    forall k | hi <= k < |a|
      ensures b[k] == a[k]
    {
      assert b[k] == b[hi..][k - hi];
    }
  }

  /** Every element of the rearranged slice was an element of the original slice. */
  lemma PermutedElement(a: seq<int>, b: seq<int>, lo: int, hi: int, k: int) returns (k': int)
    requires 0 <= lo <= hi <= |a|
    requires PermutesRange(a, b, lo, hi)
    requires lo <= k < hi
    ensures lo <= k' < hi && b[k] == a[k']
  {
    assert b[k] == b[lo..hi][k - lo];
    assert b[k] in multiset(b[lo..hi]);
    assert b[k] in multiset(a[lo..hi]);
    var t :| 0 <= t < hi - lo && a[lo..hi][t] == b[k];
    k' := lo + t;
  }

  /** An upper bound on a slice survives its rearrangement. */
  lemma PermPreservesUpperBound(a: seq<int>, b: seq<int>, lo: int, hi: int, v: int)
    requires 0 <= lo <= hi <= |a|
    requires PermutesRange(a, b, lo, hi)
    requires forall k :: lo <= k < hi ==> a[k] <= v
    ensures forall k :: lo <= k < hi ==> b[k] <= v
  {
    forall k | lo <= k < hi
      ensures b[k] <= v
    {
      var k' := PermutedElement(a, b, lo, hi, k);
    }
  }

  /** A lower bound on a slice survives its rearrangement. */
  lemma PermPreservesLowerBound(a: seq<int>, b: seq<int>, lo: int, hi: int, v: int)
    requires 0 <= lo <= hi <= |a|
    requires PermutesRange(a, b, lo, hi)
    requires forall k :: lo <= k < hi ==> v <= a[k]
    ensures forall k :: lo <= k < hi ==> v <= b[k]
  {
    forall k | lo <= k < hi
      ensures v <= b[k]
    {
      var k' := PermutedElement(a, b, lo, hi, k);
    }
  }

  /** The multiset of a non-empty sequence is its head plus its tail's. */
  lemma MultisetHeadTail(x: seq<int>)
    requires |x| > 0
    ensures multiset(x) == multiset{x[0]} + multiset(x[1..])
  {
    assert x == [x[0]] + x[1..];
  }

  /** A multiset has exactly one sorted arrangement. */
  lemma {:induction false} SortedUnique(x: seq<int>, y: seq<int>)
    requires Sorted(x) && Sorted(y)
    requires multiset(x) == multiset(y)
    ensures x == y
    decreases |x|
  {
    assert |x| == |multiset(x)| == |multiset(y)| == |y|;
    if |x| > 0 {
      SortedHeads(x, y);
      SortedTail(x);
      SortedTail(y);
      assert multiset(x[1..]) == multiset(y[1..]) by {
        assert x == [x[0]] + x[1..];
        assert y == [y[0]] + y[1..];
        assert multiset(x[1..]) == multiset(x) - multiset{x[0]};
        assert multiset(y[1..]) == multiset(y) - multiset{y[0]};
      }
      SortedUnique(x[1..], y[1..]);
      assert x == [x[0]] + x[1..];
      assert y == [y[0]] + y[1..];
    }
  }

  /** Two non-empty sorted arrangements of one multiset start with its minimum. */
  lemma SortedHeads(x: seq<int>, y: seq<int>)
    requires Sorted(x) && Sorted(y) && |x| == |y| > 0
    requires multiset(x) == multiset(y)
    ensures x[0] == y[0]
  {
    assert x[0] in multiset(y);
    var i :| 0 <= i < |y| && y[i] == x[0];
    assert y[0] in multiset(x);
    var j :| 0 <= j < |x| && x[j] == y[0];
    assert y[0] <= y[i] && x[0] <= x[j];
  }

  lemma SortedTail(x: seq<int>)
    requires Sorted(x) && |x| > 0
    ensures Sorted(x[1..])
  {
    forall i, j | 0 <= i < j < |x| - 1
      ensures x[1..][i] <= x[1..][j]
    {
      assert x[1..][i] == x[i + 1] && x[1..][j] == x[j + 1];
    }
  }

  /** Rearranging a sorted slice into a sorted slice changes nothing: this is
      why every sort here leaves already-sorted input untouched. */
  lemma SortedPermutationIsIdentity(a: seq<int>, b: seq<int>, lo: int, hi: int)
    requires 0 <= lo <= hi <= |a|
    requires PermutesRange(a, b, lo, hi)
    requires SortedRange(a, lo, hi) && SortedRange(b, lo, hi)
    ensures b == a
  {
    SortedUnique(a[lo..hi], b[lo..hi]);
    assert a == a[..lo] + a[lo..hi] + a[hi..];
    assert b == b[..lo] + b[lo..hi] + b[hi..];
  }

  /** Two sorts that both return a sorted rearrangement of the same slice agree. */
  lemma SortsAgree(a: seq<int>, b: seq<int>, c: seq<int>, lo: int, hi: int)
    requires 0 <= lo <= hi <= |a|
    requires PermutesRange(a, b, lo, hi) && PermutesRange(a, c, lo, hi)
    requires SortedRange(b, lo, hi) && SortedRange(c, lo, hi)
    ensures b == c
  {
    SortedUnique(b[lo..hi], c[lo..hi]);
    assert b == b[..lo] + b[lo..hi] + b[hi..];
    assert c == c[..lo] + c[lo..hi] + c[hi..];
  }
}
