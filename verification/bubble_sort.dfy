/**
  Optimised bubble sort over the first n elements of an int array
  (bubbleSort in ParallelSorting.cpp).

  Pass i walks adjacent pairs (j, j + 1) for j < n - i - 1 and swaps every
  pair that is out of order; the largest element of the unsorted prefix
  therefore ends at position n - i - 1, and the inner bound shrinks by one
  per pass. A pass that swaps nothing proves the prefix is sorted, and the
  sort stops.
*/
module Bubble {
  import opened SortSpec

  /** Every element of s[lo..mid) is at most every element of s[mid..hi). */
  predicate Dominated(s: seq<int>, lo: int, mid: int, hi: int)
    requires 0 <= lo <= mid <= hi <= |s|
  {
    forall x, y :: lo <= x < mid <= y < hi ==> s[x] <= s[y]
  }

  lemma SortedConcat(s: seq<int>, lo: int, mid: int, hi: int)
    requires 0 <= lo <= mid <= hi <= |s|
    requires SortedRange(s, lo, mid) && SortedRange(s, mid, hi)
    requires Dominated(s, lo, mid, hi)
    ensures SortedRange(s, lo, hi)
  {
  }

  lemma SortedStep(s: seq<int>, j: int)
    requires 0 <= j < j + 1 < |s|
    requires SortedRange(s, 0, j + 1) && s[j] <= s[j + 1]
    ensures SortedRange(s, 0, j + 2)
  {
  }

  /** The state of a pass after comparing the pairs (k, k + 1) for k < j:
      the maximum of r[0..j] sits at j, and `swapped` records whether the
      window of s seen so far was out of order. */
  ghost predicate PassState(s: seq<int>, r: seq<int>, m: int, j: int, swapped: bool)
  {
    && 0 <= j <= m < |s|
    && |r| == |s| && multiset(r) == multiset(s)
    && (forall k :: m < k < |s| ==> r[k] == s[k])
    && (forall k :: 0 <= k <= j ==> r[k] <= r[j])
    && (!swapped ==> r == s && SortedRange(s, 0, j + 1))
    && (swapped ==> !SortedRange(s, 0, m + 1))
  }

  /** if (arr[j] > arr[j + 1]) { swap(arr[j], arr[j + 1]); swapped = true; } */
  lemma PassSwap(s: seq<int>, r: seq<int>, m: int, j: int, swapped: bool)
    requires PassState(s, r, m, j, swapped) && j < m
    requires r[j] > r[j + 1]
    ensures PassState(s, Swap(r, j, j + 1), m, j + 1, true)
  {
  }

  /** An in-order pair leaves r alone and extends the sorted window. */
  lemma PassSkip(s: seq<int>, r: seq<int>, m: int, j: int, swapped: bool)
    requires PassState(s, r, m, j, swapped) && j < m
    requires r[j] <= r[j + 1]
    ensures PassState(s, r, m, j + 1, swapped)
  {
    if !swapped {
      SortedStep(s, j);
    }
  }

  /** One inner pass over s[0..m]: the adjacent pairs (j, j + 1) with j < m.
      The maximum of the window bubbles to position m, and the pass swaps
      something exactly when the window was not already sorted. */
  method BubblePass(s: seq<int>, m: int) returns (r: seq<int>, swapped: bool)
    requires 0 <= m < |s|
    ensures PermutesRange(s, r, 0, m + 1)
    ensures forall k :: 0 <= k <= m ==> r[k] <= r[m]
    ensures !swapped <==> SortedRange(s, 0, m + 1)
    ensures !swapped ==> r == s
  {
    r := s;
    swapped := false;
    var j := 0;
    while j < m
      invariant PassState(s, r, m, j, swapped)
    {
      if r[j] > r[j + 1] {
        PassSwap(s, r, m, j, swapped);
        r := Swap(r, j, j + 1);
        swapped := true;
      } else {
        PassSkip(s, r, m, j, swapped);
      }
      j := j + 1;
    }
    PassDone(s, r, m, swapped);
  }

  lemma PassDone(s: seq<int>, r: seq<int>, m: int, swapped: bool)
    requires PassState(s, r, m, m, swapped)
    ensures PermutesRange(s, r, 0, m + 1)
    ensures forall k :: 0 <= k <= m ==> r[k] <= r[m]
    ensures !swapped <==> SortedRange(s, 0, m + 1)
    ensures !swapped ==> r == s
  {
    assert r[m + 1..] == s[m + 1..];
    SameMultisetPermutesRange(s, r, 0, m + 1);
  }

  /** The whole sort; passes counts the outer iterations that ran. */
  method BubbleSort(a: seq<int>, n: int) returns (r: seq<int>, passes: nat)
    requires n <= |a|
    ensures |r| == |a|
    ensures n <= 1 ==> r == a && passes == 0
    ensures 0 <= n ==> PermutesRange(a, r, 0, n) && SortedRange(r, 0, n)
    ensures 1 <= n ==> passes <= n - 1
    ensures 2 <= n && SortedRange(a, 0, n) ==> r == a && passes == 1
  {
    r := a;
    passes := 0;
    if 0 <= n {
      PermutesRangeRefl(a, 0, n);
    }
    var i := 0;
    while i < n - 1
      invariant 0 <= i && (i == 0 || i <= n - 1)
      invariant passes == i
      invariant |r| == |a|
      invariant n < 0 ==> r == a
      invariant 0 <= n ==> PermutesRange(a, r, 0, n)
      invariant 0 <= n ==> i <= n
      invariant 0 <= n ==> SortedRange(r, n - i, n) && Dominated(r, 0, n - i, n)
      invariant 0 <= n && SortedRange(a, 0, n) ==> i == 0 && r == a
    {
      var m := n - i - 1;
      passes := passes + 1;
      ghost var before := r;
      var swapped;
      r, swapped := BubblePass(r, m);
      PassKeeps(a, before, r, n, m, swapped);
      if !swapped {
        break;
      }
      i := i + 1;
    }
  }

  /** What one outer iteration adds: the pass over [0, m] keeps the slice a
      rearrangement of the input and grows the sorted suffix by one; a pass
      that swapped nothing leaves the whole slice sorted. */
  lemma PassKeeps(a: seq<int>, before: seq<int>, r: seq<int>, n: int, m: int, swapped: bool)
    requires 0 <= m < n <= |a| == |before|
    requires PermutesRange(a, before, 0, n)
    requires SortedRange(before, m + 1, n) && Dominated(before, 0, m + 1, n)
    requires PermutesRange(before, r, 0, m + 1)
    requires forall k :: 0 <= k <= m ==> r[k] <= r[m]
    requires !swapped <==> SortedRange(before, 0, m + 1)
    requires !swapped ==> r == before
    ensures |r| == |a| && PermutesRange(a, r, 0, n)
    ensures SortedRange(r, m, n) && Dominated(r, 0, m, n)
    ensures !swapped ==> SortedRange(r, 0, n)
  {
    PermutesRangeWiden(before, r, 0, m + 1, 0, n);
    PermutesRangeTrans(a, before, r, 0, n);
    PermPreservesSuffix(before, r, m, n);
    if !swapped {
      SortedConcat(r, 0, m + 1, n);
    }
  }

  /** After a pass over [0, m], the new suffix [m, n) is sorted and dominates
      the rest, given that the old suffix [m + 1, n) did. */
  lemma PermPreservesSuffix(before: seq<int>, r: seq<int>, m: int, n: int)
    requires 0 <= m < n <= |before|
    requires PermutesRange(before, r, 0, m + 1)
    requires forall k :: 0 <= k <= m ==> r[k] <= r[m]
    requires SortedRange(before, m + 1, n) && Dominated(before, 0, m + 1, n)
    ensures SortedRange(r, m, n) && Dominated(r, 0, m, n)
  {
    assert r[m + 1..] == before[m + 1..];
    forall y | m + 1 <= y < n
      ensures forall k :: 0 <= k < m + 1 ==> r[k] <= r[y]
    {
      assert r[y] == r[m + 1..][y - m - 1] == before[y];
      PermPreservesUpperBound(before, r, 0, m + 1, before[y]);
    }
    forall y | m + 1 <= y < n
      ensures r[y] == before[y]
    {
      assert r[y] == r[m + 1..][y - m - 1];
    }
  }
}
