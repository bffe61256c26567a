/**
  Two-pointer merge and bottom-up merge sort
  (merge and mergeSort in ParallelSorting.cpp).

  The source's `sycl::buffer<int, 1>` and its read-write accessor are
  modelled as the sequence of the buffer's contents. `merge` copies the
  runs a[l..m] and a[m+1..r] into temporaries L and R and writes them back
  into a[l..r] in order, taking from L on ties. Besides the new contents,
  the model returns `origin`: for each written position l + t, the index of
  the input element that was written there. Stability is stated on it.
*/
module Merge {
  import opened SortSpec

  /** std::min on ints. */
  function Min(x: int, y: int): (z: int)
    ensures z <= x && z <= y && (z == x || z == y)
  {
    if x <= y then x else y
  }

  /** The two-pointer merge as a recursive function: the merged sequence of
      the runs L and R, taking the head of L when it is <= the head of R. */
  function MergeSeq(L: seq<int>, R: seq<int>): (out: seq<int>)
    decreases |L| + |R|
  {
    if |L| == 0 && |R| == 0 then []
    else if |R| == 0 || (|L| > 0 && L[0] <= R[0]) then [L[0]] + MergeSeq(L[1..], R)
    else [R[0]] + MergeSeq(L, R[1..])
  }

  /** Where each element of MergeSeq(L, R) comes from, when L starts at index
      lo and R at index ro of the array. */
  function MergeFrom(L: seq<int>, R: seq<int>, lo: int, ro: int): (origin: seq<int>)
    decreases |L| + |R|
  {
    if |L| == 0 && |R| == 0 then []
    else if |R| == 0 || (|L| > 0 && L[0] <= R[0]) then [lo] + MergeFrom(L[1..], R, lo + 1, ro)
    else [ro] + MergeFrom(L, R[1..], lo, ro + 1)
  }

  /** The merge keeps every element of both runs, and nothing else. */
  lemma {:induction false} MergeSeqPermutes(L: seq<int>, R: seq<int>)
    ensures |MergeSeq(L, R)| == |L| + |R|
    ensures multiset(MergeSeq(L, R)) == multiset(L) + multiset(R)
    decreases |L| + |R|
  {
    if |L| == 0 && |R| == 0 {
    } else if |R| == 0 || (|L| > 0 && L[0] <= R[0]) {
      MergeSeqPermutes(L[1..], R);
      PermutesTakeLeft(L, R);
    } else {
      MergeSeqPermutes(L, R[1..]);
      PermutesTakeRight(L, R);
    }
  }

  /** Taking L's head keeps the multiset of the merge. */
  lemma PermutesTakeLeft(L: seq<int>, R: seq<int>)
    requires |L| > 0 && (|R| == 0 || L[0] <= R[0])
    requires |MergeSeq(L[1..], R)| == |L| - 1 + |R|
    requires multiset(MergeSeq(L[1..], R)) == multiset(L[1..]) + multiset(R)
    ensures |MergeSeq(L, R)| == |L| + |R|
    ensures multiset(MergeSeq(L, R)) == multiset(L) + multiset(R)
  {
    var tail := MergeSeq(L[1..], R);
    assert MergeSeq(L, R) == [L[0]] + tail;
    MultisetHeadTail(L);
    calc {
      multiset(MergeSeq(L, R));
      == multiset([L[0]] + tail);
      == multiset{L[0]} + multiset(tail);
      == multiset{L[0]} + multiset(L[1..]) + multiset(R);
      == multiset(L) + multiset(R);
    }
  }

  /** Taking R's head keeps the multiset of the merge. */
  lemma PermutesTakeRight(L: seq<int>, R: seq<int>)
    requires |R| > 0 && (|L| == 0 || L[0] > R[0])
    requires |MergeSeq(L, R[1..])| == |L| + |R| - 1
    requires multiset(MergeSeq(L, R[1..])) == multiset(L) + multiset(R[1..])
    ensures |MergeSeq(L, R)| == |L| + |R|
    ensures multiset(MergeSeq(L, R)) == multiset(L) + multiset(R)
  {
    var tail := MergeSeq(L, R[1..]);
    assert MergeSeq(L, R) == [R[0]] + tail;
    MultisetHeadTail(R);
    calc {
      multiset(MergeSeq(L, R));
      == multiset([R[0]] + tail);
      == multiset{R[0]} + multiset(tail);
      == multiset{R[0]} + multiset(L) + multiset(R[1..]);
      == multiset(L) + multiset(R);
    }
  }

  /** Every element of the merge is an element of one of the runs. */
  lemma MergeSeqElement(L: seq<int>, R: seq<int>, t: int)
    requires 0 <= t < |L| + |R|
    ensures |MergeSeq(L, R)| == |L| + |R|
    ensures MergeSeq(L, R)[t] in L || MergeSeq(L, R)[t] in R
  {
    MergeSeqPermutes(L, R);
    var out := MergeSeq(L, R);
    assert out[t] in multiset(out);
  }

  /** Merging two sorted runs gives a sorted sequence. */
  lemma {:induction false} MergeSeqSorted(L: seq<int>, R: seq<int>)
    requires Sorted(L) && Sorted(R)
    ensures Sorted(MergeSeq(L, R))
    decreases |L| + |R|
  {
    if |L| == 0 && |R| == 0 {
    } else if |R| == 0 || (|L| > 0 && L[0] <= R[0]) {
      MergeSeqSorted(L[1..], R);
      HeadBelowMerge(L[0], L[1..], R);
    } else {
      MergeSeqSorted(L, R[1..]);
      HeadBelowMerge(R[0], L, R[1..]);
    }
  }

  /** A value below every element of both runs is below every element of
      their merge, so it can be put in front of a sorted merge. */
  lemma HeadBelowMerge(x: int, L: seq<int>, R: seq<int>)
    requires forall k :: 0 <= k < |L| ==> x <= L[k]
    requires forall k :: 0 <= k < |R| ==> x <= R[k]
    requires Sorted(MergeSeq(L, R))
    ensures Sorted([x] + MergeSeq(L, R))
  {
    BelowMerge(x, L, R);
    ConsSorted(x, MergeSeq(L, R));
  }

  lemma BelowMerge(x: int, L: seq<int>, R: seq<int>)
    requires forall k :: 0 <= k < |L| ==> x <= L[k]
    requires forall k :: 0 <= k < |R| ==> x <= R[k]
    ensures forall t :: 0 <= t < |MergeSeq(L, R)| ==> x <= MergeSeq(L, R)[t]
  {
    MergeSeqPermutes(L, R);
    forall t | 0 <= t < |MergeSeq(L, R)|
      ensures x <= MergeSeq(L, R)[t]
    {
      MergeSeqElement(L, R, t);
    }
  }

  /** A value at most every element of a sorted sequence can go in front. */
  lemma ConsSorted(x: int, s: seq<int>)
    requires Sorted(s) && forall t :: 0 <= t < |s| ==> x <= s[t]
    ensures Sorted([x] + s)
  {
    var s' := [x] + s;
    forall i, j | 0 <= i < j < |s'|
      ensures s'[i] <= s'[j]
    {
      assert s'[j] == s[j - 1];
      if i > 0 {
        assert s'[i] == s[i - 1];
      }
    }
  }

  /** Every origin is an index of L (which starts at lo) or of R (which
      starts at ro), and there is one origin per merged element. */
  lemma {:induction false} MergeFromRange(L: seq<int>, R: seq<int>, lo: int, ro: int)
    ensures |MergeFrom(L, R, lo, ro)| == |L| + |R|
    ensures forall t :: 0 <= t < |L| + |R| ==>
              lo <= MergeFrom(L, R, lo, ro)[t] < lo + |L| || ro <= MergeFrom(L, R, lo, ro)[t] < ro + |R|
    decreases |L| + |R|
  {
    if |L| == 0 && |R| == 0 {
    } else if |R| == 0 || (|L| > 0 && L[0] <= R[0]) {
      MergeFromRange(L[1..], R, lo + 1, ro);
    } else {
      MergeFromRange(L, R[1..], lo, ro + 1);
    }
  }

  /** When L == a[lo..lo+|L|) and R == a[ro..ro+|R|), each element of the
      merge is the array element at its origin. */
  lemma {:induction false} MergeFromValues(a: seq<int>, L: seq<int>, R: seq<int>, lo: int, ro: int)
    requires 0 <= lo && lo + |L| <= |a| && 0 <= ro && ro + |R| <= |a|
    requires L == a[lo..lo + |L|] && R == a[ro..ro + |R|]
    ensures |MergeSeq(L, R)| == |MergeFrom(L, R, lo, ro)| == |L| + |R|
    ensures forall t :: 0 <= t < |L| + |R| ==>
              0 <= MergeFrom(L, R, lo, ro)[t] < |a| && MergeSeq(L, R)[t] == a[MergeFrom(L, R, lo, ro)[t]]
    decreases |L| + |R|
  {
    MergeSeqPermutes(L, R);
    MergeFromRange(L, R, lo, ro);
    if |L| == 0 && |R| == 0 {
    } else if |R| == 0 || (|L| > 0 && L[0] <= R[0]) {
      SliceTail(a, L, lo);
      MergeFromValues(a, L[1..], R, lo + 1, ro);
      ValuesCons(a, L[0], lo, MergeSeq(L[1..], R), MergeFrom(L[1..], R, lo + 1, ro));
    } else {
      SliceTail(a, R, ro);
      MergeFromValues(a, L, R[1..], lo, ro + 1);
      ValuesCons(a, R[0], ro, MergeSeq(L, R[1..]), MergeFrom(L, R[1..], lo, ro + 1));
    }
  }

  /** Putting a[o] (from index o) in front keeps every element equal to the
      array element at its origin. */
  lemma ValuesCons(a: seq<int>, x: int, o: int, tail: seq<int>, otail: seq<int>)
    requires 0 <= o < |a| && a[o] == x && |tail| == |otail|
    requires forall t :: 0 <= t < |tail| ==> 0 <= otail[t] < |a| && tail[t] == a[otail[t]]
    ensures forall t :: 0 <= t < |tail| + 1 ==> 0 <= ([o] + otail)[t] < |a| && ([x] + tail)[t] == a[([o] + otail)[t]]
  {
  }

  /** When R lies after L, no index is the origin of two merged elements. */
  lemma {:induction false} MergeFromDistinct(L: seq<int>, R: seq<int>, lo: int, ro: int)
    requires lo + |L| <= ro
    ensures |MergeFrom(L, R, lo, ro)| == |L| + |R|
    ensures forall t1, t2 :: 0 <= t1 < t2 < |L| + |R| ==>
              MergeFrom(L, R, lo, ro)[t1] != MergeFrom(L, R, lo, ro)[t2]
    decreases |L| + |R|
  {
    MergeFromRange(L, R, lo, ro);
    if |L| == 0 && |R| == 0 {
    } else if |R| == 0 || (|L| > 0 && L[0] <= R[0]) {
      MergeFromDistinct(L[1..], R, lo + 1, ro);
      MergeFromRange(L[1..], R, lo + 1, ro);
      DistinctCons(lo, MergeFrom(L[1..], R, lo + 1, ro));
    } else {
      MergeFromDistinct(L, R[1..], lo, ro + 1);
      MergeFromRange(L, R[1..], lo, ro + 1);
      DistinctCons(ro, MergeFrom(L, R[1..], lo, ro + 1));
    }
  }

  /** An index that is not among the distinct indices of tail can go in front. */
  lemma DistinctCons(o: int, tail: seq<int>)
    requires forall t1, t2 :: 0 <= t1 < t2 < |tail| ==> tail[t1] != tail[t2]
    requires forall t :: 0 <= t < |tail| ==> tail[t] != o
    ensures forall t1, t2 :: 0 <= t1 < t2 < |tail| + 1 ==> ([o] + tail)[t1] != ([o] + tail)[t2]
  {
    var s := [o] + tail;
    forall t1, t2 | 0 <= t1 < t2 < |s|
      ensures s[t1] != s[t2]
    {
      assert s[t2] == tail[t2 - 1];
      if t1 > 0 {
        assert s[t1] == tail[t1 - 1];
      }
    }
  }

  /** Equal elements of out appear in increasing order of their origins. */
  ghost predicate StableOrder(out: seq<int>, origin: seq<int>)
    requires |out| == |origin|
  {
    forall t1, t2 :: 0 <= t1 < t2 < |out| && out[t1] == out[t2] ==> origin[t1] < origin[t2]
  }

  /** Putting x (from index o) in front of a stably ordered merge keeps it
      stable when every later copy of x comes from after o. */
  lemma StableCons(x: int, o: int, tail: seq<int>, otail: seq<int>)
    requires |tail| == |otail| && StableOrder(tail, otail)
    requires forall t :: 0 <= t < |tail| && tail[t] == x ==> o < otail[t]
    ensures StableOrder([x] + tail, [o] + otail)
  {
    var out, origin := [x] + tail, [o] + otail;
    forall t1, t2 | 0 <= t1 < t2 < |out| && out[t1] == out[t2]
      ensures origin[t1] < origin[t2]
    {
      assert origin[t2] == otail[t2 - 1] && out[t2] == tail[t2 - 1];
      if t1 > 0 {
        assert origin[t1] == otail[t1 - 1] && out[t1] == tail[t1 - 1];
      }
    }
  }

  /** Stability: when L is sorted and lies before R in the array, equal
      elements of the merge appear in the order of their origins. Ties
      between the runs go to L. */
  lemma {:induction false} MergeStable(a: seq<int>, L: seq<int>, R: seq<int>, lo: int, ro: int)
    requires 0 <= lo && lo + |L| <= ro && ro + |R| <= |a|
    requires L == a[lo..lo + |L|] && R == a[ro..ro + |R|]
    requires Sorted(L)
    ensures |MergeSeq(L, R)| == |MergeFrom(L, R, lo, ro)| == |L| + |R|
    ensures StableOrder(MergeSeq(L, R), MergeFrom(L, R, lo, ro))
    decreases |L| + |R|
  {
    MergeSeqPermutes(L, R);
    MergeFromRange(L, R, lo, ro);
    if |L| == 0 && |R| == 0 {
    } else if |R| == 0 || (|L| > 0 && L[0] <= R[0]) {
      SliceTail(a, L, lo);
      SortedTail(L);
      MergeStable(a, L[1..], R, lo + 1, ro);
      StableTakeLeft(L, R, lo, ro);
    } else {
      SliceTail(a, R, ro);
      MergeStable(a, L, R[1..], lo, ro + 1);
      StableHeadRight(a, L, R, lo, ro);
      StableTakeRight(L, R, lo, ro);
    }
  }

  /** The tail of the run a[lo..lo+|L|) is the run that starts one later. */
  lemma SliceTail(a: seq<int>, L: seq<int>, lo: int)
    requires 0 <= lo && lo + |L| <= |a| && L == a[lo..lo + |L|] && |L| > 0
    ensures L[1..] == a[lo + 1..lo + 1 + |L[1..]|]
  {
  }

  /** Taking L's head keeps the merge stable: every later origin is past lo. */
  lemma StableTakeLeft(L: seq<int>, R: seq<int>, lo: int, ro: int)
    requires |L| > 0 && (|R| == 0 || L[0] <= R[0]) && lo + |L| <= ro
    requires |MergeSeq(L[1..], R)| == |MergeFrom(L[1..], R, lo + 1, ro)|
    requires StableOrder(MergeSeq(L[1..], R), MergeFrom(L[1..], R, lo + 1, ro))
    ensures |MergeSeq(L, R)| == |MergeFrom(L, R, lo, ro)|
    ensures StableOrder(MergeSeq(L, R), MergeFrom(L, R, lo, ro))
  {
    MergeFromRange(L[1..], R, lo + 1, ro);
    StableCons(L[0], lo, MergeSeq(L[1..], R), MergeFrom(L[1..], R, lo + 1, ro));
  }

  /** Taking R's head keeps the merge stable, given that every later copy of
      R[0] comes from R. */
  lemma StableTakeRight(L: seq<int>, R: seq<int>, lo: int, ro: int)
    requires |R| > 0 && (|L| == 0 || L[0] > R[0])
    requires |MergeSeq(L, R[1..])| == |MergeFrom(L, R[1..], lo, ro + 1)|
    requires StableOrder(MergeSeq(L, R[1..]), MergeFrom(L, R[1..], lo, ro + 1))
    requires forall t :: 0 <= t < |MergeSeq(L, R[1..])| && MergeSeq(L, R[1..])[t] == R[0] ==>
               ro < MergeFrom(L, R[1..], lo, ro + 1)[t]
    ensures |MergeSeq(L, R)| == |MergeFrom(L, R, lo, ro)|
    ensures StableOrder(MergeSeq(L, R), MergeFrom(L, R, lo, ro))
  {
    StableCons(R[0], ro, MergeSeq(L, R[1..]), MergeFrom(L, R[1..], lo, ro + 1));
  }


  /** When the merge starts with R[0], every later element equal to it
      comes from R, so after index ro. */
  lemma StableHeadRight(a: seq<int>, L: seq<int>, R: seq<int>, lo: int, ro: int)
    requires 0 <= lo && lo + |L| <= ro && ro + |R| <= |a|
    requires L == a[lo..lo + |L|] && R == a[ro..ro + |R|]
    requires Sorted(L)
    requires |R| > 0 && (|L| == 0 || L[0] > R[0])
    ensures |MergeSeq(L, R[1..])| == |MergeFrom(L, R[1..], lo, ro + 1)| == |L| + |R| - 1
    ensures forall t :: 0 <= t < |L| + |R| - 1 && MergeSeq(L, R[1..])[t] == R[0] ==>
              ro < MergeFrom(L, R[1..], lo, ro + 1)[t]
  {
    MergeFromValues(a, L, R[1..], lo, ro + 1);
    MergeFromRange(L, R[1..], lo, ro + 1);
    var tail, otail := MergeSeq(L, R[1..]), MergeFrom(L, R[1..], lo, ro + 1);
    assert forall x :: 0 <= x < |L| ==> R[0] < L[0] <= L[x];
    RunAbove(a, L, lo, R[0]);
  }

  /** A bound below every element of the run L == a[lo..lo+|L|) is below
      every array element in that index range. */
  lemma RunAbove(a: seq<int>, L: seq<int>, lo: int, x: int)
    requires 0 <= lo && lo + |L| <= |a| && L == a[lo..lo + |L|]
    requires forall i :: 0 <= i < |L| ==> x < L[i]
    ensures forall o :: lo <= o < lo + |L| ==> x < a[o]
  {
    forall o | lo <= o < lo + |L|
      ensures x < a[o]
    {
      assert a[o] == L[o - lo];
    }
  }

  /** Taking the head of L (when it does not lose to the head of R) is the
      first step of the merge of what remains. */
  lemma StepLeft(L: seq<int>, R: seq<int>, i: int, j: int, lo: int, ro: int)
    requires 0 <= i < |L| && 0 <= j <= |R|
    requires j < |R| ==> L[i] <= R[j]
    ensures MergeSeq(L[i..], R[j..]) == [L[i]] + MergeSeq(L[i + 1..], R[j..])
    ensures MergeFrom(L[i..], R[j..], lo + i, ro + j) == [lo + i] + MergeFrom(L[i + 1..], R[j..], lo + i + 1, ro + j)
  {
    assert L[i..][0] == L[i] && L[i..][1..] == L[i + 1..];
    if j == |R| {
      assert R[j..] == [];
      assert L[i..] == [L[i]] + L[i + 1..];
    } else {
      assert R[j..][0] == R[j];
    }
  }

  /** Taking the head of R (when L is used up or its head is larger) is the
      first step of the merge of what remains. */
  lemma StepRight(L: seq<int>, R: seq<int>, i: int, j: int, lo: int, ro: int)
    requires 0 <= i <= |L| && 0 <= j < |R|
    requires i < |L| ==> L[i] > R[j]
    ensures MergeSeq(L[i..], R[j..]) == [R[j]] + MergeSeq(L[i..], R[j + 1..])
    ensures MergeFrom(L[i..], R[j..], lo + i, ro + j) == [ro + j] + MergeFrom(L[i..], R[j + 1..], lo + i, ro + j + 1)
  {
    assert R[j..][0] == R[j] && R[j..][1..] == R[j + 1..];
    if i == |L| {
      assert L[i..] == [];
      assert R[j..] == [R[j]] + R[j + 1..];
    } else {
      assert L[i..][0] == L[i];
    }
  }

  /** The state of the merge loops after i elements of L and j of R were
      written back: positions [l, k) of b hold the first i + j elements of
      the merge, the rest of b is untouched, and `origin` lists where those
      elements came from. */
  ghost predicate MergeState(a: seq<int>, l: int, m: int, L: seq<int>, R: seq<int>,
                             i: int, j: int, b: seq<int>, out: seq<int>, origin: seq<int>)
  {
    && 0 <= l && l + |L| == m + 1 && m + 1 + |R| <= |a|
    && 0 <= i <= |L| && 0 <= j <= |R| && |out| == i + j
    && b == a[..l] + out + a[l + i + j..]
    && out + MergeSeq(L[i..], R[j..]) == MergeSeq(L, R)
    && origin + MergeFrom(L[i..], R[j..], l + i, m + 1 + j) == MergeFrom(L, R, l, m + 1)
  }

  /** accessor[k] = x at k == l + |out| extends the written prefix by x. */
  lemma WriteNext(a: seq<int>, l: int, out: seq<int>, b: seq<int>, x: int)
    requires 0 <= l && l + |out| < |a| && b == a[..l] + out + a[l + |out|..]
    ensures b[l + |out| := x] == a[..l] + (out + [x]) + a[l + |out| + 1..]
  {
  }

  /** Moving the head of the rest onto the written prefix keeps the whole. */
  lemma AppendStep(out: seq<int>, x: int, rest: seq<int>, whole: seq<int>)
    requires whole == [x] + rest
    ensures (out + [x]) + rest == out + whole
  {
  }

  /** Taking L[i] moves the head of what remains onto the written prefix. */
  lemma RestLeft(l: int, m: int, L: seq<int>, R: seq<int>, i: int, j: int, out: seq<int>, origin: seq<int>)
    requires 0 <= i < |L| && 0 <= j <= |R| && (j < |R| ==> L[i] <= R[j])
    requires out + MergeSeq(L[i..], R[j..]) == MergeSeq(L, R)
    requires origin + MergeFrom(L[i..], R[j..], l + i, m + 1 + j) == MergeFrom(L, R, l, m + 1)
    ensures (out + [L[i]]) + MergeSeq(L[i + 1..], R[j..]) == MergeSeq(L, R)
    ensures (origin + [l + i]) + MergeFrom(L[i + 1..], R[j..], l + (i + 1), m + 1 + j) == MergeFrom(L, R, l, m + 1)
  {
    StepLeft(L, R, i, j, l, m + 1);
    AppendStep(out, L[i], MergeSeq(L[i + 1..], R[j..]), MergeSeq(L[i..], R[j..]));
    AppendStep(origin, l + i, MergeFrom(L[i + 1..], R[j..], l + i + 1, m + 1 + j),
               MergeFrom(L[i..], R[j..], l + i, m + 1 + j));
  }

  /** Taking R[j] moves the head of what remains onto the written prefix. */
  lemma RestRight(l: int, m: int, L: seq<int>, R: seq<int>, i: int, j: int, out: seq<int>, origin: seq<int>)
    requires 0 <= i <= |L| && 0 <= j < |R| && (i < |L| ==> L[i] > R[j])
    requires out + MergeSeq(L[i..], R[j..]) == MergeSeq(L, R)
    requires origin + MergeFrom(L[i..], R[j..], l + i, m + 1 + j) == MergeFrom(L, R, l, m + 1)
    ensures (out + [R[j]]) + MergeSeq(L[i..], R[j + 1..]) == MergeSeq(L, R)
    ensures (origin + [m + 1 + j]) + MergeFrom(L[i..], R[j + 1..], l + i, m + 1 + (j + 1)) == MergeFrom(L, R, l, m + 1)
  {
    StepRight(L, R, i, j, l, m + 1);
    AppendStep(out, R[j], MergeSeq(L[i..], R[j + 1..]), MergeSeq(L[i..], R[j..]));
    AppendStep(origin, m + 1 + j, MergeFrom(L[i..], R[j + 1..], l + i, m + 1 + j + 1),
               MergeFrom(L[i..], R[j..], l + i, m + 1 + j));
  }

  /** accessor[k] = L[i]; i++ */
  lemma TakeLeft(a: seq<int>, l: int, m: int, L: seq<int>, R: seq<int>,
                 i: int, j: int, b: seq<int>, out: seq<int>, origin: seq<int>)
    requires MergeState(a, l, m, L, R, i, j, b, out, origin)
    requires i < |L| && (j < |R| ==> L[i] <= R[j])
    ensures l + i + j < |b|
    ensures MergeState(a, l, m, L, R, i + 1, j, b[l + i + j := L[i]], out + [L[i]], origin + [l + i])
  {
    RestLeft(l, m, L, R, i, j, out, origin);
    WriteNext(a, l, out, b, L[i]);
  }

  /** accessor[k] = R[j]; j++ */
  lemma TakeRight(a: seq<int>, l: int, m: int, L: seq<int>, R: seq<int>,
                  i: int, j: int, b: seq<int>, out: seq<int>, origin: seq<int>)
    requires MergeState(a, l, m, L, R, i, j, b, out, origin)
    requires j < |R| && (i < |L| ==> L[i] > R[j])
    ensures l + i + j < |b|
    ensures MergeState(a, l, m, L, R, i, j + 1, b[l + i + j := R[j]], out + [R[j]], origin + [m + 1 + j])
  {
    RestRight(l, m, L, R, i, j, out, origin);
    WriteNext(a, l, out, b, R[j]);
  }

  /** merge(arr, l, m, r): merges the runs a[l..m] and a[m+1..r]. */
  method MergeRuns(a: seq<int>, l: int, m: int, r: int) returns (b: seq<int>, origin: seq<int>)
    requires 0 <= l <= m + 1 <= r + 1 <= |a|
    ensures PermutesRange(a, b, l, r + 1)
    ensures |origin| == r - l + 1
    ensures forall t :: 0 <= t < |origin| ==> l <= origin[t] <= r && b[l + t] == a[origin[t]]
    ensures forall t1, t2 :: 0 <= t1 < t2 < |origin| ==> origin[t1] != origin[t2]
    ensures SortedRange(a, l, m + 1) && SortedRange(a, m + 1, r + 1) ==> SortedRange(b, l, r + 1)
    ensures SortedRange(a, l, m + 1) ==>
              forall t1, t2 :: 0 <= t1 < t2 < |origin| && b[l + t1] == b[l + t2] ==> origin[t1] < origin[t2]
  {
    var n1 := m - l + 1;
    var n2 := r - m;
    // The temporaries filled by the two copy loops.
    var L := a[l..m + 1];
    var R := a[m + 1..r + 1];
    assert |L| == n1 && |R| == n2;

    b, origin := MergeBack(a, l, m, L, R);
    MergeBackPlaced(a, l, m, r, L, R, b, origin);
    MergeBackDistinct(l, m, r, L, R, origin);
    MergeBackOrdered(a, l, m, r, L, R, b, origin);
  }

  /** Where merge puts the elements, read off the write-back of MergeSeq and
      MergeFrom: a rearrangement of [l, r] in which every written element
      is the input element at its origin. */
  lemma MergeBackPlaced(a: seq<int>, l: int, m: int, r: int, L: seq<int>, R: seq<int>,
                        b: seq<int>, origin: seq<int>)
    requires 0 <= l <= m + 1 <= r + 1 <= |a|
    requires L == a[l..m + 1] && R == a[m + 1..r + 1]
    requires b == a[..l] + MergeSeq(L, R) + a[m + 1 + |R|..]
    requires origin == MergeFrom(L, R, l, m + 1)
    ensures PermutesRange(a, b, l, r + 1)
    ensures |origin| == r - l + 1
    ensures forall t :: 0 <= t < |origin| ==> l <= origin[t] <= r && b[l + t] == a[origin[t]]
  {
    assert m + 1 + |R| == r + 1;
    MergeWritten(a, l, m, r, L, R, b);
    MergeDone(a, l, m, r, L, R, b, origin);
  }

  /** No input position is the origin of two written elements. */
  lemma MergeBackDistinct(l: int, m: int, r: int, L: seq<int>, R: seq<int>, origin: seq<int>)
    requires 0 <= l <= m + 1 <= r + 1 && |L| == m + 1 - l && |R| == r - m
    requires origin == MergeFrom(L, R, l, m + 1)
    ensures |origin| == r - l + 1
    ensures forall t1, t2 :: 0 <= t1 < t2 < |origin| ==> origin[t1] != origin[t2]
  {
    MergeFromDistinct(L, R, l, m + 1);
  }

  /** The order merge leaves, read off the write-back: sorted runs give a
      sorted slice, and a sorted left run gives a stable merge. */
  lemma MergeBackOrdered(a: seq<int>, l: int, m: int, r: int, L: seq<int>, R: seq<int>,
                         b: seq<int>, origin: seq<int>)
    requires 0 <= l <= m + 1 <= r + 1 <= |a|
    requires L == a[l..m + 1] && R == a[m + 1..r + 1]
    requires b == a[..l] + MergeSeq(L, R) + a[m + 1 + |R|..]
    requires origin == MergeFrom(L, R, l, m + 1)
    ensures |b| == |a| && |origin| == r - l + 1
    ensures SortedRange(a, l, m + 1) && SortedRange(a, m + 1, r + 1) ==> SortedRange(b, l, r + 1)
    ensures SortedRange(a, l, m + 1) ==>
              forall t1, t2 :: 0 <= t1 < t2 < |origin| && b[l + t1] == b[l + t2] ==> origin[t1] < origin[t2]
  {
    MergeWritten(a, l, m, r, L, R, b);
    MergeDoneSorted(a, l, m, r, L, R, b, origin);
  }

  /** The three write-back loops of merge: while both runs have elements,
      write the smaller head (L's on ties); then drain L; then drain R. */
  method MergeBack(a: seq<int>, l: int, m: int, L: seq<int>, R: seq<int>) returns (b: seq<int>, origin: seq<int>)
    requires 0 <= l && l + |L| == m + 1 && m + 1 + |R| <= |a|
    ensures b == a[..l] + MergeSeq(L, R) + a[m + 1 + |R|..]
    ensures origin == MergeFrom(L, R, l, m + 1)
  {
    assert a == a[..l] + [] + a[l..];
    assert L[0..] == L && R[0..] == R;
    var i, j;
    ghost var out;
    b, origin, out, i, j := MergeHeads(a, l, m, L, R);
    b, origin, out, i := DrainLeft(a, l, m, L, R, b, origin, out, i, j);
    b, origin, out, j := DrainRight(a, l, m, L, R, b, origin, out, i, j);
    MergeFinished(a, l, m, L, R, b, out, origin);
  }

  /** while (i < n1 && j < n2): write the smaller head, L's on ties. */
  method MergeHeads(a: seq<int>, l: int, m: int, L: seq<int>, R: seq<int>)
      returns (b: seq<int>, origin: seq<int>, ghost out: seq<int>, i: int, j: int)
    requires MergeState(a, l, m, L, R, 0, 0, a, [], [])
    ensures i == |L| || j == |R|
    ensures MergeState(a, l, m, L, R, i, j, b, out, origin)
  {
    b, origin, out := a, [], [];
    i, j := 0, 0;
    var k := l;
    while i < |L| && j < |R|
      invariant k == l + i + j
      invariant MergeState(a, l, m, L, R, i, j, b, out, origin)
      decreases |L| + |R| - i - j
    {
      if L[i] <= R[j] {
        TakeLeft(a, l, m, L, R, i, j, b, out, origin);
        b, out, origin := b[k := L[i]], out + [L[i]], origin + [l + i];
        i := i + 1;
      } else {
        TakeRight(a, l, m, L, R, i, j, b, out, origin);
        b, out, origin := b[k := R[j]], out + [R[j]], origin + [m + 1 + j];
        j := j + 1;
      }
      k := k + 1;
    }
  }

  /** while (i < n1): copy the rest of L, once R is used up. */
  method DrainLeft(a: seq<int>, l: int, m: int, L: seq<int>, R: seq<int>,
                   b0: seq<int>, origin0: seq<int>, ghost out0: seq<int>, i0: int, j: int)
      returns (b: seq<int>, origin: seq<int>, ghost out: seq<int>, i: int)
    requires i0 == |L| || j == |R|
    requires MergeState(a, l, m, L, R, i0, j, b0, out0, origin0)
    ensures i == |L|
    ensures MergeState(a, l, m, L, R, i, j, b, out, origin)
  {
    b, origin, out, i := b0, origin0, out0, i0;
    var k := l + i + j;
    while i < |L|
      invariant k == l + i + j
      invariant i < |L| ==> j == |R|
      invariant MergeState(a, l, m, L, R, i, j, b, out, origin)
    {
      TakeLeft(a, l, m, L, R, i, j, b, out, origin);
      b, out, origin := b[k := L[i]], out + [L[i]], origin + [l + i];
      i := i + 1;
      k := k + 1;
    }
  }

  /** while (j < n2): copy the rest of R, once L is used up. */
  method DrainRight(a: seq<int>, l: int, m: int, L: seq<int>, R: seq<int>,
                    b0: seq<int>, origin0: seq<int>, ghost out0: seq<int>, i: int, j0: int)
      returns (b: seq<int>, origin: seq<int>, ghost out: seq<int>, j: int)
    requires i == |L|
    requires MergeState(a, l, m, L, R, i, j0, b0, out0, origin0)
    ensures j == |R|
    ensures MergeState(a, l, m, L, R, i, j, b, out, origin)
  {
    b, origin, out, j := b0, origin0, out0, j0;
    var k := l + i + j;
    while j < |R|
      invariant k == l + i + j
      invariant MergeState(a, l, m, L, R, i, j, b, out, origin)
    {
      TakeRight(a, l, m, L, R, i, j, b, out, origin);
      b, out, origin := b[k := R[j]], out + [R[j]], origin + [m + 1 + j];
      j := j + 1;
      k := k + 1;
    }
  }

  lemma MergeFinished(a: seq<int>, l: int, m: int, L: seq<int>, R: seq<int>,
                      b: seq<int>, out: seq<int>, origin: seq<int>)
    requires MergeState(a, l, m, L, R, |L|, |R|, b, out, origin)
    ensures b == a[..l] + MergeSeq(L, R) + a[m + 1 + |R|..]
    ensures origin == MergeFrom(L, R, l, m + 1)
  {
    assert L[|L|..] == [] && R[|R|..] == [];
    assert MergeSeq([], []) == [] && MergeFrom([], [], l + |L|, m + 1 + |R|) == [];
    assert out + [] == out && origin + [] == origin;
  }

  /** Writing the merge back into [l, r] rearranges only that slice, and
      puts the t-th merged element at l + t. */
  lemma MergeWritten(a: seq<int>, l: int, m: int, r: int, L: seq<int>, R: seq<int>, b: seq<int>)
    requires 0 <= l <= m + 1 <= r + 1 <= |a|
    requires L == a[l..m + 1] && R == a[m + 1..r + 1]
    requires b == a[..l] + MergeSeq(L, R) + a[r + 1..]
    ensures PermutesRange(a, b, l, r + 1)
    ensures |MergeSeq(L, R)| == r - l + 1
    ensures forall t :: 0 <= t < r - l + 1 ==> b[l + t] == MergeSeq(L, R)[t]
  {
    MergeSeqPermutes(L, R);
    assert a[l..r + 1] == L + R;
    assert b[l..r + 1] == MergeSeq(L, R);
  }

  /** Each written element is the input element at its origin, inside [l, r]. */
  lemma MergeDone(a: seq<int>, l: int, m: int, r: int, L: seq<int>, R: seq<int>,
                  b: seq<int>, origin: seq<int>)
    requires 0 <= l <= m + 1 <= r + 1 <= |a|
    requires L == a[l..m + 1] && R == a[m + 1..r + 1]
    requires |b| == |a| && |MergeSeq(L, R)| == r - l + 1
    requires forall t :: 0 <= t < r - l + 1 ==> b[l + t] == MergeSeq(L, R)[t]
    requires origin == MergeFrom(L, R, l, m + 1)
    ensures |origin| == r - l + 1
    ensures forall t :: 0 <= t < |origin| ==> l <= origin[t] <= r && b[l + t] == a[origin[t]]
  {
    assert |L| == m + 1 - l && |R| == r - m;
    DoneValues(a, l, m, r, L, R, b, origin);
    DoneRange(l, m, r, L, R, origin);
  }

  lemma DoneValues(a: seq<int>, l: int, m: int, r: int, L: seq<int>, R: seq<int>,
                   b: seq<int>, origin: seq<int>)
    requires 0 <= l && l + |L| == m + 1 && m + 1 + |R| == r + 1 && r + 1 <= |a| == |b|
    requires L == a[l..l + |L|] && R == a[m + 1..m + 1 + |R|]
    requires |MergeSeq(L, R)| == r - l + 1
    requires forall t :: 0 <= t < r - l + 1 ==> b[l + t] == MergeSeq(L, R)[t]
    requires origin == MergeFrom(L, R, l, m + 1)
    ensures |origin| == r - l + 1
    ensures forall t :: 0 <= t < |origin| ==> 0 <= origin[t] < |a| && b[l + t] == a[origin[t]]
  {
    MergeFromValues(a, L, R, l, m + 1);
    ComposeValues(a, b, l, MergeSeq(L, R), origin);
  }

  /** b holds out from l on, and out holds the elements of a at origin, so
      b holds the elements of a at origin from l on. */
  lemma ComposeValues(a: seq<int>, b: seq<int>, l: int, out: seq<int>, origin: seq<int>)
    requires |out| == |origin| && 0 <= l && l + |out| <= |b|
    requires forall t :: 0 <= t < |out| ==> b[l + t] == out[t]
    requires forall t :: 0 <= t < |out| ==> 0 <= origin[t] < |a| && out[t] == a[origin[t]]
    ensures forall t :: 0 <= t < |origin| ==> 0 <= origin[t] < |a| && b[l + t] == a[origin[t]]
  {
  }

  lemma DoneRange(l: int, m: int, r: int, L: seq<int>, R: seq<int>, origin: seq<int>)
    requires |L| == m + 1 - l && |R| == r - m
    requires origin == MergeFrom(L, R, l, m + 1)
    ensures |origin| == r - l + 1
    ensures forall t :: 0 <= t < |origin| ==> l <= origin[t] <= r
  {
    MergeFromRange(L, R, l, m + 1);
  }

  /** A sorted slice of a, taken out as a sequence of its own, is sorted. */
  lemma SliceSorted(a: seq<int>, lo: int, hi: int, S: seq<int>)
    requires 0 <= lo <= hi <= |a| && S == a[lo..hi] && SortedRange(a, lo, hi)
    ensures Sorted(S)
  {
    forall i, j | 0 <= i < j < |S|
      ensures S[i] <= S[j]
    {
      assert S[i] == a[lo + i] && S[j] == a[lo + j];
    }
  }

  /** Sorted runs give a sorted result, and a sorted left run gives a stable one. */
  lemma MergeDoneSorted(a: seq<int>, l: int, m: int, r: int, L: seq<int>, R: seq<int>,
                        b: seq<int>, origin: seq<int>)
    requires 0 <= l <= m + 1 <= r + 1 <= |a|
    requires L == a[l..m + 1] && R == a[m + 1..r + 1]
    requires |b| == |a| && |MergeSeq(L, R)| == r - l + 1
    requires forall t :: 0 <= t < r - l + 1 ==> b[l + t] == MergeSeq(L, R)[t]
    requires origin == MergeFrom(L, R, l, m + 1)
    ensures |origin| == r - l + 1
    ensures SortedRange(a, l, m + 1) && SortedRange(a, m + 1, r + 1) ==> SortedRange(b, l, r + 1)
    ensures SortedRange(a, l, m + 1) ==>
              forall t1, t2 :: 0 <= t1 < t2 < |origin| && b[l + t1] == b[l + t2] ==> origin[t1] < origin[t2]
  {
    MergeFromRange(L, R, l, m + 1);
    if SortedRange(a, l, m + 1) {
      MergeResultStable(a, l, m, r, L, R, b, origin);
      if SortedRange(a, m + 1, r + 1) {
        MergeResultSorted(a, l, m, r, L, R, b);
      }
    }
  }

  lemma MergeResultStable(a: seq<int>, l: int, m: int, r: int, L: seq<int>, R: seq<int>,
                          b: seq<int>, origin: seq<int>)
    requires 0 <= l <= m + 1 <= r + 1 <= |a|
    requires L == a[l..m + 1] && R == a[m + 1..r + 1]
    requires |b| == |a| && |MergeSeq(L, R)| == r - l + 1
    requires forall t :: 0 <= t < r - l + 1 ==> b[l + t] == MergeSeq(L, R)[t]
    requires origin == MergeFrom(L, R, l, m + 1)
    requires SortedRange(a, l, m + 1)
    ensures |origin| == r - l + 1
    ensures forall t1, t2 :: 0 <= t1 < t2 < |origin| && b[l + t1] == b[l + t2] ==> origin[t1] < origin[t2]
  {
    SliceSorted(a, l, m + 1, L);
    MergeStable(a, L, R, l, m + 1);
    var out := MergeSeq(L, R);
    forall t1, t2 | 0 <= t1 < t2 < |origin| && b[l + t1] == b[l + t2]
      ensures origin[t1] < origin[t2]
    {
      assert out[t1] == out[t2];
    }
  }

  lemma MergeResultSorted(a: seq<int>, l: int, m: int, r: int, L: seq<int>, R: seq<int>, b: seq<int>)
    requires 0 <= l <= m + 1 <= r + 1 <= |a|
    requires L == a[l..m + 1] && R == a[m + 1..r + 1]
    requires |b| == |a| && |MergeSeq(L, R)| == r - l + 1
    requires forall t :: 0 <= t < r - l + 1 ==> b[l + t] == MergeSeq(L, R)[t]
    requires SortedRange(a, l, m + 1) && SortedRange(a, m + 1, r + 1)
    ensures SortedRange(b, l, r + 1)
  {
    SliceSorted(a, l, m + 1, L);
    SliceSorted(a, m + 1, r + 1, R);
    MergeSeqSorted(L, R);
    var out := MergeSeq(L, R);
    forall i, j | l <= i < j < r + 1
      ensures b[i] <= b[j]
    {
      assert b[i] == out[i - l] && b[j] == out[j - l];
    }
  }

  /** k * w as repeated addition: the start of block k of width w. Keeping
      the product recursive keeps the block arithmetic linear. */
  function Mul(k: nat, w: nat): (p: nat)
  {
    if k == 0 then 0 else Mul(k - 1, w) + w
  }

  /** Block starts grow with the block index. */
  lemma {:induction false} MulMono(x: nat, y: nat, w: nat)
    requires x <= y
    ensures Mul(x, w) <= Mul(y, w)
    decreases y - x
  {
    if x < y {
      MulMono(x, y - 1, w);
    }
  }

  /** Block q of width 2w starts where block 2q of width w does. */
  lemma {:induction false} MulDouble(q: nat, w: nat)
    ensures Mul(q, 2 * w) == Mul(2 * q, w)
  {
    if q > 0 {
      MulDouble(q - 1, w);
      assert Mul(2 * q, w) == Mul(2 * (q - 1), w) + w + w;
    }
  }

  lemma {:induction false} MulOne(k: nat)
    ensures Mul(k, 1) == k
  {
    if k > 0 {
      MulOne(k - 1);
    }
  }

  /** Block k of width w, the slice [k*w, min(k*w + w, n)), is sorted.
      Blocks that start at or past n are vacuously sorted. */
  ghost predicate BlockSorted(s: seq<int>, n: int, w: nat, k: nat) {
    0 < w && Mul(k, w) < n <= |s| ==> SortedRange(s, Mul(k, w), Min(Mul(k, w) + w, n))
  }

  /** A rearrangement of [lo, hi) keeps a sorted slice that lies outside it sorted. */
  lemma SortedOutsideKept(x: seq<int>, y: seq<int>, lo: int, hi: int, p: int, r: int)
    requires 0 <= lo <= hi <= |x| && PermutesRange(x, y, lo, hi)
    requires 0 <= p <= r <= |x| && (r <= lo || hi <= p)
    requires SortedRange(x, p, r)
    ensures SortedRange(y, p, r)
  {
    PermutesRangeOutside(x, y, lo, hi);
  }

  /** One merge of the inner loop, at left_start == q * 2w: block q of width
      2w becomes sorted, and blocks of width 2w before it and blocks of
      width w after it are untouched. */
  lemma MergeStepKeepsBlocks(b: seq<int>, b': seq<int>, n: int, w: nat, q: nat, ls: int, mid: int, re: int)
    requires 0 < w && ls == Mul(q, 2 * w) && ls < n - 1 && n <= |b|
    requires mid == Min(ls + w - 1, n - 1) && re == Min(ls + 2 * w - 1, n - 1)
    requires forall k: nat :: k < q ==> BlockSorted(b, n, 2 * w, k)
    requires forall k: nat :: 2 * q <= k ==> BlockSorted(b, n, w, k)
    requires PermutesRange(b, b', ls, re + 1)
    requires SortedRange(b, ls, mid + 1) && SortedRange(b, mid + 1, re + 1) ==> SortedRange(b', ls, re + 1)
    ensures forall k: nat :: k < q + 1 ==> BlockSorted(b', n, 2 * w, k)
    ensures forall k: nat :: 2 * (q + 1) <= k ==> BlockSorted(b', n, w, k)
  {
    MergedRunsSorted(b, n, w, q, ls, mid, re);
    BlocksBeforeKept(b, b', n, w, q, ls, re);
    BlocksAfterKept(b, b', n, w, q, ls, re);
  }

  /** The two runs handed to merge are blocks 2q and 2q + 1 of width w. */
  lemma MergedRunsSorted(b: seq<int>, n: int, w: nat, q: nat, ls: int, mid: int, re: int)
    requires 0 < w && ls == Mul(q, 2 * w) && ls < n - 1 && n <= |b|
    requires mid == Min(ls + w - 1, n - 1) && re == Min(ls + 2 * w - 1, n - 1)
    requires forall k: nat :: 2 * q <= k ==> BlockSorted(b, n, w, k)
    ensures SortedRange(b, ls, mid + 1) && SortedRange(b, mid + 1, re + 1)
  {
    MulDouble(q, w);
    assert BlockSorted(b, n, w, 2 * q);
    assert BlockSorted(b, n, w, 2 * q + 1);
  }

  lemma BlocksBeforeKept(b: seq<int>, b': seq<int>, n: int, w: nat, q: nat, ls: int, re: int)
    requires 0 < w && ls == Mul(q, 2 * w) && ls <= re < n <= |b|
    requires forall k: nat :: k < q ==> BlockSorted(b, n, 2 * w, k)
    requires PermutesRange(b, b', ls, re + 1)
    requires re == Min(ls + 2 * w - 1, n - 1) && SortedRange(b', ls, re + 1)
    ensures forall k: nat :: k < q + 1 ==> BlockSorted(b', n, 2 * w, k)
  {
    forall k: nat | k < q + 1
      ensures BlockSorted(b', n, 2 * w, k)
    {
      BlockBeforeKept(b, b', n, w, q, ls, re, k);
    }
  }

  /** Block k <= q of width 2w after the merge at left_start == q * 2w. */
  lemma BlockBeforeKept(b: seq<int>, b': seq<int>, n: int, w: nat, q: nat, ls: int, re: int, k: nat)
    requires 0 < w && ls == Mul(q, 2 * w) && ls <= re < n <= |b|
    requires k <= q && (k < q ==> BlockSorted(b, n, 2 * w, k))
    requires PermutesRange(b, b', ls, re + 1)
    requires re == Min(ls + 2 * w - 1, n - 1) && SortedRange(b', ls, re + 1)
    ensures BlockSorted(b', n, 2 * w, k)
  {
    if k < q {
      MulMono(k + 1, q, 2 * w);
      BlockKept(b, b', n, 2 * w, k, ls, re + 1);
    } else {
      assert Mul(k, 2 * w) == ls && Min(ls + 2 * w, n) == re + 1;
    }
  }

  /** A block that lies wholly before or after the rearranged slice keeps
      its order. */
  lemma BlockKept(b: seq<int>, b': seq<int>, n: int, w: nat, k: nat, lo: int, hi: int)
    requires 0 < w && 0 <= lo <= hi <= n <= |b|
    requires PermutesRange(b, b', lo, hi)
    requires Mul(k, w) + w <= lo || hi <= Mul(k, w)
    requires BlockSorted(b, n, w, k)
    ensures BlockSorted(b', n, w, k)
  {
    if Mul(k, w) < n {
      SortedOutsideKept(b, b', lo, hi, Mul(k, w), Min(Mul(k, w) + w, n));
    }
  }

  lemma BlocksAfterKept(b: seq<int>, b': seq<int>, n: int, w: nat, q: nat, ls: int, re: int)
    requires 0 < w && ls == Mul(q, 2 * w) && ls <= re < n <= |b|
    requires re == Min(ls + 2 * w - 1, n - 1)
    requires forall k: nat :: 2 * q <= k ==> BlockSorted(b, n, w, k)
    requires PermutesRange(b, b', ls, re + 1)
    ensures forall k: nat :: 2 * (q + 1) <= k ==> BlockSorted(b', n, w, k)
  {
    MulDouble(q, w);
    assert Mul(2 * q + 2, w) == ls + 2 * w;
    forall k: nat | 2 * (q + 1) <= k
      ensures BlockSorted(b', n, w, k)
    {
      MulMono(2 * q + 2, k, w);
      BlockKept(b, b', n, w, k, ls, re + 1);
    }
  }

  /** When left_start passes n - 1, every block of width 2w is sorted: the
      blocks from q on hold at most the last element. */
  lemma InnerDone(b: seq<int>, n: int, w: nat, q: nat, ls: int)
    requires 0 < w && ls == Mul(q, 2 * w) && n - 1 <= ls
    requires forall k: nat :: k < q ==> BlockSorted(b, n, 2 * w, k)
    ensures forall k: nat :: BlockSorted(b, n, 2 * w, k)
  {
    forall k: nat | q <= k
      ensures BlockSorted(b, n, 2 * w, k)
    {
      MulMono(q, k, 2 * w);
    }
  }

  /** Before the first pass, every block of width 1 is a single element. */
  lemma BlocksOfOne(s: seq<int>, n: int)
    ensures forall k: nat :: BlockSorted(s, n, 1, k)
  {
    forall k: nat
      ensures BlockSorted(s, n, 1, k)
    {
      MulOne(k);
    }
  }

  /** The input positions 0, 1, ..., n - 1: where every element starts. */
  function Identity(n: nat): (ids: seq<int>)
    ensures |ids| == n && forall k :: 0 <= k < n ==> ids[k] == k
  {
    seq(n, k => k)
  }

  /** pos records, for each of the first n positions of b, the position of
      a it came from; no input position is used twice. */
  ghost predicate Tracks(a: seq<int>, b: seq<int>, n: int, pos: seq<int>) {
    && 0 <= n <= |a| == |b|
    && |pos| == n
    && (forall k :: 0 <= k < n ==> 0 <= pos[k] < n && b[k] == a[pos[k]])
    && (forall k1, k2 :: 0 <= k1 < n && 0 <= k2 < n && k1 != k2 ==> pos[k1] != pos[k2])
  }

  /** The slice [lo, hi) of b holds elements that came from [lo, hi), and
      equal elements in it keep the order of their input positions. */
  ghost predicate StableRange(b: seq<int>, pos: seq<int>, lo: int, hi: int) {
    && 0 <= lo <= hi <= |b|
    && hi <= |pos|
    && (forall t :: lo <= t < hi ==> lo <= pos[t] < hi)
    && (forall t1, t2 :: lo <= t1 < t2 < hi && b[t1] == b[t2] ==> pos[t1] < pos[t2])
  }

  /** Block k of width w is stable in the sense of StableRange. */
  ghost predicate BlockStable(b: seq<int>, pos: seq<int>, n: int, w: nat, k: nat) {
    0 < w && Mul(k, w) < n <= |b| && n <= |pos| ==> StableRange(b, pos, Mul(k, w), Min(Mul(k, w) + w, n))
  }

  /** The positions after a merge of [ls, ls + |o|): the element now at
      ls + t came from the position o[t] had before. */
  function Relabel(pos: seq<int>, ls: int, o: seq<int>): (p: seq<int>)
    requires 0 <= ls && ls + |o| <= |pos|
    requires forall t :: 0 <= t < |o| ==> 0 <= o[t] < |pos|
    ensures |p| == |pos|
    ensures forall k :: 0 <= k < |pos| && !(ls <= k < ls + |o|) ==> p[k] == pos[k]
    ensures forall t :: 0 <= t < |o| ==> p[ls + t] == pos[o[t]]
  {
    pos[..ls] + seq(|o|, t requires 0 <= t < |o| => pos[o[t]]) + pos[ls + |o|..]
  }

  /** A merge of two stable neighbouring runs that keeps ties in input order
      gives one stable run: equal elements from the same run keep that
      run's order, and every element of the left run came from before every
      element of the right run. */
  lemma MergeStableRange(b: seq<int>, pos: seq<int>, b': seq<int>, o: seq<int>, ls: int, mid: int, re: int)
    requires 0 <= ls <= mid <= re < |b| == |b'| && re < |pos|
    requires StableRange(b, pos, ls, mid + 1) && StableRange(b, pos, mid + 1, re + 1)
    requires |o| == re - ls + 1
    requires forall t :: 0 <= t < |o| ==> ls <= o[t] <= re && b'[ls + t] == b[o[t]]
    requires forall t1, t2 :: 0 <= t1 < t2 < |o| && b'[ls + t1] == b'[ls + t2] ==> o[t1] < o[t2]
    ensures StableRange(b', Relabel(pos, ls, o), ls, re + 1)
  {
    MergedInside(pos, o, ls, re);
    MergedOrdered(b, pos, b', o, ls, mid, re);
  }

  /** Every merged element came from a position inside [ls, re]. */
  lemma MergedInside(pos: seq<int>, o: seq<int>, ls: int, re: int)
    requires 0 <= ls <= re < |pos| && |o| == re - ls + 1
    requires forall t :: 0 <= t < |o| ==> ls <= o[t] <= re
    requires forall t :: ls <= t < re + 1 ==> ls <= pos[t] < re + 1
    ensures forall t :: ls <= t < re + 1 ==> ls <= Relabel(pos, ls, o)[t] < re + 1
  {
    var p := Relabel(pos, ls, o);
    forall t | ls <= t < re + 1
      ensures ls <= p[t] < re + 1
    {
      assert p[ls + (t - ls)] == pos[o[t - ls]];
    }
  }

  /** Equal merged elements are in input order. */
  lemma MergedOrdered(b: seq<int>, pos: seq<int>, b': seq<int>, o: seq<int>, ls: int, mid: int, re: int)
    requires 0 <= ls <= mid <= re < |b| == |b'| && re < |pos|
    requires StableRange(b, pos, ls, mid + 1) && StableRange(b, pos, mid + 1, re + 1)
    requires |o| == re - ls + 1
    requires forall t :: 0 <= t < |o| ==> ls <= o[t] <= re && b'[ls + t] == b[o[t]]
    requires forall t1, t2 :: 0 <= t1 < t2 < |o| && b'[ls + t1] == b'[ls + t2] ==> o[t1] < o[t2]
    ensures forall t1, t2 :: ls <= t1 < t2 < re + 1 && b'[t1] == b'[t2] ==>
              Relabel(pos, ls, o)[t1] < Relabel(pos, ls, o)[t2]
  {
    forall t1, t2 | ls <= t1 < t2 < re + 1 && b'[t1] == b'[t2]
      ensures Relabel(pos, ls, o)[t1] < Relabel(pos, ls, o)[t2]
    {
      MergedPairOrdered(b, pos, b', o, ls, mid, re, t1, t2);
    }
  }

  /** Two equal merged elements: either both came from the same run, which
      kept them in input order, or the first came from the left run. */
  lemma MergedPairOrdered(b: seq<int>, pos: seq<int>, b': seq<int>, o: seq<int>, ls: int, mid: int, re: int,
                          t1: int, t2: int)
    requires 0 <= ls <= mid <= re < |b| == |b'| && re < |pos|
    requires StableRange(b, pos, ls, mid + 1) && StableRange(b, pos, mid + 1, re + 1)
    requires |o| == re - ls + 1
    requires forall t :: 0 <= t < |o| ==> ls <= o[t] <= re && b'[ls + t] == b[o[t]]
    requires forall t1, t2 :: 0 <= t1 < t2 < |o| && b'[ls + t1] == b'[ls + t2] ==> o[t1] < o[t2]
    requires ls <= t1 < t2 < re + 1 && b'[t1] == b'[t2]
    ensures Relabel(pos, ls, o)[t1] < Relabel(pos, ls, o)[t2]
  {
    var p := Relabel(pos, ls, o);
    var o1, o2 := o[t1 - ls], o[t2 - ls];
    assert p[ls + (t1 - ls)] == pos[o1] && p[ls + (t2 - ls)] == pos[o2];
    assert b'[ls + (t1 - ls)] == b'[ls + (t2 - ls)];
    assert o1 < o2 && b[o1] == b[o2];
  }

  /** The two runs handed to merge at left_start == q * 2w are blocks 2q and
      2q + 1 of width w, so both are stable. */
  lemma RunsStable(b: seq<int>, pos: seq<int>, n: int, w: nat, q: nat, ls: int, mid: int, re: int)
    requires 0 < w && ls == Mul(q, 2 * w) && ls < n - 1 && n <= |b| && |pos| == n
    requires mid == Min(ls + w - 1, n - 1) && re == Min(ls + 2 * w - 1, n - 1)
    requires forall k: nat :: 2 * q <= k ==> BlockStable(b, pos, n, w, k)
    ensures StableRange(b, pos, ls, mid + 1) && StableRange(b, pos, mid + 1, re + 1)
  {
    MulDouble(q, w);
    BlockStableRange(b, pos, n, w, 2 * q, ls, mid + 1);
    if mid < re {
      assert Mul(2 * q + 1, w) == ls + w;
      BlockStableRange(b, pos, n, w, 2 * q + 1, mid + 1, re + 1);
    }
  }

  /** The merged slice [left_start, right_end] is block q of width 2w. */
  lemma RangeIsBlock(b: seq<int>, pos: seq<int>, n: int, w: nat, q: nat, ls: int, re: int)
    requires 0 < w && ls == Mul(q, 2 * w) && ls < n <= |b| && |pos| == n
    requires re == Min(ls + 2 * w - 1, n - 1)
    requires StableRange(b, pos, ls, re + 1)
    ensures BlockStable(b, pos, n, 2 * w, q)
  {
    assert Min(ls + 2 * w, n) == re + 1;
  }

  /** A block that starts before n is stable over its slice. */
  lemma BlockStableRange(b: seq<int>, pos: seq<int>, n: int, w: nat, k: nat, lo: int, hi: int)
    requires 0 < w && lo == Mul(k, w) && lo < n <= |b| && n <= |pos| && hi == Min(lo + w, n)
    requires BlockStable(b, pos, n, w, k)
    ensures StableRange(b, pos, lo, hi)
  {
  }

  /** After a merge of [ls, re], b' and the relabelled positions still say
      where each element came from, and nothing outside [ls, re] changed. */
  lemma RelabelTracks(a: seq<int>, b: seq<int>, pos: seq<int>, b': seq<int>, o: seq<int>, n: int, ls: int, re: int)
    requires 0 <= ls <= re < n <= |b|
    requires Tracks(a, b, n, pos)
    requires PermutesRange(b, b', ls, re + 1)
    requires |o| == re - ls + 1
    requires forall t :: 0 <= t < |o| ==> ls <= o[t] <= re && b'[ls + t] == b[o[t]]
    requires forall t1, t2 :: 0 <= t1 < t2 < |o| ==> o[t1] != o[t2]
    ensures Tracks(a, b', n, Relabel(pos, ls, o))
    ensures forall t :: 0 <= t < n && !(ls <= t < re + 1) ==> b'[t] == b[t] && Relabel(pos, ls, o)[t] == pos[t]
  {
    PermutesRangeOutside(b, b', ls, re + 1);
    var p := Relabel(pos, ls, o);
    forall k | 0 <= k < n
      ensures 0 <= p[k] < n && b'[k] == a[p[k]]
    {
      if ls <= k <= re {
        assert p[ls + (k - ls)] == pos[o[k - ls]];
        assert b'[ls + (k - ls)] == b[o[k - ls]];
      }
    }
    forall k1, k2 | 0 <= k1 < n && 0 <= k2 < n && k1 != k2
      ensures p[k1] != p[k2]
    {
      if ls <= k1 <= re && ls <= k2 <= re {
        assert p[ls + (k1 - ls)] == pos[o[k1 - ls]] && p[ls + (k2 - ls)] == pos[o[k2 - ls]];
        if k1 < k2 {
          assert o[k1 - ls] != o[k2 - ls];
        } else {
          assert o[k2 - ls] != o[k1 - ls];
        }
      } else if ls <= k1 <= re {
        assert p[ls + (k1 - ls)] == pos[o[k1 - ls]];
      } else if ls <= k2 <= re {
        assert p[ls + (k2 - ls)] == pos[o[k2 - ls]];
      }
    }
  }

  /** A block that lies wholly before or after the merged slice, where
      neither the elements nor their positions changed, stays stable. */
  lemma BlockStableKept(b: seq<int>, pos: seq<int>, b': seq<int>, pos': seq<int>,
                        n: int, w: nat, k: nat, lo: int, hi: int)
    requires 0 < w && 0 <= lo <= hi <= n <= |b| == |b'| && |pos| == |pos'| == n
    requires forall t :: 0 <= t < n && !(lo <= t < hi) ==> b'[t] == b[t] && pos'[t] == pos[t]
    requires Mul(k, w) + w <= lo || hi <= Mul(k, w)
    requires BlockStable(b, pos, n, w, k)
    ensures BlockStable(b', pos', n, w, k)
  {
    if Mul(k, w) < n {
      var x, y := Mul(k, w), Min(Mul(k, w) + w, n);
      assert forall t :: x <= t < y ==> b'[t] == b[t] && pos'[t] == pos[t];
    }
  }

  lemma StablesBeforeKept(b: seq<int>, pos: seq<int>, b': seq<int>, pos': seq<int>,
                          n: int, w: nat, q: nat, ls: int, re: int)
    requires 0 < w && ls == Mul(q, 2 * w) && ls <= re < n <= |b| == |b'| && |pos| == |pos'| == n
    requires forall k: nat :: k < q ==> BlockStable(b, pos, n, 2 * w, k)
    requires forall t :: 0 <= t < n && !(ls <= t < re + 1) ==> b'[t] == b[t] && pos'[t] == pos[t]
    requires BlockStable(b', pos', n, 2 * w, q)
    ensures forall k: nat :: k < q + 1 ==> BlockStable(b', pos', n, 2 * w, k)
  {
    forall k: nat | k < q
      ensures BlockStable(b', pos', n, 2 * w, k)
    {
      StableBeforeKept(b, pos, b', pos', n, w, q, ls, re, k);
    }
  }

  /** Block k < q of width 2w ends at or before left_start. */
  lemma StableBeforeKept(b: seq<int>, pos: seq<int>, b': seq<int>, pos': seq<int>,
                         n: int, w: nat, q: nat, ls: int, re: int, k: nat)
    requires 0 < w && ls == Mul(q, 2 * w) && ls <= re < n <= |b| == |b'| && |pos| == |pos'| == n
    requires k < q && BlockStable(b, pos, n, 2 * w, k)
    requires forall t :: 0 <= t < n && !(ls <= t < re + 1) ==> b'[t] == b[t] && pos'[t] == pos[t]
    ensures BlockStable(b', pos', n, 2 * w, k)
  {
    MulMono(k + 1, q, 2 * w);
    BlockStableKept(b, pos, b', pos', n, 2 * w, k, ls, re + 1);
  }

  lemma StablesAfterKept(b: seq<int>, pos: seq<int>, b': seq<int>, pos': seq<int>,
                         n: int, w: nat, q: nat, ls: int, re: int)
    requires 0 < w && ls == Mul(q, 2 * w) && ls <= re < n <= |b| == |b'| && |pos| == |pos'| == n
    requires re == Min(ls + 2 * w - 1, n - 1)
    requires forall k: nat :: 2 * q <= k ==> BlockStable(b, pos, n, w, k)
    requires forall t :: 0 <= t < n && !(ls <= t < re + 1) ==> b'[t] == b[t] && pos'[t] == pos[t]
    ensures forall k: nat :: 2 * (q + 1) <= k ==> BlockStable(b', pos', n, w, k)
  {
    MulDouble(q, w);
    assert Mul(2 * q + 2, w) == ls + 2 * w;
    forall k: nat | 2 * (q + 1) <= k
      ensures BlockStable(b', pos', n, w, k)
    {
      MulMono(2 * q + 2, k, w);
      BlockStableKept(b, pos, b', pos', n, w, k, ls, re + 1);
    }
  }

  /** One merge of the inner loop, at left_start == q * 2w, keeps track of
      where every element came from, makes block q of width 2w stable, and
      keeps the other blocks stable. */
  lemma MergeStepKeepsStable(a: seq<int>, b: seq<int>, pos: seq<int>, b': seq<int>, o: seq<int>,
                             n: int, w: nat, q: nat, ls: int, mid: int, re: int)
    requires 0 < w && ls == Mul(q, 2 * w) && ls < n - 1 && n <= |b|
    requires mid == Min(ls + w - 1, n - 1) && re == Min(ls + 2 * w - 1, n - 1)
    requires Tracks(a, b, n, pos)
    requires forall k: nat :: k < q ==> BlockStable(b, pos, n, 2 * w, k)
    requires forall k: nat :: 2 * q <= k ==> BlockStable(b, pos, n, w, k)
    requires PermutesRange(b, b', ls, re + 1)
    requires |o| == re - ls + 1
    requires forall t :: 0 <= t < |o| ==> ls <= o[t] <= re && b'[ls + t] == b[o[t]]
    requires forall t1, t2 :: 0 <= t1 < t2 < |o| ==> o[t1] != o[t2]
    requires forall t1, t2 :: 0 <= t1 < t2 < |o| && b'[ls + t1] == b'[ls + t2] ==> o[t1] < o[t2]
    ensures Tracks(a, b', n, Relabel(pos, ls, o))
    ensures forall k: nat :: k < q + 1 ==> BlockStable(b', Relabel(pos, ls, o), n, 2 * w, k)
    ensures forall k: nat :: 2 * (q + 1) <= k ==> BlockStable(b', Relabel(pos, ls, o), n, w, k)
  {
    RelabelTracks(a, b, pos, b', o, n, ls, re);
    RunsStable(b, pos, n, w, q, ls, mid, re);
    MergeStableRange(b, pos, b', o, ls, mid, re);
    RangeIsBlock(b', Relabel(pos, ls, o), n, w, q, ls, re);
    StablesBeforeKept(b, pos, b', Relabel(pos, ls, o), n, w, q, ls, re);
    StablesAfterKept(b, pos, b', Relabel(pos, ls, o), n, w, q, ls, re);
  }

  /** When left_start passes n - 1, every block of width 2w is stable: block
      q holds at most the last element, as block 2q of width w did. */
  lemma InnerDoneStable(b: seq<int>, pos: seq<int>, n: int, w: nat, q: nat, ls: int)
    requires 0 < w && ls == Mul(q, 2 * w) && n - 1 <= ls && n <= |b| && |pos| == n
    requires forall k: nat :: k < q ==> BlockStable(b, pos, n, 2 * w, k)
    requires forall k: nat :: 2 * q <= k ==> BlockStable(b, pos, n, w, k)
    ensures forall k: nat :: BlockStable(b, pos, n, 2 * w, k)
  {
    MulDouble(q, w);
    assert BlockStable(b, pos, n, w, 2 * q);
    forall k: nat | q <= k
      ensures BlockStable(b, pos, n, 2 * w, k)
    {
      if q < k {
        MulMono(q + 1, k, 2 * w);
      }
    }
  }

  /** Before the first pass every element is at its input position, and
      every block of width 1 is stable. */
  lemma BlocksOfOneStable(s: seq<int>, n: int)
    requires 0 <= n <= |s|
    ensures forall k: nat :: BlockStable(s, Identity(n), n, 1, k)
  {
    forall k: nat
      ensures BlockStable(s, Identity(n), n, 1, k)
    {
      MulOne(k);
    }
  }

  /** One pass of the outer loop of mergeSort at curr_size == c: the inner
      loop merges neighbouring blocks of width c into blocks of width 2c. */
  method MergePass(a: seq<int>, b0: seq<int>, pos0: seq<int>, n: int, c: nat) returns (b: seq<int>, pos: seq<int>)
    requires 0 < c && 0 <= n <= |a|
    requires PermutesRange(a, b0, 0, n) && Tracks(a, b0, n, pos0)
    requires forall k: nat :: BlockSorted(b0, n, c, k)
    requires forall k: nat :: BlockStable(b0, pos0, n, c, k)
    ensures PermutesRange(a, b, 0, n) && Tracks(a, b, n, pos)
    ensures forall k: nat :: BlockSorted(b, n, 2 * c, k)
    ensures forall k: nat :: BlockStable(b, pos, n, 2 * c, k)
  {
    b, pos := b0, pos0;
    var ls := 0;
    ghost var q: nat := 0;
    while ls < n - 1
      invariant ls == Mul(q, 2 * c)
      invariant PermutesRange(a, b, 0, n) && Tracks(a, b, n, pos)
      invariant forall k: nat :: k < q ==> BlockSorted(b, n, 2 * c, k)
      invariant forall k: nat :: 2 * q <= k ==> BlockSorted(b, n, c, k)
      invariant forall k: nat :: k < q ==> BlockStable(b, pos, n, 2 * c, k)
      invariant forall k: nat :: 2 * q <= k ==> BlockStable(b, pos, n, c, k)
      decreases n - ls
    {
      var mid := Min(ls + c - 1, n - 1);
      var re := Min(ls + 2 * c - 1, n - 1);
      ghost var before, posBefore := b, pos;
      var origin;
      b, origin := MergeRuns(b, ls, mid, re);
      MergedRunsSorted(before, n, c, q, ls, mid, re);
      pos := Relabel(pos, ls, origin);
      MergeStepKeepsBlocks(before, b, n, c, q, ls, mid, re);
      MergeStepKeepsStable(a, before, posBefore, b, origin, n, c, q, ls, mid, re);
      PermutesRangeWiden(before, b, ls, re + 1, 0, n);
      PermutesRangeTrans(a, before, b, 0, n);
      ls := ls + 2 * c;
      q := q + 1;
    }
    InnerDone(b, n, c, q, ls);
    InnerDoneStable(b, pos, n, c, q, ls);
  }

  /** mergeSort(arr, n): bottom-up merge sort of the first n elements.
      Widths curr_size = 1, 2, 4, ... while curr_size <= n - 1; for each,
      adjacent runs [left_start, mid] and [mid + 1, right_end] are merged.
      origin[k] is the input position of the element that ends at k:
      Tracks says every element came from a distinct input position, and
      StableRange over [0, n) is stability, equal elements keeping their
      input order. */
  method MergeSort(a: seq<int>, n: int) returns (b: seq<int>, origin: seq<int>)
    requires n <= |a|
    ensures |b| == |a|
    ensures n <= 1 ==> b == a
    ensures 0 <= n ==> PermutesRange(a, b, 0, n) && SortedRange(b, 0, n)
    ensures 0 <= n && SortedRange(a, 0, n) ==> b == a
    ensures 0 <= n ==> Tracks(a, b, n, origin) && StableRange(b, origin, 0, n)
  {
    b := a;
    if n < 0 {
      origin := [];
      return;
    }
    origin := Identity(n);
    SortStart(a, n);
    var c: nat := 1;
    while c <= n - 1
      invariant 1 <= c
      invariant n <= 1 ==> b == a
      invariant PermutesRange(a, b, 0, n) && Tracks(a, b, n, origin)
      invariant forall k: nat :: BlockSorted(b, n, c, k)
      invariant forall k: nat :: BlockStable(b, origin, n, c, k)
      decreases n - c
    {
      b, origin := MergePass(a, b, origin, n, c);
      c := 2 * c;
    }
    SortDone(a, b, n, c);
    StableDone(b, origin, n, c);
  }

  /** Before the first pass: nothing has moved, and blocks of width 1 are
      sorted and stable. */
  lemma SortStart(a: seq<int>, n: int)
    requires 0 <= n <= |a|
    ensures PermutesRange(a, a, 0, n) && Tracks(a, a, n, Identity(n))
    ensures forall k: nat :: BlockSorted(a, n, 1, k)
    ensures forall k: nat :: BlockStable(a, Identity(n), n, 1, k)
  {
    PermutesRangeRefl(a, 0, n);
    BlocksOfOne(a, n);
    BlocksOfOneStable(a, n);
  }

  /** Once curr_size exceeds n - 1, block 0 is all of [0, n): it is sorted,
      and a sorted input was never changed. */
  lemma SortDone(a: seq<int>, b: seq<int>, n: int, c: nat)
    requires 0 <= n <= |a| && n - 1 < c
    requires PermutesRange(a, b, 0, n)
    requires BlockSorted(b, n, c, 0)
    ensures SortedRange(b, 0, n)
    ensures SortedRange(a, 0, n) ==> b == a
  {
    if SortedRange(a, 0, n) {
      SortedPermutationIsIdentity(a, b, 0, n);
    }
  }

  /** Once curr_size exceeds n - 1, block 0 is all of [0, n), so all of
      [0, n) is stable. */
  lemma StableDone(b: seq<int>, origin: seq<int>, n: int, c: nat)
    requires 0 <= n <= |b| && |origin| == n && n - 1 < c
    requires BlockStable(b, origin, n, c, 0)
    ensures StableRange(b, origin, 0, n)
  {
  }
}
