/**
  The example runs in main of ParallelSorting.cpp.

  main fills arr with N = 7 random values and copies it into arr2 and then
  into arr3. It bubble-sorts arr and quicksorts arr3 over [0, n - 1]; arr2
  itself is never sorted. The merge sort runs on a separate literal array,
  arrMerge. `SortAll` states what the two sorts of the random array amount
  to on any input, and adds merge sort of the same array as a cross-check
  that main does not make: all three give the one sorted rearrangement.
  `BubbleExample`, `QuickExample` and `MergeExample` pin down the results
  on literal arrays.
*/
module Driver {
  import opened SortSpec
  import Bubble
  import Quick
  import Merge

  /** bubbleSort(arr, N) and quickSortIterative(arr3, 0, n - 1) on copies of
      one array of N elements, plus mergeSort of a third copy. main fixes
      N = 7, so the array is not empty, and the quicksort stack holds 100
      ints, so N is at most 100 here. */
  method SortAll(a: seq<int>) returns (bubble: seq<int>, quick: seq<int>, merge: seq<int>)
    requires 1 <= |a| <= Quick.StackCapacity
    ensures bubble == quick == merge
    ensures Sorted(bubble) && multiset(bubble) == multiset(a)
  {
    var passes;
    bubble, passes := Bubble.BubbleSort(a, |a|);
    var res := Quick.QuickSortIterative(a, 0, |a| - 1);
    quick := res.arr;
    var origin;
    merge, origin := Merge.MergeSort(a, |a|);
    AllAgree(a, bubble, quick, merge);
  }

  /** Three sorted rearrangements of the whole of a are one and the same. */
  lemma AllAgree(a: seq<int>, bubble: seq<int>, quick: seq<int>, merge: seq<int>)
    requires PermutesRange(a, bubble, 0, |a|) && SortedRange(bubble, 0, |a|)
    requires PermutesRange(a, quick, 0, |a|) && SortedRange(quick, 0, |a|)
    requires PermutesRange(a, merge, 0, |a|) && SortedRange(merge, 0, |a|)
    ensures bubble == quick == merge
    ensures Sorted(bubble) && multiset(bubble) == multiset(a)
  {
    SortsAgree(a, bubble, quick, 0, |a|);
    SortsAgree(a, bubble, merge, 0, |a|);
    assert a[0..|a|] == a && bubble[0..|bubble|] == bubble;
  }

  /** bubbleSort on {5, 1, 4, 2, 8}: sorted after at most four passes. */
  method BubbleExample() returns (r: seq<int>, passes: nat)
    ensures r == [1, 2, 4, 5, 8] && passes <= 4
  {
    var arr := [5, 1, 4, 2, 8];
    r, passes := Bubble.BubbleSort(arr, |arr|);
    FiveSorted(r);
  }

  /** quickSortIterative(temp, 0, 6) on the array temp declared in main. */
  method QuickExample() returns (res: Quick.QuickResult)
    ensures res == Quick.Done([2, 3, 3, 3, 4, 5, 11])
  {
    var temp := [4, 3, 5, 11, 3, 2, 3];
    res := Quick.QuickSortIterative(temp, 0, |temp| - 1);
    TempSorted(res.arr);
  }

  /** mergeSort(arrBuffer, 10) on arrMerge, the buffer of main. */
  method MergeExample() returns (b: seq<int>)
    ensures b == [1, 2, 5, 6, 7, 8, 9, 11, 12, 13]
  {
    var arrMerge := [12, 11, 13, 5, 6, 7, 9, 8, 1, 2];
    var origin;
    b, origin := Merge.MergeSort(arrMerge, |arrMerge|);
    ArrMergeSorted(b);
  }

  /** The only sorted rearrangement of {5, 1, 4, 2, 8}. */
  lemma FiveSorted(b: seq<int>)
    requires PermutesRange([5, 1, 4, 2, 8], b, 0, 5) && SortedRange(b, 0, 5)
    ensures b == [1, 2, 4, 5, 8]
  {
    FivePerm();
    SortedLiteral5();
    WholeSorted([5, 1, 4, 2, 8], b, [1, 2, 4, 5, 8]);
  }

  /** The only sorted rearrangement of temp. */
  lemma TempSorted(b: seq<int>)
    requires PermutesRange([4, 3, 5, 11, 3, 2, 3], b, 0, 7) && SortedRange(b, 0, 7)
    ensures b == [2, 3, 3, 3, 4, 5, 11]
  {
    TempPerm();
    SortedLiteral7();
    WholeSorted([4, 3, 5, 11, 3, 2, 3], b, [2, 3, 3, 3, 4, 5, 11]);
  }

  /** The only sorted rearrangement of arrMerge. */
  lemma ArrMergeSorted(b: seq<int>)
    requires PermutesRange([12, 11, 13, 5, 6, 7, 9, 8, 1, 2], b, 0, 10) && SortedRange(b, 0, 10)
    ensures b == [1, 2, 5, 6, 7, 8, 9, 11, 12, 13]
  {
    ArrMergePerm();
    SortedLiteral10();
    WholeSorted([12, 11, 13, 5, 6, 7, 9, 8, 1, 2], b, [1, 2, 5, 6, 7, 8, 9, 11, 12, 13]);
  }

  /** A whole-sequence rearrangement that is sorted is the sorted input. */
  lemma WholeSorted(a: seq<int>, b: seq<int>, expected: seq<int>)
    requires PermutesRange(a, b, 0, |a|) && SortedRange(b, 0, |a|)
    requires Sorted(expected) && multiset(expected) == multiset(a)
    ensures b == expected
  {
    assert a[0..|a|] == a && b[0..|b|] == b;
    SortedUnique(b, expected);
  }

  /** t is s with the elements at i and j exchanged, so it holds the same
      elements; each step below is one exchange of the selection order. */
  lemma SwapStep(s: seq<int>, i: int, j: int, t: seq<int>)
    requires 0 <= i < |s| && 0 <= j < |s|
    requires t == s[i := s[j]][j := s[i]]
    ensures multiset(t) == multiset(s)
  {
    assert t == Swap(s, i, j);
  }

  lemma SortedLiteral5()
    ensures Sorted([1, 2, 4, 5, 8])
  {
  }

  lemma SortedLiteral7()
    ensures Sorted([2, 3, 3, 3, 4, 5, 11])
  {
  }

  lemma SortedLiteral10()
    ensures Sorted([1, 2, 5, 6, 7, 8, 9, 11, 12, 13])
  {
  }

  /** {5, 1, 4, 2, 8} and its sorted arrangement hold the same elements. */
  lemma FivePerm()
    ensures multiset([1, 2, 4, 5, 8]) == multiset([5, 1, 4, 2, 8])
  {
  }

  /** temp and its sorted arrangement hold the same elements. */
  lemma TempPerm()
    ensures multiset([2, 3, 3, 3, 4, 5, 11]) == multiset([4, 3, 5, 11, 3, 2, 3])
  {
  }

  /** arrMerge and its sorted arrangement hold the same elements: seven
      exchanges lead from one to the other. */
  lemma ArrMergePerm()
    ensures multiset([1, 2, 5, 6, 7, 8, 9, 11, 12, 13]) == multiset([12, 11, 13, 5, 6, 7, 9, 8, 1, 2])
  {
    ArrMergeSwap1(); ArrMergeSwap2(); ArrMergeSwap3(); ArrMergeSwap4(); ArrMergeSwap5(); ArrMergeSwap6(); ArrMergeSwap7();
  }

  lemma ArrMergeSwap1()
    ensures multiset([1, 11, 13, 5, 6, 7, 9, 8, 12, 2]) == multiset([12, 11, 13, 5, 6, 7, 9, 8, 1, 2])
  {
    SwapStep([12, 11, 13, 5, 6, 7, 9, 8, 1, 2], 0, 8, [1, 11, 13, 5, 6, 7, 9, 8, 12, 2]);
  }

  lemma ArrMergeSwap2()
    ensures multiset([1, 2, 13, 5, 6, 7, 9, 8, 12, 11]) == multiset([1, 11, 13, 5, 6, 7, 9, 8, 12, 2])
  {
    SwapStep([1, 11, 13, 5, 6, 7, 9, 8, 12, 2], 1, 9, [1, 2, 13, 5, 6, 7, 9, 8, 12, 11]);
  }

  lemma ArrMergeSwap3()
    ensures multiset([1, 2, 5, 13, 6, 7, 9, 8, 12, 11]) == multiset([1, 2, 13, 5, 6, 7, 9, 8, 12, 11])
  {
    SwapStep([1, 2, 13, 5, 6, 7, 9, 8, 12, 11], 2, 3, [1, 2, 5, 13, 6, 7, 9, 8, 12, 11]);
  }

  lemma ArrMergeSwap4()
    ensures multiset([1, 2, 5, 6, 13, 7, 9, 8, 12, 11]) == multiset([1, 2, 5, 13, 6, 7, 9, 8, 12, 11])
  {
    SwapStep([1, 2, 5, 13, 6, 7, 9, 8, 12, 11], 3, 4, [1, 2, 5, 6, 13, 7, 9, 8, 12, 11]);
  }

  lemma ArrMergeSwap5()
    ensures multiset([1, 2, 5, 6, 7, 13, 9, 8, 12, 11]) == multiset([1, 2, 5, 6, 13, 7, 9, 8, 12, 11])
  {
    SwapStep([1, 2, 5, 6, 13, 7, 9, 8, 12, 11], 4, 5, [1, 2, 5, 6, 7, 13, 9, 8, 12, 11]);
  }

  lemma ArrMergeSwap6()
    ensures multiset([1, 2, 5, 6, 7, 8, 9, 13, 12, 11]) == multiset([1, 2, 5, 6, 7, 13, 9, 8, 12, 11])
  {
    SwapStep([1, 2, 5, 6, 7, 13, 9, 8, 12, 11], 5, 7, [1, 2, 5, 6, 7, 8, 9, 13, 12, 11]);
  }

  lemma ArrMergeSwap7()
    ensures multiset([1, 2, 5, 6, 7, 8, 9, 11, 12, 13]) == multiset([1, 2, 5, 6, 7, 8, 9, 13, 12, 11])
  {
    SwapStep([1, 2, 5, 6, 7, 8, 9, 13, 12, 11], 7, 9, [1, 2, 5, 6, 7, 8, 9, 11, 12, 13]);
  }
}
