/**
  Lomuto partition and the iterative quicksort built on it
  (partition and quickSortIterative in ParallelSorting.cpp).

  The recursion of quicksort is replaced by an explicit stack of pending
  index ranges (lo, hi). The source keeps it in a fixed `int stack[100]`,
  two ints per range, so at most 50 ranges fit; writing past the end is
  undefined behaviour there, and here it is reported as `StackOverflow`.
*/
module Quick {
  import opened SortSpec

  /** Ints the source's stack array can hold (two per pending range). */
  const StackCapacity: int := 100

  datatype QuickError = OutOfBounds | StackOverflow

  datatype QuickResult = Done(arr: seq<int>) | Fault(error: QuickError)

  type Range = (int, int)

  /** Lomuto partition of s[l..h] around the pivot s[h]: elements <= pivot
      move to the front, the pivot lands at p just after them, and everything
      after p is strictly greater than it. */
  method Partition(s: seq<int>, l: int, h: int) returns (r: seq<int>, p: int)
    requires 0 <= l <= h < |s|
    ensures |r| == |s|
    ensures l <= p <= h
    ensures r[p] == s[h]
    ensures forall k :: l <= k < p ==> r[k] <= r[p]
    ensures forall k :: p < k <= h ==> r[k] > r[p]
    ensures PermutesRange(s, r, l, h + 1)
  {
    var i;
    r, i := PartitionScan(s, l, h);
    PartitionPivot(s, r, Swap(r, i + 1, h), l, h, i);
    r := Swap(r, i + 1, h);
    p := i + 1;
  }

  /** The loop of partition: j scans [l, h) and every element <= the pivot
      arr[h] is swapped to the end of the "<= pivot" prefix [l, i]. */
  method PartitionScan(s: seq<int>, l: int, h: int) returns (r: seq<int>, i: int)
    requires 0 <= l <= h < |s|
    ensures ScanState(s, r, l, h, i, h)
  {
    var x := s[h];
    i := l - 1;
    r := s;
    var j := l;
    while j <= h - 1
      invariant l <= j <= h
      invariant ScanState(s, r, l, h, i, j)
    {
      if r[j] <= x {
        ScanSwap(s, r, l, h, i, j);
        i := i + 1;
        r := Swap(r, i, j);
      } else {
        ScanSkip(s, r, l, h, i, j);
      }
      j := j + 1;
    }
  }

  /** After partition's loop has looked at [l, j): r is a rearrangement of s
      that moved nothing outside [l, h), the elements in [l, i] are <= the
      pivot s[h] and those in (i, j) are larger. */
  predicate ScanState(s: seq<int>, r: seq<int>, l: int, h: int, i: int, j: int) {
    && 0 <= l <= j <= h < |s|
    && l - 1 <= i < j
    && |r| == |s| && multiset(r) == multiset(s)
    && (forall k :: 0 <= k < l ==> r[k] == s[k])
    && (forall k :: h <= k < |s| ==> r[k] == s[k])
    && (forall k :: l <= k <= i ==> r[k] <= s[h])
    && (forall k :: i < k < j ==> r[k] > s[h])
  }

  /** arr[j] <= pivot: i++ and swap(&arr[i], &arr[j]). */
  lemma ScanSwap(s: seq<int>, r: seq<int>, l: int, h: int, i: int, j: int)
    requires ScanState(s, r, l, h, i, j) && j < h && r[j] <= s[h]
    ensures ScanState(s, Swap(r, i + 1, j), l, h, i + 1, j + 1)
  {
    PartitionSwap(r, Swap(r, i + 1, j), l, i, j, s[h]);
  }

  /** The effect of that swap on the two sides. */
  lemma PartitionSwap(r: seq<int>, r': seq<int>, l: int, i: int, j: int, x: int)
    requires 0 <= l && l - 1 <= i < j < |r| && r[j] <= x
    requires r' == Swap(r, i + 1, j)
    requires forall k :: l <= k <= i ==> r[k] <= x
    requires forall k :: i < k < j ==> r[k] > x
    ensures forall k :: l <= k <= i + 1 ==> r'[k] <= x
    ensures forall k :: i + 1 < k <= j ==> r'[k] > x
  {
  }

  /** arr[j] > pivot: the "> pivot" side grows by one. */
  lemma ScanSkip(s: seq<int>, r: seq<int>, l: int, h: int, i: int, j: int)
    requires ScanState(s, r, l, h, i, j) && j < h && r[j] > s[h]
    ensures ScanState(s, r, l, h, i, j + 1)
  {
  }

  /** The final swap(&arr[i + 1], &arr[h]) puts the pivot between the two
      sides and completes a rearrangement of s[l..h]. */
  lemma PartitionPivot(s: seq<int>, r: seq<int>, r': seq<int>, l: int, h: int, i: int)
    requires ScanState(s, r, l, h, i, h)
    requires r' == Swap(r, i + 1, h)
    ensures r'[i + 1] == s[h]
    ensures forall k :: l <= k < i + 1 ==> r'[k] <= s[h]
    ensures forall k :: i + 1 < k <= h ==> r'[k] > s[h]
    ensures PermutesRange(s, r', l, h + 1)
  {
    SwapInsideFrame(s, r, r', l, h, i + 1);
  }

  /** Swapping position h with a position in [l, h] of a sequence that
      already differs from s only inside [l, h) gives a rearrangement of
      s[l..h]. */
  lemma SwapInsideFrame(s: seq<int>, r: seq<int>, r': seq<int>, l: int, h: int, q: int)
    requires 0 <= l <= q <= h < |s| == |r|
    requires multiset(r) == multiset(s)
    requires forall k :: 0 <= k < l ==> r[k] == s[k]
    requires forall k :: h < k < |s| ==> r[k] == s[k]
    requires r' == Swap(r, q, h)
    ensures PermutesRange(s, r', l, h + 1)
  {
    assert r'[..l] == s[..l];
    assert r'[h + 1..] == s[h + 1..];
    SameMultisetPermutesRange(s, r', l, h + 1);
  }

  /** Every pending range lies inside [l, h] and is not empty. */
  predicate RangesWithin(stack: seq<Range>, l: int, h: int) {
    forall t :: 0 <= t < |stack| ==> l <= stack[t].0 <= stack[t].1 <= h
  }

  /** Pending ranges are laid out left to right from the bottom of the stack
      to its top; in particular they are pairwise disjoint. */
  predicate Ordered(stack: seq<Range>) {
    forall t1, t2 :: 0 <= t1 < t2 < |stack| ==> stack[t1].1 < stack[t2].0
  }

  /** Every pending range holds at least two elements. */
  predicate AllProper(stack: seq<Range>) {
    forall t :: 0 <= t < |stack| ==> stack[t].0 < stack[t].1
  }

  /** Some pending range contains both i and j. */
  predicate Together(stack: seq<Range>, i: int, j: int) {
    |stack| > 0 &&
    ((stack[|stack| - 1].0 <= i && j <= stack[|stack| - 1].1) || Together(stack[..|stack| - 1], i, j))
  }

  /** Any two positions of [l, h] that no pending range holds together are
      already in order: what remains to sort lies inside the pending ranges. */
  predicate SortedOutside(r: seq<int>, stack: seq<Range>, l: int, h: int)
    requires 0 <= l && h < |r|
  {
    forall i, j {:trigger Together(stack, i, j)} :: l <= i < j <= h && !Together(stack, i, j) ==> r[i] <= r[j]
  }

  /** With no range pending, all of [l, h] is in order. */
  lemma SortedWhenEmpty(r: seq<int>, l: int, h: int)
    requires 0 <= l <= h + 1 && h < |r|
    requires SortedOutside(r, [], l, h)
    ensures SortedRange(r, l, h + 1)
  {
    forall i, j | l <= i < j < h + 1
      ensures r[i] <= r[j]
    {
      assert !Together([], i, j);
    }
  }

  /** Total number of positions covered by the pending ranges. */
  function Weight(stack: seq<Range>): int {
    if |stack| == 0 then 0
    else Weight(stack[..|stack| - 1]) + (stack[|stack| - 1].1 - stack[|stack| - 1].0 + 1)
  }

  lemma TogetherPush(stack: seq<Range>, x: Range, i: int, j: int)
    ensures Together(stack + [x], i, j) <==> Together(stack, i, j) || (x.0 <= i && j <= x.1)
  {
    assert (stack + [x])[..|stack|] == stack;
  }

  lemma WeightPush(stack: seq<Range>, x: Range)
    ensures Weight(stack + [x]) == Weight(stack) + (x.1 - x.0 + 1)
  {
    assert (stack + [x])[..|stack|] == stack;
  }

  lemma {:induction false} WeightNonNegative(stack: seq<Range>)
    requires forall t :: 0 <= t < |stack| ==> stack[t].0 <= stack[t].1
    ensures Weight(stack) >= 0
  {
    if |stack| > 0 {
      WeightNonNegative(stack[..|stack| - 1]);
    }
  }

  /** No pending range can hold j together with anything when every range
      ends before j. */
  lemma {:induction false} NotTogetherPast(stack: seq<Range>, i: int, j: int)
    requires forall t :: 0 <= t < |stack| ==> stack[t].1 < j
    ensures !Together(stack, i, j)
  {
    if |stack| > 0 {
      NotTogetherPast(stack[..|stack| - 1], i, j);
    }
  }

  /** Ordered ranges of at least two elements inside [lo, hi] number at most
      half its length: this is what keeps the fixed stack from overflowing. */
  lemma {:induction false} StackBound(stack: seq<Range>, lo: int, hi: int)
    requires lo <= hi + 1
    requires Ordered(stack) && AllProper(stack) && RangesWithin(stack, lo, hi)
    ensures 2 * |stack| <= hi - lo + 1
  {
    if |stack| > 0 {
      var last := stack[|stack| - 1];
      var rest := stack[..|stack| - 1];
      assert forall t :: 0 <= t < |rest| ==> rest[t] == stack[t];
      assert Ordered(rest) && AllProper(rest);
      assert RangesWithin(rest, lo, last.0 - 1);
      StackBound(rest, lo, last.0 - 1);
      assert lo <= last.0 < last.1 <= hi;
    }
  }

  /** One iteration of the main loop keeps the positions outside the pending
      ranges in order: the popped range (lo, hi) was partitioned at p and its
      two sides, where they hold at least two elements, were pushed back. */
  lemma StepKeepsSortedOutside(before: seq<int>, r: seq<int>, rest: seq<Range>, next: seq<Range>,
                               l: int, h: int, lo: int, hi: int, p: int)
    requires 0 <= l <= lo <= p <= hi <= h < |before|
    requires PermutesRange(before, r, lo, hi + 1)
    requires forall k :: lo <= k < p ==> r[k] <= r[p]
    requires forall k :: p < k <= hi ==> r[k] > r[p]
    requires forall t :: 0 <= t < |rest| ==> rest[t].1 < lo
    requires SortedOutside(before, rest + [(lo, hi)], l, h)
    requires next == rest + (if p - 1 > lo then [(lo, p - 1)] else [])
                          + (if p + 1 < hi then [(p + 1, hi)] else [])
    ensures SortedOutside(r, next, l, h)
  {
    forall i, j | l <= i < j <= h && !Together(next, i, j)
      ensures r[i] <= r[j]
    {
      var mid := rest + (if p - 1 > lo then [(lo, p - 1)] else []);
      if p - 1 > lo {
        TogetherPush(rest, (lo, p - 1), i, j);
      } else {
        assert mid == rest;
      }
      if p + 1 < hi {
        TogetherPush(mid, (p + 1, hi), i, j);
      } else {
        assert next == mid;
      }
      assert !Together(rest, i, j);
      OutsidePair(before, r, rest, l, h, lo, hi, p, i, j);
    }
  }

  /** The case analysis behind StepKeepsSortedOutside, for one pair i < j. */
  lemma OutsidePair(before: seq<int>, r: seq<int>, rest: seq<Range>,
                    l: int, h: int, lo: int, hi: int, p: int, i: int, j: int)
    requires 0 <= l <= lo <= p <= hi <= h < |before|
    requires PermutesRange(before, r, lo, hi + 1)
    requires forall k :: lo <= k < p ==> r[k] <= r[p]
    requires forall k :: p < k <= hi ==> r[k] > r[p]
    requires forall t :: 0 <= t < |rest| ==> rest[t].1 < lo
    requires SortedOutside(before, rest + [(lo, hi)], l, h)
    requires l <= i < j <= h && !Together(rest, i, j)
    requires !(p - 1 > lo && lo <= i && j <= p - 1)
    requires !(p + 1 < hi && p + 1 <= i && j <= hi)
    ensures r[i] <= r[j]
  {
    PermutesRangeOutside(before, r, lo, hi + 1);
    if lo <= i && j <= hi {
      // Both inside the partitioned range, on different sides of p (or at p).
      assert i <= p <= j;
    } else if i < lo && lo <= j <= hi {
      BeforeRange(before, r, rest, l, h, lo, hi, i);
    } else if lo <= i <= hi && hi < j {
      AfterRange(before, r, rest, l, h, lo, hi, j);
    } else {
      TogetherPush(rest, (lo, hi), i, j);
      assert !Together(rest + [(lo, hi)], i, j);
      assert before[i] <= before[j];
    }
  }

  /** A position i before the popped range stays below every element of it. */
  lemma BeforeRange(before: seq<int>, r: seq<int>, rest: seq<Range>,
                    l: int, h: int, lo: int, hi: int, i: int)
    requires 0 <= l <= i < lo <= hi <= h < |before|
    requires PermutesRange(before, r, lo, hi + 1)
    requires forall t :: 0 <= t < |rest| ==> rest[t].1 < lo
    requires SortedOutside(before, rest + [(lo, hi)], l, h)
    ensures forall k :: lo <= k <= hi ==> before[i] <= r[k]
  {
    forall k | lo <= k <= hi
      ensures before[i] <= before[k]
    {
      NotTogetherPast(rest, i, k);
      TogetherPush(rest, (lo, hi), i, k);
      assert !Together(rest + [(lo, hi)], i, k);
    }
    PermPreservesLowerBound(before, r, lo, hi + 1, before[i]);
  }

  /** A position j after the popped range stays above every element of it. */
  lemma AfterRange(before: seq<int>, r: seq<int>, rest: seq<Range>,
                   l: int, h: int, lo: int, hi: int, j: int)
    requires 0 <= l <= lo <= hi < j <= h < |before|
    requires PermutesRange(before, r, lo, hi + 1)
    requires forall t :: 0 <= t < |rest| ==> rest[t].1 < lo
    requires SortedOutside(before, rest + [(lo, hi)], l, h)
    ensures forall k :: lo <= k <= hi ==> r[k] <= before[j]
  {
    forall k | lo <= k <= hi
      ensures before[k] <= before[j]
    {
      NotTogetherPast(rest, k, j);
      TogetherPush(rest, (lo, hi), k, j);
      assert !Together(rest + [(lo, hi)], k, j);
    }
    PermPreservesUpperBound(before, r, lo, hi + 1, before[j]);
  }

  /** The loop invariant of quickSortIterative: r rearranges only s[l..h], the
      pending ranges are ordered, inside [l, h] and (unless [l, h] has a single
      element) at least two elements long, and everything they do not hold
      together is already in order. */
  predicate LoopInvariant(s: seq<int>, r: seq<int>, stack: seq<Range>, l: int, h: int)
    requires 0 <= l <= h < |s|
  {
    && PermutesRange(s, r, l, h + 1)
    && RangesWithin(stack, l, h) && Ordered(stack)
    && (l < h ==> AllProper(stack))
    && SortedOutside(r, stack, l, h)
  }

  /** One iteration of the main loop: pop (lo, hi), partition it at p, push
      (lo, p - 1) when p - 1 > lo and then (p + 1, hi) when p + 1 < hi.
      A push beyond the stack's capacity is reported as overflow, which only
      a slice longer than the capacity can cause. */
  method QuickStep(s: seq<int>, r: seq<int>, stack: seq<Range>, l: int, h: int)
    returns (r': seq<int>, stack': seq<Range>, overflow: bool)
    requires 0 <= l <= h < |s|
    requires |stack| > 0 && LoopInvariant(s, r, stack, l, h)
    ensures overflow ==> h - l + 1 > StackCapacity
    ensures !overflow ==> LoopInvariant(s, r', stack', l, h)
    ensures !overflow ==> 0 <= Weight(stack') < Weight(stack)
  {
    var top := stack[|stack| - 1];
    var rest := stack[..|stack| - 1];
    PopSplit(stack);
    PopShape(stack, l, h);
    PopWeight(stack);
    var lo, hi := top.0, top.1;

    var p;
    r', p := Partition(r, lo, hi);
    stack', overflow := PushSides(rest, l, h, lo, hi, p);
    if !overflow {
      StepPermutes(s, r, r', l, h, lo, hi);
      StepKeepsSortedOutside(r, r', rest, stack', l, h, lo, hi, p);
      WeightNonNegative(stack');
    }
  }

  /** Partitioning a pending range keeps r a rearrangement of s[l..h]. */
  lemma StepPermutes(s: seq<int>, r: seq<int>, r': seq<int>, l: int, h: int, lo: int, hi: int)
    requires 0 <= l <= lo <= hi <= h < |s|
    requires PermutesRange(s, r, l, h + 1) && PermutesRange(r, r', lo, hi + 1)
    ensures PermutesRange(s, r', l, h + 1)
  {
    PermutesRangeWiden(r, r', lo, hi + 1, l, h + 1);
    PermutesRangeTrans(s, r, r', l, h + 1);
  }

  /** The pushes that end an iteration, after (lo, hi) was popped from the
      stack and partitioned at p: (lo, p - 1) when p - 1 > lo, then
      (p + 1, hi) when p + 1 < hi. */
  method PushSides(rest: seq<Range>, l: int, h: int, lo: int, hi: int, p: int)
    returns (stack': seq<Range>, overflow: bool)
    requires l <= lo <= p <= hi <= h
    requires RangesWithin(rest, l, h) && Ordered(rest)
    requires l < h ==> AllProper(rest)
    requires forall t :: 0 <= t < |rest| ==> rest[t].1 < lo
    ensures overflow ==> h - l + 1 > StackCapacity
    ensures !overflow ==> stack' == rest + (if p - 1 > lo then [(lo, p - 1)] else [])
                                         + (if p + 1 < hi then [(p + 1, hi)] else [])
    ensures !overflow ==> RangesWithin(stack', l, h) && Ordered(stack')
    ensures !overflow && l < h ==> AllProper(stack')
    ensures !overflow ==> Weight(stack') <= Weight(rest) + (hi - lo)
  {
    stack' := rest;
    overflow := false;
    if p - 1 > lo {
      stack', overflow := Push(stack', (lo, p - 1), l, h);
      if overflow {
        return;
      }
    }
    ghost var mid := stack';
    assert forall t :: 0 <= t < |mid| ==> mid[t].1 < p;
    if p + 1 < hi {
      stack', overflow := Push(stack', (p + 1, hi), l, h);
      if overflow {
        return;
      }
    }
  }

  /** `stack[++top] = x.0; stack[++top] = x.1`: pushes a range of at least two
      elements that lies after every pending one, unless the fixed stack is
      full; a full stack is only possible for a slice longer than the
      capacity. */
  method Push(stack: seq<Range>, x: Range, l: int, h: int) returns (stack': seq<Range>, overflow: bool)
    requires RangesWithin(stack, l, h) && Ordered(stack) && AllProper(stack)
    requires l <= x.0 < x.1 <= h
    requires forall t :: 0 <= t < |stack| ==> stack[t].1 < x.0
    ensures overflow <==> 2 * |stack| + 2 > StackCapacity
    ensures overflow ==> h - l + 1 > StackCapacity
    ensures !overflow ==> stack' == stack + [x]
    ensures RangesWithin(stack', l, h) && Ordered(stack') && AllProper(stack')
    ensures !overflow ==> Weight(stack') == Weight(stack) + (x.1 - x.0 + 1)
  {
    PushShape(stack, x, l, h);
    StackBound(stack + [x], l, h);
    if 2 * |stack| + 2 > StackCapacity {
      return stack, true;
    }
    WeightPush(stack, x);
    return stack + [x], false;
  }

  /** Popping the top range leaves a stack of the same shape whose ranges all
      end before the popped one starts. */
  lemma PopShape(stack: seq<Range>, l: int, h: int)
    requires |stack| > 0 && RangesWithin(stack, l, h) && Ordered(stack)
    ensures var rest := stack[..|stack| - 1];
      && RangesWithin(rest, l, h) && Ordered(rest)
      && (AllProper(stack) ==> AllProper(rest) && stack[|stack| - 1].0 < stack[|stack| - 1].1)
      && (forall t :: 0 <= t < |rest| ==> rest[t].1 < stack[|stack| - 1].0)
  {
    var rest := stack[..|stack| - 1];
    assert forall t :: 0 <= t < |rest| ==> rest[t] == stack[t];
  }

  /** The stack is what remains after the pop with the popped range on top. */
  lemma PopSplit(stack: seq<Range>)
    requires |stack| > 0
    ensures stack == stack[..|stack| - 1] + [stack[|stack| - 1]]
  {
  }

  /** Popping the top range removes its size from the weight. */
  lemma PopWeight(stack: seq<Range>)
    requires |stack| > 0
    requires forall t :: 0 <= t < |stack| ==> stack[t].0 <= stack[t].1
    ensures Weight(stack) == Weight(stack[..|stack| - 1]) + (stack[|stack| - 1].1 - stack[|stack| - 1].0 + 1)
    ensures Weight(stack[..|stack| - 1]) >= 0
  {
    WeightNonNegative(stack[..|stack| - 1]);
  }

  /** Pushing a range of at least two elements that lies in [l, h] after every
      pending range keeps the stack's shape. */
  lemma PushShape(stack: seq<Range>, x: Range, l: int, h: int)
    requires RangesWithin(stack, l, h) && Ordered(stack) && AllProper(stack)
    requires l <= x.0 < x.1 <= h
    requires forall t :: 0 <= t < |stack| ==> stack[t].1 < x.0
    ensures RangesWithin(stack + [x], l, h) && Ordered(stack + [x]) && AllProper(stack + [x])
  {
  }

  /** quickSortIterative(arr, l, h): sorts s[l..h] using the explicit stack.
      The first iteration always partitions (l, h), so indices outside the
      array are a fault, and for l > h that partition is a single
      swap(&arr[l], &arr[h]) after which nothing is pushed. */
  method QuickSortIterative(s: seq<int>, l: int, h: int) returns (res: QuickResult)
    ensures res == Fault(OutOfBounds) <==> !(0 <= l < |s| && 0 <= h < |s|)
    ensures 0 <= h < l < |s| ==> res.Done? && res.arr == Swap(s, l, h)
    ensures 0 <= l <= h < |s| && h - l + 1 <= StackCapacity ==> res.Done?
    ensures res.Done? && l <= h ==> PermutesRange(s, res.arr, l, h + 1) && SortedRange(res.arr, l, h + 1)
    ensures res.Done? && l <= h && SortedRange(s, l, h + 1) ==> res.arr == s
  {
    if !(0 <= l < |s| && 0 <= h < |s|) {
      return Fault(OutOfBounds);
    }
    if l > h {
      return Done(Swap(s, l, h));
    }
    var r := s;
    PermutesRangeRefl(s, l, h + 1);
    var stack: seq<Range> := [(l, h)];
    while |stack| > 0
      invariant |r| == |s|
      invariant LoopInvariant(s, r, stack, l, h)
      invariant Weight(stack) >= 0
      decreases Weight(stack)
    {
      var overflow;
      r, stack, overflow := QuickStep(s, r, stack, l, h);
      if overflow {
        return Fault(StackOverflow);
      }
    }
    res := Done(r);
    SortedWhenEmpty(r, l, h);
    if SortedRange(s, l, h + 1) {
      SortedPermutationIsIdentity(s, r, l, h + 1);
    }
  }

  /** quickSortIterative as written, on the empty range (1, 0) of the sorted
      array {1, 2}: the partition of the empty range exchanges arr[1] and
      arr[0] and leaves the array out of order. */
  method EmptyRangeUnsorts() returns (res: QuickResult)
    ensures res == Done([2, 1])
  {
    res := QuickSortIterative([1, 2], 1, 0);
  }

  /** quickSortIterative with the empty range left alone: for l > h nothing
      is read or written, so an empty range, including (0, -1) for an empty
      array, is sorted as it is. Non-empty ranges go through the iterative
      sort unchanged. */
  method QuickSortRange(s: seq<int>, l: int, h: int) returns (res: QuickResult)
    ensures l > h ==> res == Done(s)
    ensures res == Fault(OutOfBounds) <==> l <= h && !(0 <= l && h < |s|)
    ensures 0 <= l <= h < |s| && h - l + 1 <= StackCapacity ==> res.Done?
    ensures res.Done? && l <= h ==> PermutesRange(s, res.arr, l, h + 1) && SortedRange(res.arr, l, h + 1)
    ensures res.Done? && (l > h || SortedRange(s, l, h + 1)) ==> res.arr == s
  {
    if l > h {
      return Done(s);
    }
    res := QuickSortIterative(s, l, h);
  }
}
