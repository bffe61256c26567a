# Parallel sorting sample: the three integer sorts

ParallelSorting.cpp is a SYCL sample that sorts small `int` arrays with three
classical in-place sorts:

- an optimised bubble sort that stops after a pass without swaps;
- a Lomuto partition driving an iterative quicksort, whose recursion is
  replaced by a fixed `int stack[100]` of pending `(l, h)` index pairs;
- a bottom-up merge sort whose merge copies the two runs into temporaries and
  writes them back with a two-pointer merge that takes the left run's element
  on ties.

Bubble sort and quicksort are called inside `parallel_for` kernels on the
default queue, over shared memory. Merge sort runs on the host through a
host accessor to a buffer; the gpu queue created next to it is never used.

This project models those sorts in Dafny and proves what they promise.

Arrays are modelled as values. An array or SYCL buffer is the `seq<int>` of
its contents, and each routine takes the contents before the call and
returns the contents after it. The loops follow the C++ loops one for one.
They are split into methods and step lemmas where a loop body does several
things.

The modules are:

- `SortSpec` (sort_spec.dfy) holds the shared vocabulary:
  - `SortedRange`;
  - `PermutesRange`, which says only a slice is rearranged and everything
    outside it is unchanged;
  - `Swap`;
  - the fact that a multiset has exactly one sorted arrangement.
- `Bubble` (bubble_sort.dfy) models `bubbleSort`.
- `Quick` (quick_sort.dfy) models `partition` and `quickSortIterative`.
- `Merge` (merge_sort.dfy) models `merge` and `mergeSort`.
- `Driver` (driver.dfy) models the example calls in `main`.

The merge also returns `origin`, the input index of every element it wrote,
so that stability can be stated. Ties go to the left run, so equal elements
keep their input order. The merge sort composes these origins pass by pass
and returns, for every final position, the input position its element came
from; equal elements of the result appear in increasing order of input
position.

The iterative quicksort's proof rests on two invariants of the stack:

- The pending ranges are ordered left to right inside `[l, h]`. When
  `l < h` they hold at least two elements each; for `l == h` the first
  stack holds the single range `(l, l)`.
- Any two positions that no pending range holds together are already in
  order.

The first invariant also bounds the stack: a slice of at most 100 elements
never fills the 100-int stack.

## Model

| member | source | states |
|---|---|---|
| SortSpec.Swap | ParallelSorting.cpp:68-73 | the two positions exchange their elements; every other position and the multiset of elements stay the same |
| SortSpec.SwapTwice | ParallelSorting.cpp:68-73 | swap is its own inverse: swapping the same pair twice restores the array |
| SortSpec.SortsAgree | ParallelSorting.cpp:207-231 | two sorts that each return a sorted rearrangement of the same slice return the same array, which is why main's bubble-sorted arr and quicksorted arr3, both copies of one random array, end up identical |
| Bubble.PassSwap | ParallelSorting.cpp:51-54 | swapping an out-of-order pair keeps the pass state: the window maximum moves one step right, the multiset is kept, and the pass is marked as having swapped because the input window was unsorted |
| Bubble.PassSkip | ParallelSorting.cpp:50-51 | an in-order pair keeps the pass state; without earlier swaps it extends the sorted prefix of the input by one |
| Bubble.BubblePass | ParallelSorting.cpp:49-55 | one inner pass rearranges only arr[0..m], leaves the maximum of the window at m, and swaps something exactly when the window was not sorted; a pass without swaps changes nothing |
| Bubble.PassKeeps | ParallelSorting.cpp:48-61 | after outer pass i the suffix arr[n-i-1..n) is sorted and no smaller than anything before it; a pass without swaps leaves all of arr[0..n) sorted, which justifies the early break |
| Bubble.BubbleSort | ParallelSorting.cpp:44-62 | arr[0..n) ends sorted and rearranged, the rest untouched; n <= 1 makes no pass and changes nothing; at most n - 1 passes run; sorted input stops after one pass, unchanged |
| Quick.ScanSwap | ParallelSorting.cpp:82-85 | an element <= pivot swapped to i + 1 grows the "<= pivot" prefix and keeps the "> pivot" block behind it |
| Quick.ScanSkip | ParallelSorting.cpp:81-82 | an element > pivot grows the "> pivot" block |
| Quick.PartitionScan | ParallelSorting.cpp:78-86 | after the loop, [l, i] holds elements <= arr[h], (i, h) holds elements > arr[h], and nothing outside [l, h) moved |
| Quick.PartitionPivot | ParallelSorting.cpp:87-88 | the final swap puts the pivot at i + 1 between the two sides and completes a rearrangement of arr[l..h] |
| Quick.Partition | ParallelSorting.cpp:76-89 | returns p in [l, h] with arr[p] the old arr[h], everything in [l, p) <= arr[p], everything in (p, h] strictly greater, and only arr[l..h] rearranged |
| Quick.StackBound | ParallelSorting.cpp:97 | ordered ranges of at least two elements inside [lo, hi] number at most half its length, so 50 pairs suffice for a slice of 100 |
| Quick.Push | ParallelSorting.cpp:119-122 | pushing a range of at least two elements after all pending ones keeps the stack ordered and inside [l, h]; the fixed stack can only be full when the slice exceeds the capacity |
| Quick.PushSides | ParallelSorting.cpp:117-129 | pushes (l, p - 1) only if p - 1 > l and (p + 1, h) only if p + 1 < h; the new stack keeps its shape and covers fewer positions than the popped range |
| Quick.StepKeepsSortedOutside | ParallelSorting.cpp:113-129 | after partitioning the popped range and pushing its sides, every pair of positions not held together by a pending range is in order |
| Quick.QuickStep | ParallelSorting.cpp:108-129 | one iteration keeps the loop invariant and strictly shrinks the total size of the pending ranges, unless it overflows the stack, which needs a slice longer than 100 |
| Quick.QuickSortIterative | ParallelSorting.cpp:94-131 | indices outside the array are a fault; for l <= h the slice ends sorted and rearranged with the rest untouched, slices of at most 100 elements never overflow the stack, and sorted input is unchanged; for l > h the single partition swaps arr[l] and arr[h] |
| Quick.EmptyRangeUnsorts | ParallelSorting.cpp:104-115 | quickSortIterative on the empty range (1, 0) of the sorted array {1, 2} returns {2, 1} |
| Quick.QuickSortRange | ParallelSorting.cpp:94-131 | the same sort with an empty range left alone: any empty or sorted slice comes back unchanged |
| Merge.Min | ParallelSorting.cpp:191-192 | std::min: the result is one of the arguments and no larger than either |
| Merge.MergeSeqPermutes | ParallelSorting.cpp:157-182 | the merge of L and R has exactly the elements of L and R together |
| Merge.MergeSeqSorted | ParallelSorting.cpp:157-182 | merging two sorted runs gives a sorted sequence |
| Merge.MergeFromValues | ParallelSorting.cpp:150-182 | each merged element is the array element at its recorded origin |
| Merge.MergeFromDistinct | ParallelSorting.cpp:157-182 | no input index is the origin of two merged elements |
| Merge.MergeStable | ParallelSorting.cpp:159-166 | with a sorted left run, equal merged elements appear in the order of their input positions, because ties take L[i] |
| Merge.TakeLeft | ParallelSorting.cpp:159-161 | writing L[i] at k and advancing i keeps arr[l..k) equal to the merge of what was taken and leaves the rest of the array alone |
| Merge.TakeRight | ParallelSorting.cpp:163-166 | the same for writing R[j] at k and advancing j |
| Merge.MergeHeads | ParallelSorting.cpp:157-168 | the first loop stops with one run used up and the merge state intact |
| Merge.DrainLeft | ParallelSorting.cpp:170-175 | the second loop copies the rest of L and keeps the merge state |
| Merge.DrainRight | ParallelSorting.cpp:177-182 | the third loop copies the rest of R and keeps the merge state |
| Merge.MergeBack | ParallelSorting.cpp:156-182 | the three loops write exactly the merge of L and R into arr[l..r] and nothing else |
| Merge.MergeRuns | ParallelSorting.cpp:140-186 | only arr[l..r] is rearranged; each written element comes from a distinct input position in [l, r]; sorted runs give a sorted slice; with a sorted left run, equal elements keep their input order |
| Merge.MergeStepKeepsBlocks | ParallelSorting.cpp:190-195 | the merge at left_start sorts its block of width 2 * curr_size and keeps the other blocks sorted |
| Merge.InnerDone | ParallelSorting.cpp:190 | once left_start reaches n - 1, every block of width 2 * curr_size is sorted |
| Merge.BlocksOfOne | ParallelSorting.cpp:189 | with curr_size = 1 every block holds one element and is sorted |
| Merge.RelabelTracks | ParallelSorting.cpp:190-195 | after a merge of [left_start, right_end], composing its origins with the earlier ones still gives, for every position of arr[0..n), a distinct input position holding the same element |
| Merge.MergeStableRange | ParallelSorting.cpp:157-182 | merging two neighbouring stable runs, with ties taken from the left run, gives one stable run: its elements come from the two runs' input positions and equal elements stay in input order |
| Merge.MergeStepKeepsStable | ParallelSorting.cpp:190-195 | the merge at left_start makes its block of width 2 * curr_size stable and keeps the other blocks stable |
| Merge.InnerDoneStable | ParallelSorting.cpp:190 | once left_start reaches n - 1, every block of width 2 * curr_size is stable |
| Merge.MergePass | ParallelSorting.cpp:190-195 | one pass of the inner loop turns sorted, stable blocks of width curr_size into sorted, stable blocks of width 2 * curr_size, rearranging only arr[0..n) |
| Merge.MergeSort | ParallelSorting.cpp:188-197 | arr[0..n) ends sorted and rearranged, the rest untouched; n <= 1 and sorted input are left unchanged; every final position has a distinct input position holding its element, and equal elements keep their input order (stability) |
| Driver.SortAll | ParallelSorting.cpp:207-231 | bubbleSort of arr and quickSortIterative(arr3, 0, n - 1) of its copy give the same sorted rearrangement of any non-empty array of at most 100 elements; merge sort of a third copy, which main does not perform, agrees with both |
| Driver.BubbleExample | ParallelSorting.cpp:44-62 | bubble sort of {5, 1, 4, 2, 8} gives {1, 2, 4, 5, 8} within four passes |
| Driver.QuickExample | ParallelSorting.cpp:221-229 | quicksort of temp = {4, 3, 5, 11, 3, 2, 3} gives {2, 3, 3, 3, 4, 5, 11} |
| Driver.MergeExample | ParallelSorting.cpp:236-242 | mergeSort of {12, 11, 13, 5, 6, 7, 9, 8, 1, 2} gives {1, 2, 5, 6, 7, 8, 9, 11, 12, 13} |

## Left out

- SYCL queues, device selection and `parallel_for` (lines 204-205, 212-215,
  227-230, 238) are not modelled. Every lane of `parallel_for` runs the whole
  sort on the same shared array, which is a data race. The model runs each
  sort once.
- `malloc_shared`, `sycl::free`, buffers and accessors, and `new`/`delete`
  of the merge temporaries are not modelled; memory is a value sequence.
  The copy loops at lines 151-154 are the slices `a[l..m+1]` and
  `a[m+1..r+1]`.
- `rand()` at line 209 and console printing are not modelled. Random
  contents are an arbitrary input, and `SortAll` is stated for all inputs.
- The unused `meta_Data` struct (lines 33-36) is not modelled.
- C `int` overflow is not modelled: indices, `2 * curr_size` and
  `left_start += 2 * curr_size` are mathematical integers.
- Quick.QuickSortIterative: a write past the end of `int stack[100]` is
  undefined behaviour in the source; here it is the fault `StackOverflow`.
  The contract says overflow is impossible for slices of at most 100
  elements. For longer slices it does not say which inputs overflow.
- Quick.QuickSortIterative: an out-of-bounds `l` or `h` is undefined
  behaviour in the source; here it is the fault `OutOfBounds`. This includes
  `(0, -1)`, which `main` would pass for `n == 0`.
- Bubble.BubbleSort and Merge.MergeSort require `n <= |a|`, i.e. the array
  holds n elements, because the source would read past the array otherwise.
- Merge.MergeRuns requires `l <= m + 1 <= r + 1` inside the array. For a
  negative `n1` or `n2`, `new int[n1]` throws `std::bad_array_new_length`;
  that exception path is not modelled. `mergeSort` never makes such a call.
- Driver.QuickExample: in `main`, `temp` is declared, but the line that
  would copy it into `arr3` is commented out (line 224). `arr3` holds a copy
  of the random array instead, which `SortAll` covers.
- Driver.SortAll requires a non-empty array, as `main` fixes N = 7. For
  N = 0 `main`'s call `quickSortIterative(arr3, 0, -1)` is undefined (see
  Findings); `Quick.QuickSortRange` is the variant that handles it.
- Driver.BubbleExample: `main` never sorts {5, 1, 4, 2, 8}; it is an extra
  example of `bubbleSort`.
- `partition` puts only strictly greater elements after the pivot, because
  the test at line 82 is `arr[j] <= x`.
- The quicksort stack is the fixed `int stack[100]` at line 97; it does not
  grow with the array.

## Findings

| source | as written | input that shows it | evidently intended | confidence | as-written member | corrected member |
|---|---|---|---|---|---|---|
| ParallelSorting.cpp:104-115 | the range (l, h) is pushed and partitioned without checking l <= h, so for l > h partition swaps arr[l] with arr[h] | arr = {1, 2}, l = 1, h = 0 returns {2, 1}; for n = 0, main's call (0, -1) reads arr[-1] | an empty range is left as it is | medium, not executed | Quick.EmptyRangeUnsorts | Quick.QuickSortRange |
