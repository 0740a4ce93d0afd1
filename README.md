# Sorting visualizer engine in Dafny

This project models the sorting engine of the `SortingVisualizer` class in
`sorting-visualizer-cpp.cpp`. Each sort is written as a resumable state machine. One call
of `stepBubbleSort`, `stepQuickSort` or `stepSelectionSort` does one of: one comparison
(with the swap it may cause), one pass end, one scan end, one range pop or one pivot
placement. The cursors live in fields of
the object between calls. A controller on top of these:

- steps the selected algorithm while a run is active and not paused (`stepAlgorithm`);
- starts and pauses runs (`startSorting`);
- reacts to the keys: select an algorithm, regenerate the data, change the speed
  (`handleInput`).

Every bar also carries a colour marker: default, comparing, swapping or sorted.

The project has two layers.

- **Specification functions.** Each algorithm's step is a pure function from a `Frame`
  to the new frame and cursor (`Bubble.Step`, `Quick.Step`, `Selection.Step`). A `Frame`
  holds the data, the markers and the two counters. Lemmas about these functions
  carry the proofs:
  - the run invariant of each algorithm, and that every step keeps it;
  - that a step only rearranges the data;
  - sortedness once bubble or selection sort reports done;
  - the exact number of comparisons, and the swap count;
  - the Lomuto invariant of a quick-sort partition.
- **The class.** `Visualizer.SortingVisualizer` holds the data and the markers as arrays
  and the cursors as fields. Its step methods change them in place. Each step method is
  proved to leave exactly the frame and cursor that the specification function computes
  from the old state. The constructor establishes `Valid()` on freshly allocated arrays.
  `StepAlgorithm`, `StartSorting`, `HandleCommand` and the command methods it dispatches to
  (`SelectAlgorithm`, `Regenerate`, `SetSpeed`) keep it. The lower-level methods do not promise
  `Valid()`: the three step methods and their branch helpers, `SwapElements`,
  `InitializeData`, `ResetAlgorithmStates`, `Finish`, the marker helpers and the per-tick
  helpers. Each states its exact effect on the data, markers, counters and cursors, and
  is called in the middle of a larger operation that re-establishes `Valid()`.
  `Valid()` says:
  - there is at least one value and one marker per value;
  - the speed is within [10, 500];
  - the selection minimum indexes the data while a scan is still pending;
  - every stacked quick-sort range of two or more elements, and the range under
    partition, lie inside the data;
  - the data is a permutation of the data the run started from;
  - the run invariant of the selected algorithm holds while a run is active.
  The bubble and selection scan cursors are bounded only by those run invariants.

Files:

- `markers.dfy`: bar colours.
- `dataset.dfy`: the frame and the swap primitive.
- `bubble.dfy`, `quick.dfy`, `selection.dfy`: one step function per algorithm, with
  its invariant.
- `quick_fixed.dfy`: quick sort with its two tests in the intended order (see
  Findings).
- `visualizer.dfy`: the class, the commands and the speed clamp.

## Model

| member | source | states |
|---|---|---|
| Markers.Cleared | sorting-visualizer-cpp.cpp:173-177 | resetColors: every bar is in the default colour afterwards |
| Markers.Highlight | sorting-visualizer-cpp.cpp:179-189 | highlightCompare/highlightSwap: bars i and j get the colour when they are valid indices. Every other bar is reset to the default, so earlier Sorted marks are lost |
| Markers.MarkSorted | sorting-visualizer-cpp.cpp:191-193 | highlightSorted: bar i becomes Sorted when it exists; every other bar keeps its colour |
| Markers.AllSorted | sorting-visualizer-cpp.cpp:329-334 | the completion loop leaves every bar Sorted |
| Dataset.Swap | sorting-visualizer-cpp.cpp:195-197 | std::swap: positions i and j exchange their values and every other position is unchanged |
| Dataset.SwapPermutes | sorting-visualizer-cpp.cpp:195-197 | a swap preserves the multiset of values |
| Dataset.SwapTwice | sorting-visualizer-cpp.cpp:195-197 | swapping the same pair twice restores the data |
| Dataset.SwapElements | sorting-visualizer-cpp.cpp:195-206 | swapElements on a frame: positions i and j exchange their values, every other position is kept, one swap is counted, and markers and comparisons are untouched |
| Dataset.CountComparison | sorting-visualizer-cpp.cpp:212 | the comparisons++ of a comparing step: one more comparison, nothing else changes |
| Dataset.HighlightCompare | sorting-visualizer-cpp.cpp:179-183 | highlightCompare on a frame: valid bars i and j become Comparing and every other bar Default; data and counters are untouched |
| Dataset.HighlightSwap | sorting-visualizer-cpp.cpp:185-189 | highlightSwap on a frame: valid bars i and j become Swapping and every other bar Default; data and counters are untouched |
| Dataset.HighlightSorted | sorting-visualizer-cpp.cpp:191-193 | highlightSorted on a frame: a valid bar i becomes Sorted and every other bar keeps its colour; data and counters are untouched |
| Bubble.Step | sorting-visualizer-cpp.cpp:208-230 | the step reports more work exactly while i < n-1. A comparing step adds one comparison, swaps exactly when data[j] > data[j+1] (one swap counted), leaves data[j] <= data[j+1] and advances j; bars j and j+1 are left Swapping after a swap and Comparing otherwise, every other bar Default. A pass end changes no data or counter, marks bar n-1-i Sorted with every other bar keeping its colour, and moves to (i+1, 0). When done, nothing changes |
| Bubble.StepPermutes | sorting-visualizer-cpp.cpp:214-217 | a bubble step only rearranges the data |
| Bubble.StartInv | sorting-visualizer-cpp.cpp:132-133 | the reset cursors (0, 0) with zeroed counters satisfy the bubble invariant |
| Bubble.StepKeepsInv | sorting-visualizer-cpp.cpp:208-230 | every step keeps the invariant: the last i positions hold the i largest values in order, data[j] is the maximum of data[0..j], and comparisons equal the full passes' comparisons plus j |
| Bubble.CompareKeepsInv | sorting-visualizer-cpp.cpp:210-220 | after a comparing step, data[j+1] is the maximum of data[0..j+1] and the sorted suffix is untouched |
| Bubble.PassEndKeepsInv | sorting-visualizer-cpp.cpp:221-226 | a pass end keeps the invariant, with the sorted suffix one longer |
| Bubble.PassEndSortsSuffix | sorting-visualizer-cpp.cpp:221-226 | when a pass ends, data[n-1-i..n) is sorted and no smaller than anything before it |
| Bubble.DoneIsSorted | sorting-visualizer-cpp.cpp:208-230 | once the step reports done, the data is sorted ascending and exactly n(n-1)/2 comparisons were made |
| Bubble.PassComparisonsClosedForm | sorting-visualizer-cpp.cpp:211-212 | p passes over n elements make p(2n-p-1)/2 comparisons |
| Bubble.StepCountsDown | sorting-visualizer-cpp.cpp:208-230 | every step that reports more work brings the run exactly one step closer to done |
| Bubble.PassComparisonsGrow | sorting-visualizer-cpp.cpp:211 | every pass before the last makes at least one comparison |
| Bubble.StartRemaining | sorting-visualizer-cpp.cpp:132-133 | a run from the reset cursors takes n(n-1)/2 comparing steps plus n-1 pass ends |
| Bubble.SwapAdjacentRemovesInversion | sorting-visualizer-cpp.cpp:214-217 | swapping an out-of-order neighbour pair removes exactly one inversion |
| Bubble.CountBelowSwapAdjacent | sorting-visualizer-cpp.cpp:214-217 | swapping two neighbours does not change how many values are below a bound |
| Bubble.CountBelowNone | sorting-visualizer-cpp.cpp:214 | no value is below a lower bound of all values |
| Bubble.SortedHasNoInversions | sorting-visualizer-cpp.cpp:229 | sorted data has no inversions |
| Bubble.StepKeepsSwapBalance | sorting-visualizer-cpp.cpp:214-217 | swaps made plus inversions left stay constant across a step |
| Bubble.StepKeepsRunInv | sorting-visualizer-cpp.cpp:208-230 | every step keeps the invariant and the swap balance. A finished run has sorted data, n(n-1)/2 comparisons, and exactly as many swaps as the starting data had inversions |
| Quick.Start | sorting-visualizer-cpp.cpp:135-136 | the reset quick-sort state: no partition in progress, the whole vector as the one pending range, within the data |
| Quick.Pop | sorting-visualizer-cpp.cpp:237-249 | pops the top range without touching data or counters. A range of two or more starts a partition with pivot data[high], i = low-1 and j = low |
| Quick.Partition | sorting-visualizer-cpp.cpp:251-275 | low, high and the pivot never change. A scan step adds one comparison; when data[j] < pivot it swaps j into i+1 (one swap counted) and leaves bars i+1 and j Swapping, otherwise bars j and high Comparing, every other bar Default; then it advances j. A closing step swaps the pivot into i+1 (one swap counted), leaves bars i+1 and high Swapping and every other bar Default, pushes (low, i) then (i+2, high) and ends the partition. Positions outside [low, high] never change |
| Quick.Step | sorting-visualizer-cpp.cpp:232-276 | reports more work exactly when the stack is non-empty, even during a partition; when done, nothing changes |
| Quick.PartitionPermutes | sorting-visualizer-cpp.cpp:256-264 | a partition step only rearranges the data |
| Quick.StepPermutes | sorting-visualizer-cpp.cpp:232-276 | a quick-sort step only rearranges the data |
| Quick.ScanKeepsLomuto | sorting-visualizer-cpp.cpp:251-261 | a scan step keeps data[low..i] < pivot, data(i..j) >= pivot and data[high] == pivot |
| Quick.SwapGrowsLeftPart | sorting-visualizer-cpp.cpp:256-260 | moving a value below the pivot from j to i+1 grows the left part by one |
| Quick.CloseSplitsAroundPivot | sorting-visualizer-cpp.cpp:263-275 | closing puts the pivot at pi = i+1, smaller values left of it and values >= pivot right of it, and pushes (low, pi-1) then (pi+1, high) |
| Quick.StepKeepsLomuto | sorting-visualizer-cpp.cpp:232-276 | every step keeps the Lomuto invariant and the cursor bounds |
| Quick.RunStopsAfterFirstPop | sorting-visualizer-cpp.cpp:233-249 | from the reset state, step 1 pops (0, n-1) and empties the stack; step 2 reports done with the data and counters untouched |
| Quick.RunLeavesTwoOneUnsorted | sorting-visualizer-cpp.cpp:233-235 | a complete run on [2, 1] ends with [2, 1], which is not sorted |
| QuickFixed.FixedStep | sorting-visualizer-cpp.cpp:233-249 | the corrected step reports more work while a partition is active or the stack is non-empty |
| QuickFixed.FixedStepPermutes | sorting-visualizer-cpp.cpp:251-275 | a corrected step only rearranges the data |
| QuickFixed.StartFixedInv | sorting-visualizer-cpp.cpp:135-136 | the reset state satisfies the corrected run's invariant |
| QuickFixed.PopKeepsFixedInv | sorting-visualizer-cpp.cpp:237-249 | a pop keeps the invariant; a popped range of at most one element is already in place |
| QuickFixed.ScanKeepsFixedInv | sorting-visualizer-cpp.cpp:251-261 | a scan step keeps the invariant |
| QuickFixed.CloseKeepsFixedInv | sorting-visualizer-cpp.cpp:263-275 | a closing step keeps the invariant: the pivot is in its final place and both pushed ranges are bounded by their surroundings |
| QuickFixed.PlacePivot | sorting-visualizer-cpp.cpp:263-270 | after the closing swap, both sides of the pivot are bounded by their surroundings and the pivot is in place |
| QuickFixed.FixedStepKeepsInv | sorting-visualizer-cpp.cpp:232-276 | every corrected step keeps the invariant |
| QuickFixed.FixedDoneIsSorted | sorting-visualizer-cpp.cpp:233-235 | once the corrected step reports done, the data is sorted |
| Selection.Step | sorting-visualizer-cpp.cpp:278-305 | reports more work exactly while i < n-1. A scan step adds one comparison, never swaps, leaves bars j and min Comparing and every other bar Default, advances j and keeps the smaller of data[j] and data[min] as min. A scan end puts data[min] at i, swapping (one swap counted) only when min != i; after a swap bars i and min are Swapping and every other bar Default, otherwise the bars keep their colours; then bar i becomes Sorted and the step resets the cursors to (i+1, i+2, i+1) |
| Selection.StepPermutes | sorting-visualizer-cpp.cpp:291-295 | a selection step only rearranges the data |
| Selection.StartInv | sorting-visualizer-cpp.cpp:140-142 | the reset cursors (0, 0, 0) with zeroed counters satisfy the selection invariant |
| Selection.ScanKeepsInv | sorting-visualizer-cpp.cpp:280-289 | a scan step keeps i <= min < n and data[min] at most every data[k] for i <= k < j |
| Selection.ScanEndPlacesMinimum | sorting-visualizer-cpp.cpp:291-303 | at a scan end, position i receives the minimum of data[i..n) and the prefix before i is unchanged |
| Selection.ScanEndKeepsInv | sorting-visualizer-cpp.cpp:291-303 | a scan end keeps the invariant, with the sorted prefix one longer |
| Selection.PlaceMinimum | sorting-visualizer-cpp.cpp:292-295 | swapping the least of s[i..n) into i extends a sorted, splitting prefix by one |
| Selection.StepKeepsInv | sorting-visualizer-cpp.cpp:278-305 | every step keeps the invariant: data[0..i) holds the i smallest values in order, at most one swap per finished scan, and every comparison accounted for |
| Selection.ScanComparisonsClosedForm | sorting-visualizer-cpp.cpp:278-305 | s scans make 2n + (s-1)(2n-s-2) comparisons, counted twice: the first scan starts at j = 0, every later one at i+1 |
| Selection.DoneIsSorted | sorting-visualizer-cpp.cpp:278-305 | once the step reports done, the data is sorted ascending, at most n-1 swaps were made, and n(n-1)/2 + 1 comparisons (none for one element) |
| Selection.StepKeepsInvUntilDone | sorting-visualizer-cpp.cpp:278-305 | every step keeps the invariant, and a finished run has sorted the data |
| Visualizer.Faster | sorting-visualizer-cpp.cpp:389-391 | the delay drops by 10 ms but never below 10, and stays within 500 |
| Visualizer.Slower | sorting-visualizer-cpp.cpp:394-396 | the delay grows by 10 ms but never above 500, and stays at least 10 |
| Visualizer.SpeedRoundTrip | sorting-visualizer-cpp.cpp:389-396 | between 20 and 490, one notch faster and one notch slower cancel |
| Visualizer.SortingVisualizer.constructor | sorting-visualizer-cpp.cpp:61-76 | no algorithm selected, not sorting or paused, 50 ms delay, zeroed counters, the given data with default markers in freshly allocated arrays, and the cursors and merge state reset |
| Visualizer.SortingVisualizer.InitializeData | sorting-visualizer-cpp.cpp:78-98 | the data becomes the generated values and every bar is in the default colour |
| Visualizer.SortingVisualizer.ResetAlgorithmStates | sorting-visualizer-cpp.cpp:131-143 | bubble and selection cursors at 0; quick sort with the whole range as its one pending range; merge state initialised |
| Visualizer.SortingVisualizer.ResetColors | sorting-visualizer-cpp.cpp:173-177 | every marker becomes the default colour |
| Visualizer.SortingVisualizer.HighlightCompare | sorting-visualizer-cpp.cpp:179-183 | the markers become Markers.Highlight of the old markers with Comparing |
| Visualizer.SortingVisualizer.HighlightSwap | sorting-visualizer-cpp.cpp:185-189 | the markers become Markers.Highlight of the old markers with Swapping |
| Visualizer.SortingVisualizer.HighlightSorted | sorting-visualizer-cpp.cpp:191-193 | the markers become Markers.MarkSorted of the old markers |
| Visualizer.SortingVisualizer.SwapElements | sorting-visualizer-cpp.cpp:195-206 | the data becomes Dataset.Swap of the old data and the swap counter grows by one |
| Visualizer.SortingVisualizer.StepBubbleSort | sorting-visualizer-cpp.cpp:208-230 | the new data, markers, counters, cursors and result are those of Bubble.Step on the old state |
| Visualizer.SortingVisualizer.CompareNeighbours | sorting-visualizer-cpp.cpp:210-220 | the comparing branch matches Bubble.Step |
| Visualizer.SortingVisualizer.StepQuickSort | sorting-visualizer-cpp.cpp:232-276 | the new state and result are those of Quick.Step on the old state |
| Visualizer.SortingVisualizer.PopRange | sorting-visualizer-cpp.cpp:237-249 | the new quick-sort state is that of Quick.Pop |
| Visualizer.SortingVisualizer.PartitionStep | sorting-visualizer-cpp.cpp:251-275 | the new state is that of Quick.Partition |
| Visualizer.SortingVisualizer.CompareWithPivot | sorting-visualizer-cpp.cpp:251-262 | the scan branch matches Quick.Partition |
| Visualizer.SortingVisualizer.ClosePartition | sorting-visualizer-cpp.cpp:263-275 | the closing branch matches Quick.Partition |
| Visualizer.SortingVisualizer.StepSelectionSort | sorting-visualizer-cpp.cpp:278-305 | the new state and result are those of Selection.Step on the old state, and min stays a valid index while unfinished |
| Visualizer.SortingVisualizer.StepAlgorithm | sorting-visualizer-cpp.cpp:307-337 | keeps Valid(). A no-op unless sorting and not paused. Otherwise the selected step's frame and cursor are taken, the other algorithms' cursors are kept, and a step that reports done (merge sort always) stops the run and paints every bar Sorted. A finished bubble or selection run leaves the data sorted, a permutation of the start, with the comparison and swap counts of the whole run |
| Visualizer.SortingVisualizer.Tick | sorting-visualizer-cpp.cpp:312-334 | the switch of stepAlgorithm for an active run, with the same guarantees |
| Visualizer.SortingVisualizer.Finish | sorting-visualizer-cpp.cpp:329-334 | the run stops and every bar is Sorted |
| Visualizer.SortingVisualizer.TickBubble | sorting-visualizer-cpp.cpp:313-334 | one bubble step plus the completion when it reports done |
| Visualizer.SortingVisualizer.TickQuick | sorting-visualizer-cpp.cpp:316-334 | one quick-sort step plus the completion when it reports done |
| Visualizer.SortingVisualizer.TickSelection | sorting-visualizer-cpp.cpp:319-334 | one selection step plus the completion when it reports done |
| Visualizer.SortingVisualizer.AdvanceBubble | sorting-visualizer-cpp.cpp:313-315 | the bubble step inside a run keeps the run invariant and the permutation |
| Visualizer.SortingVisualizer.AdvanceQuick | sorting-visualizer-cpp.cpp:316-318 | the quick-sort step inside a run keeps the Lomuto invariant and the permutation |
| Visualizer.SortingVisualizer.AdvanceSelection | sorting-visualizer-cpp.cpp:319-321 | the selection step inside a run keeps the run invariant and the permutation |
| Visualizer.SortingVisualizer.MarkAllSorted | sorting-visualizer-cpp.cpp:331-333 | every marker becomes Sorted |
| Visualizer.SortingVisualizer.StartSorting | sorting-visualizer-cpp.cpp:339-355 | does nothing with no algorithm selected. From not sorting: sorting, unpaused, zeroed counters, reset cursors and merge state, data untouched. During a run: the pause flag toggles |
| Visualizer.SortingVisualizer.SelectAlgorithm | sorting-visualizer-cpp.cpp:358-377 | the algorithm is selected and the run stops; the pause flag, speed, counters, cursors and data are untouched |
| Visualizer.SortingVisualizer.Regenerate | sorting-visualizer-cpp.cpp:381-388 | new data, default markers, run stopped, zeroed counters; the cursors and the selected algorithm are untouched |
| Visualizer.SortingVisualizer.SetSpeed | sorting-visualizer-cpp.cpp:389-397 | only the delay changes |
| Visualizer.SortingVisualizer.HandleCommand | sorting-visualizer-cpp.cpp:357-398 | each key's effect as listed above, with the delay clamped to [10, 500]; Valid() is kept |

## Left out

- SFML (window, event polling, drawing, fonts, text), colours as `sf::Color` and bar
  geometry: markers are an enumeration per bar, and a swap exchanges only the values.
- Timing: the elapsed time, and the frame clock that spaces steps by `sortingSpeed`. The
  model steps when `StepAlgorithm` is called.
- Random generation of the 100 values in [50, 600]. The values are a parameter of the
  constructor and of the R command. The model allows any length of at least one; the
  program always has 100.
- Keyboard detection: `handleInput` tests the keys in a fixed order and acts on the first
  one pressed. The model takes that one key as a `Command`.
- Merge sort: the program has no merge algorithm. `stepAlgorithm` ends a merge-sort run at
  once, and `MergeSortState` is set by `resetAlgorithmStates` and read nowhere, as in the
  model.
- `int` counters and cursors are unbounded integers. The program's counters cannot
  overflow in practice with 100 values.
- The step methods are split into helper methods (one per branch or per algorithm). Each
  helper's contract states exactly what its part of the source does; this keeps each
  proof small.
- Visualizer.SpeedRoundTrip: holds by the definitions alone and adds no proof of its own.

## Findings

| source | as written | input that shows it | evidently intended | confidence | as-written member | corrected member |
|---|---|---|---|---|---|---|
| sorting-visualizer-cpp.cpp:233-235 | `stepQuickSort` returns false when the stack is empty before it looks at `partitioning`. The reset stack holds a single range, and the first step pops it, so the second step ends the run before any comparison | data [2, 1]: step 1 pops (0, 1) and starts a partition, step 2 reports done, and the run leaves [2, 1] with every bar painted Sorted | carry on a partition in progress, and end the run only when no partition is active and the stack is empty | high; not executed | Quick.RunLeavesTwoOneUnsorted | QuickFixed.FixedDoneIsSorted |

`QuickFixed.FixedStep` reuses the program's `Pop` and `Partition` and only swaps the two
tests. The class `Visualizer.SortingVisualizer` models the program and keeps the step as
written.
