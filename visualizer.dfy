/** The SortingVisualizer object: the data vector and its bar markers, the selected
    algorithm, the run and pause flags, the speed, the counters and the cursors of every
    algorithm, updated in place by the step methods and the keyboard commands. */
module Visualizer {
  import Markers
  import Dataset
  import Bubble
  import Quick
  import Selection

  datatype Algorithm = BubbleSort | QuickSort | MergeSort | SelectionSort | NoAlgorithm

  /** mergeSortState: initialised by resetAlgorithmStates and read by nothing. */
  datatype MergeSortState = MergeSortState(left: int, right: int, mid: int, merging: bool,
                                           temp: seq<int>, i: int, j: int, k: int)

  /** The effect of one handleInput call: keys 1-4 select an algorithm, SPACE starts or
      pauses, R regenerates the data (the fresh values are a parameter here), +/Up and
      -/Down change the delay between steps. */
  datatype Command =
    | SelectBubble | SelectQuick | SelectMerge | SelectSelection
    | StartPause
    | Reset(values: seq<int>)
    | SpeedUp | SlowDown

  /** Delay in ms, one notch shorter, never below 10. */
  function Faster(speed: int): (r: int)
    ensures r >= 10
    ensures speed <= 500 ==> r <= 500
    ensures r == speed - 10 || (r == 10 && speed < 20)
  {
    if speed - 10 < 10 then 10 else speed - 10
  }

  /** Delay in ms, one notch longer, never above 500. */
  function Slower(speed: int): (r: int)
    ensures r <= 500
    ensures speed >= 10 ==> r >= 10
    ensures r == speed + 10 || (r == 500 && speed > 490)
  {
    if speed + 10 > 500 then 500 else speed + 10
  }

  /** Away from the two ends of the range, one notch faster and one notch slower cancel. */
  lemma SpeedRoundTrip(speed: int)
    requires 20 <= speed <= 490
    ensures Slower(Faster(speed)) == speed && Faster(Slower(speed)) == speed
  {
  }

  class SortingVisualizer {
    const data: array<int>
    /** The colour of each bar. */
    const marks: array<Markers.Marker>

    var currentAlgorithm: Algorithm
    var isSorting: bool
    var isPaused: bool
    /** Delay between two steps, in ms. */
    var sortingSpeed: int
    var comparisons: int
    var swaps: int

    var bubbleI: nat
    var bubbleJ: nat
    var quickSortState: Quick.State
    var mergeSortState: MergeSortState
    var selectionI: nat
    var selectionJ: nat
    var selectionMin: nat

    /** The data as it was when it was last generated or when the current run started. */
    ghost var initial: seq<int>

    /** The sortable state as one value. */
    ghost function Snapshot(): Dataset.Frame
      reads this`comparisons, this`swaps, data, marks
    {
      Dataset.Frame(data[..], marks[..], comparisons, swaps)
    }

    ghost function BubbleCursor(): Bubble.Cursor
      reads this`bubbleI, this`bubbleJ
    {
      Bubble.Cursor(bubbleI, bubbleJ)
    }

    ghost function SelectionCursor(): Selection.Cursor
      reads this`selectionI, this`selectionJ, this`selectionMin
    {
      Selection.Cursor(selectionI, selectionJ, selectionMin)
    }

    /** What holds at all times: at least one value and one marker per value, a speed
        within [10, 500], a selection minimum inside the data while a scan is pending, and
        quick-sort ranges (pending and being partitioned) inside the data. */
    ghost predicate Wellformed()
      reads this`sortingSpeed, this`selectionI, this`selectionMin, this`quickSortState
    {
      && data.Length >= 1 && marks.Length == data.Length
      && 10 <= sortingSpeed <= 500
      && (selectionI < data.Length - 1 ==> selectionMin < data.Length)
      && Quick.InBounds(data.Length, quickSortState)
    }

    /** The invariant of the run in progress for the selected algorithm, counted from the
        start of the run. */
    ghost predicate Running()
      reads this`currentAlgorithm, this`comparisons, this`swaps, this`bubbleI, this`bubbleJ,
            this`quickSortState, this`selectionI, this`selectionJ, this`selectionMin,
            this`initial, data, marks
    {
      match currentAlgorithm
      case BubbleSort => Bubble.RunInv(Snapshot(), BubbleCursor(), initial)
      case QuickSort => Quick.Lomuto(Snapshot(), quickSortState)
      case SelectionSort => Selection.Inv(Snapshot(), SelectionCursor())
      case MergeSort => true
      case NoAlgorithm => false
    }

    ghost predicate Valid()
      reads this, data, marks
    {
      && Wellformed()
      && multiset(data[..]) == multiset(initial)
      && (isSorting ==> Running())
    }

    /** The state after one step of the selected algorithm that returned r: the frame and
        cursor the step computed, and once it reports done, the run stopped and every bar
        painted as sorted. */
    ghost predicate Took<C>(r: Dataset.Stepped<C>, cursor: C)
      reads this, data, marks
    {
      && isSorting == r.more
      && data[..] == r.frame.data
      && comparisons == r.frame.comparisons && swaps == r.frame.swaps
      && marks[..] == (if r.more then r.frame.marks else Markers.AllSorted(data.Length))
      && cursor == r.cursor
    }

    /** One tick of a bubble run: the frame and cursor Bubble.Step computes from the old
        state, with the other algorithms' cursors kept. */
    twostate predicate BubbleTicked()
      requires old(Wellformed())
      reads this, data, marks
    {
      && Took(Bubble.Step(old(Snapshot()), old(BubbleCursor())), BubbleCursor())
      && (quickSortState, mergeSortState, selectionI, selectionJ, selectionMin)
         == old((quickSortState, mergeSortState, selectionI, selectionJ, selectionMin))
    }

    /** One tick of a quick-sort run: the frame and state Quick.Step computes from the old
        state, with the other algorithms' cursors kept. */
    twostate predicate QuickTicked()
      requires old(Wellformed())
      reads this, data, marks
    {
      && Took(Quick.Step(old(Snapshot()), old(quickSortState)), quickSortState)
      && (bubbleI, bubbleJ, mergeSortState, selectionI, selectionJ, selectionMin)
         == old((bubbleI, bubbleJ, mergeSortState, selectionI, selectionJ, selectionMin))
    }

    /** One tick of a selection run: the frame and cursor Selection.Step computes from the
        old state, with the other algorithms' cursors kept. */
    twostate predicate SelectionTicked()
      requires old(Wellformed())
      reads this, data, marks
    {
      && Took(Selection.Step(old(Snapshot()), old(SelectionCursor())), SelectionCursor())
      && (bubbleI, bubbleJ, quickSortState, mergeSortState)
         == old((bubbleI, bubbleJ, quickSortState, mergeSortState))
    }

    /** One tick of a merge-sort run: stepAlgorithm reports done at once, so the run stops
        with data and counters untouched, every bar Sorted, and no cursor moved. */
    twostate predicate MergeTicked()
      reads this, data, marks
    {
      Took(Dataset.Stepped(false, old(Snapshot()), ()), ()) && CursorsKept()
    }

    /** What a finished bubble or selection run leaves behind: the data sorted and a
        permutation of the data the run started from, with the comparisons and swaps of
        the whole run. */
    ghost predicate Completed()
      reads this`currentAlgorithm, this`comparisons, this`swaps, this`initial, data
    {
      match currentAlgorithm
      case BubbleSort =>
        && Dataset.Sorted(data[..]) && multiset(data[..]) == multiset(initial)
        && 2 * comparisons == data.Length * (data.Length - 1)
        && swaps == Bubble.Inversions(initial)
      case SelectionSort =>
        && Dataset.Sorted(data[..]) && multiset(data[..]) == multiset(initial)
        && swaps <= data.Length - 1
        && (data.Length >= 2 ==> 2 * comparisons == data.Length * (data.Length - 1) + 2)
      case _ => true
    }

    /** The cursors of every algorithm are as they were. */
    twostate predicate CursorsKept()
      reads this
    {
      && bubbleI == old(bubbleI) && bubbleJ == old(bubbleJ)
      && quickSortState == old(quickSortState) && mergeSortState == old(mergeSortState)
      && selectionI == old(selectionI) && selectionJ == old(selectionJ)
      && selectionMin == old(selectionMin)
    }

    /** No algorithm selected, not sorting, a 50 ms delay, zeroed counters, then the data
        is generated and the cursors are reset. */
    constructor(values: seq<int>)
      requires |values| >= 1
      ensures Valid() && fresh(data) && fresh(marks)
      ensures data[..] == values && marks[..] == Markers.Cleared(|values|)
      ensures currentAlgorithm == NoAlgorithm && !isSorting && !isPaused
      ensures sortingSpeed == 50 && comparisons == 0 && swaps == 0
      ensures BubbleCursor() == Bubble.Start && SelectionCursor() == Selection.Start
      ensures quickSortState == Quick.Start(|values|)
      ensures mergeSortState == MergeSortState(0, |values| - 1, 0, false, [], 0, 0, 0)
    {
      data := new int[|values|];
      marks := new Markers.Marker[|values|](_ => Markers.Default);
      currentAlgorithm := NoAlgorithm;
      isSorting := false;
      isPaused := false;
      sortingSpeed := 50;
      comparisons := 0;
      swaps := 0;
      new;
      InitializeData(values);
      ResetAlgorithmStates();
    }

    /** Stores freshly generated values and paints every bar in the default colour. */
    method InitializeData(values: seq<int>)
      requires |values| == data.Length && marks.Length == data.Length
      modifies data, marks, this`initial
      ensures data[..] == values && marks[..] == Markers.Cleared(data.Length)
      ensures initial == values
    {
      for k := 0 to data.Length
        invariant data[..k] == values[..k]
        invariant forall p :: 0 <= p < k ==> marks[p] == Markers.Default
      {
        data[k] := values[k];
        marks[k] := Markers.Default;
      }
      assert data[..] == data[..data.Length];
      initial := values;
    }

    /** Puts every algorithm back at its start: bubble and selection at index 0, quick sort
        with the whole vector as its one pending range. */
    method ResetAlgorithmStates()
      requires data.Length >= 1
      modifies this`bubbleI, this`bubbleJ, this`quickSortState, this`mergeSortState,
               this`selectionI, this`selectionJ, this`selectionMin
      ensures BubbleCursor() == Bubble.Start && SelectionCursor() == Selection.Start
      ensures quickSortState == Quick.Start(data.Length)
      ensures mergeSortState == MergeSortState(0, data.Length - 1, 0, false, [], 0, 0, 0)
    {
      bubbleI := 0;
      bubbleJ := 0;
      quickSortState := Quick.State(0, data.Length - 1, false, 0, 0, 0, []);
      quickSortState := quickSortState.(stack := quickSortState.stack + [(0, data.Length - 1)]);
      mergeSortState := MergeSortState(0, data.Length - 1, 0, false, [], 0, 0, 0);
      selectionI := 0;
      selectionJ := 0;
      selectionMin := 0;
    }

    method ResetColors()
      modifies marks
      ensures marks[..] == Markers.Cleared(marks.Length)
    {
      for k := 0 to marks.Length
        invariant forall p :: 0 <= p < k ==> marks[p] == Markers.Default
      {
        marks[k] := Markers.Default;
      }
    }

    method HighlightCompare(i: int, j: int)
      modifies marks
      ensures marks[..] == Markers.Highlight(old(marks[..]), i, j, Markers.Comparing)
    {
      ResetColors();
      if 0 <= i < marks.Length {
        marks[i] := Markers.Comparing;
      }
      if 0 <= j < marks.Length {
        marks[j] := Markers.Comparing;
      }
    }

    method HighlightSwap(i: int, j: int)
      modifies marks
      ensures marks[..] == Markers.Highlight(old(marks[..]), i, j, Markers.Swapping)
    {
      ResetColors();
      if 0 <= i < marks.Length {
        marks[i] := Markers.Swapping;
      }
      if 0 <= j < marks.Length {
        marks[j] := Markers.Swapping;
      }
    }

    method HighlightSorted(i: int)
      modifies marks
      ensures marks[..] == Markers.MarkSorted(old(marks[..]), i)
    {
      if 0 <= i < marks.Length {
        marks[i] := Markers.Sorted;
      }
    }

    method SwapElements(i: int, j: int)
      requires 0 <= i < data.Length && 0 <= j < data.Length
      modifies data, this`swaps
      ensures data[..] == Dataset.Swap(old(data[..]), i, j)
      ensures swaps == old(swaps) + 1
    {
      data[i], data[j] := data[j], data[i];
      swaps := swaps + 1;
    }

    method StepBubbleSort() returns (more: bool)
      requires Wellformed()
      modifies data, marks, this`comparisons, this`swaps, this`bubbleI, this`bubbleJ
      ensures Dataset.Stepped(more, Snapshot(), BubbleCursor())
              == Bubble.Step(old(Snapshot()), old(BubbleCursor()))
    {
      if bubbleI < data.Length - 1 {
        if bubbleJ < data.Length - bubbleI - 1 {
          CompareNeighbours();
        } else {
          HighlightSorted(data.Length - bubbleI - 1);
          bubbleJ := 0;
          bubbleI := bubbleI + 1;
        }
        return true;
      }
      return false;
    }

    /** The comparing branch of stepBubbleSort: compare bubbleJ with its right neighbour,
        swap them when out of order, and move on. */
    method CompareNeighbours()
      requires Wellformed() && bubbleI < data.Length - 1 && bubbleJ < data.Length - bubbleI - 1
      modifies data, marks, this`comparisons, this`swaps, this`bubbleJ
      ensures Dataset.Stepped(true, Snapshot(), BubbleCursor())
              == Bubble.Step(old(Snapshot()), old(BubbleCursor()))
    {
      HighlightCompare(bubbleJ, bubbleJ + 1);
      comparisons := comparisons + 1;
      if data[bubbleJ] > data[bubbleJ + 1] {
        SwapElements(bubbleJ, bubbleJ + 1);
        HighlightSwap(bubbleJ, bubbleJ + 1);
      }
      bubbleJ := bubbleJ + 1;
    }

    method StepQuickSort() returns (more: bool)
      requires Wellformed()
      modifies data, marks, this`comparisons, this`swaps, this`quickSortState
      ensures Wellformed()
      ensures Dataset.Stepped(more, Snapshot(), quickSortState)
              == Quick.Step(old(Snapshot()), old(quickSortState))
    {
      if |quickSortState.stack| == 0 {
        return false;
      }
      if !quickSortState.partitioning {
        PopRange();
        return true;
      }
      PartitionStep();
      return true;
    }

    /** The part of stepQuickSort that pops the next range and starts its partition. */
    method PopRange()
      requires Wellformed() && |quickSortState.stack| > 0 && !quickSortState.partitioning
      modifies this`quickSortState
      ensures quickSortState == Quick.Pop(Snapshot(), old(quickSortState)).cursor
    {
      var top := quickSortState.stack[|quickSortState.stack| - 1];
      quickSortState := quickSortState.(low := top.0, high := top.1);
      quickSortState := quickSortState.(stack := quickSortState.stack[..|quickSortState.stack| - 1]);
      if quickSortState.low < quickSortState.high {
        quickSortState := quickSortState.(pivot := data[quickSortState.high],
                                          i := quickSortState.low - 1,
                                          j := quickSortState.low,
                                          partitioning := true);
      }
    }

    /** The part of stepQuickSort that advances the partition in progress: one comparison
        against the pivot, or placing the pivot and pushing both sides. */
    method PartitionStep()
      requires Wellformed() && quickSortState.partitioning
      modifies data, marks, this`comparisons, this`swaps, this`quickSortState
      ensures Dataset.Stepped(true, Snapshot(), quickSortState)
              == Quick.Partition(old(Snapshot()), old(quickSortState))
    {
      if quickSortState.j <= quickSortState.high - 1 {
        CompareWithPivot();
      } else {
        ClosePartition();
      }
    }

    /** Compares data[j] with the pivot, moves it into the left part when smaller, and
        advances j. */
    method CompareWithPivot()
      requires Wellformed() && quickSortState.partitioning
      requires quickSortState.j <= quickSortState.high - 1
      modifies data, marks, this`comparisons, this`swaps, this`quickSortState
      ensures Dataset.Stepped(true, Snapshot(), quickSortState)
              == Quick.Partition(old(Snapshot()), old(quickSortState))
    {
      HighlightCompare(quickSortState.j, quickSortState.high);
      comparisons := comparisons + 1;
      if data[quickSortState.j] < quickSortState.pivot {
        quickSortState := quickSortState.(i := quickSortState.i + 1);
        SwapElements(quickSortState.i, quickSortState.j);
        HighlightSwap(quickSortState.i, quickSortState.j);
      }
      quickSortState := quickSortState.(j := quickSortState.j + 1);
    }

    /** Swaps the pivot into position pi = i+1, pushes (low, pi-1) then (pi+1, high), and
        ends the partition. */
    method ClosePartition()
      requires Wellformed() && quickSortState.partitioning
      requires quickSortState.j > quickSortState.high - 1
      modifies data, marks, this`swaps, this`quickSortState
      ensures Dataset.Stepped(true, Snapshot(), quickSortState)
              == Quick.Partition(old(Snapshot()), old(quickSortState))
    {
      ghost var q := quickSortState;
      SwapElements(quickSortState.i + 1, quickSortState.high);
      HighlightSwap(quickSortState.i + 1, quickSortState.high);
      var pi := quickSortState.i + 1;
      quickSortState := quickSortState.(stack := quickSortState.stack + [(quickSortState.low, pi - 1)]);
      quickSortState := quickSortState.(stack := quickSortState.stack + [(pi + 1, quickSortState.high)]);
      quickSortState := quickSortState.(partitioning := false);
      assert quickSortState.stack == q.stack + [(q.low, pi - 1), (pi + 1, q.high)];
    }

    method StepSelectionSort() returns (more: bool)
      requires Wellformed()
      modifies data, marks, this`comparisons, this`swaps,
               this`selectionI, this`selectionJ, this`selectionMin
      ensures selectionI < data.Length - 1 ==> selectionMin < data.Length
      ensures Dataset.Stepped(more, Snapshot(), SelectionCursor())
              == Selection.Step(old(Snapshot()), old(SelectionCursor()))
    {
      if selectionI < data.Length - 1 {
        if selectionJ < data.Length {
          HighlightCompare(selectionJ, selectionMin);
          comparisons := comparisons + 1;
          if data[selectionJ] < data[selectionMin] {
            selectionMin := selectionJ;
          }
          selectionJ := selectionJ + 1;
          return true;
        } else {
          if selectionMin != selectionI {
            SwapElements(selectionI, selectionMin);
            HighlightSwap(selectionI, selectionMin);
          }
          HighlightSorted(selectionI);
          selectionI := selectionI + 1;
          selectionJ := selectionI + 1;
          selectionMin := selectionI;
          return true;
        }
      }
      return false;
    }

    /** One tick of the selected algorithm while a run is active and not paused. A step
        that reports done (merge sort always does) stops the run and paints every bar as
        sorted. A finished bubble or selection run leaves the data sorted. */
    method StepAlgorithm()
      requires Valid()
      modifies data, marks, this`isSorting, this`comparisons, this`swaps,
               this`bubbleI, this`bubbleJ, this`quickSortState,
               this`selectionI, this`selectionJ, this`selectionMin
      ensures Valid()
      ensures !old(isSorting) || old(isPaused) ==>
                && data[..] == old(data[..]) && marks[..] == old(marks[..])
                && isSorting == old(isSorting) && comparisons == old(comparisons) && swaps == old(swaps)
                && CursorsKept()
      ensures old(isSorting) && !old(isPaused) && currentAlgorithm == BubbleSort ==> BubbleTicked()
      ensures old(isSorting) && !old(isPaused) && currentAlgorithm == QuickSort ==> QuickTicked()
      ensures old(isSorting) && !old(isPaused) && currentAlgorithm == SelectionSort ==> SelectionTicked()
      ensures old(isSorting) && !old(isPaused) && currentAlgorithm == MergeSort ==> MergeTicked()
      ensures old(isSorting) && !old(isPaused) && currentAlgorithm == NoAlgorithm ==>
                unchanged(this, data, marks)
      ensures old(isSorting) && !isSorting ==> Completed()
    {
      if !isSorting || isPaused {
        return;
      }
      Tick();
    }

    /** The switch of stepAlgorithm for an active, unpaused run. With no algorithm selected
        (which a run never has) nothing happens. */
    method Tick()
      requires Valid() && isSorting
      modifies data, marks, this`isSorting, this`comparisons, this`swaps,
               this`bubbleI, this`bubbleJ, this`quickSortState,
               this`selectionI, this`selectionJ, this`selectionMin
      ensures Valid()
      ensures currentAlgorithm == BubbleSort ==> BubbleTicked()
      ensures currentAlgorithm == QuickSort ==> QuickTicked()
      ensures currentAlgorithm == SelectionSort ==> SelectionTicked()
      ensures currentAlgorithm == MergeSort ==> MergeTicked()
      ensures currentAlgorithm == NoAlgorithm ==> unchanged(this, data, marks)
      ensures !isSorting ==> Completed()
    {
      match currentAlgorithm {
        case BubbleSort =>
          TickBubble();
        case QuickSort =>
          TickQuick();
        case SelectionSort =>
          TickSelection();
        case MergeSort =>
          // stepAlgorithm ends a merge-sort run at once
          Finish();
        case NoAlgorithm =>
      }
    }

    /** The end of stepAlgorithm once the selected step reports done: the run stops and
        every bar is painted as sorted. */
    method Finish()
      modifies marks, this`isSorting
      ensures !isSorting && marks[..] == Markers.AllSorted(marks.Length)
    {
      isSorting := false;
      MarkAllSorted();
    }

    /** A tick of a bubble run: one stepBubbleSort, and the end of the run once it reports
        done, which leaves the data sorted with the comparisons and swaps of the whole run. */
    method TickBubble()
      requires Valid() && isSorting && currentAlgorithm == BubbleSort
      modifies data, marks, this`isSorting, this`comparisons, this`swaps, this`bubbleI, this`bubbleJ
      ensures Valid()
      ensures BubbleTicked()
      ensures !isSorting ==> Completed()
    {
      var continueSorting := AdvanceBubble();
      if !continueSorting {
        Finish();
      }
    }

    /** A tick of a quick-sort run: one stepQuickSort, and the end of the run once it
        reports done. */
    method TickQuick()
      requires Valid() && isSorting && currentAlgorithm == QuickSort
      modifies data, marks, this`isSorting, this`comparisons, this`swaps, this`quickSortState
      ensures Valid()
      ensures QuickTicked()
    {
      var continueSorting := AdvanceQuick();
      if !continueSorting {
        Finish();
      }
    }

    /** A tick of a selection run: one stepSelectionSort, and the end of the run once it
        reports done, which leaves the data sorted with the comparisons and swaps of the
        whole run. */
    method TickSelection()
      requires Valid() && isSorting && currentAlgorithm == SelectionSort
      modifies data, marks, this`isSorting, this`comparisons, this`swaps,
               this`selectionI, this`selectionJ, this`selectionMin
      ensures Valid()
      ensures SelectionTicked()
      ensures !isSorting ==> Completed()
    {
      var continueSorting := AdvanceSelection();
      if !continueSorting {
        Finish();
      }
    }

    /** stepBubbleSort inside a bubble run: the run invariant carries over, and a step that
        reports done leaves the data sorted, with the comparisons and swaps of the whole run. */
    method AdvanceBubble() returns (more: bool)
      requires Valid() && isSorting && currentAlgorithm == BubbleSort
      modifies data, marks, this`comparisons, this`swaps, this`bubbleI, this`bubbleJ
      ensures Wellformed() && multiset(data[..]) == multiset(initial)
      ensures Dataset.Stepped(more, Snapshot(), BubbleCursor())
              == Bubble.Step(old(Snapshot()), old(BubbleCursor()))
      ensures more ==> Running()
      ensures !more ==> Completed()
    {
      Bubble.StepPermutes(Snapshot(), BubbleCursor());
      Bubble.StepKeepsRunInv(Snapshot(), BubbleCursor(), initial);
      more := StepBubbleSort();
    }

    /** stepQuickSort inside a quick-sort run: the Lomuto invariant carries over. */
    method AdvanceQuick() returns (more: bool)
      requires Valid() && isSorting && currentAlgorithm == QuickSort
      modifies data, marks, this`comparisons, this`swaps, this`quickSortState
      ensures Wellformed() && multiset(data[..]) == multiset(initial)
      ensures Dataset.Stepped(more, Snapshot(), quickSortState)
              == Quick.Step(old(Snapshot()), old(quickSortState))
      ensures more ==> Running()
    {
      Quick.StepPermutes(Snapshot(), quickSortState);
      Quick.StepKeepsLomuto(Snapshot(), quickSortState);
      more := StepQuickSort();
    }

    /** stepSelectionSort inside a selection run: the run invariant carries over, and a step
        that reports done leaves the data sorted, with the comparisons and swaps of the
        whole run. */
    method AdvanceSelection() returns (more: bool)
      requires Valid() && isSorting && currentAlgorithm == SelectionSort
      modifies data, marks, this`comparisons, this`swaps,
               this`selectionI, this`selectionJ, this`selectionMin
      ensures Wellformed() && multiset(data[..]) == multiset(initial)
      ensures Dataset.Stepped(more, Snapshot(), SelectionCursor())
              == Selection.Step(old(Snapshot()), old(SelectionCursor()))
      ensures more ==> Running()
      ensures !more ==> Completed()
    {
      Selection.StepPermutes(Snapshot(), SelectionCursor());
      Selection.StepKeepsInvUntilDone(Snapshot(), SelectionCursor());
      more := StepSelectionSort();
    }

    /** The completion loop of stepAlgorithm: highlightSorted on every bar in turn. */
    method MarkAllSorted()
      modifies marks
      ensures marks[..] == Markers.AllSorted(marks.Length)
    {
      for k := 0 to marks.Length
        invariant forall p :: 0 <= p < k ==> marks[p] == Markers.Sorted
      {
        HighlightSorted(k);
      }
    }

    /** SPACE: with no algorithm selected nothing happens; from not sorting a new run
        starts on the current data with zeroed counters and reset cursors; during a run
        the pause flag toggles. */
    twostate predicate StartedOrToggled()
      reads this, data, marks
    {
      && currentAlgorithm == old(currentAlgorithm) && sortingSpeed == old(sortingSpeed)
      && unchanged(data, marks)
      && (old(currentAlgorithm) == NoAlgorithm ==> unchanged(this))
      && (old(currentAlgorithm) != NoAlgorithm && !old(isSorting) ==>
            && isSorting && !isPaused && comparisons == 0 && swaps == 0
            && BubbleCursor() == Bubble.Start && SelectionCursor() == Selection.Start
            && quickSortState == Quick.Start(data.Length)
            && mergeSortState == MergeSortState(0, data.Length - 1, 0, false, [], 0, 0, 0)
            && initial == data[..])
      && (old(currentAlgorithm) != NoAlgorithm && old(isSorting) ==>
            && isSorting && isPaused == !old(isPaused)
            && comparisons == old(comparisons) && swaps == old(swaps)
            && CursorsKept() && initial == old(initial))
    }

    method StartSorting()
      requires Valid()
      modifies this`isSorting, this`isPaused, this`comparisons, this`swaps,
               this`bubbleI, this`bubbleJ, this`quickSortState, this`mergeSortState,
               this`selectionI, this`selectionJ, this`selectionMin, this`initial
      ensures Valid() && StartedOrToggled()
    {
      if currentAlgorithm == NoAlgorithm {
        return;
      }

      if !isSorting {
        isSorting := true;
        isPaused := false;
        comparisons := 0;
        swaps := 0;
        ResetAlgorithmStates();
        initial := data[..];
        Bubble.StartInv(Snapshot());
        Selection.StartInv(Snapshot());
        assert Bubble.RunInv(Snapshot(), BubbleCursor(), initial);
      } else {
        isPaused := !isPaused;
      }
    }

    /** Keys 1-4: the algorithm a is selected and the run stops, without clearing the
        pause flag; nothing else changes. */
    twostate predicate Selected(a: Algorithm)
      reads this, data, marks
    {
      && currentAlgorithm == a
      && !isSorting && isPaused == old(isPaused) && sortingSpeed == old(sortingSpeed)
      && comparisons == old(comparisons) && swaps == old(swaps)
      && CursorsKept() && unchanged(data, marks)
    }

    method SelectAlgorithm(a: Algorithm)
      requires Valid()
      modifies this`currentAlgorithm, this`isSorting
      ensures Valid() && Selected(a)
    {
      currentAlgorithm := a;
      isSorting := false;
    }

    /** R: the new values are stored, every bar is repainted in the default colour, the run
        stops and the counters are zeroed; the cursors and the selected algorithm stay as
        they were. */
    twostate predicate Regenerated(values: seq<int>)
      reads this, data, marks
    {
      && data[..] == values && marks[..] == Markers.Cleared(data.Length)
      && !isSorting && comparisons == 0 && swaps == 0
      && currentAlgorithm == old(currentAlgorithm) && isPaused == old(isPaused)
      && sortingSpeed == old(sortingSpeed) && CursorsKept()
    }

    method Regenerate(values: seq<int>)
      requires Valid() && |values| == data.Length
      modifies data, marks, this`initial, this`isSorting, this`comparisons, this`swaps
      ensures Valid() && Regenerated(values)
    {
      InitializeData(values);
      isSorting := false;
      comparisons := 0;
      swaps := 0;
    }

    /** +/Up and -/Down: the delay becomes `speed`; nothing else changes. */
    twostate predicate SpeedSet(speed: int)
      reads this, data, marks
    {
      && sortingSpeed == speed
      && currentAlgorithm == old(currentAlgorithm)
      && isSorting == old(isSorting) && isPaused == old(isPaused)
      && comparisons == old(comparisons) && swaps == old(swaps)
      && CursorsKept() && unchanged(data, marks)
    }

    method SetSpeed(speed: int)
      requires Valid() && 10 <= speed <= 500
      modifies this`sortingSpeed
      ensures Valid() && SpeedSet(speed)
    {
      sortingSpeed := speed;
    }

    /** The state effect of each key handleInput reacts to. */
    twostate predicate Handled(cmd: Command)
      reads this, data, marks
    {
      match cmd
      case SelectBubble => Selected(BubbleSort)
      case SelectQuick => Selected(QuickSort)
      case SelectMerge => Selected(MergeSort)
      case SelectSelection => Selected(SelectionSort)
      case StartPause => StartedOrToggled()
      case Reset(values) => Regenerated(values)
      case SpeedUp => SpeedSet(Faster(old(sortingSpeed)))
      case SlowDown => SpeedSet(Slower(old(sortingSpeed)))
    }

    /** One handleInput call. */
    method HandleCommand(cmd: Command)
      requires Valid()
      requires cmd.Reset? ==> |cmd.values| == data.Length
      modifies data, marks, this
      ensures Valid() && Handled(cmd)
    {
      match cmd {
        case SelectBubble =>
          SelectAlgorithm(BubbleSort);
        case SelectQuick =>
          SelectAlgorithm(QuickSort);
        case SelectMerge =>
          SelectAlgorithm(MergeSort);
        case SelectSelection =>
          SelectAlgorithm(SelectionSort);
        case StartPause =>
          StartSorting();
        case Reset(values) =>
          Regenerate(values);
        case SpeedUp =>
          SetSpeed(Faster(sortingSpeed));
        case SlowDown =>
          SetSpeed(Slower(sortingSpeed));
      }
    }
  }
}
