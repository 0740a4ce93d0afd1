/** Quick sort as a resumable state machine (stepQuickSort): an iterative Lomuto partition
    over an explicit work-stack of (low, high) ranges. One call pops a range, makes one
    comparison against the pivot, or closes a partition by placing the pivot. */
module Quick {
  import Markers
  import opened Dataset

  /** quickSortState: the range being partitioned, whether a partition is in progress,
      the pivot value, the Lomuto cursors i and j, and the stack of pending ranges. */
  datatype State = State(low: int, high: int, partitioning: bool, pivot: int, i: int, j: int,
                         stack: seq<(int, int)>)

  /** The state resetAlgorithmStates installs: the whole vector is the one pending range. */
  function Start(n: nat): (r: State)
    ensures InBounds(n, r) && !r.partitioning && r.stack == [(0, n - 1)]
  {
    State(0, n - 1, false, 0, 0, 0, [(0, n - 1)])
  }

  /** What every step needs so that its indexing stays inside the data: a stacked range that
      will be partitioned lies within the data, and during a partition the cursors satisfy
      low - 1 <= i < j <= high. */
  ghost predicate InBounds(n: int, q: State)
  {
    && (forall k :: 0 <= k < |q.stack| && q.stack[k].0 < q.stack[k].1 ==>
          0 <= q.stack[k].0 && q.stack[k].1 < n)
    && (q.partitioning ==> 0 <= q.low && q.low - 1 <= q.i < q.j <= q.high < n)
  }

  /** Takes the top range off the stack; a range of two or more elements starts a
      partition with the last element as pivot. Data and counters do not change. */
  function Pop(f: Frame, q: State): (r: Stepped<State>)
    requires |q.stack| > 0 && !q.partitioning && InBounds(|f.data|, q)
    ensures r.more && r.frame == f
    ensures InBounds(|f.data|, r.cursor)
    ensures r.cursor.stack == q.stack[..|q.stack| - 1]
    ensures (r.cursor.low, r.cursor.high) == q.stack[|q.stack| - 1]
    ensures r.cursor.partitioning <==> r.cursor.low < r.cursor.high
    ensures r.cursor.partitioning ==>
              && r.cursor.pivot == f.data[r.cursor.high]
              && r.cursor.i == r.cursor.low - 1 && r.cursor.j == r.cursor.low
  {
    var top := q.stack[|q.stack| - 1];
    var rest := q.stack[..|q.stack| - 1];
    if top.0 < top.1 then
      Stepped(true, f, q.(low := top.0, high := top.1, stack := rest, pivot := f.data[top.1],
                          i := top.0 - 1, j := top.0, partitioning := true))
    else
      Stepped(true, f, q.(low := top.0, high := top.1, stack := rest))
  }

  /** One partition step: while j < high, compare data[j] with the pivot and move it into
      the left part when smaller; once j reaches high, swap the pivot into place i+1 and
      push the two sides, left side first. */
  function Partition(f: Frame, q: State): (r: Stepped<State>)
    requires q.partitioning && InBounds(|f.data|, q)
    ensures r.more
    ensures |r.frame.data| == |f.data| && |r.frame.marks| == |f.marks|
    ensures InBounds(|f.data|, r.cursor)
    ensures forall k :: 0 <= k < |f.data| && !(q.low <= k <= q.high) ==> r.frame.data[k] == f.data[k]
    ensures (r.cursor.low, r.cursor.high, r.cursor.pivot) == (q.low, q.high, q.pivot)
    ensures q.j <= q.high - 1 ==>
              && r.frame.comparisons == f.comparisons + 1
              && r.cursor.partitioning && r.cursor.j == q.j + 1
              && r.cursor.stack == q.stack
              && (f.data[q.j] < q.pivot ==>
                    r.cursor.i == q.i + 1 && r.frame.swaps == f.swaps + 1
                    && r.frame.data == Swap(f.data, q.i + 1, q.j)
                    && r.frame.marks == Markers.Highlight(f.marks, q.i + 1, q.j, Markers.Swapping))
              && (q.pivot <= f.data[q.j] ==>
                    r.cursor.i == q.i && r.frame.swaps == f.swaps && r.frame.data == f.data
                    && r.frame.marks == Markers.Highlight(f.marks, q.j, q.high, Markers.Comparing))
    ensures q.j > q.high - 1 ==>
              && r.frame.comparisons == f.comparisons && r.frame.swaps == f.swaps + 1
              && r.frame.data == Swap(f.data, q.i + 1, q.high)
              && r.frame.marks == Markers.Highlight(f.marks, q.i + 1, q.high, Markers.Swapping)
              && !r.cursor.partitioning
              && r.cursor.stack == q.stack + [(q.low, q.i), (q.i + 2, q.high)]
  {
    if q.j <= q.high - 1 then
      var compared := CountComparison(HighlightCompare(f, q.j, q.high));
      if compared.data[q.j] < q.pivot then
        var swapped := HighlightSwap(SwapElements(compared, q.i + 1, q.j), q.i + 1, q.j);
        Stepped(true, swapped, q.(i := q.i + 1, j := q.j + 1))
      else
        Stepped(true, compared, q.(j := q.j + 1))
    else
      var placed := HighlightSwap(SwapElements(f, q.i + 1, q.high), q.i + 1, q.high);
      var pi := q.i + 1;
      Stepped(true, placed, q.(stack := q.stack + [(q.low, pi - 1), (pi + 1, q.high)],
                               partitioning := false))
  }

  /** One call of stepQuickSort as written: the empty-stack test comes first, so the step
      reports done as soon as the stack is empty, even in the middle of a partition. */
  function Step(f: Frame, q: State): (r: Stepped<State>)
    requires InBounds(|f.data|, q)
    ensures |r.frame.data| == |f.data| && |r.frame.marks| == |f.marks|
    ensures InBounds(|f.data|, r.cursor)
    ensures r.more <==> |q.stack| > 0
    ensures !r.more ==> r.frame == f && r.cursor == q
  {
    if |q.stack| == 0 then Stepped(false, f, q)
    else if !q.partitioning then Pop(f, q)
    else Partition(f, q)
  }

  /** A partition step only rearranges the data. */
  lemma PartitionPermutes(f: Frame, q: State)
    requires q.partitioning && InBounds(|f.data|, q)
    ensures multiset(Partition(f, q).frame.data) == multiset(f.data)
  {
    if q.j <= q.high - 1 {
      if f.data[q.j] < q.pivot {
        SwapPermutes(f.data, q.i + 1, q.j);
      }
    } else {
      SwapPermutes(f.data, q.i + 1, q.high);
    }
  }

  /** A step only rearranges the data. */
  lemma StepPermutes(f: Frame, q: State)
    requires InBounds(|f.data|, q)
    ensures multiset(Step(f, q).frame.data) == multiset(f.data)
  {
    if |q.stack| > 0 && q.partitioning {
      PartitionPermutes(f, q);
    }
  }

  /** The Lomuto invariant of a partition in progress: data[low..i] is below the pivot,
      data(i..j) is at least the pivot, and the pivot still sits at data[high]. */
  ghost predicate Lomuto(f: Frame, q: State)
  {
    && InBounds(|f.data|, q)
    && (q.partitioning ==>
          && q.pivot == f.data[q.high]
          && (forall k :: q.low <= k <= q.i ==> f.data[k] < q.pivot)
          && (forall k :: q.i < k < q.j ==> q.pivot <= f.data[k]))
  }

  /** A comparing step keeps the Lomuto invariant. */
  lemma ScanKeepsLomuto(f: Frame, q: State)
    requires Lomuto(f, q) && q.partitioning && q.j <= q.high - 1
    ensures Lomuto(Partition(f, q).frame, Partition(f, q).cursor)
  {
    if f.data[q.j] < q.pivot {
      ScanBelowPivotKeepsLomuto(f, q);
    }
  }

  lemma ScanBelowPivotKeepsLomuto(f: Frame, q: State)
    requires Lomuto(f, q) && q.partitioning && q.j <= q.high - 1 && f.data[q.j] < q.pivot
    ensures Lomuto(Partition(f, q).frame, Partition(f, q).cursor)
  {
    var r := Partition(f, q);
    SwapGrowsLeftPart(f.data, r.frame.data, q.low, q.i, q.j, q.pivot);
  }

  /** Moving a value below the pivot from j to i+1 grows the left part by one and shifts
      the right part along. */
  lemma SwapGrowsLeftPart(s: seq<int>, t: seq<int>, low: int, i: int, j: int, pivot: int)
    requires 0 <= low && low - 1 <= i < j < |s| && s[j] < pivot
    requires t == Swap(s, i + 1, j)
    requires forall k :: low <= k <= i ==> s[k] < pivot
    requires forall k :: i < k < j ==> pivot <= s[k]
    ensures forall k :: low <= k <= i + 1 ==> t[k] < pivot
    ensures forall k :: i + 1 < k <= j ==> pivot <= t[k]
  {
    forall k | i + 1 < k <= j
      ensures pivot <= t[k]
    {
      if k < j {
        assert t[k] == s[k];
      } else if i + 1 < j {
        assert t[k] == s[i + 1];
      }
    }
  }

  /** Closing a partition puts the pivot at pi = i+1 with smaller values to its left and
      values at least the pivot to its right, and pushes (low, pi-1) then (pi+1, high). */
  lemma CloseSplitsAroundPivot(f: Frame, q: State)
    requires Lomuto(f, q) && q.partitioning && q.j > q.high - 1
    ensures var t := Partition(f, q).frame.data;
            var pi := q.i + 1;
            && t[pi] == q.pivot
            && (forall k :: q.low <= k < pi ==> t[k] < q.pivot)
            && (forall k :: pi < k <= q.high ==> q.pivot <= t[k])
            && Partition(f, q).cursor.stack == q.stack + [(q.low, pi - 1), (pi + 1, q.high)]
  {
    var s, t := f.data, Partition(f, q).frame.data;
    assert t == Swap(s, q.i + 1, q.high);
  }

  /** Every step keeps the Lomuto invariant. */
  lemma StepKeepsLomuto(f: Frame, q: State)
    requires Lomuto(f, q)
    ensures Lomuto(Step(f, q).frame, Step(f, q).cursor)
  {
    if |q.stack| > 0 && q.partitioning && q.j <= q.high - 1 {
      ScanKeepsLomuto(f, q);
    }
  }

  /** From the reset state, the first step pops the whole range and empties the stack,
      so the second step reports done: the run ends with the data untouched and no
      comparison or swap made, whatever the data. */
  lemma RunStopsAfterFirstPop(f: Frame)
    requires |f.data| >= 1
    ensures var first := Step(f, Start(|f.data|));
            && first.more && first.frame == f && first.cursor.stack == []
            && (first.cursor.partitioning <==> |f.data| >= 2)
            && !Step(first.frame, first.cursor).more
            && Step(first.frame, first.cursor).frame == f
  {
  }

  /** The data [2, 1] is left unsorted by a complete run from the reset state. */
  lemma RunLeavesTwoOneUnsorted()
    ensures var f := Frame([2, 1], [Markers.Default, Markers.Default], 0, 0);
            var first := Step(f, Start(2));
            var second := Step(first.frame, first.cursor);
            && !second.more
            && second.frame.data == [2, 1]
            && !Sorted(second.frame.data)
  {
    var f := Frame([2, 1], [Markers.Default, Markers.Default], 0, 0);
    RunStopsAfterFirstPop(f);
    assert !(f.data[0] <= f.data[1]);
  }
}
