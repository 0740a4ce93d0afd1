/** Bubble sort as a resumable state machine (stepBubbleSort): one call makes one
    comparison of neighbours (j, j+1), swapping them when out of order, or closes a pass. */
module Bubble {
  import Markers
  import opened Dataset

  /** bubbleI counts the finished passes, bubbleJ is the inner scan position. */
  datatype Cursor = Cursor(i: nat, j: nat)

  /** The cursor resetAlgorithmStates installs. */
  const Start: Cursor := Cursor(0, 0)

  /** Comparisons made by the first `passes` passes over n elements; pass p compares n-1-p pairs. */
  function PassComparisons(n: nat, passes: nat): (r: int)
  {
    if passes == 0 then 0 else PassComparisons(n, passes - 1) + (n - passes)
  }

  /** One call of stepBubbleSort. The data always has at least one element, so the
      unsigned `data.size() - 1` never wraps. */
  function Step(f: Frame, c: Cursor): (r: Stepped<Cursor>)
    requires |f.data| >= 1
    ensures |r.frame.data| == |f.data| && |r.frame.marks| == |f.marks|
    ensures r.more <==> c.i < |f.data| - 1
    ensures !r.more ==> r.frame == f && r.cursor == c
    ensures r.more && c.j < |f.data| - 1 - c.i ==>
              && r.cursor == Cursor(c.i, c.j + 1)
              && r.frame.comparisons == f.comparisons + 1
              && r.frame.data[c.j] <= r.frame.data[c.j + 1]
              && (r.frame.data == f.data || r.frame.data == Swap(f.data, c.j, c.j + 1))
              && f.swaps <= r.frame.swaps <= f.swaps + 1
              && (r.frame.swaps == f.swaps + 1 <==> f.data[c.j] > f.data[c.j + 1])
              && (f.data[c.j] > f.data[c.j + 1] ==>
                    r.frame.marks == Markers.Highlight(f.marks, c.j, c.j + 1, Markers.Swapping))
              && (f.data[c.j] <= f.data[c.j + 1] ==>
                    r.frame.marks == Markers.Highlight(f.marks, c.j, c.j + 1, Markers.Comparing))
    ensures r.more && c.j >= |f.data| - 1 - c.i ==>
              && r.cursor == Cursor(c.i + 1, 0)
              && r.frame.data == f.data
              && r.frame.comparisons == f.comparisons && r.frame.swaps == f.swaps
              && r.frame.marks == Markers.MarkSorted(f.marks, |f.data| - 1 - c.i)
              && (|f.marks| == |f.data| ==> r.frame.marks[|f.data| - 1 - c.i] == Markers.Sorted)
  {
    var n := |f.data|;
    if c.i < n - 1 then
      if c.j < n - c.i - 1 then
        var compared := CountComparison(HighlightCompare(f, c.j, c.j + 1));
        var swapped :=
          if compared.data[c.j] > compared.data[c.j + 1]
          then HighlightSwap(SwapElements(compared, c.j, c.j + 1), c.j, c.j + 1)
          else compared;
        Stepped(true, swapped, Cursor(c.i, c.j + 1))
      else
        Stepped(true, HighlightSorted(f, n - c.i - 1), Cursor(c.i + 1, 0))
    else
      Stepped(false, f, c)
  }

  /** A step only rearranges the data. */
  lemma StepPermutes(f: Frame, c: Cursor)
    requires |f.data| >= 1
    ensures multiset(Step(f, c).frame.data) == multiset(f.data)
  {
    if c.i < |f.data| - 1 && c.j < |f.data| - 1 - c.i {
      SwapPermutes(f.data, c.j, c.j + 1);
    }
  }

  /** What holds between any two steps of a run started from Start with zeroed counters:
      the last i positions hold the i largest values in order, data[j] is the largest of
      data[0..j], and every comparison made so far is accounted for. */
  ghost predicate Inv(f: Frame, c: Cursor)
  {
    var n := |f.data|;
    && n >= 1
    && c.i <= n - 1
    && c.j <= n - 1 - c.i
    && SortedRange(f.data, n - c.i, n)
    && Splits(f.data, n - c.i)
    && (forall k :: 0 <= k <= c.j ==> f.data[k] <= f.data[c.j])
    && f.comparisons == PassComparisons(n, c.i) + c.j
  }

  /** Steps left before Step reports done: the outstanding comparisons plus one step per
      outstanding pass end. */
  function Remaining(n: nat, c: Cursor): (r: int)
    requires n >= 1
  {
    PassComparisons(n, n - 1) - PassComparisons(n, c.i) - c.j + (n - 1 - c.i)
  }

  lemma {:induction false} PassComparisonsClosedForm(n: nat, passes: nat)
    ensures 2 * PassComparisons(n, passes) == passes * (2 * n - passes - 1)
  {
    if passes > 0 {
      PassComparisonsClosedForm(n, passes - 1);
    }
  }

  /** The reset cursor with zeroed counters satisfies the invariant. */
  lemma StartInv(f: Frame)
    requires |f.data| >= 1 && f.comparisons == 0
    ensures Inv(f, Start)
  {
  }

  /** Every step keeps the invariant. */
  lemma StepKeepsInv(f: Frame, c: Cursor)
    requires Inv(f, c)
    ensures Inv(Step(f, c).frame, Step(f, c).cursor)
  {
    var n := |f.data|;
    if c.i < n - 1 && c.j < n - 1 - c.i {
      CompareKeepsInv(f, c);
    } else if c.i < n - 1 {
      PassEndKeepsInv(f, c);
    }
  }

  lemma CompareKeepsInv(f: Frame, c: Cursor)
    requires Inv(f, c) && c.i < |f.data| - 1 && c.j < |f.data| - 1 - c.i
    ensures Inv(Step(f, c).frame, Step(f, c).cursor)
  {
    var n := |f.data|;
    var r := Step(f, c);
    var s, t := f.data, r.frame.data;
    // t[j+1] becomes the larger of s[j] and s[j+1]; nothing else moves
    assert forall k :: 0 <= k < n && k != c.j && k != c.j + 1 ==> t[k] == s[k];
    assert t[c.j + 1] == (if s[c.j] > s[c.j + 1] then s[c.j] else s[c.j + 1]);
    assert t[c.j] == (if s[c.j] > s[c.j + 1] then s[c.j + 1] else s[c.j]);
    forall k | 0 <= k <= c.j + 1
      ensures t[k] <= t[c.j + 1]
    {
      if k < c.j {
        assert s[k] <= s[c.j];
      }
    }
    forall p, q | 0 <= p < n - c.i <= q < n
      ensures t[p] <= t[q]
    {
      assert t[q] == s[q];
      assert t[p] == s[p] || t[p] == s[c.j] || t[p] == s[c.j + 1];
    }
    assert SortedRange(t, n - c.i, n);
  }

  lemma PassEndKeepsInv(f: Frame, c: Cursor)
    requires Inv(f, c) && c.i < |f.data| - 1 && c.j == |f.data| - 1 - c.i
    ensures Inv(Step(f, c).frame, Step(f, c).cursor)
  {
    PassEndSortsSuffix(f, c);
  }

  /** When a pass ends, the suffix from n-1-i is sorted and no smaller than anything before it. */
  lemma PassEndSortsSuffix(f: Frame, c: Cursor)
    requires Inv(f, c) && c.i < |f.data| - 1 && c.j == |f.data| - 1 - c.i
    ensures SortedRange(f.data, |f.data| - 1 - c.i, |f.data|)
    ensures Splits(f.data, |f.data| - 1 - c.i)
  {
    var n, s, m := |f.data|, f.data, |f.data| - 1 - c.i;
    forall p, q | 0 <= p < m <= q < n
      ensures s[p] <= s[q]
    {
      if q > m {
        assert s[p] <= s[m] <= s[q];
      }
    }
  }

  /** Once Step reports done, the data is sorted and exactly n(n-1)/2 comparisons were made. */
  lemma DoneIsSorted(f: Frame, c: Cursor)
    requires Inv(f, c) && !Step(f, c).more
    ensures Sorted(f.data)
    ensures 2 * f.comparisons == |f.data| * (|f.data| - 1)
  {
    var n := |f.data|;
    PassComparisonsClosedForm(n, n - 1);
    forall p, q | 0 <= p < q < n
      ensures f.data[p] <= f.data[q]
    {
      if p > 0 {
        assert SortedRange(f.data, 1, n);
      }
    }
  }

  /** Each step that reports more work brings the run exactly one step closer to done, so a
      run from Start takes n(n-1)/2 comparing steps and n-1 pass-closing steps. */
  lemma StepCountsDown(f: Frame, c: Cursor)
    requires Inv(f, c) && Step(f, c).more
    ensures Remaining(|f.data|, Step(f, c).cursor) == Remaining(|f.data|, c) - 1
    ensures Remaining(|f.data|, c) >= 1
  {
    var n := |f.data|;
    PassComparisonsGrow(n, c.i, n - 1);
    assert PassComparisons(n, c.i + 1) == PassComparisons(n, c.i) + (n - 1 - c.i);
  }

  /** Each pass p < n contributes at least one comparison. */
  lemma {:induction false} PassComparisonsGrow(n: nat, a: nat, b: nat)
    requires a <= b < n
    ensures PassComparisons(n, b) - PassComparisons(n, a) >= b - a
  {
    if a < b {
      PassComparisonsGrow(n, a, b - 1);
    }
  }

  lemma StartRemaining(n: nat)
    requires n >= 1
    ensures 2 * Remaining(n, Start) == n * (n - 1) + 2 * (n - 1)
  {
    PassComparisonsClosedForm(n, n - 1);
  }

  // Swap accounting: every swap removes exactly one inversion.

  /** How many elements of s are smaller than x. */
  function CountBelow(s: seq<int>, x: int): (r: nat)
  {
    if s == [] then 0 else (if s[0] < x then 1 else 0) + CountBelow(s[1..], x)
  }

  /** The number of pairs p < q with s[p] > s[q]. */
  function Inversions(s: seq<int>): (r: nat)
  {
    if s == [] then 0 else CountBelow(s[1..], s[0]) + Inversions(s[1..])
  }

  lemma {:induction false} CountBelowSwapAdjacent(s: seq<int>, j: nat, x: int)
    requires j + 1 < |s|
    ensures CountBelow(Swap(s, j, j + 1), x) == CountBelow(s, x)
  {
    var t := Swap(s, j, j + 1);
    if j == 0 {
      assert t[1..][1..] == s[1..][1..];
    } else {
      assert t[1..] == Swap(s[1..], j - 1, j);
      CountBelowSwapAdjacent(s[1..], j - 1, x);
    }
  }

  lemma {:induction false} CountBelowNone(s: seq<int>, x: int)
    requires forall k :: 0 <= k < |s| ==> x <= s[k]
    ensures CountBelow(s, x) == 0
  {
    if s != [] {
      CountBelowNone(s[1..], x);
    }
  }

  /** Swapping an out-of-order neighbour pair removes exactly one inversion. */
  lemma {:induction false} SwapAdjacentRemovesInversion(s: seq<int>, j: nat)
    requires j + 1 < |s| && s[j] > s[j + 1]
    ensures Inversions(Swap(s, j, j + 1)) + 1 == Inversions(s)
  {
    var t := Swap(s, j, j + 1);
    if j == 0 {
      var rest := s[2..];
      assert s[1..] == [s[1]] + rest && t[1..] == [s[0]] + rest;
      assert s[1..][1..] == rest && t[1..][1..] == rest;
    } else {
      assert t[1..] == Swap(s[1..], j - 1, j);
      SwapAdjacentRemovesInversion(s[1..], j - 1);
      CountBelowSwapAdjacent(s[1..], j - 1, s[0]);
    }
  }

  /** Inv together with the swap accounting: the swaps made so far plus the inversions
      left equal the inversions of the data the run started from. */
  ghost predicate RunInv(f: Frame, c: Cursor, origin: seq<int>)
  {
    Inv(f, c) && f.swaps + Inversions(f.data) == Inversions(origin)
  }

  /** Every step keeps the run invariant, and a run that reports done has sorted the data
      with n(n-1)/2 comparisons and one swap per inversion of the data it started from. */
  lemma StepKeepsRunInv(f: Frame, c: Cursor, origin: seq<int>)
    requires RunInv(f, c, origin)
    ensures RunInv(Step(f, c).frame, Step(f, c).cursor, origin)
    ensures !Step(f, c).more ==>
              && Sorted(f.data)
              && 2 * f.comparisons == |f.data| * (|f.data| - 1)
              && f.swaps == Inversions(origin)
  {
    StepKeepsInv(f, c);
    StepKeepsSwapBalance(f, c);
    if !Step(f, c).more {
      DoneIsSorted(f, c);
      SortedHasNoInversions(f.data);
    }
  }

  lemma {:induction false} SortedHasNoInversions(s: seq<int>)
    requires Sorted(s)
    ensures Inversions(s) == 0
  {
    if s != [] {
      CountBelowNone(s[1..], s[0]);
      SortedHasNoInversions(s[1..]);
    }
  }

  /** A step adds one swap exactly when it removes one inversion, so the swap counter of a
      finished run equals the number of inversions of the data the run started from. */
  lemma StepKeepsSwapBalance(f: Frame, c: Cursor)
    requires |f.data| >= 1
    ensures Step(f, c).frame.swaps + Inversions(Step(f, c).frame.data) == f.swaps + Inversions(f.data)
  {
    var n := |f.data|;
    if c.i < n - 1 && c.j < n - 1 - c.i && f.data[c.j] > f.data[c.j + 1] {
      SwapAdjacentRemovesInversion(f.data, c.j);
    }
  }
}
