/** Selection sort as a resumable state machine (stepSelectionSort): one call compares
    data[j] with the running minimum, or ends a scan by moving the minimum to position i. */
module Selection {
  import Markers
  import opened Dataset

  /** selectionI (the next position to fill), selectionJ (the scan position) and
      selectionMin (the index of the smallest value seen in the current scan). */
  datatype Cursor = Cursor(i: nat, j: nat, min: nat)

  /** The cursor resetAlgorithmStates installs: the first scan starts at j = 0, so its
      first comparison compares data[0] with itself. */
  const Start: Cursor := Cursor(0, 0, 0)

  /** Where the scan for position i starts: 0 for the first scan, i+1 for every later one. */
  function ScanStart(i: nat): (r: nat)
  {
    if i == 0 then 0 else i + 1
  }

  /** Comparisons made by the first `scans` complete scans over n elements. */
  function ScanComparisons(n: nat, scans: nat): (r: int)
  {
    if scans == 0 then 0 else ScanComparisons(n, scans - 1) + (n - ScanStart(scans - 1))
  }

  /** One call of stepSelectionSort. Reading data[selectionMin] needs the running minimum
      to be a valid index while the sort is unfinished. */
  function Step(f: Frame, c: Cursor): (r: Stepped<Cursor>)
    requires |f.data| >= 1
    requires c.i < |f.data| - 1 ==> c.min < |f.data|
    ensures |r.frame.data| == |f.data| && |r.frame.marks| == |f.marks|
    ensures r.more <==> c.i < |f.data| - 1
    ensures !r.more ==> r.frame == f && r.cursor == c
    ensures r.more && c.j < |f.data| ==>
              && r.frame.data == f.data && r.frame.swaps == f.swaps
              && r.frame.comparisons == f.comparisons + 1
              && r.cursor.i == c.i && r.cursor.j == c.j + 1
              && (f.data[c.j] < f.data[c.min] ==> r.cursor.min == c.j)
              && (f.data[c.min] <= f.data[c.j] ==> r.cursor.min == c.min)
              && r.frame.marks == Markers.Highlight(f.marks, c.j, c.min, Markers.Comparing)
    ensures r.more && c.j >= |f.data| ==>
              && r.cursor == Cursor(c.i + 1, c.i + 2, c.i + 1)
              && r.frame.data[c.i] == f.data[c.min]
              && (c.min == c.i ==>
                    && r.frame.data == f.data && r.frame.swaps == f.swaps
                    && r.frame.marks == Markers.MarkSorted(f.marks, c.i))
              && (c.min != c.i ==>
                    && r.frame.data == Swap(f.data, c.i, c.min) && r.frame.swaps == f.swaps + 1
                    && r.frame.marks
                       == Markers.MarkSorted(Markers.Highlight(f.marks, c.i, c.min, Markers.Swapping), c.i))
              && r.frame.comparisons == f.comparisons
              && (|f.marks| == |f.data| ==> r.frame.marks[c.i] == Markers.Sorted)
  {
    var n := |f.data|;
    if c.i < n - 1 then
      if c.j < n then
        var compared := CountComparison(HighlightCompare(f, c.j, c.min));
        var min := if compared.data[c.j] < compared.data[c.min] then c.j else c.min;
        Stepped(true, compared, Cursor(c.i, c.j + 1, min))
      else
        var placed :=
          if c.min != c.i
          then HighlightSwap(SwapElements(f, c.i, c.min), c.i, c.min)
          else f;
        Stepped(true, HighlightSorted(placed, c.i), Cursor(c.i + 1, c.i + 2, c.i + 1))
    else
      Stepped(false, f, c)
  }

  /** A step only rearranges the data. */
  lemma StepPermutes(f: Frame, c: Cursor)
    requires |f.data| >= 1
    requires c.i < |f.data| - 1 ==> c.min < |f.data|
    ensures multiset(Step(f, c).frame.data) == multiset(f.data)
  {
    if c.i < |f.data| - 1 && c.j >= |f.data| {
      SwapPermutes(f.data, c.i, c.min);
    }
  }

  /** What holds between any two steps of a run started from Start with zeroed counters:
      data[0..i) holds the i smallest values in order, data[min] is the least value the
      current scan has seen, at most one swap was made per finished scan, and every
      comparison is accounted for. */
  ghost predicate Inv(f: Frame, c: Cursor)
  {
    var n := |f.data|;
    && n >= 1
    && c.i <= n - 1
    && SortedRange(f.data, 0, c.i)
    && Splits(f.data, c.i)
    && 0 <= f.swaps <= c.i
    && (c.i < n - 1 ==>
          && c.i <= c.min < n
          && ScanStart(c.i) <= c.j <= n
          && (forall k :: c.i <= k < c.j ==> f.data[c.min] <= f.data[k])
          && f.comparisons == ScanComparisons(n, c.i) + c.j - ScanStart(c.i))
    && (c.i == n - 1 ==> f.comparisons == ScanComparisons(n, c.i))
  }

  /** The reset cursor with zeroed counters satisfies the invariant. */
  lemma StartInv(f: Frame)
    requires |f.data| >= 1 && f.comparisons == 0 && f.swaps == 0
    ensures Inv(f, Start)
  {
  }

  /** A scan step keeps the running minimum the least value seen, and never swaps. */
  lemma ScanKeepsInv(f: Frame, c: Cursor)
    requires Inv(f, c) && c.i < |f.data| - 1 && c.j < |f.data|
    ensures Inv(Step(f, c).frame, Step(f, c).cursor)
  {
    var r := Step(f, c);
    var s := f.data;
    forall k | c.i <= k < c.j + 1
      ensures s[r.cursor.min] <= s[k]
    {
      if k < c.j {
        assert s[c.min] <= s[k];
      }
    }
  }

  /** At the end of a scan, position i receives the minimum of data[i..n). */
  lemma ScanEndPlacesMinimum(f: Frame, c: Cursor)
    requires Inv(f, c) && c.i < |f.data| - 1 && c.j >= |f.data|
    ensures forall k :: c.i <= k < |f.data| ==> Step(f, c).frame.data[c.i] <= f.data[k]
    ensures forall k :: 0 <= k < c.i ==> Step(f, c).frame.data[k] == f.data[k]
  {
  }

  /** Closing a scan extends the sorted prefix by one position. */
  lemma ScanEndKeepsInv(f: Frame, c: Cursor)
    requires Inv(f, c) && c.i < |f.data| - 1 && c.j >= |f.data|
    ensures Inv(Step(f, c).frame, Step(f, c).cursor)
  {
    var n := |f.data|;
    ScanEndExtendsPrefix(f, c);
    assert ScanComparisons(n, c.i + 1) == ScanComparisons(n, c.i) + (n - ScanStart(c.i));
  }

  lemma ScanEndExtendsPrefix(f: Frame, c: Cursor)
    requires Inv(f, c) && c.i < |f.data| - 1 && c.j >= |f.data|
    ensures SortedRange(Step(f, c).frame.data, 0, c.i + 1) && Splits(Step(f, c).frame.data, c.i + 1)
  {
    var s, t := f.data, Step(f, c).frame.data;
    if c.min == c.i {
      assert Swap(s, c.i, c.min) == s;
    }
    PlaceMinimum(s, t, c.i, c.min);
  }

  /** Swapping the least of s[i..n) into position i extends a sorted prefix that splits
      the sequence by one position. */
  lemma PlaceMinimum(s: seq<int>, t: seq<int>, i: nat, min: nat)
    requires i <= min < |s| && t == Swap(s, i, min)
    requires SortedRange(s, 0, i) && Splits(s, i)
    requires forall k :: i <= k < |s| ==> s[min] <= s[k]
    ensures SortedRange(t, 0, i + 1) && Splits(t, i + 1)
  {
    forall p, q | 0 <= p < i + 1 <= q < |s|
      ensures t[p] <= t[q]
    {
      assert t[q] == s[q] || (q == min && t[q] == s[i]);
      if p < i {
        assert s[p] <= s[i] && s[p] <= s[q];
      }
    }
    forall p, q | 0 <= p < q < i + 1
      ensures t[p] <= t[q]
    {
      if q < i {
        assert s[p] <= s[q];
      } else {
        assert s[p] <= s[min];
      }
    }
  }

  /** Every step keeps the invariant. */
  lemma StepKeepsInv(f: Frame, c: Cursor)
    requires Inv(f, c)
    ensures Inv(Step(f, c).frame, Step(f, c).cursor)
  {
    var n := |f.data|;
    if c.i < n - 1 && c.j < n {
      ScanKeepsInv(f, c);
    } else if c.i < n - 1 {
      ScanEndKeepsInv(f, c);
    }
  }

  lemma {:induction false} ScanComparisonsClosedForm(n: nat, scans: nat)
    requires 1 <= scans
    ensures 2 * ScanComparisons(n, scans) == 2 * n + (scans - 1) * (2 * n - scans - 2)
  {
    if scans > 1 {
      ScanComparisonsClosedForm(n, scans - 1);
    }
  }

  /** Once Step reports done, the data is sorted, at most n-1 swaps were made, and the
      comparisons number n(n-1)/2 + 1 because the first scan also compares data[0]
      with itself (none at all for a single element). */
  lemma DoneIsSorted(f: Frame, c: Cursor)
    requires Inv(f, c) && !Step(f, c).more
    ensures Sorted(f.data)
    ensures f.swaps <= |f.data| - 1
    ensures |f.data| >= 2 ==> 2 * f.comparisons == |f.data| * (|f.data| - 1) + 2
    ensures |f.data| == 1 ==> f.comparisons == 0
  {
    var n := |f.data|;
    if n >= 2 {
      ScanComparisonsClosedForm(n, n - 1);
    }
    forall p, q | 0 <= p < q < n
      ensures f.data[p] <= f.data[q]
    {
      if q < n - 1 {
        assert SortedRange(f.data, 0, n - 1);
      }
    }
  }

  /** Every step keeps the invariant, and a run that reports done has sorted the data with
      at most n-1 swaps and n(n-1)/2 + 1 comparisons. */
  lemma StepKeepsInvUntilDone(f: Frame, c: Cursor)
    requires Inv(f, c)
    ensures Inv(Step(f, c).frame, Step(f, c).cursor)
    ensures !Step(f, c).more ==>
              && Sorted(f.data) && f.swaps <= |f.data| - 1
              && (|f.data| >= 2 ==> 2 * f.comparisons == |f.data| * (|f.data| - 1) + 2)
  {
    StepKeepsInv(f, c);
    if !Step(f, c).more {
      DoneIsSorted(f, c);
    }
  }
}
