/** The values being sorted, the marker of each bar and the two run counters, as one value,
    with the primitive operations every sorting step is built from. */
module Dataset {
  import Markers

  /** A snapshot of the sortable state: the data vector, one marker per bar, and the
      comparison and swap counters shown in the statistics line. */
  datatype Frame = Frame(data: seq<int>, marks: seq<Markers.Marker>, comparisons: int, swaps: int)

  /** What one step of an algorithm returns: false once the algorithm reports it is done,
      together with the new frame and the algorithm's new cursor state. */
  datatype Stepped<C> = Stepped(more: bool, frame: Frame, cursor: C)

  predicate Sorted(s: seq<int>)
  {
    forall p, q :: 0 <= p < q < |s| ==> s[p] <= s[q]
  }

  /** s[lo..hi) is in ascending order. */
  predicate SortedRange(s: seq<int>, lo: int, hi: int)
    requires 0 <= lo && hi <= |s|
  {
    forall p, q :: lo <= p < q < hi ==> s[p] <= s[q]
  }

  /** Every element before position m is at most every element from m on. */
  predicate Splits(s: seq<int>, m: int)
    requires 0 <= m <= |s|
  {
    forall p, q :: 0 <= p < m <= q < |s| ==> s[p] <= s[q]
  }

  /** std::swap of two positions of the data vector. */
  function Swap(s: seq<int>, i: int, j: int): (r: seq<int>)
    requires 0 <= i < |s| && 0 <= j < |s|
    ensures |r| == |s| && r[i] == s[j] && r[j] == s[i]
    ensures forall k :: 0 <= k < |s| && k != i && k != j ==> r[k] == s[k]
  {
    s[i := s[j]][j := s[i]]
  }

  /** A swap only rearranges the values. */
  lemma SwapPermutes(s: seq<int>, i: int, j: int)
    requires 0 <= i < |s| && 0 <= j < |s|
    ensures multiset(Swap(s, i, j)) == multiset(s)
  {
    var t := s[i := s[j]];
    assert multiset(t) == multiset(s) - multiset{s[i]} + multiset{s[j]};
  }

  /** Swapping twice restores the data. */
  lemma SwapTwice(s: seq<int>, i: int, j: int)
    requires 0 <= i < |s| && 0 <= j < |s|
    ensures Swap(Swap(s, i, j), i, j) == s
  {
    var t := Swap(Swap(s, i, j), i, j);
    assert forall k :: 0 <= k < |s| ==> t[k] == s[k];
  }

  /** swapElements: exchanges the two values and counts one swap; markers are not touched. */
  function SwapElements(f: Frame, i: int, j: int): (r: Frame)
    requires 0 <= i < |f.data| && 0 <= j < |f.data|
    ensures |r.data| == |f.data| && r.data[i] == f.data[j] && r.data[j] == f.data[i]
    ensures forall k :: 0 <= k < |f.data| && k != i && k != j ==> r.data[k] == f.data[k]
    ensures r.swaps == f.swaps + 1
    ensures r.marks == f.marks && r.comparisons == f.comparisons
  {
    f.(data := Swap(f.data, i, j), swaps := f.swaps + 1)
  }

  /** The comparisons++ that every comparing step performs right after highlighting. */
  function CountComparison(f: Frame): (r: Frame)
    ensures r.comparisons == f.comparisons + 1
    ensures r.data == f.data && r.marks == f.marks && r.swaps == f.swaps
  {
    f.(comparisons := f.comparisons + 1)
  }

  /** highlightCompare: bars i and j (where valid) become Comparing, every other bar
      Default; data and counters are untouched. */
  function HighlightCompare(f: Frame, i: int, j: int): (r: Frame)
    ensures |r.marks| == |f.marks|
    ensures forall k :: 0 <= k < |f.marks| ==>
              r.marks[k] == (if k == i || k == j then Markers.Comparing else Markers.Default)
    ensures r.data == f.data && r.comparisons == f.comparisons && r.swaps == f.swaps
  {
    f.(marks := Markers.Highlight(f.marks, i, j, Markers.Comparing))
  }

  /** highlightSwap: bars i and j (where valid) become Swapping, every other bar Default;
      data and counters are untouched. */
  function HighlightSwap(f: Frame, i: int, j: int): (r: Frame)
    ensures |r.marks| == |f.marks|
    ensures forall k :: 0 <= k < |f.marks| ==>
              r.marks[k] == (if k == i || k == j then Markers.Swapping else Markers.Default)
    ensures r.data == f.data && r.comparisons == f.comparisons && r.swaps == f.swaps
  {
    f.(marks := Markers.Highlight(f.marks, i, j, Markers.Swapping))
  }

  /** highlightSorted: bar i (where valid) becomes Sorted and every other bar keeps its
      colour; data and counters are untouched. */
  function HighlightSorted(f: Frame, i: int): (r: Frame)
    ensures |r.marks| == |f.marks|
    ensures 0 <= i < |f.marks| ==> r.marks[i] == Markers.Sorted
    ensures forall k :: 0 <= k < |f.marks| && k != i ==> r.marks[k] == f.marks[k]
    ensures r.data == f.data && r.comparisons == f.comparisons && r.swaps == f.swaps
  {
    f.(marks := Markers.MarkSorted(f.marks, i))
  }
}
