/** Per-bar colour markers: the four colours a bar can be painted with. */
module Markers {

  datatype Marker = Default | Comparing | Swapping | Sorted

  /** Every bar back to the default colour (resetColors). */
  function Cleared(n: nat): (m: seq<Marker>)
    ensures |m| == n
    ensures forall k :: 0 <= k < n ==> m[k] == Default
  {
    seq(n, _ => Default)
  }

  /** resetColors followed by painting bars i and j with colour c, each only if it is a
      valid bar index (highlightCompare, highlightSwap). Earlier Sorted marks are wiped. */
  function Highlight(m: seq<Marker>, i: int, j: int, c: Marker): (r: seq<Marker>)
    ensures |r| == |m|
    ensures forall k :: 0 <= k < |m| ==> r[k] == (if k == i || k == j then c else Default)
  {
    var cleared := Cleared(|m|);
    var first := if 0 <= i < |m| then cleared[i := c] else cleared;
    if 0 <= j < |m| then first[j := c] else first
  }

  /** Paints bar i as sorted, if it exists, and keeps every other bar (highlightSorted). */
  function MarkSorted(m: seq<Marker>, i: int): (r: seq<Marker>)
    ensures |r| == |m|
    ensures 0 <= i < |m| ==> r[i] == Sorted
    ensures forall k :: 0 <= k < |m| && k != i ==> r[k] == m[k]
  {
    if 0 <= i < |m| then m[i := Sorted] else m
  }

  /** Every bar painted as sorted. */
  function AllSorted(n: nat): (m: seq<Marker>)
    ensures |m| == n
    ensures forall k :: 0 <= k < n ==> m[k] == Sorted
  {
    seq(n, _ => Sorted)
  }
}
