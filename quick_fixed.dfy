/** Quick sort with the two tests of stepQuickSort in the intended order: a partition in
    progress is always carried on, and the run ends only when no partition is in progress
    and the stack is empty. Pop and Partition are the ones of the program. */
module QuickFixed {
  import opened Dataset
  import opened Quick

  /** One step with the partition test before the empty-stack test. */
  function FixedStep(f: Frame, q: State): (r: Stepped<State>)
    requires InBounds(|f.data|, q)
    ensures |r.frame.data| == |f.data| && |r.frame.marks| == |f.marks|
    ensures InBounds(|f.data|, r.cursor)
    ensures r.more <==> q.partitioning || |q.stack| > 0
    ensures !r.more ==> r.frame == f && r.cursor == q
  {
    if !q.partitioning then
      if |q.stack| == 0 then Stepped(false, f, q) else Pop(f, q)
    else
      Partition(f, q)
  }

  /** A corrected step only rearranges the data. */
  lemma FixedStepPermutes(f: Frame, q: State)
    requires InBounds(|f.data|, q)
    ensures multiset(FixedStep(f, q).frame.data) == multiset(f.data)
  {
    if q.partitioning {
      PartitionPermutes(f, q);
    }
  }

  /** Every value left of lo is at most every value in [lo, hi], and every value in
      [lo, hi] is at most every value right of hi. */
  ghost predicate Bounded(s: seq<int>, lo: int, hi: int)
  {
    && (forall p, k :: 0 <= p < lo <= k <= hi && k < |s| ==> s[p] <= s[k])
    && (forall k, p :: 0 <= lo <= k <= hi < p < |s| ==> s[k] <= s[p])
  }

  /** Position x already holds its final value. */
  ghost predicate InPlace(s: seq<int>, x: int)
    requires 0 <= x < |s|
  {
    && (forall p :: 0 <= p < x ==> s[p] <= s[x])
    && (forall p :: x < p < |s| ==> s[x] <= s[p])
  }

  /** Position x still lies in a range that is pending: on the stack or being partitioned. */
  ghost predicate Covered(q: State, x: int)
  {
    || (q.partitioning && q.low <= x <= q.high)
    || (exists k :: 0 <= k < |q.stack| && q.stack[k].0 <= x <= q.stack[k].1)
  }

  /** The stacked ranges lie inside the data, in increasing position from the bottom of
      the stack to the top. */
  ghost predicate Ordered(n: int, stack: seq<(int, int)>)
  {
    && (forall k :: 0 <= k < |stack| ==> 0 <= stack[k].0 <= stack[k].1 + 1 <= n)
    && (forall k1, k2 :: 0 <= k1 < k2 < |stack| ==> stack[k1].1 < stack[k2].0)
  }

  /** Between steps of the corrected run: the pending ranges are disjoint, each is bounded
      by its surroundings, the active partition lies above every stacked range and keeps the
      Lomuto invariant, and every position outside the pending ranges holds its final value. */
  ghost predicate FixedInv(f: Frame, q: State)
  {
    var n, s := |f.data|, f.data;
    && n >= 1
    && Ordered(n, q.stack)
    && (forall k :: 0 <= k < |q.stack| ==> Bounded(s, q.stack[k].0, q.stack[k].1))
    && (q.partitioning ==>
          && 0 <= q.low < q.high < n
          && q.low - 1 <= q.i < q.j <= q.high
          && (forall k :: 0 <= k < |q.stack| ==> q.stack[k].1 < q.low)
          && Bounded(s, q.low, q.high)
          && q.pivot == s[q.high]
          && (forall k :: q.low <= k <= q.i ==> s[k] < q.pivot)
          && (forall k :: q.i < k < q.j ==> q.pivot <= s[k]))
    && (forall x :: 0 <= x < n && !Covered(q, x) ==> InPlace(s, x))
  }

  lemma FixedInvInBounds(f: Frame, q: State)
    requires FixedInv(f, q)
    ensures InBounds(|f.data|, q) && Lomuto(f, q)
  {
  }

  /** The reset state satisfies the invariant. */
  lemma StartFixedInv(f: Frame)
    requires |f.data| >= 1
    ensures FixedInv(f, Start(|f.data|))
  {
    var q := Start(|f.data|);
    forall x | 0 <= x < |f.data|
      ensures Covered(q, x)
    {
      assert q.stack[0].0 <= x <= q.stack[0].1;
    }
  }

  // A swap of two positions inside [lo, hi] disturbs nothing outside that range.

  lemma SwapKeepsOwnBounded(s: seq<int>, a: int, b: int, lo: int, hi: int)
    requires 0 <= lo <= a <= hi < |s| && lo <= b <= hi
    requires Bounded(s, lo, hi)
    ensures Bounded(Swap(s, a, b), lo, hi)
  {
    var t := Swap(s, a, b);
    forall p, k | 0 <= p < lo <= k <= hi && k < |t|
      ensures t[p] <= t[k]
    {
      assert t[k] == s[k] || t[k] == s[a] || t[k] == s[b];
    }
    forall k, p | 0 <= lo <= k <= hi < p < |t|
      ensures t[k] <= t[p]
    {
      assert t[k] == s[k] || t[k] == s[a] || t[k] == s[b];
    }
  }

  lemma SwapKeepsLowerBounded(s: seq<int>, a: int, b: int, lo: int, hi: int, lo': int, hi': int)
    requires 0 <= lo <= a <= hi < |s| && lo <= b <= hi
    requires hi' < lo && Bounded(s, lo', hi')
    ensures Bounded(Swap(s, a, b), lo', hi')
  {
    var t := Swap(s, a, b);
    forall k, p | 0 <= lo' <= k <= hi' < p < |t|
      ensures t[k] <= t[p]
    {
      assert t[p] == s[p] || t[p] == s[a] || t[p] == s[b];
    }
  }

  lemma SwapKeepsInPlace(s: seq<int>, a: int, b: int, lo: int, hi: int, x: int)
    requires 0 <= lo <= a <= hi < |s| && lo <= b <= hi
    requires 0 <= x < |s| && (x < lo || hi < x) && InPlace(s, x)
    ensures InPlace(Swap(s, a, b), x)
  {
    var t := Swap(s, a, b);
    forall p | 0 <= p < |t|
      ensures p < x ==> t[p] <= t[x]
      ensures x < p ==> t[x] <= t[p]
    {
      assert t[p] == s[p] || t[p] == s[a] || t[p] == s[b];
    }
  }

  /** Popping a range keeps the invariant: a range of at most one element is already in
      place and simply leaves the stack; a longer one becomes the active partition. */
  lemma PopKeepsFixedInv(f: Frame, q: State)
    requires FixedInv(f, q) && !q.partitioning && |q.stack| > 0
    ensures FixedInv(Pop(f, q).frame, Pop(f, q).cursor)
  {
    var r := Pop(f, q);
    var q', s, n := r.cursor, f.data, |f.data|;
    var m := |q.stack| - 1;
    var top := q.stack[m];
    assert q'.stack == q.stack[..m];
    forall x | 0 <= x < n && !Covered(q', x)
      ensures InPlace(s, x)
    {
      if top.0 <= x <= top.1 {
        assert Bounded(s, top.0, top.1);
        if !q'.partitioning {
          assert x == top.0;
        }
      } else {
        assert !Covered(q, x);
      }
    }
  }

  /** A comparing step keeps the invariant. */
  lemma ScanKeepsFixedInv(f: Frame, q: State)
    requires FixedInv(f, q) && q.partitioning && q.j <= q.high - 1
    ensures FixedInv(Partition(f, q).frame, Partition(f, q).cursor)
  {
    FixedInvInBounds(f, q);
    if f.data[q.j] < q.pivot {
      ScanBelowPivotKeepsFixedInv(f, q);
    } else {
      ScanAbovePivotKeepsFixedInv(f, q);
    }
  }

  lemma ScanBelowPivotKeepsFixedInv(f: Frame, q: State)
    requires FixedInv(f, q) && InBounds(|f.data|, q) && Lomuto(f, q)
    requires q.partitioning && q.j <= q.high - 1 && f.data[q.j] < q.pivot
    ensures FixedInv(Partition(f, q).frame, Partition(f, q).cursor)
  {
    ScanBelowPivotKeepsLomuto(f, q);
    var r := Partition(f, q);
    SwapInsideKeepsFixedInv(f, q, r.frame, r.cursor, q.i + 1, q.j);
  }

  lemma ScanAbovePivotKeepsFixedInv(f: Frame, q: State)
    requires FixedInv(f, q) && InBounds(|f.data|, q)
    requires q.partitioning && q.j <= q.high - 1 && q.pivot <= f.data[q.j]
    ensures FixedInv(Partition(f, q).frame, Partition(f, q).cursor)
  {
    var r := Partition(f, q);
    assert r.frame.data == f.data && r.cursor == q.(j := q.j + 1);
    forall x | 0 <= x < |f.data| && !Covered(r.cursor, x)
      ensures InPlace(f.data, x)
    {
      assert !Covered(q, x);
    }
  }

  /** Within a partition, swapping two positions of the active range (or none, when a == b)
      and moving the Lomuto cursors keeps the invariant, given the new Lomuto invariant. */
  lemma SwapInsideKeepsFixedInv(f: Frame, q: State, f': Frame, q': State, a: int, b: int)
    requires FixedInv(f, q) && q.partitioning
    requires q.low <= a <= q.high && q.low <= b <= q.high
    requires f'.data == Swap(f.data, a, b)
    requires q' == q.(i := q'.i, j := q'.j) && q'.low - 1 <= q'.i < q'.j <= q'.high
    requires Lomuto(f', q')
    ensures FixedInv(f', q')
  {
    var s, t := f.data, f'.data;
    SwapKeepsOwnBounded(s, a, b, q.low, q.high);
    forall k | 0 <= k < |q.stack|
      ensures Bounded(t, q.stack[k].0, q.stack[k].1)
    {
      SwapKeepsLowerBounded(s, a, b, q.low, q.high, q.stack[k].0, q.stack[k].1);
    }
    forall x | 0 <= x < |t| && !Covered(q', x)
      ensures InPlace(t, x)
    {
      assert !Covered(q, x);
      SwapKeepsInPlace(s, a, b, q.low, q.high, x);
    }
  }

  /** With the pivot at pi, smaller values left of it and values at least the pivot right
      of it, both sides are bounded and the pivot is in its final place. */
  lemma PivotSplits(t: seq<int>, low: int, high: int, pi: int)
    requires 0 <= low <= pi <= high < |t| && Bounded(t, low, high)
    requires forall k :: low <= k < pi ==> t[k] < t[pi]
    requires forall k :: pi < k <= high ==> t[pi] <= t[k]
    ensures Bounded(t, low, pi - 1) && Bounded(t, pi + 1, high) && InPlace(t, pi)
  {
    forall k, p | 0 <= low <= k <= pi - 1 < p < |t|
      ensures t[k] <= t[p]
    {
      if p > high {
        assert t[k] <= t[p];
      } else if p > pi {
        assert t[k] < t[pi] <= t[p];
      }
    }
    forall p, k | 0 <= p < pi + 1 <= k <= high && k < |t|
      ensures t[p] <= t[k]
    {
      if p >= low && p < pi {
        assert t[p] < t[pi] <= t[k];
      }
    }
  }

  /** Closing a partition keeps the invariant: the pivot lands in its final place and the
      two sides become stacked ranges, each bounded by the pivot. */
  lemma CloseKeepsFixedInv(f: Frame, q: State)
    requires FixedInv(f, q) && q.partitioning && q.j > q.high - 1
    ensures FixedInv(Partition(f, q).frame, Partition(f, q).cursor)
  {
    FixedInvInBounds(f, q);
    var r := Partition(f, q);
    var s, t, pi := f.data, r.frame.data, q.i + 1;
    assert q.j == q.high && t == Swap(s, pi, q.high);
    assert r.cursor.stack == q.stack + [(q.low, pi - 1), (pi + 1, q.high)] && !r.cursor.partitioning;
    PlacePivot(s, t, q.low, q.high, pi, q.pivot);
    ClosedStateKeepsFixedInv(f, q, r.frame, r.cursor, pi);
  }

  /** Swapping the pivot from high to pi at the end of a Lomuto scan puts it in its final
      place and leaves both sides bounded. */
  lemma PlacePivot(s: seq<int>, t: seq<int>, low: int, high: int, pi: int, pivot: int)
    requires 0 <= low <= pi <= high < |s| && t == Swap(s, pi, high)
    requires s[high] == pivot && Bounded(s, low, high)
    requires forall k :: low <= k < pi ==> s[k] < pivot
    requires forall k :: pi <= k < high ==> pivot <= s[k]
    ensures Bounded(t, low, pi - 1) && Bounded(t, pi + 1, high) && InPlace(t, pi)
  {
    SwapKeepsOwnBounded(s, pi, high, low, high);
    forall k | pi < k <= high
      ensures t[pi] <= t[k]
    {
      if k == high {
        assert t[k] == s[pi];
      }
    }
    PivotSplits(t, low, high, pi);
  }

  lemma ClosedStateKeepsFixedInv(f: Frame, q: State, f': Frame, q': State, pi: int)
    requires FixedInv(f, q) && q.partitioning && pi == q.i + 1 && q.j == q.high
    requires f'.data == Swap(f.data, pi, q.high)
    requires !q'.partitioning && q'.stack == q.stack + [(q.low, pi - 1), (pi + 1, q.high)]
    requires Bounded(f'.data, q.low, pi - 1) && Bounded(f'.data, pi + 1, q.high)
    requires InPlace(f'.data, pi)
    ensures FixedInv(f', q')
  {
    ClosedStackBounded(f, q, f'.data, q'.stack, pi);
    ClosedKeepsInPlace(f, q, f'.data, q', pi);
  }

  /** After the close, every stacked range, old or new, is bounded in the new data. */
  lemma ClosedStackBounded(f: Frame, q: State, t: seq<int>, stack: seq<(int, int)>, pi: int)
    requires FixedInv(f, q) && q.partitioning && pi == q.i + 1 && q.j == q.high
    requires t == Swap(f.data, pi, q.high)
    requires stack == q.stack + [(q.low, pi - 1), (pi + 1, q.high)]
    requires Bounded(t, q.low, pi - 1) && Bounded(t, pi + 1, q.high)
    ensures forall k :: 0 <= k < |stack| ==> Bounded(t, stack[k].0, stack[k].1)
    ensures Ordered(|t|, stack)
  {
    var m := |q.stack|;
    forall k | 0 <= k < |stack|
      ensures Bounded(t, stack[k].0, stack[k].1)
    {
      if k < m {
        assert stack[k] == q.stack[k];
        SwapKeepsLowerBounded(f.data, pi, q.high, q.low, q.high, q.stack[k].0, q.stack[k].1);
      } else if k == m {
        assert stack[k] == (q.low, pi - 1);
      } else {
        assert stack[k] == (pi + 1, q.high);
      }
    }
  }

  /** After the close, every position outside the pending ranges holds its final value. */
  lemma ClosedKeepsInPlace(f: Frame, q: State, t: seq<int>, q': State, pi: int)
    requires FixedInv(f, q) && q.partitioning && pi == q.i + 1 && q.j == q.high
    requires t == Swap(f.data, pi, q.high)
    requires !q'.partitioning && q'.stack == q.stack + [(q.low, pi - 1), (pi + 1, q.high)]
    requires InPlace(t, pi)
    ensures forall x :: 0 <= x < |t| && !Covered(q', x) ==> InPlace(t, x)
  {
    var m := |q.stack|;
    assert q'.stack[m] == (q.low, pi - 1) && q'.stack[m + 1] == (pi + 1, q.high);
    forall x | 0 <= x < |t| && !Covered(q', x)
      ensures InPlace(t, x)
    {
      if !(q.low <= x <= q.high) {
        forall k | 0 <= k < m
          ensures !(q.stack[k].0 <= x <= q.stack[k].1)
        {
          assert q'.stack[k] == q.stack[k];
        }
        assert !Covered(q, x);
        SwapKeepsInPlace(f.data, pi, q.high, q.low, q.high, x);
      }
    }
  }

  /** Every corrected step keeps the invariant. */
  lemma FixedStepKeepsInv(f: Frame, q: State)
    requires FixedInv(f, q)
    ensures FixedInv(FixedStep(f, q).frame, FixedStep(f, q).cursor)
  {
    FixedInvInBounds(f, q);
    if !q.partitioning {
      if |q.stack| > 0 {
        PopKeepsFixedInv(f, q);
      }
    } else if q.j <= q.high - 1 {
      ScanKeepsFixedInv(f, q);
    } else {
      CloseKeepsFixedInv(f, q);
    }
  }

  /** Once the corrected step reports done, the data is sorted. */
  lemma FixedDoneIsSorted(f: Frame, q: State)
    requires FixedInv(f, q) && !FixedStep(f, q).more
    ensures Sorted(f.data)
  {
    forall p, q' | 0 <= p < q' < |f.data|
      ensures f.data[p] <= f.data[q']
    {
      assert !Covered(q, q');
    }
  }
}
