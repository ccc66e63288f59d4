/** The serial base case of cilksort: Hoare partition, insertion sort, and the
    tail-recursive quicksort. Ranges are inclusive, as in the source. */
module Quicksort {
  import opened SortedRuns

  const INSERTIONSIZE: nat := 20

  function Swapped(s: seq<int>, i: nat, j: nat): seq<int>
    requires i < |s| && j < |s|
  {
    s[i := s[j]][j := s[i]]
  }

  /** An exchange inside the range. */
  lemma SwapPermutes(s: seq<int>, before: seq<int>, lo: int, hi: int, i: nat, j: nat)
    requires Permutes(s, before, lo, hi) && lo <= i < hi && lo <= j < hi && i < |s| && j < |s|
    ensures Permutes(Swapped(s, i, j), before, lo, hi)
  {
  }

  // ---------------------------------------------------------------------
  // Partition
  // ---------------------------------------------------------------------

  function Med3(a: int, b: int, c: int): (m: int)
    ensures m in {a, b, c}
    ensures (a <= m || b <= m) && (a <= m || c <= m) && (b <= m || c <= m)
    ensures (m <= a || m <= b) && (m <= a || m <= c) && (m <= b || m <= c)
  {
    if a < b then (if b < c then b else if a < c then c else a)
    else if b > c then b else if a > c then c else a
  }

  method ChoosePivot(a: array<int>, low: nat, high: nat) returns (pivot: int, ghost at: nat)
    requires low <= high < a.Length
    ensures low <= at <= high && a[at] == pivot
    ensures pivot in {a[low], a[high], a[low + (high - low) / 2]}
  {
    pivot := Med3(a[low], a[high], a[low + (high - low) / 2]);
    at := if pivot == a[low] then low else if pivot == a[high] then high else low + (high - low) / 2;
  }

  /** The last place up to `from` whose element is at most the pivot. */
  method ScanDown(a: array<int>, from: nat, pivot: int, ghost stop: nat) returns (i: nat)
    requires stop <= from < a.Length && a[stop] <= pivot
    ensures stop <= i <= from && a[i] <= pivot && forall k | i < k <= from :: a[k] > pivot
  {
    i := from;
    while a[i] > pivot
      invariant stop <= i <= from && forall k | i < k <= from :: a[k] > pivot
      decreases i
    {
      i := i - 1;
    }
  }

  /** The first place from `from` on whose element is at least the pivot. */
  method ScanUp(a: array<int>, from: nat, pivot: int, ghost stop: nat) returns (i: nat)
    requires from <= stop < a.Length && a[stop] >= pivot
    ensures from <= i <= stop && a[i] >= pivot && forall k | from <= k < i :: a[k] < pivot
  {
    i := from;
    while a[i] < pivot
      invariant from <= i <= stop && forall k | from <= k < i :: a[k] < pivot
      decreases stop - i
    {
      i := i + 1;
    }
  }

  /** What the two scans have passed, and where the next ones must stop. */
  ghost predicate Parting(s: seq<int>, pivot: int, low: int, currLow: int, currHigh: int, high: int, left: int, right: int) {
    && 0 <= low <= left <= currHigh <= high < |s| && s[left] <= pivot
    && low <= currLow <= right <= high && s[right] >= pivot
    && (forall k | low <= k < currLow :: s[k] <= pivot)
    && (forall k | currHigh < k <= high :: s[k] >= pivot)
  }

  lemma PartSwap(s: seq<int>, pivot: int, low: int, i: int, j: int, high: int)
    requires Parting(s, pivot, low, i, j, high, j, i) && i < j
    ensures Parting(Swapped(s, i, j), pivot, low, i + 1, j - 1, high, i, j)
  {
  }

  lemma PartDone(s: seq<int>, pivot: int, low: int, i: int, j: int, high: int, p: int)
    requires Parting(s, pivot, low, i, j, high, j, i) && i >= j
    requires low <= p < high && (p == j || (p == j - 1 && j == high))
    ensures BelowIn(s, low, p + 1, high + 1)
  {
  }

  /** Hoare's partition: everything up to `p` is at most everything after it, and
      neither side is empty. */
  method SeqPart(a: array<int>, low: nat, high: nat) returns (p: nat)
    requires low < high < a.Length
    modifies a
    ensures low <= p < high
    ensures Permutes(a[..], old(a[..]), low, high + 1) && BelowIn(a[..], low, p + 1, high + 1)
  {
    var pivot, at := ChoosePivot(a, low, high);
    var currLow, currHigh := low, high;
    ghost var left, right, s := at, at, a[..];
    while true
      invariant (currLow == low && currHigh == high) || (low < currLow && currHigh < high)
      invariant currLow <= currHigh + 1
      invariant s == a[..] && Permutes(s, old(a[..]), low, high + 1)
      invariant Parting(s, pivot, low, currLow, currHigh, high, left, right)
      decreases currHigh - currLow + 1
    {
      currHigh := ScanDown(a, currHigh, pivot, left);
      currLow := ScanUp(a, currLow, pivot, right);
      assert Parting(s, pivot, low, currLow, currHigh, high, currHigh, currLow);
      if currLow >= currHigh {
        break;
      }
      SwapPermutes(s, old(a[..]), low, high + 1, currLow, currHigh);
      PartSwap(s, pivot, low, currLow, currHigh, high);
      a[currHigh], a[currLow] := a[currLow], a[currHigh];
      s := Swapped(s, currLow, currHigh);
      left, right := currLow, currHigh;
      currHigh, currLow := currHigh - 1, currLow + 1;
    }
    p := if currHigh < high then currHigh else currHigh - 1;
    PartDone(s, pivot, low, currLow, currHigh, high, p);
  }

  // ---------------------------------------------------------------------
  // Insertion sort
  // ---------------------------------------------------------------------

  /** The state of the inner loop: `x` is in hand, and the elements from `p` + 2 up
      to `q` have moved up by one place. */
  ghost predicate Inserting(s: seq<int>, x: int, low: int, p: int, q: int)
    requires 0 <= low <= p + 1 && q < |s|
  {
    && (forall k | p + 1 < k <= q :: x < s[k])
    && (forall i, j | low <= i < j <= q && i != p + 1 && j != p + 1 :: s[i] <= s[j])
  }

  lemma ShiftPermutes(s: seq<int>, before: seq<int>, x: int, low: int, p: nat, hi: int)
    requires low <= p < p + 1 < hi <= |s| && Permutes(s[p + 1 := x], before, low, hi)
    ensures Permutes(s[p + 1 := s[p]][p := x], before, low, hi)
  {
    SwapPermutes(s[p + 1 := x], before, low, hi, p, p + 1);
    assert Swapped(s[p + 1 := x], p, p + 1) == s[p + 1 := s[p]][p := x];
  }

  lemma ShiftOne(s: seq<int>, x: int, low: int, p: int, q: int)
    requires 0 <= low <= p < q < |s| && s[p] > x && Inserting(s, x, low, p, q)
    ensures Inserting(s[p + 1 := s[p]], x, low, p - 1, q)
  {
  }

  lemma PutDown(s: seq<int>, x: int, low: int, p: int, q: int)
    requires 0 <= low <= p + 1 <= q < |s| && Inserting(s, x, low, p, q) && (p >= low ==> s[p] <= x)
    ensures SortedIn(s[p + 1 := x], low, q + 1)
  {
    var t := s[p + 1 := x];
    forall i, j | low <= i < j < q + 1
      ensures t[i] <= t[j]
    {
      assert i < p ==> s[i] <= s[p];
    }
  }

  ghost predicate Held(s: seq<int>, before: seq<int>, x: int, low: int, p: int, q: int) {
    && 0 <= low <= p + 1 <= q < |s|
    && Inserting(s, x, low, p, q) && Permutes(s[p + 1 := x], before, low, q + 1)
  }

  lemma HeldFirst(s: seq<int>, low: int, q: int)
    requires 0 <= low < q < |s| && SortedIn(s, low, q)
    ensures Held(s, s, s[q], low, q - 1, q)
  {
  }

  lemma HeldNext(s: seq<int>, before: seq<int>, x: int, low: int, p: int, q: int)
    requires Held(s, before, x, low, p, q) && p >= low && s[p] > x
    ensures Held(s[p + 1 := s[p]], before, x, low, p - 1, q)
  {
    ShiftOne(s, x, low, p, q);
    ShiftPermutes(s, before, x, low, p, q + 1);
  }

  lemma HeldLast(s: seq<int>, before: seq<int>, x: int, low: int, p: int, q: int)
    requires Held(s, before, x, low, p, q) && (p >= low ==> s[p] <= x)
    ensures SortsRange(s[p + 1 := x], before, low, q + 1)
  {
    PutDown(s, x, low, p, q);
  }

  /** The inner loop: moves the element at `q` down to its place. */
  method InsertDown(a: array<int>, low: nat, q: nat)
    requires low < q < a.Length && SortedIn(a[..], low, q)
    modifies a
    ensures SortsRange(a[..], old(a[..]), low, q + 1)
  {
    var x, p := a[q], q - 1;
    ghost var before, s := a[..], a[..];
    HeldFirst(s, low, q);
    while p >= low && a[p] > x
      invariant low - 1 <= p < q && s == a[..] && Held(s, before, x, low, p, q)
    {
      HeldNext(s, before, x, low, p, q);
      s := s[p + 1 := s[p]];
      a[p + 1] := a[p];
      p := p - 1;
    }
    HeldLast(s, before, x, low, p, q);
    a[p + 1] := x;
    assert a[..] == s[p + 1 := x];
  }

  method InsertionSort(a: array<int>, low: nat, high: int)
    requires high < a.Length
    modifies a
    ensures SortsRange(a[..], old(a[..]), low, high + 1)
  {
    var q := low + 1;
    while q <= high
      invariant low < q
      invariant Permutes(a[..], old(a[..]), low, high + 1) && SortedIn(a[..], low, if q <= high then q else high + 1)
    {
      ghost var s := a[..];
      InsertDown(a, low, q);
      q := q + 1;
    }
  }

  // ---------------------------------------------------------------------
  // Quicksort
  // ---------------------------------------------------------------------

  /** The part before `low` is sorted, and at most what follows it. */
  ghost predicate SortedUpTo(s: seq<int>, first: int, low: int, high: int) {
    && 0 <= first <= low <= high + 1 <= |s|
    && SortedIn(s, first, low) && BelowIn(s, first, low, high + 1)
  }

  lemma PermuteAbove(t: seq<int>, s: seq<int>, first: int, low: int, high: int)
    requires SortedUpTo(s, first, low, high) && Permutes(t, s, low, high + 1)
    ensures SortedUpTo(t, first, low, high)
  {
    forall i, j | first <= i < low <= j < high + 1
      ensures t[i] <= t[j]
    {
      var k := ComesFrom(t, s, low, high + 1, j);
    }
  }

  lemma PermuteBelow(u: seq<int>, t: seq<int>, low: int, mid: int, hi: int)
    requires 0 <= low <= mid <= hi <= |t| && BelowIn(t, low, mid, hi) && Permutes(u, t, low, mid)
    ensures BelowIn(u, low, mid, hi)
  {
    forall i, j | low <= i < mid <= j < hi
      ensures u[i] <= u[j]
    {
      var k := ComesFrom(u, t, low, mid, i);
    }
  }

  /** A partition of the rest, and a sort of its lower part. */
  lemma QuickStep(s: seq<int>, t: seq<int>, u: seq<int>, first: int, low: int, p: int, high: int)
    requires SortedUpTo(s, first, low, high) && low <= p < high
    requires Permutes(t, s, low, high + 1) && BelowIn(t, low, p + 1, high + 1)
    requires SortsRange(u, t, low, p + 1)
    ensures SortedUpTo(u, first, p + 1, high)
  {
    PermuteAbove(u, s, first, low, high);
    PermuteBelow(u, t, low, p + 1, high + 1);
  }

  /** Sorts the range from `first` to `high`. */
  method SeqQuick(a: array<int>, first: nat, high: int)
    requires first <= high + 1 <= a.Length
    modifies a
    ensures SortsRange(a[..], old(a[..]), first, high + 1)
    decreases high - first
  {
    var low := first;
    while high - low >= INSERTIONSIZE
      invariant SortedUpTo(a[..], first, low, high) && Permutes(a[..], old(a[..]), first, high + 1)
      decreases high - low
    {
      ghost var s := a[..];
      var p := SeqPart(a, low, high);
      ghost var t := a[..];
      SeqQuick(a, low, p);
      QuickStep(s, t, a[..], first, low, p, high);
      low := p + 1;
    }
    ghost var s := a[..];
    InsertionSort(a, low, high);
    PermuteAbove(a[..], s, first, low, high);
  }
}
