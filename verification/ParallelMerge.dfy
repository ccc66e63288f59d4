/** Merging two sorted ranges, serially and in parallel; the spawned call runs at the
    spawn. Ranges are inclusive, as in the source; an empty one ends just before it
    starts. */
module ParallelMerge {
  import opened SortedRuns

  const MERGESIZE: nat := 1024

  function Range(s: seq<int>, low: int, high: int): seq<int>
    requires 0 <= low <= high + 1 <= |s|
  {
    s[low..high + 1]
  }

  // ---------------------------------------------------------------------
  // Merging
  // ---------------------------------------------------------------------

  /** On sorted sequences the merge does not depend on which comes first. */
  lemma MergeCommutes(x: seq<int>, y: seq<int>)
    requires Sorted(x) && Sorted(y)
    ensures Merge(x, y) == Merge(y, x)
  {
    MergeSorted(x, y);
    MergeSorted(y, x);
    MergeMultiset(x, y);
    MergeMultiset(y, x);
    SortedUnique(Merge(x, y), Merge(y, x));
  }

  lemma JoinSorted(l: seq<int>, v: int, u: seq<int>)
    requires Sorted(l) && Sorted(u)
    requires (forall w | w in l :: w <= v) && (forall w | w in u :: v <= w)
    ensures Sorted(l + [v] + u)
  {
    var s := l + [v] + u;
    forall i, j | 0 <= i < j < |s|
      ensures s[i] <= s[j]
    {
      assert i < |l| ==> s[i] in l;
      assert j > |l| ==> s[j] in u;
      assert i > |l| ==> s[i] == u[i - |l| - 1] && s[j] == u[j - |l| - 1];
    }
  }

  /** The merge falls apart at every element of one range and a place that fits it
      in the other. */
  lemma MergeSplits(x: seq<int>, y: seq<int>, i: nat, j: nat)
    requires Sorted(x) && Sorted(y) && i < |x| && j <= |y|
    requires (forall k | 0 <= k < j :: y[k] <= x[i]) && (forall k | j <= k < |y| :: x[i] <= y[k])
    ensures Merge(x, y) == Merge(x[..i], y[..j]) + [x[i]] + Merge(x[i + 1..], y[j..])
  {
    var l, u := Merge(x[..i], y[..j]), Merge(x[i + 1..], y[j..]);
    MergeSorted(x[..i], y[..j]);
    MergeSorted(x[i + 1..], y[j..]);
    forall w | w in l
      ensures w <= x[i]
    {
      InMerge(x[..i], y[..j], w);
    }
    forall w | w in u
      ensures x[i] <= w
    {
      InMerge(x[i + 1..], y[j..], w);
    }
    JoinSorted(l, x[i], u);
    MergeSorted(x, y);
    SplitMultiset(x, y, i, j);
    SortedUnique(Merge(x, y), l + [x[i]] + u);
  }

  lemma Around(x: seq<int>, i: nat)
    requires i < |x|
    ensures multiset(x) == multiset(x[..i]) + multiset{x[i]} + multiset(x[i + 1..])
  {
    assert x == x[..i] + [x[i]] + x[i + 1..];
  }

  lemma Halves(y: seq<int>, j: nat)
    requires j <= |y|
    ensures multiset(y) == multiset(y[..j]) + multiset(y[j..])
  {
    assert y == y[..j] + y[j..];
  }

  lemma SplitMultiset(x: seq<int>, y: seq<int>, i: nat, j: nat)
    requires i < |x| && j <= |y|
    ensures multiset(Merge(x, y)) == multiset(Merge(x[..i], y[..j]) + [x[i]] + Merge(x[i + 1..], y[j..]))
  {
    var l, u := Merge(x[..i], y[..j]), Merge(x[i + 1..], y[j..]);
    MergeMultiset(x, y);
    MergeMultiset(x[..i], y[..j]);
    MergeMultiset(x[i + 1..], y[j..]);
    Around(x, i);
    Halves(y, j);
    assert multiset(l + [x[i]] + u) == multiset(l) + multiset{x[i]} + multiset(u);
  }

  /** The state of a merge: `w` has been written, and the rest remains. */
  ghost predicate Merging(d: seq<int>, d0: seq<int>, lowdest: nat, w: seq<int>, x: seq<int>, y: seq<int>, all: seq<int>) {
    && lowdest + |all| <= |d0| && all == w + Merge(x, y)
    && d == Write(d0, lowdest, w)
  }

  /** Writing the smaller first element. */
  lemma MergeNext(d: seq<int>, d0: seq<int>, lowdest: nat, w: seq<int>, x: seq<int>, y: seq<int>, all: seq<int>)
    requires Merging(d, d0, lowdest, w, x, y, all) && x != [] && y != []
    ensures var (v, x', y') := if x[0] < y[0] then (x[0], x[1..], y) else (y[0], x, y[1..]);
      lowdest + |w| < |d| && Merging(d[lowdest + |w| := v], d0, lowdest, w + [v], x', y', all)
  {
    var (v, x', y') := if x[0] < y[0] then (x[0], x[1..], y) else (y[0], x, y[1..]);
    assert all == w + [v] + Merge(x', y');
  }

  /** One turn of either merging loop. */
  method MergeOne(src: array<int>, dest: array<int>, l1: int, high1: int, l2: int, high2: int, at: nat,
                  ghost d0: seq<int>, ghost lowdest: nat, ghost w: seq<int>, ghost all: seq<int>)
    returns (l1': int, l2': int, ghost w': seq<int>)
    requires src != dest && 0 <= l1 <= high1 < src.Length && 0 <= l2 <= high2 < src.Length && at == lowdest + |w|
    requires Merging(dest[..], d0, lowdest, w, Range(src[..], l1, high1), Range(src[..], l2, high2), all)
    modifies dest
    ensures (l1', l2') == (if src[l1] < src[l2] then (l1 + 1, l2) else (l1, l2 + 1)) && |w'| == |w| + 1
    ensures Merging(dest[..], d0, lowdest, w', Range(src[..], l1', high1), Range(src[..], l2', high2), all)
  {
    MergeNext(dest[..], d0, lowdest, w, Range(src[..], l1, high1), Range(src[..], l2, high2), all);
    var left := src[l1] < src[l2];
    ghost var d := dest[..];
    var v := if left then src[l1] else src[l2];
    dest[at] := v;
    assert dest[..] == d[at := v];
    w' := w + [v];
    l1', l2' := if left then l1 + 1 else l1, if left then l2 else l2 + 1;
  }

  /** The merging loop, until one range reaches its stop. */
  method MergeUntil(src: array<int>, dest: array<int>, low1: int, stop1: int, high1: int, low2: int, stop2: int, high2: int, start: nat,
                    ghost d0: seq<int>, ghost lowdest: nat, ghost w0: seq<int>, ghost all: seq<int>)
    returns (l1: int, l2: int, at: nat, ghost w: seq<int>)
    requires src != dest && 0 <= low1 < stop1 <= high1 + 1 <= src.Length && 0 <= low2 < stop2 <= high2 + 1 <= src.Length
    requires start == lowdest + |w0|
    requires Merging(dest[..], d0, lowdest, w0, Range(src[..], low1, high1), Range(src[..], low2, high2), all)
    modifies dest
    ensures low1 <= l1 <= stop1 && low2 <= l2 <= stop2 && (l1 == stop1 || l2 == stop2) && at == lowdest + |w|
    ensures Merging(dest[..], d0, lowdest, w, Range(src[..], l1, high1), Range(src[..], l2, high2), all)
  {
    l1, l2, at, w := low1, low2, start, w0;
    while true
      invariant low1 <= l1 < stop1 && low2 <= l2 < stop2 && at == lowdest + |w|
      invariant Merging(dest[..], d0, lowdest, w, Range(src[..], l1, high1), Range(src[..], l2, high2), all)
      decreases stop1 - l1 + stop2 - l2
    {
      l1, l2, w := MergeOne(src, dest, l1, high1, l2, high2, at, d0, lowdest, w, all);
      at := at + 1;
      if l1 >= stop1 || l2 >= stop2 {
        break;
      }
    }
  }

  lemma MergeEnds(d: seq<int>, d0: seq<int>, lowdest: nat, w: seq<int>, x: seq<int>, y: seq<int>, all: seq<int>)
    requires Merging(d, d0, lowdest, w, x, y, all) && (x == [] || y == [])
    ensures var rest := if x == [] then y else x;
      lowdest + |w| + |rest| <= |d| && Write(d, lowdest + |w|, rest) == Write(d0, lowdest, all)
  {
  }

  /** Copies what is left of the one range that is not used up. */
  method CopyRest(src: array<int>, dest: array<int>, l1: int, high1: int, l2: int, high2: int, at: nat,
                  ghost d0: seq<int>, ghost lowdest: nat, ghost w: seq<int>, ghost all: seq<int>)
    requires src != dest && 0 <= l1 <= high1 + 1 <= src.Length && 0 <= l2 <= high2 + 1 <= src.Length && at == lowdest + |w|
    requires l1 > high1 || l2 > high2
    requires Merging(dest[..], d0, lowdest, w, Range(src[..], l1, high1), Range(src[..], l2, high2), all)
    modifies dest
    ensures dest[..] == Write(d0, lowdest, all)
  {
    MergeEnds(dest[..], d0, lowdest, w, Range(src[..], l1, high1), Range(src[..], l2, high2), all);
    if l1 > high1 {
      Memcpy(dest, at, src, l2, high2);
    } else {
      Memcpy(dest, at, src, l1, high1);
    }
  }

  /** Merges two ranges. The first loop stops before the last element of either, the
      second after it, and what is left of the other range is copied. */
  method SeqMerge(src: array<int>, low1: nat, high1: int, low2: nat, high2: int, dest: array<int>, lowdest: nat)
    requires src != dest && low1 <= high1 + 1 <= src.Length && low2 <= high2 + 1 <= src.Length
    requires lowdest + (high1 - low1 + 1) + (high2 - low2 + 1) <= dest.Length
    modifies dest
    ensures dest[..] == Write(old(dest[..]), lowdest, Merge(Range(src[..], low1, high1), Range(src[..], low2, high2)))
  {
    ghost var all := Merge(Range(src[..], low1, high1), Range(src[..], low2, high2));
    ghost var d0, w := dest[..], [];
    var l1, l2, at := low1 as int, low2 as int, lowdest;
    if l1 < high1 && l2 < high2 {
      l1, l2, at, w := MergeUntil(src, dest, l1, high1, high1, l2, high2, high2, at, d0, lowdest, w, all);
    }
    if l1 <= high1 && l2 <= high2 {
      l1, l2, at, w := MergeUntil(src, dest, l1, high1 + 1, high1, l2, high2 + 1, high2, at, d0, lowdest, w, all);
    }
    CopyRest(src, dest, l1, high1, l2, high2, at, d0, lowdest, w, all);
  }

  method Memcpy(dest: array<int>, at: nat, src: array<int>, low: nat, high: int)
    requires src != dest && low <= high + 1 <= src.Length && at + (high - low + 1) <= dest.Length
    modifies dest
    ensures dest[..] == Write(old(dest[..]), at, Range(src[..], low, high))
  {
    forall k | 0 <= k < high - low + 1 {
      dest[at + k] := src[low + k];
    }
  }

  // ---------------------------------------------------------------------
  // Parallel merging
  // ---------------------------------------------------------------------

  /** What the comment of binsplit promises: the place of the greatest element that is
      at most `val`, or the place before the range if there is none. */
  predicate HoldsGreatest(s: seq<int>, val: int, low: int, high: int, r: int)
    requires 0 <= low <= high < |s|
  {
    if forall k | low <= k <= high :: s[k] > val then r == low - 1
    else low <= r <= high && s[r] <= val && forall k | low <= k <= high && s[k] <= val :: s[k] <= s[r]
  }

  /** A place where `val` fits into a sorted range: everything up to it is at most
      `val`, and everything after it at least `val`. It is the place that the comment
      promises unless the range has an element equal to `val` and starts below it. */
  method BinSplit(src: array<int>, val: int, low0: nat, high0: nat) returns (r: int)
    requires low0 <= high0 < src.Length && Sorted(Range(src[..], low0, high0))
    ensures low0 - 1 <= r <= high0
    ensures forall k | low0 <= k <= r :: src[k] <= val
    ensures forall k | r < k <= high0 :: val <= src[k]
    ensures r > low0 ==> src[r] < val
    ensures HoldsGreatest(src[..], val, low0, high0, r) <==> !(src[low0] < val && exists k :: low0 <= k <= high0 && src[k] == val)
  {
    var low, high := low0, high0;
    RangeSorted(src[..], low0, high0);
    while low != high
      invariant low0 <= low <= high <= high0
      invariant forall k | low0 <= k < low :: src[k] <= val
      invariant low > low0 ==> src[low] < val
      invariant forall k | high < k <= high0 :: val <= src[k]
      decreases high - low
    {
      var mid := low + (high - low + 1) / 2;
      if val <= src[mid] {
        high := mid - 1;
      } else {
        low := mid;
      }
    }
    r := if src[low] > val then low - 1 else low;
  }

  /** The comment's promise fails for the range 3, 5 and the value 5: the search moves
      to the left of the equal element. */
  method EqualElementPassed() returns (src: array<int>, r: int)
    ensures src[..] == [3, 5] && r == 0 && !HoldsGreatest(src[..], 5, 0, 1, r)
  {
    src := new int[2](i => if i == 0 then 3 else 5);
    assert src[..] == [3, 5];
    RangeSorted(src[..], 0, 1);
    r := BinSplit(src, 5, 0, 1);
    assert src[1] == 5;
  }

  lemma RangeSorted(s: seq<int>, low: nat, high: nat)
    requires low <= high < |s|
    ensures Sorted(Range(s, low, high)) <==> SortedIn(s, low, high + 1)
  {
    var r := Range(s, low, high);
    assert forall k | low <= k <= high :: r[k - low] == s[k];
    if Sorted(r) {
      forall i, j | low <= i < j < high + 1
        ensures s[i] <= s[j]
      {
        assert r[i - low] <= r[j - low];
      }
    }
  }

  /** The three writes of a merge step tile the destination. */
  lemma WritesTile(d: seq<int>, d1: seq<int>, d2: seq<int>, d3: seq<int>, lo: nat, l: seq<int>, at: nat, v: int, u: seq<int>)
    requires at == lo + |l| && at + 1 + |u| <= |d| == |d1| == |d2|
    requires d1 == Write(d, at, [v]) && d2 == Write(d1, lo, l) && d3 == Write(d2, at + 1, u)
    ensures d3 == Write(d, lo, l + [v] + u)
  {
  }

  method PutOne(dest: array<int>, at: nat, v: int)
    requires at < dest.Length
    modifies dest
    ensures dest[..] == Write(old(dest[..]), at, [v])
  {
    dest[at] := v;
  }

  /** A range before `m`, and from `m` on. */
  lemma RangeSplits(s: seq<int>, low: nat, high: int, m: int)
    requires low <= m <= high + 1 <= |s|
    ensures Range(s, low, high)[..m - low] == Range(s, low, m - 1) && Range(s, low, high)[m - low..] == Range(s, m, high)
  {
  }

  /** The slices that the two recursive merges work on. */
  lemma SplitRanges(s: seq<int>, low1: nat, high1: int, split1: int, low2: nat, high2: int, split2: int)
    requires low1 <= split1 <= high1 < |s| && low2 <= high2 < |s| && low2 - 1 <= split2 <= high2
    requires Sorted(Range(s, low1, high1)) && Sorted(Range(s, low2, high2))
    requires (forall k | low2 <= k <= split2 :: s[k] <= s[split1]) && (forall k | split2 < k <= high2 :: s[split1] <= s[k])
    ensures Sorted(Range(s, low1, split1 - 1)) && Sorted(Range(s, split1 + 1, high1))
    ensures Sorted(Range(s, low2, split2)) && Sorted(Range(s, split2 + 1, high2))
    ensures Merge(Range(s, low1, high1), Range(s, low2, high2)) ==
              Merge(Range(s, low1, split1 - 1), Range(s, low2, split2)) + [s[split1]]
              + Merge(Range(s, split1 + 1, high1), Range(s, split2 + 1, high2))
  {
    var x, y, i, j := Range(s, low1, high1), Range(s, low2, high2), split1 - low1, split2 - low2 + 1;
    RangeSplits(s, low1, high1, split1);
    RangeSplits(s, low1, high1, split1 + 1);
    RangeSplits(s, low2, high2, split2 + 1);
    assert x[..i] == Range(s, low1, split1 - 1) && x[i + 1..] == Range(s, split1 + 1, high1) && x[i] == s[split1];
    assert y[..j] == Range(s, low2, split2) && y[j..] == Range(s, split2 + 1, high2);
    MergeSplits(x, y, i, j);
  }

  /** A range of an array. */
  ghost function Slice(a: array<int>, low: int, high: int): seq<int>
    requires 0 <= low <= high + 1 <= a.Length
    reads a
  {
    Range(a[..], low, high)
  }

  /** Merges two sorted ranges, not both empty, into the destination. The two
      recursive calls and the middle element fill disjoint intervals of it. */
  method CilkMerge(src: array<int>, low1: nat, high1: int, low2: nat, high2: int, dest: array<int>, lowdest: nat)
    requires src != dest && low1 <= high1 + 1 <= src.Length && low2 <= high2 + 1 <= src.Length
    requires lowdest + (high1 - low1 + 1) + (high2 - low2 + 1) <= dest.Length
    requires low1 <= high1 || low2 <= high2
    requires Sorted(Slice(src, low1, high1)) && Sorted(Slice(src, low2, high2))
    modifies dest
    ensures dest[..] == Write(old(dest[..]), lowdest, Merge(Slice(src, low1, high1), Slice(src, low2, high2)))
    decreases high1 - low1 + high2 - low2 + 2, 1
  {
    if high2 - low2 > high1 - low1 {
      MergeCommutes(Slice(src, low1, high1), Slice(src, low2, high2));
      MergeInto(src, low2, high2, low1, high1, dest, lowdest);
    } else {
      MergeInto(src, low1, high1, low2, high2, dest, lowdest);
    }
  }

  /** The same, once the first range is the larger one. */
  method MergeInto(src: array<int>, low1: nat, high1: int, low2: nat, high2: int, dest: array<int>, lowdest: nat)
    requires src != dest && low1 <= high1 + 1 <= src.Length && low2 <= high2 + 1 <= src.Length
    requires lowdest + (high1 - low1 + 1) + (high2 - low2 + 1) <= dest.Length
    requires (low1 <= high1 || low2 <= high2) && high2 - low2 <= high1 - low1
    requires Sorted(Slice(src, low1, high1)) && Sorted(Slice(src, low2, high2))
    modifies dest
    ensures dest[..] == Write(old(dest[..]), lowdest, Merge(Slice(src, low1, high1), Slice(src, low2, high2)))
    decreases high1 - low1 + high2 - low2 + 2, 0
  {
    if high1 < low1 {
      assert false;
    }
    if high2 - low2 < MERGESIZE {
      SeqMerge(src, low1, high1, low2, high2, dest, lowdest);
    } else {
      var split1 := (high1 - low1 + 1) / 2 + low1;
      var split2 := BinSplit(src, src[split1], low2, high2);
      SplitRanges(src[..], low1, high1, split1, low2, high2, split2);
      MergeParts(src, low1, high1, split1, low2, high2, split2, dest, lowdest);
    }
  }

  /** The middle element, and the two recursive merges. */
  method MergeParts(src: array<int>, low1: nat, high1: int, split1: int, low2: nat, high2: int, split2: int, dest: array<int>, lowdest: nat)
    requires src != dest && low1 < split1 < high1 < src.Length && low2 <= high2 < src.Length && low2 - 1 <= split2 <= high2
    requires lowdest + (high1 - low1 + 1) + (high2 - low2 + 1) <= dest.Length
    requires Sorted(Slice(src, low1, split1 - 1)) && Sorted(Slice(src, split1 + 1, high1))
    requires Sorted(Slice(src, low2, split2)) && Sorted(Slice(src, split2 + 1, high2))
    modifies dest
    ensures dest[..] == Write(old(dest[..]), lowdest,
              Merge(Slice(src, low1, split1 - 1), Slice(src, low2, split2)) + [src[split1]]
              + Merge(Slice(src, split1 + 1, high1), Slice(src, split2 + 1, high2)))
    decreases high1 - low1 + high2 - low2 + 1
  {
    ghost var d := dest[..];
    ghost var l, u := Merge(Slice(src, low1, split1 - 1), Slice(src, low2, split2)), Merge(Slice(src, split1 + 1, high1), Slice(src, split2 + 1, high2));
    var at := lowdest + (split1 - low1 + split2 - low2) + 1;
    PutOne(dest, at, src[split1]);
    ghost var d1 := dest[..];
    CilkMerge(src, low1, split1 - 1, low2, split2, dest, lowdest);
    ghost var d2 := dest[..];
    CilkMerge(src, split1 + 1, high1, split2 + 1, high2, dest, at + 1);
    WritesTile(d, d1, d2, dest[..], lowdest, l, at, src[split1], u);
  }
}
