/** Parallel merge sort, as its serial elision: the spawned calls run at the spawn. */
module Cilksort {
  import opened SortedRuns
  import opened Quicksort
  import opened ParallelMerge

  const QUICKSIZE: nat := 1024

  /** Writing a permutation of a range into the range. */
  lemma WritePermutes(s: seq<int>, lo: nat, w: seq<int>)
    requires lo + |w| <= |s| && multiset(w) == multiset(s[lo..lo + |w|])
    ensures Permutes(Write(s, lo, w), s, lo, lo + |w|)
  {
    var t, hi := Write(s, lo, w), lo + |w|;
    assert t == s[..lo] + w + s[hi..];
    assert s == s[..lo] + s[lo..hi] + s[hi..];
    assert multiset(t) == multiset(s[..lo]) + multiset(w) + multiset(s[hi..]);
    assert multiset(s) == multiset(s[..lo]) + multiset(s[lo..hi]) + multiset(s[hi..]);
  }

  lemma WriteSorted(s: seq<int>, lo: nat, w: seq<int>)
    requires lo + |w| <= |s| && Sorted(w)
    ensures SortedIn(Write(s, lo, w), lo, lo + |w|)
  {
    var t := Write(s, lo, w);
    forall i, j | lo <= i < j < lo + |w|
      ensures t[i] <= t[j]
    {
      assert t[i] == w[i - lo] && t[j] == w[j - lo];
    }
  }

  /** The four sorts, one after the other. */
  lemma FourSorts(s0: seq<int>, s1: seq<int>, s2: seq<int>, s3: seq<int>, s4: seq<int>, a: int, b: int, c: int, d: int, e: int)
    requires 0 <= a <= b <= c <= d <= e <= |s0|
    requires SortsRange(s1, s0, a, b) && SortsRange(s2, s1, b, c) && SortsRange(s3, s2, c, d) && SortsRange(s4, s3, d, e)
    ensures SortedIn(s4, a, b) && SortedIn(s4, b, c) && SortedIn(s4, c, d) && SortedIn(s4, d, e)
    ensures Permutes(s4, s0, a, e)
  {
  }

  /** The range [a, b) ends the same whether it is sorted before the range [c, d)
      (s, s1, u) or after it (s, s2, v). */
  lemma SameSorted(s: seq<int>, s1: seq<int>, u: seq<int>, s2: seq<int>, v: seq<int>, a: int, b: int, c: int, d: int)
    requires 0 <= a <= b <= |s| && (b <= c || d <= a)
    requires Permutes(s1, s, a, b) && Permutes(u, s1, c, d) && Permutes(s2, s, c, d) && Permutes(v, s2, a, b)
    requires SortedIn(u, a, b) && SortedIn(v, a, b)
    ensures forall k | a <= k < b :: u[k] == v[k]
  {
    RangeMultiset(s1, s, a, b);
    RangeMultiset(v, s2, a, b);
    assert u[a..b] == s1[a..b] && s2[a..b] == s[a..b];
    SortedUnique(u[a..b], v[a..b]);
    assert forall k | a <= k < b :: u[k] == u[a..b][k - a] && v[k] == v[a..b][k - a];
  }

  /** Two sorts of disjoint ranges end in the same array in either order: the
      spawned calls do not interfere. */
  lemma SortsCommute(s: seq<int>, s1: seq<int>, u: seq<int>, s2: seq<int>, v: seq<int>, a: int, b: int, c: int, d: int)
    requires 0 <= a <= b <= c <= d <= |s|
    requires SortsRange(s1, s, a, b) && SortsRange(u, s1, c, d)
    requires SortsRange(s2, s, c, d) && SortsRange(v, s2, a, b)
    ensures u == v
  {
    SameSorted(s, s1, u, s2, v, a, b, c, d);
    SameSorted(s, s2, v, s1, u, c, d, a, b);
    assert forall k | 0 <= k < |s| && !(a <= k < b) && !(c <= k < d) :: u[k] == s1[k] == s[k] == s2[k] == v[k];
    assert forall k | 0 <= k < |s| :: u[k] == v[k];
  }

  /** The array outside of an interval is as it was. */
  twostate predicate KeptOutside(a: array<int>, lo: int, hi: int)
    reads a
  {
    forall k | 0 <= k < a.Length && !(lo <= k < hi) :: a[k] == old(a[k])
  }

  lemma JoinMultiset(s: seq<int>, a: int, c: int, e: int)
    requires 0 <= a <= c <= e <= |s|
    ensures multiset(s[a..e]) == multiset(s[a..c]) + multiset(s[c..e])
  {
    assert s[a..e] == s[a..c] + s[c..e];
  }

  /** The merge of the adjacent ranges [a, b) and [b, c). */
  ghost function MergedAt(s: seq<int>, a: int, b: int, c: int): (r: seq<int>)
    requires 0 <= a <= b <= c <= |s|
    ensures |r| == c - a
  {
    Merge(s[a..b], s[b..c])
  }

  lemma MergedAtSorts(s: seq<int>, a: int, b: int, c: int)
    requires 0 <= a <= b <= c <= |s| && SortedIn(s, a, b) && SortedIn(s, b, c)
    ensures Sorted(MergedAt(s, a, b, c)) && multiset(MergedAt(s, a, b, c)) == multiset(s[a..c])
  {
    MergeSorted(s[a..b], s[b..c]);
    MergeMultiset(s[a..b], s[b..c]);
    JoinMultiset(s, a, b, c);
  }

  /** Four sorted parts of [a, e). */
  ghost predicate Quartered(s: seq<int>, a: int, b: int, c: int, d: int, e: int) {
    && 0 <= a < b < c < d < e <= |s|
    && SortedIn(s, a, b) && SortedIn(s, b, c) && SortedIn(s, c, d) && SortedIn(s, d, e)
  }

  lemma WriteSorts(s: seq<int>, a: int, e: int, w: seq<int>)
    requires 0 <= a <= e <= |s| && Sorted(w) && |w| == e - a && multiset(w) == multiset(s[a..e])
    ensures SortsRange(Write(s, a, w), s, a, e)
  {
    WritePermutes(s, a, w);
    WriteSorted(s, a, w);
  }

  /** The merge of the merges, written back, sorts the range. */
  lemma HalvesSort(s: seq<int>, a: int, b: int, c: int, d: int, e: int)
    requires Quartered(s, a, b, c, d, e)
    ensures Sorted(MergedAt(s, a, b, c)) && Sorted(MergedAt(s, c, d, e))
    ensures SortsRange(Write(s, a, Merge(MergedAt(s, a, b, c), MergedAt(s, c, d, e))), s, a, e)
  {
    var x, y := MergedAt(s, a, b, c), MergedAt(s, c, d, e);
    MergedAtSorts(s, a, b, c);
    MergedAtSorts(s, c, d, e);
    MergeSorted(x, y);
    MergeMultiset(x, y);
    JoinMultiset(s, a, c, e);
    WriteSorts(s, a, e, Merge(x, y));
  }

  /** Merges two adjacent sorted ranges. */
  method MergePair(src: array<int>, a: nat, b: nat, c: nat, dest: array<int>, at: nat)
    requires src != dest && a < b < c <= src.Length && at + (c - a) <= dest.Length
    requires SortedIn(src[..], a, b) && SortedIn(src[..], b, c)
    modifies dest
    ensures dest[..] == Write(old(dest[..]), at, MergedAt(src[..], a, b, c))
  {
    CilkMerge(src, a, b - 1, b, c - 1, dest, at);
  }

  lemma WrittenSlices(t: seq<int>, u: seq<int>, v: seq<int>, at: nat, l: seq<int>, r: seq<int>)
    requires at + |l| + |r| <= |t| == |u| && u == Write(t, at, l) && v == Write(u, at + |l|, r)
    ensures v[at..at + |l|] == l && v[at + |l|..at + |l| + |r|] == r
  {
  }

  lemma WrittenHalves(t: seq<int>, u: seq<int>, v: seq<int>, at: nat, l: seq<int>, r: seq<int>)
    requires at + |l| + |r| <= |t| == |u| && u == Write(t, at, l) && v == Write(u, at + |l|, r)
    requires Sorted(l) && Sorted(r)
    ensures MergedAt(v, at, at + |l|, at + |l| + |r|) == Merge(l, r)
    ensures SortedIn(v, at, at + |l|) && SortedIn(v, at + |l|, at + |l| + |r|)
    ensures forall k | 0 <= k < |t| && !(at <= k < at + |l| + |r|) :: v[k] == t[k]
  {
    WrittenSlices(t, u, v, at, l, r);
    WriteSorted(u, at + |l|, r);
    WriteSorted(t, at, l);
    assert forall k | at <= k < at + |l| :: v[k] == u[k];
  }

  /** The three merges, into `tmp` and back. */
  method MergeQuarters(arr: array<int>, a: nat, b: nat, c: nat, d: nat, e: nat, tmp: array<int>, at: nat)
    requires arr != tmp && e <= arr.Length && at + (e - a) <= tmp.Length
    requires Quartered(arr[..], a, b, c, d, e)
    modifies arr, tmp
    ensures SortsRange(arr[..], old(arr[..]), a, e)
    ensures KeptOutside(tmp, at, at + (e - a))
  {
    ghost var s, t := arr[..], tmp[..];
    HalvesSort(s, a, b, c, d, e);
    MergePair(arr, a, b, c, tmp, at);
    ghost var u := tmp[..];
    assert arr[..] == s;
    MergePair(arr, c, d, e, tmp, at + (c - a));
    assert arr[..] == s;
    ghost var v := tmp[..];
    WrittenHalves(t, u, v, at, MergedAt(s, a, b, c), MergedAt(s, c, d, e));
    MergePair(tmp, at, at + (c - a), at + (e - a), arr, a);
    assert tmp[..] == v;
    assert arr[..] == Write(s, a, Merge(MergedAt(s, a, b, c), MergedAt(s, c, d, e)));
  }

  /** Sorts the range of `size` elements from `low` on, using the same number of
      elements of `tmp` from `at` on. */
  method CilkSort(a: array<int>, low: nat, tmp: array<int>, at: nat, size: nat)
    requires a != tmp && low + size <= a.Length && at + size <= tmp.Length
    modifies a, tmp
    ensures SortsRange(a[..], old(a[..]), low, low + size)
    ensures KeptOutside(tmp, at, at + size)
    decreases size, 1
  {
    if size < QUICKSIZE {
      SeqQuick(a, low, low + size - 1);
    } else {
      var quarter := size / 4;
      SortQuarters(a, low, tmp, at, size, quarter);
      ghost var s := a[..];
      MergeQuarters(a, low, low + quarter, low + 2 * quarter, low + 3 * quarter, low + size, tmp, at);
    }
  }

  /** The four recursive sorts. */
  method SortQuarters(a: array<int>, low: nat, tmp: array<int>, at: nat, size: nat, quarter: nat)
    requires a != tmp && low + size <= a.Length && at + size <= tmp.Length && 0 < quarter && 4 * quarter <= size
    modifies a, tmp
    ensures Quartered(a[..], low, low + quarter, low + 2 * quarter, low + 3 * quarter, low + size)
    ensures Permutes(a[..], old(a[..]), low, low + size)
    ensures KeptOutside(tmp, at, at + size)
    decreases size, 0
  {
    var b, c, d := low + quarter, low + 2 * quarter, low + 3 * quarter;
    CilkSort(a, low, tmp, at, quarter);
    ghost var s1 := a[..];
    CilkSort(a, b, tmp, at + quarter, quarter);
    ghost var s2 := a[..];
    CilkSort(a, c, tmp, at + 2 * quarter, quarter);
    ghost var s3 := a[..];
    CilkSort(a, d, tmp, at + 3 * quarter, size - 3 * quarter);
    FourSorts(old(a[..]), s1, s2, s3, a[..], low, b, c, d, low + size);
  }
}
