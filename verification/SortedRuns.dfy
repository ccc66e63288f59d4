/** Sorted sequences, their merge, and writes into an interval of an array. */
module SortedRuns {
  ghost predicate Sorted(s: seq<int>) {
    forall i, j | 0 <= i < j < |s| :: s[i] <= s[j]
  }

  /** The merge of two sorted sequences; on ties the second goes first. */
  function Merge(x: seq<int>, y: seq<int>): (r: seq<int>)
    ensures |r| == |x| + |y|
    decreases |x| + |y|
  {
    if x == [] then y
    else if y == [] then x
    else if x[0] < y[0] then [x[0]] + Merge(x[1..], y)
    else [y[0]] + Merge(x, y[1..])
  }

  lemma {:induction false} MergeMultiset(x: seq<int>, y: seq<int>)
    ensures multiset(Merge(x, y)) == multiset(x) + multiset(y)
    decreases |x| + |y|
  {
    if x != [] && y != [] {
      assert x == [x[0]] + x[1..] && y == [y[0]] + y[1..];
      if x[0] < y[0] {
        MergeMultiset(x[1..], y);
      } else {
        MergeMultiset(x, y[1..]);
      }
    }
  }

  lemma InMerge(x: seq<int>, y: seq<int>, v: int)
    ensures v in Merge(x, y) <==> v in x || v in y
  {
    MergeMultiset(x, y);
    assert v in Merge(x, y) <==> v in multiset(Merge(x, y));
    assert v in x <==> v in multiset(x);
    assert v in y <==> v in multiset(y);
  }

  lemma ConsSorted(v: int, s: seq<int>)
    requires Sorted(s) && forall w | w in s :: v <= w
    ensures Sorted([v] + s)
  {
    forall i, j | 0 <= i < j < |s| + 1
      ensures ([v] + s)[i] <= ([v] + s)[j]
    {
      assert s[j - 1] in s;
    }
  }

  lemma {:induction false} MergeSorted(x: seq<int>, y: seq<int>)
    requires Sorted(x) && Sorted(y)
    ensures Sorted(Merge(x, y))
    decreases |x| + |y|
  {
    if x != [] && y != [] {
      var (v, r) := if x[0] < y[0] then (x[0], Merge(x[1..], y)) else (y[0], Merge(x, y[1..]));
      if x[0] < y[0] {
        MergeSorted(x[1..], y);
      } else {
        MergeSorted(x, y[1..]);
      }
      forall w | w in r
        ensures v <= w
      {
        if x[0] < y[0] {
          InMerge(x[1..], y, w);
        } else {
          InMerge(x, y[1..], w);
        }
      }
      ConsSorted(v, r);
    }
  }

  lemma SameFirst(s: seq<int>, t: seq<int>)
    requires Sorted(s) && Sorted(t) && multiset(s) == multiset(t) && s != [] && t != []
    ensures s[0] == t[0]
  {
    assert s[0] in multiset(t) && t[0] in multiset(s);
  }

  lemma TailMultiset(s: seq<int>)
    requires s != []
    ensures multiset(s[1..]) == multiset(s) - multiset{s[0]}
  {
    assert s == [s[0]] + s[1..];
  }

  /** A sorted sequence is determined by its elements. */
  lemma {:induction false} SortedUnique(s: seq<int>, t: seq<int>)
    requires Sorted(s) && Sorted(t) && multiset(s) == multiset(t)
    ensures s == t
  {
    assert |s| == |multiset(s)| == |multiset(t)| == |t|;
    if s != [] {
      SameFirst(s, t);
      TailMultiset(s);
      TailMultiset(t);
      SortedUnique(s[1..], t[1..]);
      assert s == [s[0]] + s[1..] && t == [t[0]] + t[1..];
    }
  }

  // ---------------------------------------------------------------------
  // Writing into an interval
  // ---------------------------------------------------------------------

  /** `d` with the elements from `lo` on replaced by `w`. */
  function Write(d: seq<int>, lo: nat, w: seq<int>): (r: seq<int>)
    requires lo + |w| <= |d|
    ensures |r| == |d|
  {
    seq(|d|, k requires 0 <= k < |d| => if lo <= k < lo + |w| then w[k - lo] else d[k])
  }

  /** Writes into disjoint intervals commute: two calls that write there may run in
      either order or at the same time. */
  lemma WritesCommute(d: seq<int>, lo: nat, w: seq<int>, hi: nat, v: seq<int>)
    requires lo + |w| <= hi && hi + |v| <= |d|
    ensures Write(Write(d, lo, w), hi, v) == Write(Write(d, hi, v), lo, w)
  {
  }

  // ---------------------------------------------------------------------
  // Permuting a range in place
  // ---------------------------------------------------------------------

  ghost predicate SortedIn(s: seq<int>, lo: int, hi: int)
    requires 0 <= lo && hi <= |s|
  {
    forall i, j | lo <= i < j < hi :: s[i] <= s[j]
  }

  /** Every element of [lo, mid) is at most every element of [mid, hi). */
  ghost predicate BelowIn(s: seq<int>, lo: int, mid: int, hi: int)
    requires 0 <= lo && mid <= hi <= |s|
  {
    forall i, j | lo <= i < mid <= j < hi :: s[i] <= s[j]
  }

  /** The elements are the same, and they move within [lo, hi) only. */
  ghost predicate Permutes(after: seq<int>, before: seq<int>, lo: int, hi: int) {
    && |after| == |before| && multiset(after) == multiset(before)
    && forall k | 0 <= k < |after| && !(lo <= k < hi) :: after[k] == before[k]
  }

  ghost predicate SortsRange(after: seq<int>, before: seq<int>, lo: int, hi: int) {
    0 <= lo && hi <= |after| && SortedIn(after, lo, hi) && Permutes(after, before, lo, hi)
  }

  lemma ThreeParts(s: seq<int>, lo: int, hi: int)
    requires 0 <= lo <= hi <= |s|
    ensures multiset(s[lo..hi]) == multiset(s) - multiset(s[..lo]) - multiset(s[hi..])
  {
    assert s == s[..lo] + s[lo..hi] + s[hi..];
  }

  /** The range itself holds the same elements. */
  lemma RangeMultiset(after: seq<int>, before: seq<int>, lo: int, hi: int)
    requires Permutes(after, before, lo, hi) && 0 <= lo <= hi <= |after|
    ensures multiset(after[lo..hi]) == multiset(before[lo..hi])
  {
    assert after[..lo] == before[..lo] && after[hi..] == before[hi..];
    ThreeParts(after, lo, hi);
    ThreeParts(before, lo, hi);
  }

  lemma ComesFrom(after: seq<int>, before: seq<int>, lo: int, hi: int, i: int) returns (j: int)
    requires Permutes(after, before, lo, hi) && 0 <= lo <= i < hi <= |after|
    ensures lo <= j < hi && before[j] == after[i]
  {
    RangeMultiset(after, before, lo, hi);
    assert after[lo..hi][i - lo] in multiset(before[lo..hi]);
    var k :| 0 <= k < hi - lo && before[lo..hi][k] == after[i];
    j := lo + k;
  }
}
