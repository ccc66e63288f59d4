/** The runtime's memory allocator: per-worker free lists over a global pool of
    chunks. Addresses number the bytes of the chunks in the order in which the
    system provides them. */
module InternalMalloc {
  const NUM_BUCKETS: nat := 7
  const CHUNK: nat := 32 * 1024
  const SIZE_THRESH: nat := 2048

  /** The size of the blocks of a bucket. */
  function SizeOf(b: nat): (r: nat)
    ensures b < NUM_BUCKETS ==> 32 <= r <= SIZE_THRESH && CHUNK % r == 0
  {
    if b == 0 then 32 else if b == 1 then 64 else if b == 2 then 128 else if b == 3 then 256
    else if b == 4 then 512 else if b == 5 then 1024 else 2048
  }

  function Capacity(b: nat): (r: nat)
    ensures r >= 8
  {
    if b == 0 then 256 else if b == 1 then 128 else if b == 2 then 64 else if b == 3 then 64
    else if b == 4 then 32 else if b == 5 then 16 else 8
  }

  /** Each bucket has blocks of twice the size of the one before, and its capacity is two
      pages of them, or four from the fourth bucket on. */
  lemma Buckets(b: nat)
    requires b < NUM_BUCKETS
    ensures SizeOf(0) == 32 && (b + 1 < NUM_BUCKETS ==> SizeOf(b + 1) == 2 * SizeOf(b))
    ensures Capacity(b) * SizeOf(b) == 4096 * if b < 3 then 2 else 4
  {
  }

  /** The first bucket whose blocks are large enough; NUM_BUCKETS for none. */
  method SizeToBucket(size: nat) returns (b: nat)
    ensures b == BucketOf(size)
  {
    for i := 0 to NUM_BUCKETS
      invariant forall k | 0 <= k < i :: SizeOf(k) < size
    {
      if size <= SizeOf(i) {
        return i;
      }
    }
    return NUM_BUCKETS;
  }

  function BucketOf(size: nat): (b: nat)
    ensures b < NUM_BUCKETS <==> size <= SIZE_THRESH
    ensures b < NUM_BUCKETS ==> size <= SizeOf(b) && forall k | 0 <= k < b :: SizeOf(k) < size
  {
    if size <= 32 then 0 else if size <= 64 then 1 else if size <= 128 then 2 else if size <= 256 then 3
    else if size <= 512 then 4 else if size <= 1024 then 5 else if size <= 2048 then 6 else NUM_BUCKETS
  }

  /** A free list, last in first out, with its counters. */
  datatype Bucket = Bucket(list: seq<nat>, size: nat, taken: int, maxTaken: int, wasted: int) {
    function Push(p: nat): Bucket { this.(list := [p] + list, size := size + 1) }

    function Pop(): Bucket
      requires |list| > 0 && size > 0
    {
      this.(list := list[1..], size := size - 1)
    }

    /** The counter is that of the list, and no block is on it twice. */
    ghost predicate Ok() {
      size == |list| && taken <= maxTaken && forall i, j | 0 <= i < j < |list| :: list[i] != list[j]
    }
  }

  datatype Desc = Desc(buckets: seq<Bucket>, used: int)

  // ---------------------------------------------------------------------
  // Sums
  // ---------------------------------------------------------------------

  function Sum(s: seq<int>): int {
    if s == [] then 0 else Sum(s[..|s| - 1]) + s[|s| - 1]
  }

  lemma {:induction false} SumUpdate(s: seq<int>, i: nat, v: int)
    requires i < |s|
    ensures Sum(s[i := v]) == Sum(s) - s[i] + v
  {
    var n := |s| - 1;
    if i == n {
      assert s[i := v][..n] == s[..n];
    } else {
      SumUpdate(s[..n], i, v);
      assert s[i := v][..n] == s[..n][i := v];
    }
  }

  /** Bytes of bucket `b` that are free or lost to rounding. */
  function Idle(k: Bucket, b: nat): int { k.size * SizeOf(b) + k.wasted }
  function Taken(k: Bucket, b: nat): int { k.taken * SizeOf(b) }

  function IdleSeq(ks: seq<Bucket>): (r: seq<int>)
    ensures |r| == |ks|
  {
    seq(|ks|, b requires 0 <= b < |ks| => Idle(ks[b], b))
  }

  function TakenSeq(ks: seq<Bucket>): (r: seq<int>)
    ensures |r| == |ks|
  {
    seq(|ks|, b requires 0 <= b < |ks| => Taken(ks[b], b))
  }

  function FreeSeq(ks: seq<Bucket>): (r: seq<int>)
    ensures |r| == |ks|
  {
    seq(|ks|, b requires 0 <= b < |ks| => ks[b].size * SizeOf(b))
  }

  function LostSeq(ks: seq<Bucket>): (r: seq<int>)
    ensures |r| == |ks|
  {
    seq(|ks|, b requires 0 <= b < |ks| => ks[b].wasted)
  }

  lemma {:induction false} SumAdds(s: seq<int>, t: seq<int>, u: seq<int>)
    requires |s| == |t| == |u| && forall i | 0 <= i < |s| :: u[i] == s[i] + t[i]
    ensures Sum(u) == Sum(s) + Sum(t)
  {
    var n := |s| - 1;
    if s != [] {
      SumAdds(s[..n], t[..n], u[..n]);
    }
  }

  /** Free bytes, and bytes lost to rounding. */
  lemma IdleSplits(ks: seq<Bucket>)
    ensures Sum(IdleSeq(ks)) == Sum(FreeSeq(ks)) + Sum(LostSeq(ks))
  {
    SumAdds(FreeSeq(ks), LostSeq(ks), IdleSeq(ks));
  }

  method FreeBytes(ks: seq<Bucket>) returns (free: int)
    ensures free == Sum(FreeSeq(ks))
  {
    free := 0;
    for b := 0 to |ks|
      invariant free == Sum(FreeSeq(ks)[..b])
    {
      free := free + ks[b].size * SizeOf(b);
      assert FreeSeq(ks)[..b + 1][..b] == FreeSeq(ks)[..b];
    }
    assert FreeSeq(ks)[..|ks|] == FreeSeq(ks);
  }

  method WastedBytes(ks: seq<Bucket>) returns (wasted: int)
    ensures wasted == Sum(LostSeq(ks))
  {
    wasted := 0;
    for b := 0 to |ks|
      invariant wasted == Sum(LostSeq(ks)[..b])
    {
      wasted := wasted + ks[b].wasted;
      assert LostSeq(ks)[..b + 1][..b] == LostSeq(ks)[..b];
    }
    assert LostSeq(ks)[..|ks|] == LostSeq(ks);
  }

  method WorkersUsedAndFree(ds: seq<Desc>) returns (total: int)
    ensures total == Sum(TotalSeq(ds))
  {
    var workerFree, workerUsed, workerWasted := 0, 0, 0;
    for w := 0 to |ds|
      invariant workerUsed + workerFree + workerWasted == Sum(TotalSeq(ds)[..w])
    {
      var free := FreeBytes(ds[w].buckets);
      var wasted := WastedBytes(ds[w].buckets);
      workerFree, workerUsed, workerWasted := workerFree + free, workerUsed + ds[w].used, workerWasted + wasted;
      IdleSplits(ds[w].buckets);
      assert TotalSeq(ds)[..w + 1][..w] == TotalSeq(ds)[..w];
    }
    assert TotalSeq(ds)[..|ds|] == TotalSeq(ds);
    return workerUsed + workerFree + workerWasted;
  }

  /** What a worker has used, holds free, and has lost to rounding. */
  function Total(d: Desc): int { d.used + Sum(IdleSeq(d.buckets)) }
  function TotalSeq(ds: seq<Desc>): (r: seq<int>)
    ensures |r| == |ds|
  {
    seq(|ds|, w requires 0 <= w < |ds| => Total(ds[w]))
  }

  function TakenBytes(ds: seq<Desc>): (r: seq<int>)
    ensures |r| == |ds|
  {
    seq(|ds|, w requires 0 <= w < |ds| => Sum(TakenSeq(ds[w].buckets)))
  }

  lemma BucketChanges(d: Desc, b: nat, k: Bucket)
    requires b < |d.buckets|
    ensures var e := d.(buckets := d.buckets[b := k]);
      && Total(e) == Total(d) - Idle(d.buckets[b], b) + Idle(k, b)
      && Sum(TakenSeq(e.buckets)) == Sum(TakenSeq(d.buckets)) - Taken(d.buckets[b], b) + Taken(k, b)
  {
    var e := d.(buckets := d.buckets[b := k]);
    SumUpdate(IdleSeq(d.buckets), b, Idle(k, b));
    assert IdleSeq(e.buckets) == IdleSeq(d.buckets)[b := Idle(k, b)];
    SumUpdate(TakenSeq(d.buckets), b, Taken(k, b));
    assert TakenSeq(e.buckets) == TakenSeq(d.buckets)[b := Taken(k, b)];
  }

  lemma WorkerChanges(ds: seq<Desc>, w: nat, e: Desc)
    requires w < |ds|
    ensures Sum(TotalSeq(ds[w := e])) == Sum(TotalSeq(ds)) - Total(ds[w]) + Total(e)
    ensures Sum(TakenBytes(ds[w := e])) == Sum(TakenBytes(ds)) - Sum(TakenSeq(ds[w].buckets)) + Sum(TakenSeq(e.buckets))
  {
    SumUpdate(TotalSeq(ds), w, Total(e));
    assert TotalSeq(ds[w := e]) == TotalSeq(ds)[w := Total(e)];
    SumUpdate(TakenBytes(ds), w, Sum(TakenSeq(e.buckets)));
    assert TakenBytes(ds[w := e]) == TakenBytes(ds)[w := Sum(TakenSeq(e.buckets))];
  }

  /** One bucket of one worker, and the worker's use count, replaced. */
  function Replaced(ds: seq<Desc>, w: nat, b: nat, k: Bucket, used: int): seq<Desc>
    requires w < |ds| && b < |ds[w].buckets|
  {
    ds[w := Desc(ds[w].buckets[b := k], used)]
  }

  lemma ReplacedSums(ds: seq<Desc>, w: nat, b: nat, k: Bucket, used: int)
    requires w < |ds| && b < |ds[w].buckets|
    ensures var es, o := Replaced(ds, w, b, k, used), ds[w].buckets[b];
      && Sum(TotalSeq(es)) == Sum(TotalSeq(ds)) + (used - ds[w].used) + (Idle(k, b) - Idle(o, b))
      && Sum(TakenBytes(es)) == Sum(TakenBytes(ds)) + (Taken(k, b) - Taken(o, b))
  {
    var d := ds[w];
    BucketChanges(d, b, k);
    var e := d.(buckets := d.buckets[b := k]);
    assert Desc(d.buckets[b := k], used) == e.(used := used);
    WorkerChanges(ds, w, e.(used := used));
  }

  lemma Times(n: int, s: nat)
    ensures (n + 1) * s == n * s + s && (n - 1) * s == n * s - s
  {
  }

  // ---------------------------------------------------------------------
  // Where every block is
  // ---------------------------------------------------------------------

  datatype Place = Live(size: nat) | Moving(bucket: nat) | Global(bucket: nat) | Local(worker: nat, bucket: nat)

  function ClassOf(pl: Place): nat {
    match pl
    case Live(size) => BucketOf(size)
    case Moving(b) => b
    case Global(b) => b
    case Local(_, b) => b
  }

  ghost predicate InPool(p: nat, pl: Place, top: int) {
    && ClassOf(pl) < NUM_BUCKETS && p + SizeOf(ClassOf(pl)) <= top
    && p / CHUNK == (p + SizeOf(ClassOf(pl)) - 1) / CHUNK
  }

  /** Every block lies below `top` inside one chunk, and no two blocks overlap. */
  ghost predicate Apart(place: map<nat, Place>, top: int) {
    && (forall p | p in place :: InPool(p, place[p], top))
    && (forall p, q | p in place && q in place && p < q :: p + SizeOf(ClassOf(place[p])) <= q)
  }

  /** The blocks on the list are exactly those of that place. */
  ghost predicate Lists(list: seq<nat>, place: map<nat, Place>, pl: Place) {
    forall p :: p in list <==> p in place && place[p] == pl
  }

  ghost predicate GlobalLists(place: map<nat, Place>, ks: seq<Bucket>) {
    forall b | 0 <= b < |ks| :: Lists(ks[b].list, place, Global(b))
  }

  ghost predicate LocalLists(place: map<nat, Place>, ds: seq<Desc>) {
    forall w, b | 0 <= w < |ds| && 0 <= b < |ds[w].buckets| :: Lists(ds[w].buckets[b].list, place, Local(w, b))
  }

  /** Each block is live, or on exactly one free list, or on its way. */
  ghost predicate Placed(place: map<nat, Place>, top: int, ks: seq<Bucket>, ds: seq<Desc>) {
    Apart(place, top) && GlobalLists(place, ks) && LocalLists(place, ds)
  }

  lemma MoveApart(place: map<nat, Place>, top: int, p: nat, pl: Place)
    requires Apart(place, top) && p in place && ClassOf(pl) == ClassOf(place[p])
    ensures Apart(place[p := pl], top)
  {
  }

  lemma CarveApart(place: map<nat, Place>, top: nat, b: nat, end: nat)
    requires Apart(place, top) && b < NUM_BUCKETS && top + SizeOf(b) <= end && end % CHUNK == 0 && end - top <= CHUNK
    ensures top !in place && Apart(place[top := Moving(b)], top + SizeOf(b))
  {
    assert top / CHUNK == (top + SizeOf(b) - 1) / CHUNK;
    assert top in place ==> InPool(top, place[top], top);
    forall p | p in place
      ensures p + SizeOf(ClassOf(place[p])) <= top
    {
      assert InPool(p, place[p], top);
    }
  }

  lemma OtherList(list: seq<nat>, place: map<nat, Place>, at: Place, p: nat, pl: Place)
    requires Lists(list, place, at) && pl != at && (p in place ==> place[p] != at)
    ensures Lists(list, place[p := pl], at)
  {
  }

  lemma PopList(k: Bucket, place: map<nat, Place>, at: Place, pl: Place)
    requires k.Ok() && k.list != [] && Lists(k.list, place, at) && pl != at
    ensures k.list[0] in place && place[k.list[0]] == at
    ensures Lists(k.Pop().list, place[k.list[0] := pl], at) && k.Pop().Ok()
  {
    assert k.list[0] in k.list;
    assert k.list == [k.list[0]] + k.list[1..];
    assert forall q | q in k.list[1..] :: q != k.list[0];
  }

  lemma PushList(k: Bucket, place: map<nat, Place>, at: Place, p: nat)
    requires k.Ok() && Lists(k.list, place, at) && (p in place ==> place[p] != at)
    ensures Lists(k.Push(p).list, place[p := at], at) && k.Push(p).Ok()
  {
    assert p !in k.list;
  }

  /** A block moves, and one global list follows. */
  lemma GlobalMove(place: map<nat, Place>, ks: seq<Bucket>, ds: seq<Desc>, b: nat, k: Bucket, p: nat, pl: Place)
    requires GlobalLists(place, ks) && LocalLists(place, ds) && b < |ks| && Lists(k.list, place[p := pl], Global(b))
    requires pl == Global(b) || (pl.Moving? && p in place && place[p] == Global(b))
    requires p in place ==> place[p] == Global(b) || place[p].Live? || place[p].Moving?
    ensures GlobalLists(place[p := pl], ks[b := k]) && LocalLists(place[p := pl], ds)
  {
    forall c | 0 <= c < |ks|
      ensures Lists(ks[b := k][c].list, place[p := pl], Global(c))
    {
      if c != b {
        OtherList(ks[c].list, place, Global(c), p, pl);
      }
    }
    forall w, c | 0 <= w < |ds| && 0 <= c < |ds[w].buckets|
      ensures Lists(ds[w].buckets[c].list, place[p := pl], Local(w, c))
    {
      OtherList(ds[w].buckets[c].list, place, Local(w, c), p, pl);
    }
  }

  /** A block moves, and one local list follows. */
  lemma LocalMove(place: map<nat, Place>, ks: seq<Bucket>, ds: seq<Desc>, w: nat, b: nat, k: Bucket, used: int, p: nat, pl: Place)
    requires GlobalLists(place, ks) && LocalLists(place, ds) && w < |ds| && b < |ds[w].buckets|
    requires Lists(k.list, place[p := pl], Local(w, b))
    requires p in place && (place[p] == Local(w, b) || place[p].Live? || place[p].Moving?)
    requires pl == Local(w, b) || pl.Live? || pl.Moving?
    ensures GlobalLists(place[p := pl], ks) && LocalLists(place[p := pl], Replaced(ds, w, b, k, used))
  {
    var es := Replaced(ds, w, b, k, used);
    forall c | 0 <= c < |ks|
      ensures Lists(ks[c].list, place[p := pl], Global(c))
    {
      OtherList(ks[c].list, place, Global(c), p, pl);
    }
    forall v, c | 0 <= v < |es| && 0 <= c < |es[v].buckets|
      ensures Lists(es[v].buckets[c].list, place[p := pl], Local(v, c))
    {
      if (v, c) != (w, b) {
        assert es[v].buckets[c] == ds[v].buckets[c];
        OtherList(ds[v].buckets[c].list, place, Local(v, c), p, pl);
      }
    }
  }

  // ---------------------------------------------------------------------
  // The moves of a block
  // ---------------------------------------------------------------------

  ghost predicate BucketsOk(ks: seq<Bucket>) { |ks| == NUM_BUCKETS && forall b | 0 <= b < NUM_BUCKETS :: ks[b].Ok() }

  ghost predicate DescsOk(ds: seq<Desc>) { forall w | 0 <= w < |ds| :: BucketsOk(ds[w].buckets) }

  /** Shapes and places. */
  ghost predicate Tidy(place: map<nat, Place>, top: int, ks: seq<Bucket>, ds: seq<Desc>) {
    BucketsOk(ks) && DescsOk(ds) && Placed(place, top, ks, ds)
  }

  lemma TopRises(place: map<nat, Place>, top: int, ks: seq<Bucket>, ds: seq<Desc>, top': int)
    requires Tidy(place, top, ks, ds) && top <= top'
    ensures Tidy(place, top', ks, ds)
  {
    assert forall p | p in place && InPool(p, place[p], top) :: InPool(p, place[p], top');
  }

  lemma GlobalChanges(ks: seq<Bucket>, b: nat, k: Bucket)
    requires b < |ks|
    ensures Sum(IdleSeq(ks[b := k])) == Sum(IdleSeq(ks)) - Idle(ks[b], b) + Idle(k, b)
  {
    SumUpdate(IdleSeq(ks), b, Idle(k, b));
    assert IdleSeq(ks[b := k]) == IdleSeq(ks)[b := Idle(k, b)];
  }

  /** Off a global list. */
  lemma PopGlobal(place: map<nat, Place>, top: int, ks: seq<Bucket>, ds: seq<Desc>, b: nat)
    requires Tidy(place, top, ks, ds) && b < NUM_BUCKETS && ks[b].list != []
    ensures ks[b].size > 0
    ensures var k, p := ks[b].Pop(), ks[b].list[0];
      && p in place && place[p] == Global(b)
      && Tidy(place[p := Moving(b)], top, ks[b := k], ds)
      && Sum(IdleSeq(ks[b := k])) == Sum(IdleSeq(ks)) - SizeOf(b)
  {
    var k, p := ks[b].Pop(), ks[b].list[0];
    PopList(ks[b], place, Global(b), Moving(b));
    GlobalMove(place, ks, ds, b, k, p, Moving(b));
    MoveApart(place, top, p, Moving(b));
    GlobalChanges(ks, b, k);
    Times(ks[b].size, SizeOf(b));
  }

  /** Onto a global list. */
  lemma PushGlobal(place: map<nat, Place>, top: int, ks: seq<Bucket>, ds: seq<Desc>, b: nat, p: nat)
    requires Tidy(place, top, ks, ds) && b < NUM_BUCKETS && p in place && (place[p].Moving? || place[p].Live?) && ClassOf(place[p]) == b
    ensures var k := ks[b].Push(p);
      && Tidy(place[p := Global(b)], top, ks[b := k], ds)
      && Sum(IdleSeq(ks[b := k])) == Sum(IdleSeq(ks)) + SizeOf(b)
  {
    var k := ks[b].Push(p);
    PushList(ks[b], place, Global(b), p);
    GlobalMove(place, ks, ds, b, k, p, Global(b));
    MoveApart(place, top, p, Global(b));
    GlobalChanges(ks, b, k);
    Times(ks[b].size, SizeOf(b));
  }

  /** A new block at the top is on no list. */
  lemma Carve(place: map<nat, Place>, top: nat, ks: seq<Bucket>, ds: seq<Desc>, b: nat, end: nat)
    requires Tidy(place, top, ks, ds) && b < NUM_BUCKETS
    requires top + SizeOf(b) <= end && end % CHUNK == 0 && end - top <= CHUNK
    ensures top !in place && Tidy(place[top := Moving(b)], top + SizeOf(b), ks, ds)
  {
    CarveApart(place, top, b, end);
    forall c | 0 <= c < |ks|
      ensures Lists(ks[c].list, place[top := Moving(b)], Global(c))
    {
      OtherList(ks[c].list, place, Global(c), top, Moving(b));
    }
    forall w, c | 0 <= w < |ds| && 0 <= c < |ds[w].buckets|
      ensures Lists(ds[w].buckets[c].list, place[top := Moving(b)], Local(w, c))
    {
      OtherList(ds[w].buckets[c].list, place, Local(w, c), top, Moving(b));
    }
  }

  lemma ReplacedOk(ds: seq<Desc>, w: nat, b: nat, k: Bucket, used: int)
    requires DescsOk(ds) && w < |ds| && b < NUM_BUCKETS && k.Ok()
    ensures DescsOk(Replaced(ds, w, b, k, used))
  {
    var es := Replaced(ds, w, b, k, used);
    forall v | 0 <= v < |es|
      ensures BucketsOk(es[v].buckets)
    {
      assert BucketsOk(ds[v].buckets);
    }
  }

  /** The bookkeeping of one local move: what changes in the sums. */
  ghost predicate Booked(es: seq<Desc>, ds: seq<Desc>, w: nat, b: nat, totals: int, taken: int, size: int) {
    && OnlyBucket(es, ds, w, b) && es[w].buckets[b].size == size
    && Sum(TotalSeq(es)) == Sum(TotalSeq(ds)) + totals && Sum(TakenBytes(es)) == Sum(TakenBytes(ds)) + taken
  }

  lemma Book(ds: seq<Desc>, w: nat, b: nat, k: Bucket, used: int, moved: int, counted: int)
    requires w < |ds| && b < |ds[w].buckets|
    requires var o := ds[w].buckets[b]; k.size == o.size + moved && k.taken == o.taken + counted
    ensures var o := ds[w].buckets[b];
      Booked(Replaced(ds, w, b, k, used), ds, w, b, used - ds[w].used + moved * SizeOf(b) + k.wasted - o.wasted, counted * SizeOf(b), k.size)
  {
    var o := ds[w].buckets[b];
    ReplacedSums(ds, w, b, k, used);
    Distribute(o.size, moved, SizeOf(b));
    Distribute(o.taken, counted, SizeOf(b));
  }

  lemma Distribute(x: int, y: int, s: int)
    ensures (x + y) * s == x * s + y * s
  {
  }

  /** Off a worker's list; `k` may have other counters than the popped bucket. */
  lemma PopLocal(place: map<nat, Place>, top: int, ks: seq<Bucket>, ds: seq<Desc>, w: nat, b: nat, k: Bucket, used: int, pl: Place)
    requires Tidy(place, top, ks, ds) && w < |ds| && b < NUM_BUCKETS && |ds[w].buckets| == NUM_BUCKETS
    requires var o := ds[w].buckets[b]; o.list != [] && k.list == o.list[1..] && k.size == o.size - 1 && k.taken <= k.maxTaken
    requires (pl.Moving? || pl.Live?) && ClassOf(pl) == b
    ensures var p := ds[w].buckets[b].list[0];
      && p in place && place[p] == Local(w, b)
      && Tidy(place[p := pl], top, ks, Replaced(ds, w, b, k, used))
  {
    var o := ds[w].buckets[b];
    assert BucketsOk(ds[w].buckets);
    PopList(o, place, Local(w, b), pl);
    assert k.list == o.Pop().list && k.Ok();
    LocalMove(place, ks, ds, w, b, k, used, o.list[0], pl);
    MoveApart(place, top, o.list[0], pl);
    ReplacedOk(ds, w, b, k, used);
  }

  /** Onto a worker's list. */
  lemma PushLocal(place: map<nat, Place>, top: int, ks: seq<Bucket>, ds: seq<Desc>, w: nat, b: nat, k: Bucket, used: int, p: nat)
    requires Tidy(place, top, ks, ds) && w < |ds| && b < NUM_BUCKETS && |ds[w].buckets| == NUM_BUCKETS
    requires var o := ds[w].buckets[b]; k.list == [p] + o.list && k.size == o.size + 1 && k.taken <= k.maxTaken
    requires p in place && (place[p].Moving? || place[p].Live?) && ClassOf(place[p]) == b
    ensures Tidy(place[p := Local(w, b)], top, ks, Replaced(ds, w, b, k, used))
  {
    var o := ds[w].buckets[b];
    assert BucketsOk(ds[w].buckets);
    PushList(o, place, Local(w, b), p);
    assert k.list == o.Push(p).list && k.Ok();
    LocalMove(place, ks, ds, w, b, k, used, p, Local(w, b));
    MoveApart(place, top, p, Local(w, b));
    ReplacedOk(ds, w, b, k, used);
  }

  /** Counters may change without a block moving. */
  lemma CountersChange(place: map<nat, Place>, top: int, ks: seq<Bucket>, ds: seq<Desc>, w: nat, b: nat, k: Bucket)
    requires Tidy(place, top, ks, ds) && w < |ds| && b < NUM_BUCKETS && |ds[w].buckets| == NUM_BUCKETS
    requires k.list == ds[w].buckets[b].list && k.size == ds[w].buckets[b].size && k.taken <= k.maxTaken
    ensures Tidy(place, top, ks, Replaced(ds, w, b, k, ds[w].used))
  {
    var es := Replaced(ds, w, b, k, ds[w].used);
    assert BucketsOk(ds[w].buckets) && k.Ok();
    ReplacedOk(ds, w, b, k, ds[w].used);
    forall v, c | 0 <= v < |es| && 0 <= c < |es[v].buckets|
      ensures Lists(es[v].buckets[c].list, place, Local(v, c))
    {
      assert es[v].buckets[c].list == ds[v].buckets[c].list;
    }
  }

  /** The live blocks with their requested sizes. */
  ghost function LiveBlocks(place: map<nat, Place>): map<nat, nat> {
    map p | p in place && place[p].Live? :: place[p].size
  }

  lemma LiveSame(place: map<nat, Place>, p: nat, pl: Place)
    requires (p in place ==> !place[p].Live?) && !pl.Live?
    ensures LiveBlocks(place[p := pl]) == LiveBlocks(place)
  {
  }

  lemma LiveMore(place: map<nat, Place>, p: nat, size: nat)
    ensures LiveBlocks(place[p := Live(size)]) == LiveBlocks(place)[p := size]
  {
  }

  lemma LiveLess(place: map<nat, Place>, p: nat, pl: Place)
    requires !pl.Live?
    ensures LiveBlocks(place[p := pl]) == LiveBlocks(place) - {p}
  {
  }

  /** Only one bucket of one worker differs, and that worker's use count. */
  ghost predicate OnlyBucket(es: seq<Desc>, ds: seq<Desc>, w: nat, b: nat) {
    && |es| == |ds| && w < |ds| && |es[w].buckets| == |ds[w].buckets| && b < |ds[w].buckets|
    && (forall v | 0 <= v < |ds| && v != w :: es[v] == ds[v])
    && (forall c | 0 <= c < |ds[w].buckets| && c != b :: es[w].buckets[c] == ds[w].buckets[c])
  }

  /** The worker has been charged for that many bytes more. */
  predicate Charged(es: seq<Desc>, ds: seq<Desc>, w: nat, bytes: int) {
    w < |es| == |ds| && es[w].used == ds[w].used + bytes
  }

  lemma LiveBlocksApart(place: map<nat, Place>, top: int, p: nat, q: nat)
    requires Apart(place, top) && p in LiveBlocks(place) && q in LiveBlocks(place) && p < q
    ensures p + LiveBlocks(place)[p] <= q && q + LiveBlocks(place)[q] <= top
    ensures LiveBlocks(place)[p] > 0 ==> p / CHUNK == (p + LiveBlocks(place)[p] - 1) / CHUNK
  {
    assert InPool(p, place[p], top) && InPool(q, place[q], top);
    var n, m := LiveBlocks(place)[p], SizeOf(BucketOf(LiveBlocks(place)[p]));
    if n > 0 {
      BetweenInChunk(p, p + n - 1, p + m - 1);
    }
  }

  lemma BetweenInChunk(p: nat, q: nat, r: nat)
    requires p <= q <= r && p / CHUNK == r / CHUNK
    ensures p / CHUNK == q / CHUNK
  {
  }

  /** From a worker's list to the global one. */
  lemma LocalToGlobal(place: map<nat, Place>, top: int, ks: seq<Bucket>, ds: seq<Desc>, w: nat, b: nat, k: Bucket)
    requires Tidy(place, top, ks, ds) && w < |ds| && b < NUM_BUCKETS && |ds[w].buckets| == NUM_BUCKETS
    requires var o := ds[w].buckets[b]; o.list != [] && k.list == o.list[1..] && k.size == o.size - 1 && k.taken <= k.maxTaken
    ensures var p := ds[w].buckets[b].list[0];
      && Tidy(place[p := Global(b)], top, ks[b := ks[b].Push(p)], Replaced(ds, w, b, k, ds[w].used))
      && Sum(IdleSeq(ks[b := ks[b].Push(p)])) == Sum(IdleSeq(ks)) + SizeOf(b)
      && LiveBlocks(place[p := Global(b)]) == LiveBlocks(place)
  {
    var p := ds[w].buckets[b].list[0];
    PopLocal(place, top, ks, ds, w, b, k, ds[w].used, Moving(b));
    PushGlobal(place[p := Moving(b)], top, ks, Replaced(ds, w, b, k, ds[w].used), b, p);
    assert place[p := Moving(b)][p := Global(b)] == place[p := Global(b)];
    LiveSame(place, p, Global(b));
  }
}
