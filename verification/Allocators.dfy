/** The allocator object: malloc, free and the batches between the free lists. */
module Allocators {
  import opened Options
  import opened InternalMalloc
  import opened WholeBatches

  function EmptyBuckets(): seq<Bucket> { seq(NUM_BUCKETS, _ => Bucket([], 0, 0, 0, 0)) }

  /** The lists of the first `b` buckets are empty, and no other worker has changed. */
  ghost predicate Drained(es: seq<Desc>, ds: seq<Desc>, w: nat, b: nat) {
    && Charged(es, ds, w, 0) && |es[w].buckets| == NUM_BUCKETS >= b
    && (forall c | 0 <= c < b :: es[w].buckets[c].list == [])
    && (forall v | 0 <= v < |es| && v != w :: es[v] == ds[v])
  }

  lemma DrainedMore(fs: seq<Desc>, es: seq<Desc>, ds: seq<Desc>, w: nat, b: nat)
    requires Drained(es, ds, w, b) && b < NUM_BUCKETS && OnlyBucket(fs, es, w, b) && Charged(fs, es, w, 0)
    requires fs[w].buckets[b].list == []
    ensures Drained(fs, ds, w, b + 1)
  {
  }

  /** No worker keeps more free blocks than its limit. */
  ghost predicate Limited(ds: seq<Desc>) {
    forall w, b | 0 <= w < |ds| && 0 <= b < |ds[w].buckets| :: ds[w].buckets[b].size <= Capacity(b)
  }

  class Allocator {
    var memBegin: nat
    var memEnd: nat
    var total: nat       // bytes obtained from the system
    var wasted: nat      // bytes at the end of chunks
    var used: int
    var global: seq<Bucket>
    var workers: seq<Desc>
    ghost var place: map<nat, Place>
    ghost var returned: nat   // bytes freed to the global lists without a worker
    ghost var closing: bool   // the shutdown has begun

    /** Every block is where it should be, and the chunk in use is the last one. */
    ghost predicate Sorted()
      reads this`memBegin, this`memEnd, this`total, this`global, this`workers, this`place
    {
      && Tidy(place, memBegin, global, workers)
      && memBegin <= memEnd == total && total % CHUNK == 0 && memEnd - memBegin <= CHUNK
    }

    /** Every byte from the system is in use by the workers, on a global list, not
        carved yet, or wasted. */
    ghost predicate Balanced()
      reads this`memBegin, this`memEnd, this`total, this`wasted, this`used, this`global
    {
      used + Sum(IdleSeq(global)) + (memEnd - memBegin) + wasted == total && NoneLost(global)
    }

    /** What the workers have used, hold free and have lost to rounding is what the
        global pool has handed out, and so are the blocks counted by the workers. */
    ghost predicate Accounted()
      reads this`used, this`workers, this`returned
    {
      Sum(TotalSeq(workers)) == used + returned == Sum(TakenBytes(workers))
    }

    ghost predicate Valid()
      reads this
    {
      Sorted() && Balanced() && Accounted() && Limited(workers) && Running()
    }

    ghost function GlobalStore(): Store
      reads this`memBegin, this`wasted, this`global
    {
      Store(memBegin, wasted, Sizes(global))
    }

    /** Until the shutdown the blocks move between the workers and the global pool in
        whole batches. */
    ghost predicate Running()
      reads this`memBegin, this`wasted, this`global, this`closing, this`returned
    {
      !closing ==> Whole(GlobalStore()) && returned == 0
    }

    /** Live blocks do not overlap, and each lies in one chunk from the system. */
    lemma LiveApart(p: nat, q: nat)
      requires Sorted() && p in LiveBlocks(place) && q in LiveBlocks(place) && p < q
      ensures p + LiveBlocks(place)[p] <= q && q + LiveBlocks(place)[q] <= total
      ensures LiveBlocks(place)[p] > 0 ==> p / CHUNK == (p + LiveBlocks(place)[p] - 1) / CHUNK
    {
      LiveBlocksApart(place, memBegin, p, q);
    }

    constructor (nworkers: nat)
      ensures Valid() && place == map[] && total == 0 && |workers| == nworkers && returned == 0 && !closing
    {
      memBegin, memEnd, total, wasted, used := 0, 0, 0, 0, 0;
      global := EmptyBuckets();
      workers := seq(nworkers, _ => Desc(EmptyBuckets(), 0));
      place, returned, closing := map[], 0, false;
      new;
      ZerosInBatches(Sizes(global));
      EmptySums(nworkers);
    }

    method ExtendGlobalPool()
      requires Sorted()
      modifies this`memBegin, this`memEnd, this`total
      ensures Sorted() && memBegin == old(memEnd) && memEnd == memBegin + CHUNK
    {
      TopRises(place, memBegin, global, workers, total);
      memBegin := total;
      memEnd := memBegin + CHUNK;
      total := total + CHUNK;
    }

    /** The last block freed to the global list. */
    method RemoveFromGlobal(b: nat) returns (mem: nat)
      requires Sorted() && b < NUM_BUCKETS && global[b].list != []
      modifies this`global, this`place
      ensures Sorted() && Sum(IdleSeq(global)) == Sum(IdleSeq(old(global))) - SizeOf(b)
      ensures mem in old(place) && old(place)[mem] == Global(b) && place == old(place)[mem := Moving(b)]
      ensures OneTaken(GlobalStore(), old(GlobalStore()), b) && (old(NoneLost(global)) ==> NoneLost(global))
    {
      PopGlobal(place, memBegin, global, workers, b);
      PopTaken(memBegin, wasted, global, b);
      mem := global[b].list[0];
      global := global[b := global[b].Pop()];
      place := place[mem := Moving(b)];
    }

    /** A new block from the chunk in use, or from a new chunk; what is left of the
        old one is wasted. */
    method CarveBlock(b: nat) returns (mem: nat)
      requires Sorted() && b < NUM_BUCKETS && global[b].list == []
      modifies this`memBegin, this`memEnd, this`total, this`wasted, this`place
      ensures Sorted() && memEnd - memBegin + wasted - total == old(memEnd - memBegin + wasted - total) - SizeOf(b)
      ensures mem !in old(place) && place == old(place)[mem := Moving(b)]
      ensures OneTaken(GlobalStore(), old(GlobalStore()), b)
    {
      assert BucketsOk(global);
      if memBegin + SizeOf(b) > memEnd {
        if memBegin % SizeOf(b) == 0 {
          ChunkUsedUp(memBegin, memEnd, b);
        }
        wasted := wasted + (memEnd - memBegin);
        ExtendGlobalPool();
      }
      Carve(place, memBegin, global, workers, b, memEnd);
      mem := memBegin;
      memBegin := memBegin + SizeOf(b);
      place := place[mem := Moving(b)];
    }

    method GlobalImAlloc(b: nat) returns (mem: nat)
      requires Sorted() && Balanced() && b < NUM_BUCKETS
      modifies this`memBegin, this`memEnd, this`total, this`wasted, this`used, this`global, this`place
      ensures Sorted() && Balanced() && used == old(used) + SizeOf(b)
      ensures mem in place && place[mem] == Moving(b) && LiveBlocks(place) == old(LiveBlocks(place))
      ensures OneTaken(GlobalStore(), old(GlobalStore()), b)
    {
      used := used + SizeOf(b);
      ghost var was := place;
      if global[b].list != [] {
        mem := RemoveFromGlobal(b);
      } else {
        mem := CarveBlock(b);
      }
      LiveSame(was, mem, Moving(b));
    }

    /** The worker has got `i` blocks of a batch. */
    ghost predicate Batching(w: nat, b: nat, i: nat, ds: seq<Desc>, live: map<nat, nat>, store: Store)
      reads this
    {
      && Sorted() && Balanced() && LiveBlocks(place) == live
      && OnlyBucket(workers, ds, w, b) && workers[w].buckets[b].size == i && Charged(workers, ds, w, 0)
      && Sum(TotalSeq(workers)) == used + returned == Sum(TakenBytes(workers)) + i * SizeOf(b)
      && (!closing ==> PartTaken(GlobalStore(), store, b, i))
    }

    /** Moves half of the bucket's capacity from the global pool to an empty list of
        the worker. */
    method ImAllocateBatch(w: nat, b: nat)
      requires Valid() && w < |workers| && b < NUM_BUCKETS && workers[w].buckets[b].list == []
      modifies this`memBegin, this`memEnd, this`total, this`wasted, this`used, this`global, this`workers, this`place
      ensures Valid() && LiveBlocks(place) == old(LiveBlocks(place)) && OnlyBucket(workers, old(workers), w, b)
      ensures workers[w].buckets[b].size == Batch(b) && Charged(workers, old(workers), w, 0)
    {
      assert BucketsOk(workers[w].buckets);
      for i := 0 to Batch(b)
        invariant Batching(w, b, i, old(workers), old(LiveBlocks(place)), old(GlobalStore()))
      {
        AllocateTurn(w, b, i, old(workers), old(LiveBlocks(place)), old(GlobalStore()));
      }
      FinishBatch(w, b, old(workers), old(LiveBlocks(place)), old(GlobalStore()));
    }

    method AllocateTurn(w: nat, b: nat, i: nat, ghost ds: seq<Desc>, ghost live: map<nat, nat>, ghost store: Store)
      requires Batching(w, b, i, ds, live, store) && w < |workers| && b < NUM_BUCKETS && i < Batch(b)
      requires !closing ==> Whole(store)
      modifies this`memBegin, this`memEnd, this`total, this`wasted, this`used, this`global, this`workers, this`place
      ensures Batching(w, b, i + 1, ds, live, store)
    {
      ghost var before := GlobalStore();
      AllocateOne(w, b);
      Times(i, SizeOf(b));
      if !closing {
        PartNext(GlobalStore(), before, store, b, i);
      }
    }

    method FinishBatch(w: nat, b: nat, ghost ds: seq<Desc>, ghost live: map<nat, nat>, ghost store: Store)
      requires Batching(w, b, Batch(b), ds, live, store) && Limited(ds) && w < |workers| && b < NUM_BUCKETS
      requires !closing ==> Whole(store) && returned == 0
      modifies this`workers
      ensures Valid() && LiveBlocks(place) == live && OnlyBucket(workers, ds, w, b)
      ensures workers[w].buckets[b].size == Batch(b) && Charged(workers, ds, w, 0)
    {
      if !closing {
        BatchTaken(GlobalStore(), store, b);
      }
      CountTaken(w, b, Batch(b));
      StillLimited(workers, ds, w, b);
    }

    /** Raises the worker's count of blocks, and its high-water mark. */
    method CountTaken(w: nat, b: nat, batch: nat)
      requires Sorted() && w < |workers| && b < NUM_BUCKETS
      requires Sum(TotalSeq(workers)) == used + returned == Sum(TakenBytes(workers)) + batch * SizeOf(b)
      modifies this`workers
      ensures Sorted() && Accounted() && OnlyBucket(workers, old(workers), w, b)
      ensures workers[w].buckets[b].size == old(workers)[w].buckets[b].size && Charged(workers, old(workers), w, 0)
      ensures var o, k := old(workers)[w].buckets[b], workers[w].buckets[b];
        k.taken == o.taken + batch && k.maxTaken >= o.maxTaken && k.maxTaken >= k.taken && (k.maxTaken == o.maxTaken || k.maxTaken == k.taken)
    {
      assert BucketsOk(workers[w].buckets);
      var k := workers[w].buckets[b];
      var taken := k.taken + batch;
      var k' := k.(taken := taken, maxTaken := if taken > k.maxTaken then taken else k.maxTaken);
      Book(workers, w, b, k', workers[w].used, 0, batch);
      CountersChange(place, memBegin, global, workers, w, b, k');
      workers := Replaced(workers, w, b, k', workers[w].used);
    }

    /** One turn of the batch. */
    method AllocateOne(w: nat, b: nat)
      requires Sorted() && Balanced() && w < |workers| && b < NUM_BUCKETS
      modifies this`memBegin, this`memEnd, this`total, this`wasted, this`used, this`global, this`workers, this`place
      ensures Sorted() && Balanced() && LiveBlocks(place) == old(LiveBlocks(place)) && used == old(used) + SizeOf(b)
      ensures Booked(workers, old(workers), w, b, SizeOf(b), 0, old(workers)[w].buckets[b].size + 1)
      ensures Charged(workers, old(workers), w, 0)
      ensures OneTaken(GlobalStore(), old(GlobalStore()), b)
    {
      var p := GlobalImAlloc(b);
      AddToLocal(w, b, p);
    }

    method AddToLocal(w: nat, b: nat, p: nat)
      requires Sorted() && w < |workers| && b < NUM_BUCKETS && p in place && place[p] == Moving(b)
      modifies this`workers, this`place
      ensures Sorted() && LiveBlocks(place) == old(LiveBlocks(place))
      ensures Booked(workers, old(workers), w, b, SizeOf(b), 0, old(workers)[w].buckets[b].size + 1)
      ensures Charged(workers, old(workers), w, 0)
    {
      assert BucketsOk(workers[w].buckets);
      var k := workers[w].buckets[b].Push(p);
      PushLocal(place, memBegin, global, workers, w, b, k, workers[w].used, p);
      LiveSame(place, p, Local(w, b));
      Book(workers, w, b, k, workers[w].used, 1, 0);
      workers := Replaced(workers, w, b, k, workers[w].used);
      place := place[p := Local(w, b)];
    }

    lemma OneFreed(w: nat, b: nat, k: Bucket, p: nat)
      requires Sorted() && w < |workers| && b < NUM_BUCKETS && |workers[w].buckets| == NUM_BUCKETS
      requires var o := workers[w].buckets[b]; o.list != [] && p == o.list[0] && k == o.Pop().(taken := o.taken - 1) && k.size == o.size - 1 && k.taken <= k.maxTaken
      ensures var ks, at, es := global[b := global[b].Push(p)], place[p := Global(b)], Replaced(workers, w, b, k, workers[w].used);
        && Tidy(at, memBegin, ks, es) && LiveBlocks(at) == LiveBlocks(place)
        && Sum(IdleSeq(ks)) == Sum(IdleSeq(global)) + SizeOf(b)
        && Booked(es, workers, w, b, 0 - SizeOf(b), 0 - SizeOf(b), workers[w].buckets[b].size - 1) && Charged(es, workers, w, 0)
    {
      LocalToGlobal(place, memBegin, global, workers, w, b, k);
      Book(workers, w, b, k, workers[w].used, -1, -1);
    }

    /** One turn of the batch that goes back to the global pool: the worker then
        counts one block less. */
    method FreeOne(w: nat, b: nat)
      requires Sorted() && w < |workers| && b < NUM_BUCKETS && workers[w].buckets[b].list != []
      modifies this`used, this`global, this`workers, this`place
      ensures Sorted() && LiveBlocks(place) == old(LiveBlocks(place))
      ensures used == old(used) - SizeOf(b) && Sum(IdleSeq(global)) == old(Sum(IdleSeq(global))) + SizeOf(b)
      ensures Booked(workers, old(workers), w, b, 0 - SizeOf(b), 0 - SizeOf(b), old(workers)[w].buckets[b].size - 1)
      ensures Charged(workers, old(workers), w, 0)
      ensures b < |old(global)| && global == old(global)[b := old(global)[b].Push(old(workers)[w].buckets[b].list[0])]
    {
      assert BucketsOk(workers[w].buckets);
      var o := workers[w].buckets[b];
      var k, p := o.Pop().(taken := o.taken - 1), o.list[0];
      OneFreed(w, b, k, p);
      workers := Replaced(workers, w, b, k, workers[w].used);
      global := global[b := global[b].Push(p)];
      place := place[p := Global(b)];
      used := used - SizeOf(b);
    }

    lemma GlobalPush(b: nat, p: nat)
      requires Sorted() && b < NUM_BUCKETS && p in place && place[p].Live? && ClassOf(place[p]) == b
      ensures var ks, at := global[b := global[b].Push(p)], place[p := Global(b)];
        && Tidy(at, memBegin, ks, workers) && LiveBlocks(at) == LiveBlocks(place) - {p}
        && Sum(IdleSeq(ks)) == Sum(IdleSeq(global)) + SizeOf(b) && (NoneLost(global) ==> NoneLost(ks))
    {
      LiveLess(place, p, Global(b));
      PushGlobal(place, memBegin, global, workers, b, p);
    }

    method AddToGlobal(b: nat, p: nat)
      requires Sorted() && b < NUM_BUCKETS && p in place && place[p].Live? && ClassOf(place[p]) == b
      modifies this`global, this`place
      ensures Sorted() && Sum(IdleSeq(global)) == old(Sum(IdleSeq(global))) + SizeOf(b)
      ensures LiveBlocks(place) == old(LiveBlocks(place)) - {p}
      ensures b < |old(global)| && global == old(global)[b := old(global)[b].Push(p)] && place == old(place)[p := Global(b)]
      ensures old(NoneLost(global)) ==> NoneLost(global)
    {
      GlobalPush(b, p);
      global := global[b := global[b].Push(p)];
      place := place[p := Global(b)];
    }

    /** The worker has given `i` blocks of a batch back. */
    ghost predicate Freeing(w: nat, b: nat, i: nat, ds: seq<Desc>, live: map<nat, nat>, ks: seq<Bucket>)
      reads this
    {
      && Sorted() && Balanced() && Accounted() && LiveBlocks(place) == live
      && OnlyBucket(workers, ds, w, b) && Charged(workers, ds, w, 0)
      && workers[w].buckets[b].size + i == ds[w].buckets[b].size && Grown(global, ks, b, i)
    }

    /** Half of the bucket's capacity, or what there is. */
    static function FreedOf(size: nat, b: nat): nat { if size < Batch(b) then size else Batch(b) }

    /** Moves that many blocks back. */
    method ImFreeBatch(w: nat, b: nat)
      requires Sorted() && Balanced() && Accounted() && w < |workers| && b < NUM_BUCKETS
      modifies this`used, this`global, this`workers, this`place
      ensures b < |old(workers)[w].buckets|
      ensures Freeing(w, b, FreedOf(old(workers)[w].buckets[b].size, b), old(workers), old(LiveBlocks(place)), old(global))
    {
      FreeStart(w, b);
      var i := 0;
      while i < Batch(b)
        invariant 0 <= i <= Batch(b) && Freeing(w, b, i, old(workers), old(LiveBlocks(place)), old(global))
      {
        if workers[w].buckets[b].list == [] {
          break;
        }
        FreeTurn(w, b, i, old(workers), old(LiveBlocks(place)), old(global));
        i := i + 1;
      }
      FreeSizes(w, b, i, old(workers), old(LiveBlocks(place)), old(global));
      assert i == FreedOf(old(workers)[w].buckets[b].size, b);
    }

    lemma FreeStart(w: nat, b: nat)
      requires Sorted() && Balanced() && Accounted() && w < |workers| && b < NUM_BUCKETS
      ensures Freeing(w, b, 0, workers, LiveBlocks(place), global)
    {
      assert BucketsOk(workers[w].buckets) && BucketsOk(global);
    }

    lemma FreeSizes(w: nat, b: nat, i: nat, ds: seq<Desc>, live: map<nat, nat>, ks: seq<Bucket>)
      requires Freeing(w, b, i, ds, live, ks)
      ensures |workers| == |ds| && w < |ds| && b < |workers[w].buckets| && b < |ds[w].buckets|
      ensures |workers[w].buckets[b].list| + i == ds[w].buckets[b].size
    {
      assert BucketsOk(workers[w].buckets);
    }

    method FreeTurn(w: nat, b: nat, ghost i: nat, ghost ds: seq<Desc>, ghost live: map<nat, nat>, ghost ks: seq<Bucket>)
      requires Freeing(w, b, i, ds, live, ks) && w < |workers| && b < NUM_BUCKETS && workers[w].buckets[b].list != []
      modifies this`used, this`global, this`workers, this`place
      ensures Freeing(w, b, i + 1, ds, live, ks)
    {
      ghost var js, p := global, workers[w].buckets[b].list[0];
      FreeOne(w, b);
      PushGrows(js, b, p);
      GrownMore(global, js, ks, b, i);
    }

    /** The first free block of the worker becomes live; its worker counts the bytes
        asked for and the bytes lost to rounding. */
    method TakeLive(w: nat, b: nat, size: nat) returns (p: nat)
      requires Sorted() && w < |workers| && b == BucketOf(size) < NUM_BUCKETS && workers[w].buckets[b].list != []
      modifies this`workers, this`place
      ensures Sorted() && p !in old(LiveBlocks(place)) && LiveBlocks(place) == old(LiveBlocks(place))[p := size]
      ensures Booked(workers, old(workers), w, b, 0, 0, old(workers)[w].buckets[b].size - 1)
      ensures Charged(workers, old(workers), w, size)
    {
      assert BucketsOk(workers[w].buckets);
      var o, u := workers[w].buckets[b], workers[w].used + size;
      var k := o.Pop().(wasted := o.wasted + SizeOf(b) - size);
      PopLocal(place, memBegin, global, workers, w, b, k, u, Live(size));
      p := o.list[0];
      Book(workers, w, b, k, u, -1, 0);
      LiveMore(place, p, size);
      workers := Replaced(workers, w, b, k, u);
      place := place[p := Live(size)];
    }

    /** A block for `size` bytes; None for one that the system must provide. The
        counters of the worker are updated here when the block is taken. */
    method Malloc(w: nat, size: nat) returns (mem: Option<nat>)
      requires Valid() && w < |workers|
      modifies this
      ensures Valid() && |workers| == old(|workers|) && returned == old(returned) && closing == old(closing)
      ensures mem.None? <==> size > SIZE_THRESH
      ensures mem.None? ==> LiveBlocks(place) == old(LiveBlocks(place))
      ensures mem.Some? ==> mem.value !in old(LiveBlocks(place)) && LiveBlocks(place) == old(LiveBlocks(place))[mem.value := size]
      ensures mem.Some? ==> OnlyBucket(workers, old(workers), w, BucketOf(size)) && Charged(workers, old(workers), w, size)
    {
      var b := SizeToBucket(size);
      if b >= NUM_BUCKETS {
        return None;
      }
      Provide(w, b);
      ghost var ds := workers;
      var p := TakeLive(w, b, size);
      StillLimited(workers, ds, w, b);
      return Some(p);
    }

    /** A batch from the global pool when the worker's list is empty. */
    method Provide(w: nat, b: nat)
      requires Valid() && w < |workers| && b < NUM_BUCKETS
      modifies this`memBegin, this`memEnd, this`total, this`wasted, this`used, this`global, this`workers, this`place
      ensures Valid() && LiveBlocks(place) == old(LiveBlocks(place)) && OnlyBucket(workers, old(workers), w, b)
      ensures workers[w].buckets[b].list != [] && Charged(workers, old(workers), w, 0)
      ensures old(workers)[w].buckets[b].list != [] ==> workers == old(workers)
    {
      assert BucketsOk(workers[w].buckets);
      if workers[w].buckets[b].list == [] {
        ImAllocateBatch(w, b);
        assert BucketsOk(workers[w].buckets);
      }
    }

    /** A live block goes on the worker's free list. */
    method PutLocal(w: nat, p: nat, size: nat, b: nat)
      requires Sorted() && w < |workers| && b == BucketOf(size) < NUM_BUCKETS
      requires p in place && place[p] == Live(size)
      modifies this`workers, this`place
      ensures Sorted() && LiveBlocks(place) == old(LiveBlocks(place)) - {p}
      ensures Booked(workers, old(workers), w, b, 0, 0, old(workers)[w].buckets[b].size + 1)
      ensures Charged(workers, old(workers), w, 0 - size)
    {
      assert BucketsOk(workers[w].buckets);
      var o, u := workers[w].buckets[b], workers[w].used - size;
      var k := o.Push(p).(wasted := o.wasted - (SizeOf(b) - size));
      PushLocal(place, memBegin, global, workers, w, b, k, u, p);
      Book(workers, w, b, k, u, 1, 0);
      LiveLess(place, p, Local(w, b));
      workers := Replaced(workers, w, b, k, u);
      place := place[p := Local(w, b)];
    }

    /** Frees a block of that size; a list that is over its limit goes back in
        batches. */
    method Free(w: nat, p: nat, size: nat)
      requires Valid() && w < |workers|
      requires size <= SIZE_THRESH ==> p in LiveBlocks(place) && LiveBlocks(place)[p] == size
      modifies this`used, this`global, this`workers, this`place
      ensures Valid() && |workers| == old(|workers|)
      ensures LiveBlocks(place) == if size <= SIZE_THRESH then old(LiveBlocks(place)) - {p} else old(LiveBlocks(place))
      ensures size <= SIZE_THRESH ==> OnlyBucket(workers, old(workers), w, BucketOf(size)) && Charged(workers, old(workers), w, 0 - size)
    {
      if size > SIZE_THRESH {
        return;
      }
      var b := SizeToBucket(size);
      FreeToBucket(w, p, size, b);
      StillLimited(workers, old(workers), w, b);
    }

    method FreeToBucket(w: nat, p: nat, size: nat, b: nat)
      requires Sorted() && Balanced() && Accounted() && Running() && w < |workers| && b == BucketOf(size) < NUM_BUCKETS
      requires p in place && place[p] == Live(size)
      modifies this`used, this`global, this`workers, this`place
      ensures Sorted() && Balanced() && Accounted() && Running() && LiveBlocks(place) == old(LiveBlocks(place)) - {p}
      ensures OnlyBucket(workers, old(workers), w, b) && Charged(workers, old(workers), w, 0 - size)
      ensures workers[w].buckets[b].size <= Capacity(b)
    {
      PutLocal(w, p, size, b);
      assert BucketsOk(workers[w].buckets);
      ghost var ds := workers;
      FreeDownToLimit(w, b);
      SameBucket(workers, ds, old(workers), w, b, 0 - size);
    }

    /** The batches that go back from a list over its limit. */
    method FreeDownToLimit(w: nat, b: nat)
      requires Sorted() && Balanced() && Accounted() && Running() && w < |workers| && b < NUM_BUCKETS
      requires |workers[w].buckets| == NUM_BUCKETS
      modifies this`used, this`global, this`workers, this`place
      ensures Sorted() && Balanced() && Accounted() && Running() && LiveBlocks(place) == old(LiveBlocks(place))
      ensures OnlyBucket(workers, old(workers), w, b) && Charged(workers, old(workers), w, 0)
      ensures workers[w].buckets[b].size <= Capacity(b)
    {
      while workers[w].buckets[b].size > Capacity(b)
        invariant Sorted() && Balanced() && Accounted() && Running() && LiveBlocks(place) == old(LiveBlocks(place))
        invariant OnlyBucket(workers, old(workers), w, b) && Charged(workers, old(workers), w, 0)
        decreases workers[w].buckets[b].size
      {
        FreeOverflow(w, b);
      }
    }

    /** The batch of a list that is over its limit is a whole one. */
    method FreeOverflow(w: nat, b: nat)
      requires Sorted() && Balanced() && Accounted() && Running() && w < |workers| && b < NUM_BUCKETS
      requires |workers[w].buckets| == NUM_BUCKETS && workers[w].buckets[b].size > Capacity(b)
      modifies this`used, this`global, this`workers, this`place
      ensures Sorted() && Balanced() && Accounted() && Running() && LiveBlocks(place) == old(LiveBlocks(place))
      ensures OnlyBucket(workers, old(workers), w, b) && Charged(workers, old(workers), w, 0)
      ensures workers[w].buckets[b].size < old(workers)[w].buckets[b].size
    {
      ghost var ks := global;
      ImFreeBatch(w, b);
      if !closing {
        BatchFreed(memBegin, wasted, global, ks, b);
      }
    }

    /** A terminating worker hands all its free blocks back. */
    method PerWorkerTerminate(w: nat)
      requires Valid() && w < |workers|
      modifies this`used, this`global, this`workers, this`place, this`closing
      ensures closing && Valid() && |workers| == old(|workers|) && LiveBlocks(place) == old(LiveBlocks(place))
      ensures Drained(workers, old(workers), w, NUM_BUCKETS)
    {
      closing := true;
      assert BucketsOk(workers[w].buckets);
      for b := 0 to NUM_BUCKETS
        invariant closing && Valid() && LiveBlocks(place) == old(LiveBlocks(place)) && Drained(workers, old(workers), w, b)
      {
        ghost var ds := workers;
        EmptyList(w, b);
        DrainedMore(workers, ds, old(workers), w, b);
      }
    }

    method EmptyList(w: nat, b: nat)
      requires Valid() && closing && w < |workers| && b < NUM_BUCKETS
      modifies this`used, this`global, this`workers, this`place
      ensures Valid() && LiveBlocks(place) == old(LiveBlocks(place)) && OnlyBucket(workers, old(workers), w, b)
      ensures workers[w].buckets[b].list == [] && Charged(workers, old(workers), w, 0)
    {
      assert BucketsOk(workers[w].buckets);
      while workers[w].buckets[b].list != []
        invariant Sorted() && Balanced() && Accounted() && LiveBlocks(place) == old(LiveBlocks(place))
        invariant OnlyBucket(workers, old(workers), w, b) && BucketsOk(workers[w].buckets) && Charged(workers, old(workers), w, 0)
        invariant workers[w].buckets[b].size <= old(workers)[w].buckets[b].size
        decreases workers[w].buckets[b].size
      {
        ImFreeBatch(w, b);
        assert BucketsOk(workers[w].buckets);
      }
      StillLimited(workers, old(workers), w, b);
    }

    /** The bytes of the block go back to the pool. */
    method PutGlobal(b: nat, p: nat)
      requires Sorted() && Balanced() && b < NUM_BUCKETS && p in place && place[p].Live? && ClassOf(place[p]) == b
      modifies this`used, this`global, this`place
      ensures Sorted() && Balanced() && used == old(used) - SizeOf(b) && LiveBlocks(place) == old(LiveBlocks(place)) - {p}
    {
      AddToGlobal(b, p);
      used := used - SizeOf(b);
    }

    /** At the shutdown, before the workers end, a block is freed to the global list, and
        no worker's counters change. */
    method FreeGlobal(p: nat, size: nat)
      requires Valid() && size <= SIZE_THRESH && p in LiveBlocks(place) && LiveBlocks(place)[p] == size
      modifies this`used, this`global, this`place, this`returned, this`closing
      ensures closing && Valid() && LiveBlocks(place) == old(LiveBlocks(place)) - {p}
      ensures returned == old(returned) + SizeOf(BucketOf(size))
    {
      closing := true;
      var b := SizeToBucket(size);
      PutGlobal(b, p);
      returned := returned + SizeOf(b);
    }

    /** internal_malloc_global_check: its half about the global pool leaves out the wasted
        bytes, and its half about the workers the bytes that were freed without a worker.
        Both hold until the shutdown begins. */
    method GlobalCheck() returns (poolOk: bool, workersOk: bool)
      requires Valid()
      ensures (poolOk <==> wasted == 0) && (workersOk <==> returned == 0)
      ensures !closing ==> poolOk && workersOk
    {
      var free := FreeBytes(global);
      var workerTotal := WorkersUsedAndFree(workers);
      poolOk := used + free + (memEnd - memBegin) == total;
      workersOk := used == workerTotal;
      IdleSplits(global);
      ZeroSum(LostSeq(global));
    }
  }

  /** A history in which the workers' half of the check fails: the shutdown frees the root
      closure, a block of worker 0, to the global list before the workers end. */
  method CheckFailsAtShutdown(nworkers: nat, closureSize: nat) returns (before: bool, poolAfter: bool, workersAfter: bool)
    requires nworkers > 0 && closureSize <= SIZE_THRESH
    ensures before && poolAfter && !workersAfter
  {
    var a := new Allocator(nworkers);
    var root := a.Malloc(0, closureSize);
    var pool, workers := a.GlobalCheck();
    before := pool && workers;
    a.FreeGlobal(root.value, closureSize);
    poolAfter, workersAfter := a.GlobalCheck();
  }

  /** Two changes of the same bucket. */
  lemma SameBucket(fs: seq<Desc>, es: seq<Desc>, ds: seq<Desc>, w: nat, b: nat, bytes: int)
    requires OnlyBucket(es, ds, w, b) && OnlyBucket(fs, es, w, b) && Charged(es, ds, w, bytes) && Charged(fs, es, w, 0)
    ensures OnlyBucket(fs, ds, w, b) && Charged(fs, ds, w, bytes)
  {
  }

  lemma StillLimited(es: seq<Desc>, ds: seq<Desc>, w: nat, b: nat)
    requires Limited(ds) && OnlyBucket(es, ds, w, b) && es[w].buckets[b].size <= Capacity(b)
    ensures Limited(es)
  {
    forall v, c | 0 <= v < |es| && 0 <= c < |es[v].buckets|
      ensures es[v].buckets[c].size <= Capacity(c)
    {
      if (v, c) != (w, b) {
        assert es[v].buckets[c] == ds[v].buckets[c];
      }
    }
  }

  lemma EmptySums(nworkers: nat)
    ensures Sum(IdleSeq(EmptyBuckets())) == 0
    ensures var ds := seq(nworkers, _ => Desc(EmptyBuckets(), 0)); Sum(TotalSeq(ds)) == 0 == Sum(TakenBytes(ds))
  {
    var ds := seq(nworkers, _ => Desc(EmptyBuckets(), 0));
    ZeroSum(IdleSeq(EmptyBuckets()));
    ZeroSum(TakenSeq(EmptyBuckets()));
    ZeroSum(TotalSeq(ds));
    ZeroSum(TakenBytes(ds));
  }

  lemma {:induction false} ZeroSum(s: seq<int>)
    requires forall i | 0 <= i < |s| :: s[i] == 0
    ensures Sum(s) == 0
  {
    if s != [] {
      ZeroSum(s[..|s| - 1]);
    }
  }
}
