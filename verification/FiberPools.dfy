/** The fiber pools: one private pool for each worker, and a global one behind them. */
module FiberPools {
  import opened Options

  const BATCH_FRACTION: nat := 2
  const DEFAULT_FIBER_POOL_CAP: nat := 8

  /** The capacity that the environment variable leaves in force; -1 if it is unset. */
  function FiberPoolCap(variable: int): (cap: nat)
    ensures cap == 0 || cap >= 2
    ensures cap == variable || (cap == 8 && (variable < 0 || variable == 1))
  {
    if variable == 0 || variable > 1 then variable else DEFAULT_FIBER_POOL_CAP
  }

  // ---------------------------------------------------------------------
  // Where every fiber is
  // ---------------------------------------------------------------------

  datatype Place = InUse | Pooled(pool: nat)

  /** The fibers of the pool are exactly those placed there, each once. */
  ghost predicate Holds(list: seq<nat>, place: map<nat, Place>, k: nat) {
    && (forall i, j | 0 <= i < j < |list| :: list[i] != list[j])
    && (forall f :: f in list <==> f in place && place[f] == Pooled(k))
  }

  ghost predicate Located(lists: seq<seq<nat>>, place: map<nat, Place>, next: nat) {
    && (forall k | 0 <= k < |lists| :: Holds(lists[k], place, k))
    && (forall f | f in place :: f < next)
  }

  /** The fibers in use. */
  ghost function Used(place: map<nat, Place>): set<nat> { set f | f in place && place[f] == InUse }

  /** A fiber that is in use, or new, goes on top of a pool. */
  lemma PlacePush(lists: seq<seq<nat>>, place: map<nat, Place>, next: nat, k: nat, f: nat)
    requires Located(lists, place, next) && k < |lists| && (f in place ==> place[f] == InUse) && f < next
    ensures Located(lists[k := lists[k] + [f]], place[f := Pooled(k)], next)
    ensures Used(place[f := Pooled(k)]) == Used(place) - {f}
  {
    var after := lists[k := lists[k] + [f]];
    assert f !in lists[k];
    forall j | 0 <= j < |after|
      ensures Holds(after[j], place[f := Pooled(k)], j)
    {
      assert Holds(lists[j], place, j);
    }
  }

  /** The top fiber of a pool is taken into use. */
  lemma PlacePop(lists: seq<seq<nat>>, place: map<nat, Place>, next: nat, k: nat)
    requires Located(lists, place, next) && k < |lists| && lists[k] != []
    ensures var n := |lists[k]| - 1; var f := lists[k][n];
      && f in place && place[f] == Pooled(k)
      && Located(lists[k := lists[k][..n]], place[f := InUse], next)
      && Used(place[f := InUse]) == Used(place) + {f}
  {
    var n := |lists[k]| - 1;
    var f := lists[k][n];
    assert f in lists[k];
    assert lists[k] == lists[k][..n] + [f];
    var after := lists[k := lists[k][..n]];
    forall j | 0 <= j < |after|
      ensures Holds(after[j], place[f := InUse], j)
    {
      assert Holds(lists[j], place, j);
    }
  }

  /** A fiber in use goes back to the system. */
  lemma PlaceDrop(lists: seq<seq<nat>>, place: map<nat, Place>, next: nat, f: nat)
    requires Located(lists, place, next) && f in place && place[f] == InUse
    ensures Located(lists, place - {f}, next) && Used(place - {f}) == Used(place) - {f}
  {
    forall j | 0 <= j < |lists|
      ensures Holds(lists[j], place - {f}, j)
    {
    }
  }

  /** The system provides a new fiber. */
  lemma PlaceNew(lists: seq<seq<nat>>, place: map<nat, Place>, next: nat)
    requires Located(lists, place, next)
    ensures next !in place && Located(lists, place[next := InUse], next + 1)
    ensures Used(place[next := InUse]) == Used(place) + {next}
  {
    forall j | 0 <= j < |lists|
      ensures Holds(lists[j], place[next := InUse], j)
    {
    }
  }

  // ---------------------------------------------------------------------
  // One pool
  // ---------------------------------------------------------------------

  class Pool {
    var fibers: array<nat>
    var capacity: nat
    var size: nat

    ghost predicate Ok()
      reads this
    {
      capacity == fibers.Length && size <= capacity
    }

    ghost function Free(): seq<nat>
      requires Ok()
      reads this, fibers
    {
      fibers[..size]
    }

    constructor (bufsize: nat)
      ensures Ok() && Free() == [] && capacity == bufsize && fresh(fibers)
    {
      fibers := new nat[bufsize];
      capacity, size := bufsize, 0;
    }

    method Push(f: nat)
      requires Ok() && size < capacity
      modifies this`size, fibers
      ensures Ok() && Free() == old(Free()) + [f]
    {
      fibers[size] := f;
      size := size + 1;
    }

    method Pop() returns (f: nat)
      requires Ok() && size > 0
      modifies this`size
      ensures Ok() && Free() == old(Free()[..size - 1]) && f == old(Free()[size - 1])
    {
      size := size - 1;
      f := fibers[size];
    }

    /** Makes room for `newSize` fibers; a pool that has it already stays as it is. */
    method IncreaseCapacity(newSize: nat)
      requires Ok()
      modifies this`fibers, this`capacity
      ensures Ok() && Free() == old(Free()) && capacity == if old(capacity) < newSize then newSize else old(capacity)
      ensures fibers == old(fibers) || fresh(fibers)
    {
      if capacity < newSize {
        var larger := new nat[newSize];
        forall i | 0 <= i < size {
          larger[i] := fibers[i];
        }
        fibers := larger;
        capacity := newSize;
      }
    }
  }

  // ---------------------------------------------------------------------
  // All pools
  // ---------------------------------------------------------------------

  /** One pool of the first capacity, and `n` of the second. */
  method MakePools(n: nat, first: nat, others: nat) returns (made: seq<Pool>)
    ensures |made| == n + 1 && fresh(made)
    ensures forall j | 0 <= j < |made| ::
              made[j].Ok() && made[j].size == 0 && fresh(made[j].fibers) && made[j].capacity == if j == 0 then first else others
    ensures forall i, j | 0 <= i < j < |made| :: made[i] != made[j] && made[i].fibers != made[j].fibers
  {
    made := [];
    for k := 0 to n + 1
      invariant |made| == k && fresh(made)
      invariant forall j | 0 <= j < |made| ::
                  made[j].Ok() && made[j].size == 0 && fresh(made[j].fibers) && made[j].capacity == if j == 0 then first else others
      invariant forall i, j | 0 <= i < j < |made| :: made[i] != made[j] && made[i].fibers != made[j].fibers
    {
      var pool := new Pool(if k == 0 then first else others);
      made := made + [pool];
    }
  }

  /** Pool 0 is the global one; the pool of worker `w` is pool `w` + 1. */
  class Pools {
    const all: seq<Pool>
    var next: nat    // the system numbers the fibers that it provides
    ghost var place: map<nat, Place>

    ghost function Arrays(): set<object>
      reads all
    {
      set k | 0 <= k < |all| :: all[k].fibers
    }

    /** The pools are separate objects with separate arrays, within their bounds. */
    ghost predicate Separate()
      reads all
    {
      && (forall k | 0 <= k < |all| :: all[k].Ok())
      && (forall i, j | 0 <= i < j < |all| :: all[i] != all[j] && all[i].fibers != all[j].fibers)
    }

    ghost function Lists(): (r: seq<seq<nat>>)
      requires Separate()
      reads all, Arrays()
      ensures |r| == |all| && forall k | 0 <= k < |all| :: r[k] == all[k].Free()
    {
      seq(|all|, k requires 0 <= k < |all| && all[k].Ok() reads all, Arrays() => all[k].Free())
    }

    ghost predicate Valid()
      reads this, all, Arrays()
    {
      |all| > 0 && Separate() && Located(Lists(), place, next)
    }

    /** Empty pools; the global one can hold what `nproc` workers can. */
    constructor (nworkers: nat, nproc: nat, variable: int)
      ensures Valid() && Used(place) == {} && |all| == nworkers + 1 && fresh(all) && fresh(Arrays())
      ensures all[0].capacity == nproc * FiberPoolCap(variable)
      ensures forall k | 0 < k < |all| :: all[k].capacity == FiberPoolCap(variable) && all[k].size == 0
    {
      var made := MakePools(nworkers, nproc * FiberPoolCap(variable), FiberPoolCap(variable));
      all, next, place := made, 0, map[];
      new;
      assert Separate();
      assert forall k | 0 <= k < |all| :: all[k].Free() == [];
    }

    /** Only the fibers of pool `k`, and their number, have changed. */
    twostate lemma OneChanged(k: nat)
      requires old(Separate()) && k < |all| && all[k].Ok() && all[k].fibers == old(all[k].fibers)
      requires forall j | 0 <= j < |all| && j != k :: unchanged(all[j]) && unchanged(all[j].fibers)
      ensures Separate() && Lists() == old(Lists())[k := all[k].Free()]
    {
      assert forall j | 0 <= j < |all| :: all[j].fibers == old(all[j].fibers) && all[j].Ok();
      assert forall j | 0 <= j < |all| && j != k :: all[j].Free() == old(all[j].Free());
    }

    /** Puts a fiber in use into pool `k`. */
    method Add(k: nat, f: nat)
      requires Valid() && k < |all| && f in place && place[f] == InUse && all[k].size < all[k].capacity
      modifies this`place, all[k], all[k].fibers
      ensures all[k].fibers == old(all[k].fibers) && all[k].capacity == old(all[k].capacity)
      ensures Valid() && Lists() == old(Lists()[k := Lists()[k] + [f]])
      ensures Used(place) == old(Used(place)) - {f} && place == old(place)[f := Pooled(k)]
    {
      PlacePush(Lists(), place, next, k, f);
      all[k].Push(f);
      OneChanged(k);
      place := place[f := Pooled(k)];
    }

    /** Takes the top fiber of pool `k`. */
    method Take(k: nat) returns (f: nat)
      requires Valid() && k < |all| && all[k].size > 0
      modifies this`place, all[k]
      ensures all[k].fibers == old(all[k].fibers) && all[k].capacity == old(all[k].capacity)
      ensures Valid() && Lists() == old(Lists())[k := old(Lists()[k][..all[k].size - 1])]
      ensures f !in old(Used(place)) && Used(place) == old(Used(place)) + {f} && f in place && place[f] == InUse
    {
      ghost var before, n := Lists(), all[k].size - 1;
      PlacePop(before, place, next, k);
      f := all[k].Pop();
      OneChanged(k);
      place := place[f := InUse];
    }

    method SystemAllocate() returns (f: nat)
      requires Valid()
      modifies this`place, this`next
      ensures Valid() && f !in old(place) && place == old(place)[f := InUse] && Used(place) == old(Used(place)) + {f}
    {
      PlaceNew(Lists(), place, next);
      f := next;
      next := next + 1;
      place := place[f := InUse];
    }

    method SystemFree(f: nat)
      requires Valid() && f in place && place[f] == InUse
      modifies this`place
      ensures Valid() && f !in place && Used(place) == old(Used(place)) - {f}
    {
      PlaceDrop(Lists(), place, next, f);
      place := place - {f};
    }

    /** Only pool `k` has changed its size, by `n`, and no pool its array. */
    twostate predicate Resized(k: nat, n: int)
      reads all
    {
      forall j | 0 <= j < |all| ::
        && all[j].fibers == old(all[j].fibers) && all[j].capacity == old(all[j].capacity)
        && all[j].size == old(all[j].size) + if j == k then n else 0
    }

    /** `n` fibers have moved from one pool to another. */
    twostate predicate Shifted(from: nat, to: nat, n: int)
      reads all
    {
      forall j | 0 <= j < |all| ::
        && all[j].fibers == old(all[j].fibers) && all[j].capacity == old(all[j].capacity)
        && all[j].size == old(all[j].size) + (if j == to then n else 0) - (if j == from then n else 0)
    }

    /** Moves the top fiber of one pool to another. */
    method MoveOne(from: nat, to: nat)
      requires Valid() && from < |all| && to < |all| && from != to
      requires all[from].size > 0 && all[to].size < all[to].capacity
      modifies this`place, all, Arrays()
      ensures Valid() && Used(place) == old(Used(place)) && Shifted(from, to, 1)
    {
      var f := Take(from);
      Add(to, f);
    }

    /** The transfer loop between a pool and its parent, in either direction. */
    method MoveBatch(from: nat, to: nat, n: nat)
      requires Valid() && from < |all| && to < |all| && from != to
      requires n <= all[from].size && n <= all[to].capacity - all[to].size
      modifies this`place, all, Arrays()
      ensures Valid() && Used(place) == old(Used(place)) && Shifted(from, to, n)
    {
      for i := 0 to n
        invariant Valid() && Used(place) == old(Used(place)) && Shifted(from, to, i)
      {
        MoveOne(from, to);
      }
    }

    method NewOne(k: nat)
      requires Valid() && k < |all| && all[k].size < all[k].capacity
      modifies this`place, this`next, all, Arrays()
      ensures Valid() && Used(place) == old(Used(place)) && Resized(k, 1)
    {
      var f := SystemAllocate();
      Add(k, f);
    }

    method NewBatch(k: nat, n: nat)
      requires Valid() && k < |all| && n <= all[k].capacity - all[k].size
      modifies this`place, this`next, all, Arrays()
      ensures Valid() && Used(place) == old(Used(place)) && Resized(k, n)
    {
      for i := 0 to n
        invariant Valid() && Used(place) == old(Used(place)) && Resized(k, i)
      {
        NewOne(k);
      }
    }

    method DropOne(k: nat)
      requires Valid() && k < |all| && all[k].size > 0
      modifies this`place, all
      ensures Valid() && Used(place) == old(Used(place)) && Resized(k, -1)
    {
      var f := Take(k);
      SystemFree(f);
    }

    method DropBatch(k: nat, n: nat)
      requires Valid() && k < |all| && n <= all[k].size
      modifies this`place, all
      ensures Valid() && Used(place) == old(Used(place)) && Resized(k, 0 - n)
    {
      for i := 0 to n
        invariant Valid() && Used(place) == old(Used(place)) && Resized(k, 0 - i)
      {
        DropOne(k);
      }
    }

    method Grow(k: nat, newSize: nat)
      requires Valid() && k < |all|
      modifies all[k]
      ensures Valid() && all[k].size == old(all[k].size) && Lists() == old(Lists())
      ensures all[k].capacity == if old(all[k].capacity) < newSize then newSize else old(all[k].capacity)
      ensures fresh(Arrays() - old(Arrays()))
      ensures forall j | 0 <= j < |all| && j != k :: all[j].capacity == old(all[j].capacity) && all[j].size == old(all[j].size)
    {
      all[k].IncreaseCapacity(newSize);
      assert Lists() == old(Lists());
    }

    /** Adds a batch of fibers to a worker's pool, from the global pool as long as it
        has some, and then from the system. */
    method AllocateBatch(k: nat, batch: nat)
      requires Valid() && 0 < k < |all|
      modifies this, all, Arrays()
      ensures Valid() && Used(place) == old(Used(place)) && all[k].size == old(all[k].size) + batch
      ensures all[k].capacity == if batch > 0 && old(all[k].capacity) < old(all[k].size) + batch then old(all[k].size) + batch else old(all[k].capacity)
      ensures all[0].size == if batch < old(all[0].size) then old(all[0].size) - batch else 0
      ensures forall j | 0 <= j < |all| && j != k :: all[j].capacity == old(all[j].capacity) && (j > 0 ==> all[j].size == old(all[j].size))
    {
      if batch == 0 {
        return;
      }
      Grow(k, batch + all[k].size);
      Fill(k, batch);
    }

    /** The same once the pool has room for the batch. */
    method Fill(k: nat, batch: nat)
      requires Valid() && 0 < k < |all| && batch <= all[k].capacity - all[k].size
      modifies this, all, Arrays()
      ensures Valid() && Used(place) == old(Used(place)) && all[k].size == old(all[k].size) + batch
      ensures all[0].size == if batch < old(all[0].size) then old(all[0].size) - batch else 0
      ensures forall j | 0 <= j < |all| :: all[j].capacity == old(all[j].capacity) && (j > 0 && j != k ==> all[j].size == old(all[j].size))
    {
      var fromParent := if all[0].size <= batch then all[0].size else batch;
      MoveBatch(0, k, fromParent);
      if batch > fromParent {
        NewBatch(k, batch - fromParent);
      }
    }

    /** Takes a batch of fibers off a worker's pool, to the global pool as long as it
        has room, and then to the system. */
    method FreeBatch(k: nat, batch: nat)
      requires Valid() && 0 < k < |all| && batch <= all[k].size
      modifies this, all, Arrays()
      ensures Valid() && Used(place) == old(Used(place)) && all[k].size == old(all[k].size) - batch
      ensures forall j | 0 <= j < |all| :: all[j].capacity == old(all[j].capacity) && (j > 0 && j != k ==> all[j].size == old(all[j].size))
      ensures all[0].size == if batch < all[0].capacity - old(all[0].size) then old(all[0].size) + batch else all[0].capacity
      ensures Arrays() == old(Arrays())
    {
      var room := all[0].capacity - all[0].size;
      var toParent := if batch <= room then batch else room;
      MoveBatch(k, 0, toParent);
      if batch - toParent > 0 {
        DropBatch(k, batch - toParent);
      }
    }

    /** A worker's pool starts with half of its capacity. */
    method PerWorkerInit(k: nat)
      requires Valid() && 0 < k < |all| && all[k].size == 0
      modifies this, all, Arrays()
      ensures Valid() && Used(place) == old(Used(place)) && all[k].size == all[k].capacity / 2
      ensures forall j | 0 <= j < |all| :: all[j].capacity == old(all[j].capacity) && (j > 0 && j != k ==> all[j].size == old(all[j].size))
    {
      AllocateBatch(k, all[k].capacity / BATCH_FRACTION);
    }

    /** A fiber that was not in use before. A pool of capacity 1 would have none to
        give, as half of its capacity is nothing. */
    method AllocateFromPool(k: nat) returns (f: nat)
      requires Valid() && 0 < k < |all| && all[k].capacity != 1
      modifies this, all, Arrays()
      ensures Valid() && f !in old(Used(place)) && Used(place) == old(Used(place)) + {f}
      ensures old(all[k].capacity) != 0 ==> all[k].size == (if old(all[k].size) == 0 then all[k].capacity / 2 else old(all[k].size)) - 1
      ensures forall j | 0 < j < |all| && j != k :: all[j].size == old(all[j].size)
      ensures forall j | 0 <= j < |all| :: all[j].capacity == old(all[j].capacity)
    {
      if all[k].capacity == 0 {
        f := SystemAllocate();
        return;
      }
      if all[k].size == 0 {
        AllocateBatch(k, all[k].capacity / BATCH_FRACTION);
      }
      f := Take(k);
    }

    /** Returns a fiber, if there is one to return. */
    method DeallocateToPool(k: nat, fiber: Option<nat>)
      requires Valid() && 0 < k < |all| && all[k].capacity != 1
      requires fiber.Some? ==> fiber.value in Used(place)
      modifies this, all, Arrays()
      ensures Valid() && Used(place) == old(Used(place)) - if fiber.Some? then {fiber.value} else {}
      ensures old(all[k].capacity) != 0 ==>
                all[k].size == old(all[k].size) - (if old(all[k].size) == all[k].capacity then all[k].capacity / 2 else 0)
                               + (if fiber.Some? then 1 else 0)
      ensures forall j | 0 < j < |all| && j != k :: all[j].size == old(all[j].size)
      ensures forall j | 0 <= j < |all| :: all[j].capacity == old(all[j].capacity)
    {
      if all[k].capacity == 0 {
        if fiber.Some? {
          SystemFree(fiber.value);
        }
        return;
      }
      if all[k].size == all[k].capacity {
        FreeBatch(k, all[k].capacity / BATCH_FRACTION);
        assert all[k].capacity - all[k].size >= all[k].capacity / BATCH_FRACTION;
      }
      if fiber.Some? {
        Add(k, fiber.value);
      }
    }

    /** A terminating worker empties its pool. */
    method PerWorkerTerminate(k: nat)
      requires Valid() && 0 < k < |all|
      modifies this`place, all
      ensures Valid() && Used(place) == old(Used(place)) && all[k].size == 0
      ensures forall j | 0 <= j < |all| :: all[j].capacity == old(all[j].capacity) && (j != k ==> all[j].size == old(all[j].size))
    {
      DropBatch(k, all[k].size);
    }
  }
}
