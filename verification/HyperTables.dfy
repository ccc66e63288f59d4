/** The hypertable object: the loops of local-hypertable, proved against the
    value-level table. */
module HyperTables {
  import opened Arithmetic
  import opened ProbeOrder
  import opened ProbeInsert
  import opened ProbeShift
  import opened TableCounts
  import opened TableContents
  import opened TableState

  class HyperTable<V> {
    const hash: nat -> nat
    const blank: V
    var capacity: nat
    var occupancy: nat
    var insRmCount: int
    var buckets: array<Bucket<V>>

    ghost predicate Valid()
      reads this, buckets
    {
      buckets.Length == capacity && TableOk(buckets[..], hash, occupancy, insRmCount)
    }

    /** The abstract map. */
    ghost function View(): map<nat, V>
      reads this, buckets
    {
      MapOf(buckets[..], occupancy)
    }

    /** Every key of the map can be found. */
    ghost predicate Findable()
      reads this, buckets
    {
      Sound(buckets[..])
    }

    /** The key, if it is in the map, can be found. */
    ghost predicate Sees(key: nat)
      requires buckets.Length == capacity > 0
      reads this, buckets
    {
      Linear(buckets[..]) || KeyVisible(buckets[..], key, Home(hash, capacity)(key))
    }

    lemma FindableSees(key: nat)
      requires Valid() && Findable() && IsKey(key)
      ensures Sees(key)
    {
      if capacity >= MIN_HT_CAPACITY {
        GoodKeyVisible(buckets[..], Home(hash, capacity), key);
      }
    }

    ghost predicate Spare()
      reads this, buckets
    {
      Roomy(buckets[..])
    }

    predicate Due()
      reads this
    {
      RebuildDue(capacity, occupancy, insRmCount)
    }

    constructor (hash: nat -> nat, blank: V)
      ensures Valid() && Findable() && Spare() && View() == map[] && occupancy == 0
      ensures capacity == MIN_CAPACITY && fresh(buckets) && this.hash == hash
    {
      this.hash, this.blank := hash, blank;
      capacity, occupancy, insRmCount := MIN_CAPACITY, 0, 0;
      new;
      buckets := BucketArrayCreate(MIN_CAPACITY);
      FreshOk(buckets[..], hash, 0);
    }

    method BucketArrayCreate(size: nat) returns (a: array<Bucket<V>>)
      ensures fresh(a) && a.Length == size && Fresh(a[..])
    {
      var empty := Bucket(KEY_EMPTY, 0, blank);
      a := new Bucket<V>[size](_ => empty);
      if size < MIN_HT_CAPACITY {
        return;
      }
      var tombstoneIdx := 0;
      for i := 0 to size
        invariant tombstoneIdx == i % (GRAVEYARD_GAP + 1)
        invariant forall k | 0 <= k < size :: if k < i && Graveyard(size, k) then a[k].Tombstone() else a[k].Empty()
      {
        if tombstoneIdx == GRAVEYARD_GAP {
          a[i] := a[i].(key := KEY_DELETED);
          tombstoneIdx := tombstoneIdx - GRAVEYARD_GAP;
        } else {
          tombstoneIdx := tombstoneIdx + 1;
        }
      }
    }

    // -------------------------------------------------------------------
    // Queries
    // -------------------------------------------------------------------

    method FindLinear(key: nat) returns (i: int)
      requires Valid() && capacity < MIN_HT_CAPACITY
      ensures -1 <= i < occupancy
      ensures i >= 0 ==> buckets[i].key == key
      ensures i == -1 ==> forall k | 0 <= k < occupancy :: buckets[k].key != key
    {
      i := occupancy - 1;
      while i >= 0
        invariant -1 <= i < occupancy
        invariant forall k | i < k < occupancy :: buckets[k].key != key
      {
        if buckets[i].key == key {
          return;
        }
        i := i - 1;
      }
    }

    function IncIndex(i: nat): (r: nat)
      reads this
      ensures i < capacity ==> r == Next(i, capacity)
    {
      if i + 1 == capacity then 0 else i + 1
    }

    method FindHash(key: nat) returns (r: int)
      requires Probeable()
      ensures r == Lookup(buckets[..], key, Home(hash, capacity)(key), 0)
    {
      var tgt := hash(key) % capacity;
      ghost var s, m := buckets[..], 0;
      var i := tgt;
      while true
        invariant m < capacity && i == Slot(tgt, m, capacity)
        invariant Lookup(s, key, tgt, 0) == Lookup(s, key, tgt, m)
        decreases capacity - m
      {
        var b := buckets[i];
        if b.key == key {
          return i;
        }
        if b.Empty() {
          return -1;
        }
        if !b.Tombstone() && !Continues(tgt, i) {
          return -1;
        }
        i := IncIndex(i);
        m := m + 1;
        if i == tgt {
          return -1;
        }
      }
    }

    /** The index of the bucket of `key`, or -1 for none. */
    method Find(key: nat) returns (i: int)
      requires Valid() && IsKey(key)
      ensures i == -1 <==> key !in View() || !Sees(key)
      ensures Findable() ==> Sees(key)
      ensures i != -1 ==>
                && 0 <= i < |Live(buckets[..], occupancy)| && buckets[i].key == key
                && key in View() && buckets[i].data == View()[key]
    {
      ghost var l := Live(buckets[..], occupancy);
      LiveUnique(buckets[..], hash, occupancy, insRmCount);
      if capacity < MIN_HT_CAPACITY {
        i := FindLinear(key);
        if i >= 0 {
          ContentsAt(l, i);
        } else {
          HoldsIff(l, key);
        }
      } else {
        i := FindHash(key);
        LookupSound(l, key, Home(hash, capacity)(key), 0);
        HoldsIff(l, key);
        if i >= 0 {
          ContentsAt(l, i);
        }
        if Findable() {
          GoodKeyVisible(l, Home(hash, capacity), key);
        }
      }
    }

    // -------------------------------------------------------------------
    // Insertion
    // -------------------------------------------------------------------

    /** The buckets are those of a hash table. */
    ghost predicate Probeable()
      reads this, buckets
    {
      && buckets.Length == capacity && 0 < capacity <= WORD
      && forall i | 0 <= i < capacity && buckets[i].Valid() :: buckets[i].hash < capacity
    }

    /** The distance from `tgt` of the first slot after slot `i` that is no
        tombstone. */
    method ScanTombstones(tgt: nat, i: nat, ghost m: nat) returns (next: nat, ghost n: nat)
      requires buckets.Length == capacity && tgt < capacity && m < capacity && i == Slot(tgt, m, capacity)
      ensures m < n <= capacity && n == TombEnd(buckets[..], tgt, m + 1)
      ensures next == if n == capacity then tgt else Slot(tgt, n, capacity)
    {
      ghost var s, end := buckets[..], TombEnd(buckets[..], tgt, m + 1);
      next, n := IncIndex(i), m + 1;
      while next != tgt && buckets[next].Tombstone()
        invariant m < n <= end <= capacity && next == Slot(tgt, n, capacity)
        decreases capacity - n
      {
        assert s[next].Tombstone();
        next := IncIndex(next);
        n := n + 1;
      }
      if n < capacity {
      }
      assert n == end;
    }

    /** The probe for `tgt` goes on past the entry at `i`. */
    predicate Continues(tgt: nat, i: nat)
      requires Probeable() && tgt < capacity && i < capacity && buckets[i].Valid()
      reads this, buckets
      ensures Continues(tgt, i) <==> Dist(tgt, i, capacity) <= Dist(buckets[i].hash, i, capacity)
    {
      ContinueProbeComparesDistances(tgt, buckets[i].hash, i, capacity);
      ContinueProbe(tgt, buckets[i].hash, i)
    }

    /** Where the probe for the place of `key` ends. */
    method FindPlace(key: nat) returns (o: Outcome)
      requires Probeable() && IsKey(key)
      ensures o == Probe(buckets[..], key, Home(hash, capacity)(key), 0)
    {
      var tgt := hash(key) % capacity;
      ghost var s, m := buckets[..], 0;
      var i := tgt;
      while true
        invariant m < capacity && i == Slot(tgt, m, capacity)
        invariant Probe(s, key, tgt, 0) == Probe(s, key, tgt, m)
        decreases capacity - m
      {
        if buckets[i].key == key {
          return Overwrite(i);
        }
        if buckets[i].Empty() {
          return Place(i);
        }
        if buckets[i].Tombstone() {
          var next, n := ScanTombstones(tgt, i, m);
          if buckets[next].Empty() {
            return Place(i);
          }
          if next == tgt || !Continues(tgt, next) {
            return Place(i);
          }
          i, m := next, n;
        } else {
          if !Continues(tgt, i) {
            return Shift(i, false);
          }
          i, m := IncIndex(i), m + 1;
          if i == tgt {
            return Shift(tgt, true);
          }
        }
      }
    }

    /** Swaps `b` into slot `p` and the entries from there on one slot up, until a
        slot without an entry takes the last one. */
    method ShiftUp(b: Bucket<V>, p: nat)
      requires buckets.Length == capacity && p < capacity && Hole(buckets[..], p, 0) < capacity
      modifies buckets
      ensures buckets[..] == ShiftIn(old(buckets[..]), b, p, Hole(old(buckets[..]), p, 0))
    {
      ghost var s, t, m := buckets[..], buckets[..], 0;
      var i, carried := p, b;
      while buckets[i].Valid()
        invariant m <= Hole(s, p, 0) && i == Slot(p, m, capacity)
        invariant t == buckets[..] && ShiftedBy(t, s, b, p, m) && carried == Carried(s, b, p, m)
        decreases capacity - m
      {
        HoleAt(s, p, m);
        ShiftOne(t, s, b, p, m);
        var tmp := buckets[i];
        buckets[i] := carried;
        t := t[i := carried];
        carried := tmp;
        i := IncIndex(i);
        m := m + 1;
        assert i != p;
      }
      HoleAt(s, p, m);
      ShiftOne(t, s, b, p, m);
      buckets[i] := carried;
      ShiftDone(buckets[..], s, b, p);
    }

    /** Insertion into a linear table that is not full. */
    method InsertLinear(key: nat, data: V)
      requires Valid() && capacity < MIN_HT_CAPACITY && occupancy < capacity && IsKey(key)
      modifies this`occupancy, buckets
      ensures Valid() && View() == old(View())[key := data]
      ensures occupancy == old(occupancy) + if key in old(View()) then 0 else 1
    {
      ghost var s := buckets[..];
      var i := 0;
      while i < occupancy
        invariant 0 <= i <= occupancy && buckets[..] == s
        invariant forall k | 0 <= k < i :: s[k].key != key
      {
        if buckets[i].key == key {
          LinearReplaced(s, hash, occupancy, insRmCount, i, Bucket(key, 0, data));
          buckets[i] := Bucket(key, 0, data);
          return;
        }
        i := i + 1;
      }
      LinearAppended(s, hash, occupancy, insRmCount, Bucket(key, 0, data));
      buckets[occupancy] := Bucket(key, 0, data);
      occupancy := occupancy + 1;
    }

    /** Puts the bucket of `key` where its probe ends. */
    method Put(key: nat, data: V)
      requires Valid() && Sees(key) && capacity >= MIN_HT_CAPACITY && !Due() && IsKey(key)
      modifies this`occupancy, this`insRmCount, buckets
      ensures buckets[..] == Inserted(old(buckets[..]), Bucket(key, Home(hash, capacity)(key), data))
      ensures occupancy == old(occupancy) + if key in old(View()) then 0 else 1
      ensures insRmCount == old(insRmCount) + if key in old(View()) then 0 else 1
    {
      var b := Bucket(key, hash(key) % capacity, data);
      PlaceInTable(buckets[..], hash, occupancy, insRmCount, key);
      var place := FindPlace(key);
      match place
      case Overwrite(i) =>
        buckets[i] := buckets[i].(data := data);
      case Place(i) =>
        buckets[i] := b;
        occupancy, insRmCount := occupancy + 1, insRmCount + 1;
      case Shift(p, _) =>
        ShiftUp(b, p);
        occupancy, insRmCount := occupancy + 1, insRmCount + 1;
    }

    /** Insertion into a hash table in which no rebuild is due. */
    method InsertHash(key: nat, data: V)
      requires Valid() && Sees(key) && capacity >= MIN_HT_CAPACITY && !Due() && IsKey(key)
      modifies this`occupancy, this`insRmCount, buckets
      ensures Valid() && View() == old(View())[key := data]
      ensures occupancy == old(occupancy) + if key in old(View()) then 0 else 1
      ensures insRmCount == old(insRmCount) + if key in old(View()) then 0 else 1
      ensures old(Findable()) ==> (Findable() <==> InsertSafe(old(buckets[..]), Bucket(key, Home(hash, capacity)(key), data)))
      ensures old(Spare()) ==> Spare() && (old(Findable()) ==> Findable())
    {
      ghost var s, occ, ops := buckets[..], occupancy, insRmCount;
      ghost var b := Bucket(key, Home(hash, capacity)(key), data);
      Put(key, data);
      ghost var t := buckets[..];
      HashInsertion(s, hash, occ, ops, b, t);
      assert TableOk(t, hash, occupancy, insRmCount);
    }

    /** Moves every entry to a fresh array of the given size. The result has the
        same map, every key can be found, and no nested insertion rebuilds. */
    method Rebuild(newCapacity: nat)
      requires Valid() && (capacity < MIN_HT_CAPACITY ==> occupancy == capacity)
      requires MIN_CAPACITY <= newCapacity <= MAX_CAPACITY && PowerOfTwo(newCapacity) && !Overloaded(occupancy, newCapacity)
      modifies this`capacity, this`occupancy, this`insRmCount, this`buckets
      ensures Valid() && Findable() && Spare() && fresh(buckets)
      ensures View() == old(View()) && occupancy == old(occupancy) && capacity == newCapacity
      ensures insRmCount == if newCapacity >= MIN_HT_CAPACITY then 0 else -(occupancy as int)
      decreases 1, 1
    {
      var oldBuckets, oldCapacity, oldOccupancy := buckets, capacity, occupancy;
      ghost var s := buckets[..];
      LiveUnique(s, hash, occupancy, insRmCount);
      FullEntries(s, hash, occupancy, insRmCount);
      buckets := BucketArrayCreate(newCapacity);
      capacity, occupancy, insRmCount := newCapacity, 0, -(oldOccupancy as int);
      FreshOk(buckets[..], hash, oldOccupancy);
      Refill(oldBuckets, oldOccupancy);
    }

    /** The loop of a rebuild: inserts the entries of the old array one by one. */
    method Refill(oldBuckets: array<Bucket<V>>, oldOccupancy: nat)
      requires Valid() && Findable() && Spare() && View() == map[] && occupancy == 0
      requires buckets != oldBuckets && Unique(oldBuckets[..]) && oldOccupancy == |Entries(oldBuckets[..])|
      requires !Overloaded(oldOccupancy, capacity) && insRmCount == -(oldOccupancy as int)
      modifies this`capacity, this`occupancy, this`insRmCount, this`buckets, buckets
      ensures Valid() && Findable() && Spare() && buckets == old(buckets) && capacity == old(capacity)
      ensures View() == Contents(old(oldBuckets[..])) && occupancy == oldOccupancy
      ensures insRmCount == if capacity >= MIN_HT_CAPACITY then 0 else -(occupancy as int)
      decreases 1, 0
    {
      ghost var s := oldBuckets[..];
      for i := 0 to oldBuckets.Length
        invariant oldBuckets[..] == s && buckets == old(buckets) && capacity == old(capacity)
        invariant Valid() && Findable() && Spare()
        invariant Unique(s[..i]) && View() == Contents(s[..i])
        invariant occupancy == |Entries(s[..i])|
        invariant insRmCount == if capacity >= MIN_HT_CAPACITY then occupancy - oldOccupancy else -(oldOccupancy as int)
      {
        PrefixStep(s, i);
        PrefixEntries(s, i);
        if oldBuckets[i].Valid() {
          var success := Insert(oldBuckets[i].key, oldBuckets[i].data);
        }
      }
      assert s[..oldBuckets.Length] == s;
    }

    /** Doubles the capacity of a full or overloaded table. */
    method Double()
      requires Valid() && Grows(capacity, occupancy) && 2 * capacity <= MAX_CAPACITY
      modifies this`capacity, this`occupancy, this`insRmCount, this`buckets
      ensures Valid() && Findable() && Spare() && fresh(buckets) && View() == old(View()) && occupancy == old(occupancy)
      ensures MIN_HT_CAPACITY <= capacity == 2 * old(capacity) && insRmCount == 0 && !Due()
      decreases 1, 2
    {
      Rebuild(capacity * 2);
    }

    /** Rebuilds a table that is full, too full, or due for a clean-up. */
    method MakeRoom()
      requires Valid() && (capacity < MIN_HT_CAPACITY ==> Due())
      requires Grows(capacity, occupancy) ==> 2 * capacity <= MAX_CAPACITY
      modifies this`capacity, this`occupancy, this`insRmCount, this`buckets
      ensures Valid() && !Due() && capacity >= MIN_HT_CAPACITY && (Findable() <==> old(Due() || Findable()))
      ensures View() == old(View()) && occupancy == old(occupancy)
      ensures if old(Due()) then Spare() && fresh(buckets) && insRmCount == 0 else buckets == old(buckets) && insRmCount == old(insRmCount)
      ensures capacity == if old(Grows(capacity, occupancy)) then 2 * old(capacity) else old(capacity)
      decreases if Due() then 2 else 0, 0
    {
      if capacity < MIN_HT_CAPACITY {
        Double();
      }
      if Overloaded(occupancy, capacity) {
        Double();
      } else if TimeToRebuild(insRmCount, capacity) {
        Rebuild(capacity);
      }
    }

    method Insert(key: nat, data: V) returns (success: bool)
      requires Valid() && IsKey(key) && (Sees(key) || Due())
      requires Grows(capacity, occupancy) ==> 2 * capacity <= MAX_CAPACITY
      modifies this`capacity, this`occupancy, this`insRmCount, this`buckets, buckets
      ensures Valid() && success && View() == old(View())[key := data]
      ensures occupancy == old(occupancy) + if key in old(View()) then 0 else 1
      ensures old(Findable() || Due()) ==>
                (Findable() <==> old(capacity < MIN_HT_CAPACITY || Due())
                                 || InsertSafe(old(buckets[..]), Bucket(key, Home(hash, old(capacity))(key), data)))
      ensures old((Spare() && Findable()) || Due()) ==> Spare() && Findable()
      ensures if old(Due()) then fresh(buckets) else buckets == old(buckets)
      ensures capacity == if old(Grows(capacity, occupancy)) then 2 * old(capacity) else old(capacity)
      ensures insRmCount == (if old(Due()) then 0 else old(insRmCount)) + if capacity < MIN_HT_CAPACITY || key in old(View()) then 0 else 1
      decreases if Due() then 2 else 0, 1
    {
      if capacity < MIN_HT_CAPACITY && occupancy < capacity {
        InsertLinear(key, data);
        return true;
      }
      MakeRoom();
      if Findable() {
        FindableSees(key);
      }
      InsertHash(key, data);
      return true;
    }

    /** Replaces the data of the bucket at `i`. */
    method Store(i: nat, data: V)
      requires Valid() && i < |Live(buckets[..], occupancy)| && buckets[i].Valid()
      modifies buckets
      ensures Valid() && (old(Findable()) ==> Findable()) && (old(Spare()) ==> Spare())
      ensures View() == old(View())[old(buckets[i].key) := data]
    {
      DataStored(buckets[..], hash, occupancy, insRmCount, i, data);
      buckets[i] := buckets[i].(data := data);
    }

    /** The last bucket of a linear table takes the place of the bucket at `i`. */
    method TakeLast(i: nat)
      requires Valid() && capacity < MIN_HT_CAPACITY && i < occupancy
      modifies this`occupancy, buckets
      ensures Valid() && View() == old(View()) - {old(buckets[i].key)} && occupancy == old(occupancy) - 1
    {
      ghost var s := buckets[..];
      if i == occupancy - 1 {
        buckets[i] := buckets[i].(key := KEY_EMPTY);
      } else {
        buckets[i] := buckets[occupancy - 1];
      }
      LinearTaken(s, occupancy, i, buckets[..]);
      occupancy := occupancy - 1;
    }

    /** Removal from a linear table: the last bucket takes the place of the removed one. */
    method RemoveLinear(key: nat) returns (found: bool)
      requires Valid() && capacity < MIN_HT_CAPACITY && IsKey(key)
      modifies this`occupancy, buckets
      ensures Valid() && found == (key in old(View())) && View() == old(View()) - {key}
      ensures occupancy == old(occupancy) - if found then 1 else 0
    {
      ghost var s := buckets[..];
      HoldsIff(Live(s, occupancy), key);
      var i := 0;
      while i < occupancy
        invariant 0 <= i <= occupancy && buckets[..] == s
        invariant forall k | 0 <= k < i :: s[k].key != key
      {
        if buckets[i].key == key {
          assert Live(s, occupancy)[i] == s[i];
          TakeLast(i);
          return true;
        }
        i := i + 1;
      }
      return false;
    }

    /** Makes a tombstone of the bucket at `i`. */
    method Bury(i: nat)
      requires Valid() && capacity >= MIN_HT_CAPACITY && i < capacity && buckets[i].Valid()
      modifies this`occupancy, this`insRmCount, buckets
      ensures Valid() && (old(Findable()) ==> Findable()) && View() == old(View()) - {old(buckets[i].key)}
      ensures occupancy == old(occupancy) - 1 && insRmCount == old(insRmCount) + 1
    {
      BuriedOk(buckets[..], hash, occupancy, insRmCount, i);
      buckets[i] := buckets[i].(key := KEY_DELETED);
      occupancy, insRmCount := occupancy - 1, insRmCount + 1;
    }

    /** Rebuilds a table that a removal has left too empty or due for a clean-up. */
    method Tidy()
      requires Valid() && capacity >= MIN_HT_CAPACITY && !Overloaded(occupancy, capacity)
      modifies this`capacity, this`occupancy, this`insRmCount, this`buckets
      ensures Valid() && View() == old(View()) && occupancy == old(occupancy)
      ensures buckets != old(buckets) || old(Findable()) ==> Findable()
      ensures capacity == if Underloaded(occupancy, old(capacity)) then old(capacity) / 2 else old(capacity)
      ensures if capacity < old(capacity) || TimeToRebuild(old(insRmCount), capacity)
              then Spare() && fresh(buckets) && insRmCount == if capacity < MIN_HT_CAPACITY then -(occupancy as int) else 0
              else buckets == old(buckets) && insRmCount == old(insRmCount)
    {
      if Underloaded(occupancy, capacity) {
        UnderloadedFits(occupancy, capacity);
        Rebuild(capacity / 2);
      } else if TimeToRebuild(insRmCount, capacity) {
        Rebuild(capacity);
      }
    }

    method RemoveHash(key: nat) returns (found: bool)
      requires Valid() && IsKey(key) && capacity >= MIN_HT_CAPACITY
      modifies this`capacity, this`occupancy, this`insRmCount, this`buckets, buckets
      ensures Valid() && View() == old(View()) - if found then {key} else {}
      ensures found == (key in old(View()) && old(Sees(key))) && (old(Findable()) ==> Findable() && old(Sees(key)))
      ensures occupancy == old(occupancy) - if found then 1 else 0
      ensures capacity == if found && Underloaded(occupancy, old(capacity)) then old(capacity) / 2 else old(capacity)
      ensures found ==>
                insRmCount == if capacity < MIN_HT_CAPACITY then -(occupancy as int)
                else if capacity < old(capacity) || TimeToRebuild(old(insRmCount) + 1, capacity) then 0 else old(insRmCount) + 1
      ensures capacity >= 256 || buckets != old(buckets) || (!found && old(Spare())) ==> Spare()
    {
      var i := Find(key);
      if i == -1 {
        return false;
      }
      Bury(i);
      Tidy();
      return true;
    }

    method Remove(key: nat) returns (found: bool)
      requires Valid() && IsKey(key)
      modifies this`capacity, this`occupancy, this`insRmCount, this`buckets, buckets
      ensures Valid() && View() == old(View()) - if found then {key} else {}
      ensures found == (key in old(View()) && old(Sees(key))) && (old(Findable()) ==> Findable() && old(Sees(key)))
      ensures occupancy == old(occupancy) - if found then 1 else 0
      ensures capacity == if found && old(capacity) >= MIN_HT_CAPACITY && Underloaded(occupancy, old(capacity)) then old(capacity) / 2 else old(capacity)
      ensures found && old(capacity) >= MIN_HT_CAPACITY ==>
                insRmCount == if capacity < MIN_HT_CAPACITY then -(occupancy as int)
                else if capacity < old(capacity) || TimeToRebuild(old(insRmCount) + 1, capacity) then 0 else old(insRmCount) + 1
      ensures capacity < MIN_HT_CAPACITY || capacity >= 256 || buckets != old(buckets) || (!found && old(Spare())) ==> Spare()
    {
      if capacity < MIN_HT_CAPACITY {
        found := RemoveLinear(key);
      } else {
        found := RemoveHash(key);
      }
    }
  }

  /** The bucket in hand after `m` swaps. */
  function Carried<V>(s: Table<V>, b: Bucket<V>, p: nat, m: nat): Bucket<V>
    requires p < |s| && m <= |s|
  {
    if m == 0 then b else s[Slot(p, m - 1, |s|)]
  }

  function ShiftedAt<V>(s: Table<V>, b: Bucket<V>, p: nat, m: nat, k: int): Bucket<V>
    requires p < |s| && 0 <= k < |s|
  {
    if Dist(p, k, |s|) >= m then s[k] else if k == p then b else s[Prev(k, |s|)]
  }

  /** The table after `m` swaps. */
  ghost predicate ShiftedBy<V>(t: Table<V>, s: Table<V>, b: Bucket<V>, p: nat, m: nat)
    requires p < |s|
  {
    |t| == |s| && (forall k | 0 <= k < |s| :: t[k] == ShiftedAt(s, b, p, m, k))
  }

  lemma HoleAt<V>(s: Table<V>, p: nat, m: nat)
    requires p < |s| && m <= Hole(s, p, 0) < |s|
    ensures s[Slot(p, m, |s|)].Valid() <==> m < Hole(s, p, 0)
  {
  }

  lemma ShiftOne<V>(t: Table<V>, s: Table<V>, b: Bucket<V>, p: nat, m: nat)
    requires p < |s| && m < |s| && ShiftedBy(t, s, b, p, m)
    ensures var i := Slot(p, m, |s|);
      && 0 <= i < |s| && t[i] == s[i] && Carried(s, b, p, m + 1) == s[i]
      && ShiftedBy(t[i := Carried(s, b, p, m)], s, b, p, m + 1)
  {
    var i := Slot(p, m, |s|);
    var u := t[i := Carried(s, b, p, m)];
    forall k | 0 <= k < |s|
      ensures u[k] == ShiftedAt(s, b, p, m + 1, k)
    {
    }
  }

  lemma ShiftDone<V>(t: Table<V>, s: Table<V>, b: Bucket<V>, p: nat)
    requires p < |s| && Hole(s, p, 0) < |s| && ShiftedBy(t, s, b, p, Hole(s, p, 0) + 1)
    ensures t == ShiftIn(s, b, p, Hole(s, p, 0))
  {
  }
}
