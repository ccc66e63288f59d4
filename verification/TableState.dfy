/** The states of a hypertable, as values: a linear table below MIN_HT_CAPACITY, a
    hash table from there on. */
module TableState {
  import opened Counting
  import opened Arithmetic
  import opened ProbeOrder
  import opened ProbeInsert
  import opened ProbeShift
  import opened TableCounts
  import opened TableContents

  predicate Linear<V>(s: Table<V>) { |s| < MIN_HT_CAPACITY }

  /** The home slot of each key; the capacity is a power of two, so that the mask
      of the source is a remainder. */
  function Home(hash: nat -> nat, capacity: nat): nat -> nat
    requires capacity > 0
  {
    key => hash(key) % capacity
  }

  predicate IsKey(key: nat) { key != KEY_EMPTY && key != KEY_DELETED }

  ghost predicate HashedOk<V>(s: Table<V>, hash: nat -> nat, occupancy: nat, insRmCount: int)
    requires 0 < |s|
  {
    && Hashed(s, Home(hash, |s|)) && Unique(s)
    && occupancy == |Entries(s)| && occupancy <= 15 * |s| / 16 + 1
    && |Used(s)| <= UsedBound(|s|, insRmCount)
  }

  ghost predicate LinearOk<V>(s: Table<V>, occupancy: nat)
    requires occupancy <= |s|
  {
    Unique(s[..occupancy]) && forall i | 0 <= i < occupancy :: s[i].Valid()
  }

  /** What every operation keeps. */
  ghost predicate TableOk<V>(s: Table<V>, hash: nat -> nat, occupancy: nat, insRmCount: int) {
    && MIN_CAPACITY <= |s| <= MAX_CAPACITY && PowerOfTwo(|s|) && occupancy <= |s|
    && if Linear(s) then LinearOk(s, occupancy) else HashedOk(s, hash, occupancy, insRmCount)
  }

  /** The buckets that hold the table's entries. */
  ghost function Live<V>(s: Table<V>, occupancy: nat): Table<V>
    requires occupancy <= |s|
  {
    if Linear(s) then s[..occupancy] else s
  }

  /** The abstract map of a table. */
  ghost function MapOf<V>(s: Table<V>, occupancy: nat): map<nat, V> {
    if occupancy <= |s| && Unique(Live(s, occupancy)) then Contents(Live(s, occupancy)) else map[]
  }

  ghost predicate Sound<V>(s: Table<V>) { Linear(s) || Ordered(s) }

  /** No insertion will meet a full table before the next rebuild. */
  ghost predicate Roomy<V>(s: Table<V>) {
    Linear(s) || |s| >= 256 || Tombstones(s) < |s| - 15 * |s| / 16
  }

  predicate RebuildDue(capacity: nat, occupancy: nat, insRmCount: int) {
    if capacity < MIN_HT_CAPACITY then occupancy >= capacity
    else Overloaded(occupancy, capacity) || TimeToRebuild(insRmCount, capacity)
  }

  /** An insertion doubles the capacity of a full or overloaded table. */
  predicate Grows(capacity: nat, occupancy: nat) {
    if capacity < MIN_HT_CAPACITY then occupancy >= capacity else Overloaded(occupancy, capacity)
  }

  lemma RoomyHasEmpty<V>(s: Table<V>, hash: nat -> nat, occupancy: nat, insRmCount: int)
    requires TableOk(s, hash, occupancy, insRmCount) && !Linear(s) && Roomy(s)
    requires !RebuildDue(|s|, occupancy, insRmCount)
    ensures HasEmpty(s)
  {
    if |s| >= 256 {
      PolicyLeavesRoom(|s|, insRmCount);
    }
    EmptyLeft(s);
  }

  lemma LiveUnique<V>(s: Table<V>, hash: nat -> nat, occupancy: nat, insRmCount: int)
    requires TableOk(s, hash, occupancy, insRmCount)
    ensures Unique(Live(s, occupancy)) && MapOf(s, occupancy) == Contents(Live(s, occupancy))
  {
  }

  /** The occupancy is the size of the abstract map. */
  lemma OccupancyIsSize<V>(s: Table<V>, hash: nat -> nat, occupancy: nat, insRmCount: int)
    requires TableOk(s, hash, occupancy, insRmCount)
    ensures occupancy == |MapOf(s, occupancy)|
  {
    var l := Live(s, occupancy);
    EntriesAreKeys(l);
    if Linear(s) {
      assert Entries(l) == Below(occupancy);
    }
  }

  lemma HashedIsGood<V>(s: Table<V>, hash: nat -> nat, occupancy: nat, insRmCount: int)
    requires TableOk(s, hash, occupancy, insRmCount) && !Linear(s) && !Overloaded(occupancy, |s|)
    ensures HasRoom(s) && Hashed(s, Home(hash, |s|)) && Unique(s)
    ensures Ordered(s) <==> Good(s, Home(hash, |s|))
  {
    RoomLeft(s);
  }

  lemma CountsOk<V>(s: Table<V>, t: Table<V>, hash: nat -> nat, occupancy: nat, insRmCount: int, added: nat)
    requires TableOk(s, hash, occupancy, insRmCount) && !Linear(s) && !Overloaded(occupancy, |s|)
    requires |t| == |s| && Hashed(t, Home(hash, |s|)) && Unique(t) && added <= 1
    requires |Entries(t)| == |Entries(s)| + added && |Used(t)| <= |Used(s)| + added && Tombstones(t) <= Tombstones(s)
    ensures TableOk(t, hash, occupancy + added, insRmCount + added) && (Roomy(s) ==> Roomy(t))
  {
    EntriesAreUsed(t);
  }

  /** Hash-mode insertion when no rebuild is due. */
  lemma InsertedOk<V>(s: Table<V>, hash: nat -> nat, occupancy: nat, insRmCount: int, b: Bucket<V>)
    requires TableOk(s, hash, occupancy, insRmCount) && !Linear(s) && !Overloaded(occupancy, |s|)
    requires IsKey(b.key) && b.hash == Home(hash, |s|)(b.key) && KeyVisible(s, b.key, b.hash)
    ensures var t, added := Inserted(s, b), if Holds(s, b.key) then 0 else 1;
      && TableOk(t, hash, occupancy + added, insRmCount + added)
      && Unique(t) && Contents(t) == Contents(s)[b.key := b.data]
      && (Ordered(s) ==> (Ordered(t) <==> InsertSafe(s, b)))
      && (Roomy(s) ==> Roomy(t))
  {
    HashedIsGood(s, hash, occupancy, insRmCount);
    VisibleInsertion(s, Home(hash, |s|), b);
    if Ordered(s) {
      InsertedOrder(s, Home(hash, |s|), b);
    }
    InsertedCounts(s, Home(hash, |s|), b);
    CountsOk(s, Inserted(s, b), hash, occupancy, insRmCount, if Holds(s, b.key) then 0 else 1);
  }

  /** A table with room to spare stays sound. */
  lemma RoomyStaysSound<V>(s: Table<V>, hash: nat -> nat, occupancy: nat, insRmCount: int, b: Bucket<V>)
    requires TableOk(s, hash, occupancy, insRmCount) && !Linear(s) && Ordered(s) && Roomy(s)
    requires !RebuildDue(|s|, occupancy, insRmCount)
    requires IsKey(b.key) && b.hash == Home(hash, |s|)(b.key)
    ensures InsertSafe(s, b)
  {
    RoomyHasEmpty(s, hash, occupancy, insRmCount);
    EmptySlotSuffices(s, Home(hash, |s|), b);
  }

  lemma FreshOk<V>(s: Table<V>, hash: nat -> nat, expected: nat)
    requires MIN_CAPACITY <= |s| <= MAX_CAPACITY && PowerOfTwo(|s|) && Fresh(s) && expected <= 15 * |s| / 16
    ensures TableOk(s, hash, 0, -(expected as int)) && Sound(s) && Roomy(s) && MapOf(s, 0) == map[]
  {
    FreshTable(s, Home(hash, |s|));
  }

  /** Removal in hash mode. */
  lemma BuriedOk<V>(s: Table<V>, hash: nat -> nat, occupancy: nat, insRmCount: int, i: nat)
    requires TableOk(s, hash, occupancy, insRmCount) && !Linear(s) && i < |s| && s[i].Valid()
    ensures occupancy > 0
    ensures var t := Buried(s, i);
      && TableOk(t, hash, occupancy - 1, insRmCount + 1) && (Ordered(s) ==> Ordered(t))
      && Contents(t) == Contents(s) - {s[i].key}
  {
    BuryEntry(s, Home(hash, |s|), i);
    assert i in Entries(s);
  }

  lemma LinearReplaced<V>(s: Table<V>, hash: nat -> nat, occupancy: nat, insRmCount: int, i: nat, b: Bucket<V>)
    requires TableOk(s, hash, occupancy, insRmCount) && Linear(s) && i < occupancy && s[i].key == b.key
    ensures var t := s[i := b];
      && b.key in MapOf(s, occupancy)
      && TableOk(t, hash, occupancy, insRmCount)
      && MapOf(t, occupancy) == MapOf(s, occupancy)[b.key := b.data]
  {
    ContentsAt(s[..occupancy], i);
    ReplaceContents(s[..occupancy], i, b);
    assert s[i := b][..occupancy] == s[..occupancy][i := b];
  }

  lemma LinearAppended<V>(s: Table<V>, hash: nat -> nat, occupancy: nat, insRmCount: int, b: Bucket<V>)
    requires TableOk(s, hash, occupancy, insRmCount) && Linear(s) && occupancy < |s| && b.Valid()
    requires forall k | 0 <= k < occupancy :: s[k].key != b.key
    ensures var t := s[occupancy := b];
      && b.key !in MapOf(s, occupancy)
      && TableOk(t, hash, occupancy + 1, insRmCount)
      && MapOf(t, occupancy + 1) == MapOf(s, occupancy)[b.key := b.data]
  {
    var u := s[occupancy := b][..occupancy + 1];
    HoldsIff(s[..occupancy], b.key);
    assert u[..occupancy] == s[..occupancy] && u[..occupancy + 1] == u;
    PrefixStep(u, occupancy);
  }

  lemma LinearTaken<V>(s: Table<V>, occupancy: nat, i: nat, t: Table<V>)
    requires occupancy <= |s| && LinearOk(s, occupancy) && i < occupancy && |t| == |s|
    requires t[..occupancy - 1] == s[..occupancy][i := s[occupancy - 1]][..occupancy - 1]
    ensures LinearOk(t, occupancy - 1)
    ensures Contents(t[..occupancy - 1]) == Contents(s[..occupancy]) - {s[i].key}
  {
    SwapOut(s[..occupancy], i);
    assert forall k | 0 <= k < occupancy - 1 :: t[k] == t[..occupancy - 1][k];
  }

  /** A table that is about to be rebuilt has no stale bucket. */
  lemma FullEntries<V>(s: Table<V>, hash: nat -> nat, occupancy: nat, insRmCount: int)
    requires TableOk(s, hash, occupancy, insRmCount) && (Linear(s) ==> occupancy == |s|)
    ensures Live(s, occupancy) == s && occupancy == |Entries(s)|
  {
    if Linear(s) {
      assert s[..occupancy] == s;
      assert Entries(s) == Below(occupancy);
    }
  }

  /** The whole effect of a hash-mode insertion when no rebuild is due. */
  lemma HashInsertion<V>(s: Table<V>, hash: nat -> nat, occupancy: nat, insRmCount: int, b: Bucket<V>, t: Table<V>)
    requires TableOk(s, hash, occupancy, insRmCount) && !Linear(s)
    requires !RebuildDue(|s|, occupancy, insRmCount)
    requires IsKey(b.key) && b.hash == Home(hash, |s|)(b.key) && KeyVisible(s, b.key, b.hash) && t == Inserted(s, b)
    ensures var added := if b.key in MapOf(s, occupancy) then 0 else 1;
      && TableOk(t, hash, occupancy + added, insRmCount + added)
      && MapOf(t, occupancy + added) == MapOf(s, occupancy)[b.key := b.data]
      && (Sound(s) ==> (Sound(t) <==> InsertSafe(s, b)))
      && (Roomy(s) ==> Roomy(t) && (Sound(s) ==> Sound(t)))
  {
    HashedIsGood(s, hash, occupancy, insRmCount);
    InsertedOk(s, hash, occupancy, insRmCount, b);
    HoldsIff(s, b.key);
    if Roomy(s) && Ordered(s) {
      RoomyStaysSound(s, hash, occupancy, insRmCount, b);
    }
  }

  ghost predicate Lands<V>(s: Table<V>, occupancy: nat, key: nat, o: Outcome) {
    match o
    case Overwrite(i) => i < |s| && key in MapOf(s, occupancy)
    case Place(i) => i < |s| && key !in MapOf(s, occupancy)
    case Shift(p, _) => p < |s| && Hole(s, p, 0) < |s| && key !in MapOf(s, occupancy)
  }

  /** Where the probe of an insertion can end. */
  lemma PlaceInTable<V>(s: Table<V>, hash: nat -> nat, occupancy: nat, insRmCount: int, key: nat)
    requires TableOk(s, hash, occupancy, insRmCount) && !Linear(s)
    requires !RebuildDue(|s|, occupancy, insRmCount) && IsKey(key) && KeyVisible(s, key, Home(hash, |s|)(key))
    ensures Lands(s, occupancy, key, Probe(s, key, Home(hash, |s|)(key), 0))
  {
    HashedIsGood(s, hash, occupancy, insRmCount);
    ProbeFindsAsLookup(s, Home(hash, |s|), key, 0);
    HoldsIff(s, key);
    match Probe(s, key, Home(hash, |s|)(key), 0)
    case Shift(p, _) => HoleIsShift(s, p);
    case _ =>
  }

  lemma DataStored<V>(s: Table<V>, hash: nat -> nat, occupancy: nat, insRmCount: int, i: nat, data: V)
    requires TableOk(s, hash, occupancy, insRmCount) && i < |Live(s, occupancy)| && s[i].Valid()
    ensures var t := s[i := s[i].(data := data)];
      && TableOk(t, hash, occupancy, insRmCount) && (Sound(s) ==> Sound(t)) && (Roomy(s) ==> Roomy(t))
      && MapOf(t, occupancy) == MapOf(s, occupancy)[s[i].key := data]
  {
    if Linear(s) {
      LinearReplaced(s, hash, occupancy, insRmCount, i, s[i].(data := data));
    } else {
      OverwriteContents(s, Home(hash, |s|), i, data);
      OverwriteCounts(s, i, data);
    }
  }

  lemma FullLive<V>(s: Table<V>, hash: nat -> nat, occupancy: nat, insRmCount: int)
    requires TableOk(s, hash, occupancy, insRmCount)
    ensures occupancy == |Entries(Live(s, occupancy))| <= 15 * |s| / 16 + 1
  {
    if Linear(s) {
      assert Entries(Live(s, occupancy)) == Below(occupancy);
    }
  }
}
