/** How many slots of a table hold an entry, and how many are not empty; the load
    policy that decides when a table is rebuilt. */
module TableCounts {
  import opened Counting
  import opened ProbeOrder
  import opened ProbeInsert
  import opened ProbeShift

  const LOAD_FACTOR: nat := 16
  const MIN_CAPACITY: nat := 4
  const MIN_HT_CAPACITY: nat := 8
  const MAX_CAPACITY: nat := 0x7fff_ffff / 15
  const MIN_REBUILD_OP_COUNT: nat := 8
  const GRAVEYARD_GAP: nat := 32

  // ---------------------------------------------------------------------
  // The load policy
  // ---------------------------------------------------------------------

  predicate Overloaded(occupancy: int, capacity: int) {
    occupancy > (LOAD_FACTOR - 1) * capacity / LOAD_FACTOR
  }

  predicate Underloaded(occupancy: int, capacity: int) {
    capacity > MIN_CAPACITY && occupancy <= (LOAD_FACTOR / 2 - 1) * capacity / LOAD_FACTOR
  }

  predicate TimeToRebuild(insRmCount: int, capacity: int) {
    insRmCount > MIN_REBUILD_OP_COUNT && insRmCount > capacity / (4 * LOAD_FACTOR)
  }

  /** The thresholds as shares of the capacity, and the bound under which the computation of
      the load fits into 32 bits. */
  lemma LoadThresholds(n: int, capacity: int)
    ensures Overloaded(n, capacity) <==> 16 * n > 15 * capacity
    ensures Underloaded(n, capacity) <==> capacity > 4 && 16 * n <= 7 * capacity
    ensures TimeToRebuild(n, capacity) <==> n > 8 && 64 * n > capacity
    ensures capacity <= MAX_CAPACITY <==> 15 * capacity < 0x8000_0000
  {
  }

  /** The bound that the policy puts on the slots in use: what the load allows,
      the tombstones planted in a fresh array, and the updates since then. */
  function UsedBound(capacity: nat, insRmCount: int): int {
    15 * capacity / 16 + capacity / 33 + insRmCount
  }

  /** From capacity 256 on, the policy rebuilds before the table can fill up. */
  lemma PolicyLeavesRoom(capacity: nat, insRmCount: int)
    requires capacity >= 256 && !TimeToRebuild(insRmCount, capacity)
    ensures UsedBound(capacity, insRmCount) < capacity
  {
  }

  /** A table may shrink to half its size when it is underloaded. */
  lemma UnderloadedFits(occupancy: int, capacity: nat)
    requires Underloaded(occupancy, capacity) && capacity % 2 == 0
    ensures !Overloaded(occupancy, capacity / 2)
  {
  }

  // ---------------------------------------------------------------------
  // Counting slots
  // ---------------------------------------------------------------------

  ghost function Entries<V>(s: Table<V>): set<int> {
    set i | 0 <= i < |s| && s[i].Valid()
  }

  ghost function Used<V>(s: Table<V>): set<int> {
    set i | 0 <= i < |s| && !s[i].Empty()
  }

  ghost function Tombstones<V>(s: Table<V>): int { |Used(s)| - |Entries(s)| }

  lemma EntriesAreUsed<V>(s: Table<V>)
    ensures |Entries(s)| <= |Used(s)| <= |s|
  {
    SubsetSize(Entries(s), Used(s));
    SubsetSize(Used(s), Below(|s|));
  }

  lemma RoomLeft<V>(s: Table<V>)
    requires |Entries(s)| < |s|
    ensures HasRoom(s)
  {
    assert !HasRoom(s) ==> Entries(s) == Below(|s|);
  }

  lemma EmptyLeft<V>(s: Table<V>)
    requires |Used(s)| < |s|
    ensures HasEmpty(s)
  {
    assert !HasEmpty(s) ==> Used(s) == Below(|s|);
  }

  lemma ShiftCounts<V>(s: Table<V>, b: Bucket<V>, p: nat, r: nat)
    requires ShiftsAt(s, p, r) && b.Valid()
    ensures var t, i := ShiftIn(s, b, p, r), Slot(p, r, |s|);
      Entries(t) == Entries(s) + {i} && Used(t) == Used(s) + {i}
  {
    var t, c := ShiftIn(s, b, p, r), |s|;
    var i := Slot(p, r, c);
    forall k | 0 <= k < c
      ensures t[k].Valid() <==> s[k].Valid() || k == i
      ensures !t[k].Empty() <==> !s[k].Empty() || k == i
    {
      ShiftedSlot(s, b, p, r, k);
      assert Dist(p, k, c) == r ==> k == i;
    }
  }

  lemma OverwriteCounts<V>(s: Table<V>, i: nat, data: V)
    requires i < |s|
    ensures var t := s[i := s[i].(data := data)]; Entries(t) == Entries(s) && Used(t) == Used(s)
  {
  }

  /** An insertion fills one slot when the key is new, and none when it is not. */
  lemma InsertedSlots<V>(s: Table<V>, home: nat -> nat, b: Bucket<V>)
    requires Hashed(s, home) && HasRoom(s) && b.Valid() && b.hash == home(b.key) < |s| && KeyVisible(s, b.key, b.hash)
    ensures var t := Inserted(s, b);
      if Holds(s, b.key) then Entries(t) == Entries(s) && Used(t) == Used(s)
      else exists i :: i !in Entries(s) && Entries(t) == Entries(s) + {i} && Used(t) == Used(s) + {i}
  {
    ProbeFindsAsLookup(s, home, b.key, 0);
    match Probe(s, b.key, b.hash, 0)
    case Overwrite(i) =>
      OverwriteCounts(s, i, b.data);
    case Place(i) =>
      assert i !in Entries(s);
    case Shift(p, wrapped) =>
      var r := Hole(s, p, 0);
      HoleIsShift(s, p);
      ShiftCounts(s, b, p, r);
      assert Slot(p, r, |s|) !in Entries(s);
  }

  lemma OneMore(e: set<int>, u: set<int>, f: set<int>, v: set<int>)
    requires exists i :: i !in e && f == e + {i} && v == u + {i}
    ensures |f| == |e| + 1 && |u| <= |v| <= |u| + 1
  {
    var i :| i !in e && f == e + {i} && v == u + {i};
    assert if i in u then v == u else |v| == |u| + 1;
  }

  /** An insertion adds an entry exactly when the key is new; it uses at most one
      more slot, and it never makes a tombstone. */
  lemma InsertedCounts<V>(s: Table<V>, home: nat -> nat, b: Bucket<V>)
    requires Hashed(s, home) && HasRoom(s) && b.Valid() && b.hash == home(b.key) < |s| && KeyVisible(s, b.key, b.hash)
    ensures var t, added := Inserted(s, b), if Holds(s, b.key) then 0 else 1;
      && |Entries(t)| == |Entries(s)| + added
      && |Used(s)| <= |Used(t)| <= |Used(s)| + added
      && Tombstones(t) <= Tombstones(s)
  {
    InsertedSlots(s, home, b);
    if !Holds(s, b.key) {
      OneMore(Entries(s), Used(s), Entries(Inserted(s, b)), Used(Inserted(s, b)));
    }
  }

  ghost function KeyAt<V>(s: Table<V>): int -> nat {
    i => if 0 <= i < |s| then s[i].key else 0
  }

  ghost function Keys<V>(s: Table<V>): set<nat> { Image(Entries(s), KeyAt(s)) }

  lemma KeysAre<V>(s: Table<V>, key: nat)
    requires Unique(s)
    ensures key in Keys(s) <==> key in Contents(s)
  {
    if key in Contents(s) {
      var i := ContentsKey(s, key);
      assert i in Entries(s) && KeyAt(s)(i) == key;
    }
    if key in Keys(s) {
      var i :| i in Entries(s) && KeyAt(s)(i) == key;
      ContentsAt(s, i);
    }
  }

  /** The entries of a table are as many as the keys of its map. */
  lemma EntriesAreKeys<V>(s: Table<V>)
    requires Unique(s)
    ensures |Entries(s)| == |Contents(s)|
  {
    InjectionSize(Entries(s), KeyAt(s));
    forall key
      ensures key in Keys(s) <==> key in Contents(s).Keys
    {
      KeysAre(s, key);
    }
    assert Contents(s).Keys == Keys(s);
    assert |Contents(s)| == |Contents(s).Keys|;
  }

  /** Contents and Holds speak of the same keys. */
  lemma HoldsIff<V>(s: Table<V>, key: nat)
    requires Unique(s)
    ensures Holds(s, key) <==> key in Contents(s)
  {
    if key in Contents(s) {
      var i := ContentsKey(s, key);
    }
  }
}
