/** Exactly when shifting entries to make room keeps the probe invariant. */
module ProbeShift {
  import opened ProbeOrder
  import opened ProbeInsert

  /** The first slot at or after `p` that is no tombstone. */
  function First<V>(s: Table<V>, p: nat): int
    requires p < |s|
  {
    var n := TombEnd(s, p, 0);
    if n < |s| then Slot(p, n, |s|) else p
  }

  /** No moved entry sits in the slot just before its home, and a probe that went
      all the way round comes back to an entry that is at home. */
  ghost predicate ShiftSafe<V>(s: Table<V>, p: nat, r: nat, wrapped: bool)
    requires p < |s|
  {
    && (forall k | 0 <= k < |s| && Dist(p, k, |s|) < r :: s[k].hash != Next(k, |s|))
    && (wrapped ==> s[First(s, p)].hash == p)
  }

  /** The setting of a shift: the probe for `b` ended with Shift(p, wrapped). */
  ghost predicate Shifting<V>(s: Table<V>, home: nat -> nat, b: Bucket<V>, p: nat, r: nat, wrapped: bool) {
    && Good(s, home) && b.Valid() && b.hash == home(b.key) < |s|
    && ShiftsAt(s, p, r) && OutcomeOk(s, b.key, b.hash, Shift(p, wrapped))
  }

  lemma DistPrev(h: int, k: int, c: int)
    requires 0 <= h < c && 0 <= k < c && h != k
    ensures Dist(h, Prev(k, c), c) == Dist(h, k, c) - 1 && Next(Prev(k, c), c) == k
  {
  }

  // ---------------------------------------------------------------------
  // A safe shift keeps the order
  // ---------------------------------------------------------------------

  /** The slots that a probe for the new entry crosses. */
  lemma NewEntryPasses<V>(s: Table<V>, home: nat -> nat, b: Bucket<V>, p: nat, r: nat, wrapped: bool, k: int)
    requires Shifting(s, home, b, p, r, wrapped) && ShiftSafe(s, p, r, wrapped)
    requires 0 <= k < |s| && Dist(b.hash, k, |s|) < Dist(b.hash, p, |s|)
    ensures Passable(ShiftIn(s, b, p, r), p, k)
  {
    var c, tgt := |s|, b.hash;
    ShiftedSlot(s, b, p, r, k);
    ShiftedSlot(s, b, p, r, p);
    if Dist(p, k, c) <= r && k != tgt {
      var j := Prev(k, c);
      DistPrev(tgt, k, c);
    }
  }

  /** An old entry whose way crosses the new entry's slot. */
  lemma CrossesNewEntry<V>(s: Table<V>, home: nat -> nat, b: Bucket<V>, p: nat, r: nat, wrapped: bool, j: int)
    requires Shifting(s, home, b, p, r, wrapped) && ShiftSafe(s, p, r, wrapped)
    requires 0 <= j < |s| && s[j].Valid() && (Before(s, j, p) || (j == p && r > 0))
    ensures Dist(s[j].hash, p, |s|) <= Dist(b.hash, p, |s|)
  {
    var c := |s|;
    assert Before(s, j, p) ==> Passable(s, j, p);
    if wrapped && r == 0 {
      var e := First(s, p);
      if j != e {
        assert Dist(p, j, c) >= Dist(p, e, c);
        assert Before(s, j, e) && Passable(s, j, e);
      }
    }
  }

  /** A slot with a moved entry, on the way of the old entry at `j`. */
  lemma CrossesMoved<V>(s: Table<V>, home: nat -> nat, b: Bucket<V>, p: nat, r: nat, wrapped: bool, j: int, k: int)
    requires Shifting(s, home, b, p, r, wrapped) && ShiftSafe(s, p, r, wrapped)
    requires 0 <= j < |s| && s[j].Valid() && 0 <= k < |s| && 1 <= Dist(p, k, |s|) <= r
    requires s[j].hash == k || Before(s, j, Prev(k, |s|))
    ensures Dist(s[j].hash, k, |s|) <= Dist(s[Prev(k, |s|)].hash, k, |s|)
  {
    var c, h := |s|, s[j].hash;
    if h != k {
      var l := Prev(k, c);
      ShiftedSlot(s, b, p, r, k);
      assert Passable(s, j, l);
      DistPrev(h, k, c);
    }
  }

  lemma OldEntryPasses<V>(s: Table<V>, home: nat -> nat, b: Bucket<V>, p: nat, r: nat, wrapped: bool, i: int, k: int)
    requires Shifting(s, home, b, p, r, wrapped) && ShiftSafe(s, p, r, wrapped)
    requires var t := ShiftIn(s, b, p, r);
      0 <= i < |s| && i != p && t[i].Valid() && 0 <= k < |s| && Before(t, i, k)
    ensures Passable(ShiftIn(s, b, p, r), i, k)
  {
    var c := |s|;
    ShiftedSlot(s, b, p, r, i);
    ShiftedSlot(s, b, p, r, k);
    ShiftedSlot(s, b, p, r, p);
    var moved := Dist(p, i, c) <= r;
    var j := if moved then Prev(i, c) else i;
    var h := s[j].hash;
    if k == p {
      assert Before(s, j, p) || j == p;
      CrossesNewEntry(s, home, b, p, r, wrapped, j);
    } else if Dist(p, k, c) > r {
      assert Before(s, j, k) && Passable(s, j, k);
    } else {
      if h != k {
        DistPrev(h, k, c);
      }
      CrossesMoved(s, home, b, p, r, wrapped, j, k);
    }
  }

  lemma SafeShiftKeepsOrder<V>(s: Table<V>, home: nat -> nat, b: Bucket<V>, p: nat, r: nat, wrapped: bool)
    requires Shifting(s, home, b, p, r, wrapped) && ShiftSafe(s, p, r, wrapped)
    ensures Ordered(ShiftIn(s, b, p, r))
  {
    var t := ShiftIn(s, b, p, r);
    ShiftedSlot(s, b, p, r, p);
    forall i, k | 0 <= i < |t| && 0 <= k < |t| && t[i].Valid() && Before(t, i, k)
      ensures Passable(t, i, k)
    {
      if i == p {
        NewEntryPasses(s, home, b, p, r, wrapped, k);
      } else {
        OldEntryPasses(s, home, b, p, r, wrapped, i, k);
      }
    }
  }

  // ---------------------------------------------------------------------
  // An unsafe shift breaks it
  // ---------------------------------------------------------------------

  /** An entry moved from just before its home into its home stops a probe that
      must go past it. */
  lemma PastHomeBreaksOrder<V>(s: Table<V>, home: nat -> nat, b: Bucket<V>, p: nat, r: nat, wrapped: bool, j: int)
    requires Shifting(s, home, b, p, r, wrapped)
    requires 0 <= j < |s| && Dist(p, j, |s|) < r && s[j].hash == Next(j, |s|)
    ensures !Ordered(ShiftIn(s, b, p, r))
  {
    var c, tgt := |s|, b.hash;
    var t := ShiftIn(s, b, p, r);
    var z := Next(j, c);
    ShiftedEntry(s, b, p, r, j);
    if wrapped {
      var y := Slot(tgt, c - 1, c);
      assert s[y].hash == tgt;
      ShiftedEntry(s, b, p, r, y);
      assert t[y] == s[y] && Before(t, y, z) && !Passable(t, y, z);
    } else {
      assert j != p;
      assert Before(s, j, p) && Passable(s, j, p);
      ShiftedSlot(s, b, p, r, p);
      assert Before(t, p, z) && !Passable(t, p, z);
    }
  }

  lemma WrapBreaksOrder<V>(s: Table<V>, home: nat -> nat, b: Bucket<V>, p: nat, r: nat)
    requires Shifting(s, home, b, p, r, true) && s[First(s, p)].hash != p
    requires r > 0 ==> s[p].hash != Next(p, |s|)
    ensures !Ordered(ShiftIn(s, b, p, r))
  {
    var c := |s|;
    var t := ShiftIn(s, b, p, r);
    ShiftedSlot(s, b, p, r, p);
    if r > 0 {
      ShiftedEntry(s, b, p, r, p);
      assert First(s, p) == p;
      assert Before(t, Next(p, c), p) && !Passable(t, Next(p, c), p);
    } else {
      var y := Slot(p, c - 1, c);
      var n := TombEnd(s, p, 0);
      assert n <= c - 1;
      var e := First(s, p);
      ShiftedEntry(s, b, p, r, e);
      assert Before(t, e, p) && !Passable(t, e, p);
    }
  }

  /** The exact condition: the shift keeps the probe invariant if and only if it
      is safe. */
  lemma ShiftKeepsOrderIff<V>(s: Table<V>, home: nat -> nat, b: Bucket<V>, p: nat, r: nat, wrapped: bool)
    requires Shifting(s, home, b, p, r, wrapped)
    ensures Ordered(ShiftIn(s, b, p, r)) <==> ShiftSafe(s, p, r, wrapped)
  {
    if ShiftSafe(s, p, r, wrapped) {
      SafeShiftKeepsOrder(s, home, b, p, r, wrapped);
    } else if j :| 0 <= j < |s| && Dist(p, j, |s|) < r && s[j].hash == Next(j, |s|) {
      PastHomeBreaksOrder(s, home, b, p, r, wrapped, j);
    } else {
      WrapBreaksOrder(s, home, b, p, r);
    }
  }

  /** With an empty slot the probe cannot wrap, and no entry can sit in the slot
      just before its home. */
  lemma EmptySlotIsSafe<V>(s: Table<V>, home: nat -> nat, b: Bucket<V>, p: nat, r: nat, wrapped: bool, e: nat)
    requires Shifting(s, home, b, p, r, wrapped) && e < |s| && s[e].Empty()
    ensures ShiftSafe(s, p, r, wrapped)
  {
    forall k | 0 <= k < |s| && Dist(p, k, |s|) < r
      ensures s[k].hash != Next(k, |s|)
    {
      assert Before(s, k, e) ==> Passable(s, k, e);
    }
  }

  // ---------------------------------------------------------------------
  // Insertion
  // ---------------------------------------------------------------------

  /** Checked before the insertion of `b`: either no entry has to move, or the
      move is safe. */
  ghost predicate InsertSafe<V>(s: Table<V>, b: Bucket<V>)
    requires b.hash < |s|
  {
    match Probe(s, b.key, b.hash, 0)
    case Shift(p, wrapped) => p < |s| ==> ShiftSafe(s, p, Hole(s, p, 0), wrapped)
    case _ => true
  }

  ghost predicate HasRoom<V>(s: Table<V>) { exists i :: 0 <= i < |s| && !s[i].Valid() }
  ghost predicate HasEmpty<V>(s: Table<V>) { exists i :: 0 <= i < |s| && s[i].Empty() }

  lemma HoleIsShift<V>(s: Table<V>, p: nat)
    requires HasRoom(s) && p < |s|
    ensures ShiftsAt(s, p, Hole(s, p, 0))
  {
    var i :| 0 <= i < |s| && !s[i].Valid();
    assert Dist(p, i, |s|) < |s|;
  }

  lemma {:induction false} LookupSkips<V>(s: Table<V>, key: nat, tgt: nat, m: nat, n: nat)
    requires tgt < |s| && m <= n <= |s| && key != KEY_DELETED
    requires forall k | 0 <= k < |s| && m <= Dist(tgt, k, |s|) < n :: s[k].Tombstone()
    ensures Lookup(s, key, tgt, m) == Lookup(s, key, tgt, n)
    decreases n - m
  {
    if m < n {
      DistSlot(tgt, m, |s|);
      LookupSkips(s, key, tgt, m + 1, n);
    }
  }

  /** How the probe of an insertion ends and how the lookup of the key ends, in any table. */
  ghost predicate EndsAlike<V>(s: Table<V>, key: nat, o: Outcome, i: int) {
    match o
    case Overwrite(j) => j < |s| && s[j].key == key && i == j
    case Place(j) => j < |s| && !s[j].Valid() && i == -1
    case Shift(p, _) => p < |s| && i == -1
  }

  /** The probe of an insertion finds the key exactly when a lookup does. */
  lemma {:induction false} ProbeFindsAsLookup<V>(s: Table<V>, home: nat -> nat, key: nat, m: nat)
    requires Hashed(s, home) && home(key) < |s| && m <= |s| && key != KEY_EMPTY && key != KEY_DELETED
    ensures EndsAlike(s, key, Probe(s, key, home(key), m), Lookup(s, key, home(key), m))
    decreases |s| - m
  {
    var tgt := home(key);
    if m < |s| {
      var i := Slot(tgt, m, |s|);
      if s[i].key == key || s[i].Empty() {
      } else if s[i].Tombstone() {
        var n := TombEnd(s, tgt, m + 1);
        LookupSkips(s, key, tgt, m + 1, n);
        assert Lookup(s, key, tgt, m) == Lookup(s, key, tgt, n);
        if n < |s| {
          StopsAlike(s, home, key, n);
          ProbeFindsAsLookup(s, home, key, n);
        }
      } else {
        ProbeFindsAsLookup(s, home, key, m + 1);
      }
    }
  }

  /** A slot that ends a run of tombstones for the insertion ends the lookup. */
  lemma StopsAlike<V>(s: Table<V>, home: nat -> nat, key: nat, n: nat)
    requires Hashed(s, home) && home(key) < |s| && n < |s| && key != KEY_EMPTY && key != KEY_DELETED
    ensures var e := Slot(home(key), n, |s|);
      0 <= e < |s|
      && (s[e].Empty() || (s[e].Valid() && Dist(home(key), e, |s|) > Dist(s[e].hash, e, |s|)) ==> Lookup(s, key, home(key), n) == -1)
  {
    DistSlot(home(key), n, |s|);
    var e := Slot(home(key), n, |s|);
    assert s[e].Valid() ==> s[e].hash == home(s[e].key);
  }

  /** A key that is in the table is found. */
  ghost predicate KeyVisible<V>(s: Table<V>, key: nat, tgt: nat)
    requires tgt < |s|
  {
    Holds(s, key) ==> Lookup(s, key, tgt, 0) != -1
  }

  lemma GoodKeyVisible<V>(s: Table<V>, home: nat -> nat, key: nat)
    requires Good(s, home) && home(key) < |s| && key != KEY_EMPTY && key != KEY_DELETED
    ensures KeyVisible(s, key, home(key))
  {
    LookupIff(s, home, key);
    if Holds(s, key) {
      var i :| 0 <= i < |s| && s[i].Valid() && s[i].key == key;
      ContentsAt(s, i);
    }
  }

  /** What the insertion does when the key, if it is in the table, is found. */
  lemma VisibleInsertion<V>(s: Table<V>, home: nat -> nat, b: Bucket<V>)
    requires Hashed(s, home) && Unique(s) && HasRoom(s) && b.Valid() && b.hash == home(b.key) < |s|
    requires KeyVisible(s, b.key, b.hash)
    ensures var t := Inserted(s, b); Hashed(t, home) && Unique(t) && Contents(t) == Contents(s)[b.key := b.data]
  {
    ProbeFindsAsLookup(s, home, b.key, 0);
    match Probe(s, b.key, b.hash, 0)
    case Overwrite(i) =>
      OverwriteContents(s, home, i, b.data);
    case Place(i) =>
      PlaceAdds(s, home, b, i);
      AddsContents(s, s[i := b], b);
    case Shift(p, wrapped) =>
      var r := Hole(s, p, 0);
      HoleIsShift(s, p);
      ShiftHashed(s, home, b, p, r);
      ShiftUnique(s, b, p, r);
      ShiftAdds(s, b, p, r);
      AddsContents(s, ShiftIn(s, b, p, r), b);
  }

  /** A key that is in the table without being found gets a second bucket. */
  lemma HiddenInsertion<V>(s: Table<V>, home: nat -> nat, b: Bucket<V>)
    requires Hashed(s, home) && HasRoom(s) && b.Valid() && b.hash == home(b.key) < |s|
    requires !KeyVisible(s, b.key, b.hash)
    ensures !Unique(Inserted(s, b))
  {
    ProbeFindsAsLookup(s, home, b.key, 0);
    var t := Inserted(s, b);
    var i :| 0 <= i < |s| && s[i].Valid() && s[i].key == b.key;
    match Probe(s, b.key, b.hash, 0)
    case Place(j) =>
      assert t[j] == b && t[i] == s[i];
    case Shift(p, wrapped) =>
      var r := Hole(s, p, 0);
      HoleIsShift(s, p);
      ShiftedEntry(s, b, p, r, i);
      ShiftedSlot(s, b, p, r, p);
      assert t[p] == b;
  }

  /** The exact condition: in any table the insertion sets the key in the abstract map, and
      nothing else, if and only if the key is absent or found. */
  lemma InsertionSetsKeyIff<V>(s: Table<V>, home: nat -> nat, b: Bucket<V>)
    requires Hashed(s, home) && Unique(s) && HasRoom(s) && b.Valid() && b.hash == home(b.key) < |s|
    ensures var t := Inserted(s, b);
      (Unique(t) && Contents(t) == Contents(s)[b.key := b.data]) <==> KeyVisible(s, b.key, b.hash)
  {
    if KeyVisible(s, b.key, b.hash) {
      VisibleInsertion(s, home, b);
    } else {
      HiddenInsertion(s, home, b);
    }
  }

  /** Hash-mode insertion keeps the probe invariant exactly when it is safe. */
  lemma InsertedOrder<V>(s: Table<V>, home: nat -> nat, b: Bucket<V>)
    requires Good(s, home) && HasRoom(s) && b.Valid() && b.hash == home(b.key) < |s|
    ensures Ordered(Inserted(s, b)) <==> InsertSafe(s, b)
  {
    ProbeOutcome(s, home, b.key, 0);
    match Probe(s, b.key, b.hash, 0)
    case Overwrite(i) =>
      OverwriteContents(s, home, i, b.data);
    case Place(i) =>
      PlaceKeepsOrder(s, home, b, i);
    case Shift(p, wrapped) =>
      HoleIsShift(s, p);
      ShiftKeepsOrderIff(s, home, b, p, Hole(s, p, 0), wrapped);
  }

  /** With at least one empty slot every insertion is safe. */
  lemma EmptySlotSuffices<V>(s: Table<V>, home: nat -> nat, b: Bucket<V>)
    requires Good(s, home) && HasEmpty(s) && b.Valid() && b.hash == home(b.key) < |s|
    ensures InsertSafe(s, b)
  {
    ProbeOutcome(s, home, b.key, 0);
    match Probe(s, b.key, b.hash, 0)
    case Shift(p, wrapped) =>
      var e :| 0 <= e < |s| && s[e].Empty();
      HoleIsShift(s, p);
      EmptySlotIsSafe(s, home, b, p, Hole(s, p, 0), wrapped, e);
    case _ =>
  }
}
