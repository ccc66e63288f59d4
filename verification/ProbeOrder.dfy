/** Ordered linear probing on a circular array, as values: the probe invariant,
    lookup, and the table that an insertion makes. */
module ProbeOrder {
  const KEY_EMPTY: nat := 0
  const KEY_DELETED: nat := 0xFFFF_FFFF_FFFF_FFFF
  const WORD: int := 0x1_0000_0000

  datatype Bucket<V> = Bucket(key: nat, hash: nat, data: V) {
    predicate Empty() { key == KEY_EMPTY }
    predicate Tombstone() { key == KEY_DELETED }
    predicate Valid() { !Empty() && !Tombstone() }
  }

  type Table<V> = seq<Bucket<V>>

  // ---------------------------------------------------------------------
  // Circular distance
  // ---------------------------------------------------------------------

  /** How many increments lead from index `a` to index `b` in a buffer of size `c`. */
  function Dist(a: int, b: int, c: int): int {
    if a <= b then b - a else b - a + c
  }

  /** The index `m` increments after `a`. */
  function Slot(a: int, m: int, c: int): int {
    if a + m < c then a + m else a + m - c
  }

  /** The unsigned 32-bit comparison of the source. */
  predicate ContinueProbe(tgt: nat, hash: nat, idx: nat) {
    (idx - tgt) % WORD <= (idx - hash) % WORD
  }

  lemma ModWord(x: int)
    requires -WORD < x < WORD
    ensures x % WORD == if x >= 0 then x else x + WORD
  {
  }

  /** The bit trick compares circular distances, for every target, hash and index
      in the table, whether the probe or the run wraps or not. */
  lemma ContinueProbeComparesDistances(tgt: nat, hash: nat, idx: nat, c: nat)
    requires tgt < c && hash < c && idx < c <= WORD
    ensures ContinueProbe(tgt, hash, idx) <==> Dist(tgt, idx, c) <= Dist(hash, idx, c)
  {
    ModWord(idx - tgt);
    ModWord(idx - hash);
  }

  // ---------------------------------------------------------------------
  // The probe invariant
  // ---------------------------------------------------------------------

  ghost predicate Hashed<V>(s: Table<V>, home: nat -> nat) {
    forall i | 0 <= i < |s| && s[i].Valid() :: s[i].hash == home(s[i].key) && s[i].hash < |s|
  }

  ghost predicate Unique<V>(s: Table<V>) {
    forall i, j | 0 <= i < |s| && 0 <= j < |s| && s[i].Valid() && s[j].Valid() && s[i].key == s[j].key :: i == j
  }

  /** Slot `k` lets a probe for the entry at `i` go on. */
  predicate Passable<V>(s: Table<V>, i: int, k: int)
    requires 0 <= i < |s| && 0 <= k < |s|
  {
    !s[k].Empty() && (s[k].Valid() ==> Dist(s[i].hash, k, |s|) <= Dist(s[k].hash, k, |s|))
  }

  predicate Before<V>(s: Table<V>, i: int, k: int)
    requires 0 <= i < |s|
  {
    Dist(s[i].hash, k, |s|) < Dist(s[i].hash, i, |s|)
  }

  /** From the home slot of every entry up to the entry itself, no slot is empty
      and no entry stops the probe. */
  ghost predicate Ordered<V>(s: Table<V>) {
    forall i, k {:trigger Passable(s, i, k)} | 0 <= i < |s| && 0 <= k < |s| && s[i].Valid() && Before(s, i, k) :: Passable(s, i, k)
  }

  ghost predicate Good<V>(s: Table<V>, home: nat -> nat) {
    0 < |s| <= WORD && Hashed(s, home) && Unique(s) && Ordered(s)
  }

  ghost predicate Holds<V>(s: Table<V>, key: nat) {
    exists i :: 0 <= i < |s| && s[i].Valid() && s[i].key == key
  }

  ghost function IndexOf<V>(s: Table<V>, key: nat): (i: nat)
    requires Holds(s, key)
    ensures i < |s| && s[i].Valid() && s[i].key == key
  {
    var i :| 0 <= i < |s| && s[i].Valid() && s[i].key == key;
    i
  }

  ghost function KeysIn<V>(s: Table<V>): (keys: set<nat>)
    ensures forall key: nat :: key in keys <==> Holds(s, key)
  {
    set i | 0 <= i < |s| && s[i].Valid() :: s[i].key
  }

  /** The abstract map from keys to data. */
  ghost function Contents<V>(s: Table<V>): map<nat, V>
    requires Unique(s)
  {
    map key | key in KeysIn(s) :: s[IndexOf(s, key)].data
  }

  // ---------------------------------------------------------------------
  // Probing
  // ---------------------------------------------------------------------

  /** A probe for `key` from `tgt` has gone past the first `m` slots. */
  ghost predicate Passed<V>(s: Table<V>, key: nat, tgt: nat, m: nat)
    requires tgt < |s| && m <= |s|
  {
    forall k | 0 <= k < |s| && Dist(tgt, k, |s|) < m ::
      && !s[k].Empty() && s[k].key != key
      && (s[k].Valid() ==> Dist(tgt, k, |s|) <= Dist(s[k].hash, k, |s|))
  }

  /** Slot `p`, at distance `m` from `tgt`, shows that `key` cannot come later. */
  ghost predicate Stops<V>(s: Table<V>, key: nat, tgt: nat, m: nat)
    requires tgt < |s| && m <= |s|
  {
    m < |s| ==>
      var p := Slot(tgt, m, |s|);
      || s[p].Empty()
      || (s[p].Valid() && s[p].key != key && Dist(tgt, p, |s|) > Dist(s[p].hash, p, |s|))
  }

  /** A probe that passes every slot up to an empty one, or up to an entry that
      orders after its target, has shown that the key is absent. */
  lemma ProbeFails<V>(s: Table<V>, home: nat -> nat, key: nat, m: nat)
    requires Good(s, home) && home(key) < |s| && m <= |s|
    requires Passed(s, key, home(key), m) && Stops(s, key, home(key), m)
    ensures !Holds(s, key)
  {
    var tgt := home(key);
    forall i | 0 <= i < |s| && s[i].Valid()
      ensures s[i].key != key
    {
      var p := Slot(tgt, m, |s|);
      assert m < |s| && s[i].hash == tgt && Before(s, i, p) ==> Passable(s, i, p);
    }
  }

  datatype Outcome = Overwrite(at: nat) | Place(at: nat) | Shift(at: nat, wrapped: bool)

  /** The distance from `tgt` of the first slot, at distance `m` or more, that is
      no tombstone; |s| if there is none. */
  function TombEnd<V>(s: Table<V>, tgt: nat, m: nat): (r: nat)
    requires tgt < |s| && m <= |s|
    ensures m <= r <= |s|
    ensures forall k | 0 <= k < |s| && m <= Dist(tgt, k, |s|) < r :: s[k].Tombstone()
    ensures r < |s| ==> !s[Slot(tgt, r, |s|)].Tombstone()
    decreases |s| - m
  {
    if m == |s| || !s[Slot(tgt, m, |s|)].Tombstone() then m else TombEnd(s, tgt, m + 1)
  }

  /** Where the insertion probe for `key` ends, having passed `m` slots. */
  function Probe<V>(s: Table<V>, key: nat, tgt: nat, m: nat): Outcome
    requires tgt < |s| && m <= |s|
    decreases |s| - m
  {
    if m == |s| then Shift(tgt, true) else
    var i := Slot(tgt, m, |s|);
    if s[i].key == key then Overwrite(i)
    else if s[i].Empty() then Place(i)
    else if s[i].Tombstone() then
      var n := TombEnd(s, tgt, m + 1);
      if n == |s| then Place(i) else
      var e := Slot(tgt, n, |s|);
      if s[e].Empty() || Dist(tgt, e, |s|) > Dist(s[e].hash, e, |s|) then Place(i)
      else Probe(s, key, tgt, n)
    else if Dist(tgt, i, |s|) <= Dist(s[i].hash, i, |s|) then Probe(s, key, tgt, m + 1)
    else Shift(i, false)
  }

  /** How far after `p` the first slot without an entry is; |s| if there is none. */
  function Hole<V>(s: Table<V>, p: nat, m: nat): (r: nat)
    requires p < |s| && m <= |s|
    ensures m <= r <= |s|
    ensures forall k | 0 <= k < |s| && m <= Dist(p, k, |s|) < r :: s[k].Valid()
    ensures r < |s| ==> !s[Slot(p, r, |s|)].Valid()
    decreases |s| - m
  {
    if m == |s| || !s[Slot(p, m, |s|)].Valid() then m else Hole(s, p, m + 1)
  }

  /** `b` at `p`, with the `r` entries from `p` on moved up by one slot. */
  function ShiftIn<V>(s: Table<V>, b: Bucket<V>, p: nat, r: nat): (t: Table<V>)
    requires p < |s| && r < |s|
    ensures |t| == |s|
  {
    seq(|s|, k requires 0 <= k < |s| =>
      if k == p then b
      else if Dist(p, k, |s|) <= r then s[if k == 0 then |s| - 1 else k - 1]
      else s[k])
  }

  /** The table after the hash-mode insertion of `b`, with b.hash its home. */
  function Inserted<V>(s: Table<V>, b: Bucket<V>): (t: Table<V>)
    requires b.hash < |s|
    ensures |t| == |s|
  {
    match Probe(s, b.key, b.hash, 0)
    case Overwrite(i) => if i < |s| then s[i := s[i].(data := b.data)] else s
    case Place(i) => if i < |s| then s[i := b] else s
    case Shift(p, _) => if p < |s| && Hole(s, p, 0) < |s| then ShiftIn(s, b, p, Hole(s, p, 0)) else s
  }

  // ---------------------------------------------------------------------
  // What the probe finds
  // ---------------------------------------------------------------------

  /** No entry whose probe crosses slot `i` is homed before `tgt`. */
  ghost predicate Fits<V>(s: Table<V>, tgt: nat, i: int)
    requires 0 <= i < |s|
  {
    forall j | 0 <= j < |s| && s[j].Valid() && Before(s, j, i) :: Dist(s[j].hash, i, |s|) <= Dist(tgt, i, |s|)
  }

  /** What is known when the insertion probe for `key` ends. */
  ghost predicate OutcomeOk<V>(s: Table<V>, key: nat, tgt: nat, o: Outcome)
    requires tgt < |s|
  {
    match o
    case Overwrite(i) => i < |s| && s[i].key == key
    case Place(i) =>
      i < |s| && !s[i].Valid() && Passed(s, key, tgt, Dist(tgt, i, |s|)) && Fits(s, tgt, i) && !Holds(s, key)
    case Shift(p, wrapped) =>
      && p < |s| && !Holds(s, key)
      && if wrapped
         then p == tgt && Passed(s, key, tgt, |s|) && s[Slot(tgt, |s| - 1, |s|)].Valid()
         else s[p].Valid() && Passed(s, key, tgt, Dist(tgt, p, |s|)) && Dist(tgt, p, |s|) > Dist(s[p].hash, p, |s|)
  }

  /** If slot `i` lies on the way from `h` to `j`, the distances add up. */
  lemma DistSplit(h: int, i: int, j: int, c: int)
    requires 0 <= h < c && 0 <= i < c && 0 <= j < c && Dist(h, i, c) <= Dist(h, j, c)
    ensures Dist(h, j, c) == Dist(h, i, c) + Dist(i, j, c)
  {
  }

  lemma DistSlot(a: int, m: int, c: int)
    requires 0 <= a < c && 0 <= m < c
    ensures 0 <= Slot(a, m, c) < c && Dist(a, Slot(a, m, c), c) == m
  {
  }

  /** Tombstones at distances m .. n are passed. */
  lemma PassTombstones<V>(s: Table<V>, key: nat, tgt: nat, m: nat, n: nat)
    requires tgt < |s| && m <= n <= |s| && key != KEY_DELETED
    requires Passed(s, key, tgt, m)
    requires forall k | 0 <= k < |s| && m <= Dist(tgt, k, |s|) < n :: s[k].Tombstone()
    ensures Passed(s, key, tgt, n)
  {
  }

  /** The tombstone at distance `m` fits: every slot after it up to distance `n`
      is a tombstone, and the slot there, if any, stops the probe. */
  lemma TombstoneFits<V>(s: Table<V>, home: nat -> nat, tgt: nat, m: nat, n: nat, j: int)
    requires Good(s, home) && tgt < |s| && m < n <= |s|
    requires forall k | 0 <= k < |s| && Dist(tgt, k, |s|) < m && s[k].Valid() :: Dist(tgt, k, |s|) <= Dist(s[k].hash, k, |s|)
    requires forall k | 0 <= k < |s| && m <= Dist(tgt, k, |s|) < n :: s[k].Tombstone()
    requires n < |s| ==> var e := Slot(tgt, n, |s|); s[e].Empty() || (s[e].Valid() && Dist(tgt, e, |s|) > Dist(s[e].hash, e, |s|))
    requires 0 <= j < |s| && s[j].Valid() && Before(s, j, Slot(tgt, m, |s|))
    ensures Dist(s[j].hash, Slot(tgt, m, |s|), |s|) <= m
  {
    var c, h := |s|, s[j].hash;
    var i := Slot(tgt, m, c);
    DistSlot(tgt, m, c);
    DistSplit(h, i, j, c);
    if Dist(tgt, j, c) < m {
      assert Dist(tgt, j, c) <= Dist(h, j, c);
    } else {
      assert Dist(tgt, j, c) >= n;
      var e := Slot(tgt, n, c);
      DistSlot(tgt, n, c);
      assert Before(s, j, e) ==> Passable(s, j, e);
      DistSplit(tgt, i, e, c);
    }
  }

  /** A tombstone with nothing but tombstones up to a slot that stops the probe. */
  lemma TombstonePlace<V>(s: Table<V>, home: nat -> nat, key: nat, m: nat, n: nat)
    requires Good(s, home) && home(key) < |s| && m < n <= |s| && key != KEY_EMPTY && key != KEY_DELETED
    requires Passed(s, key, home(key), m) && s[Slot(home(key), m, |s|)].Tombstone()
    requires n == TombEnd(s, home(key), m + 1)
    requires n < |s| ==> var e := Slot(home(key), n, |s|); s[e].Empty() || Dist(home(key), e, |s|) > Dist(s[e].hash, e, |s|)
    ensures OutcomeOk(s, key, home(key), Place(Slot(home(key), m, |s|)))
  {
    var tgt, c := home(key), |s|;
    var i := Slot(tgt, m, c);
    DistSlot(tgt, m, c);
    forall k | 0 <= k < c && m <= Dist(tgt, k, c) < n
      ensures s[k].Tombstone()
    {
      assert Dist(tgt, k, c) == m ==> k == i;
    }
    PassTombstones(s, key, tgt, m, n);
    if n < c {
      var e := Slot(tgt, n, c);
      DistSlot(tgt, n, c);
      assert s[e].Valid() ==> s[e].hash == home(s[e].key);
    }
    ProbeFails(s, home, key, n);
    forall j | 0 <= j < c && s[j].Valid() && Before(s, j, i)
      ensures Dist(s[j].hash, i, c) <= Dist(tgt, i, c)
    {
      TombstoneFits(s, home, tgt, m, n, j);
    }
  }

  lemma EmptyPlace<V>(s: Table<V>, home: nat -> nat, key: nat, m: nat)
    requires Good(s, home) && home(key) < |s| && m < |s|
    requires Passed(s, key, home(key), m) && s[Slot(home(key), m, |s|)].Empty()
    ensures OutcomeOk(s, key, home(key), Place(Slot(home(key), m, |s|)))
  {
    var tgt, c := home(key), |s|;
    var i := Slot(tgt, m, c);
    DistSlot(tgt, m, c);
    ProbeFails(s, home, key, m);
    assert forall j | 0 <= j < c && s[j].Valid() && Before(s, j, i) :: Passable(s, j, i);
  }

  lemma PassOne<V>(s: Table<V>, key: nat, tgt: nat, m: nat)
    requires tgt < |s| && m < |s| && Passed(s, key, tgt, m)
    requires var i := Slot(tgt, m, |s|); s[i].Valid() && s[i].key != key && m <= Dist(s[i].hash, i, |s|)
    ensures Passed(s, key, tgt, m + 1)
  {
    DistSlot(tgt, m, |s|);
    assert forall k | 0 <= k < |s| && Dist(tgt, k, |s|) == m :: k == Slot(tgt, m, |s|);
  }

  lemma StopShift<V>(s: Table<V>, home: nat -> nat, key: nat, m: nat)
    requires Good(s, home) && home(key) < |s| && m < |s| && Passed(s, key, home(key), m)
    requires var i := Slot(home(key), m, |s|); s[i].Valid() && s[i].key != key && m > Dist(s[i].hash, i, |s|)
    ensures OutcomeOk(s, key, home(key), Shift(Slot(home(key), m, |s|), false))
  {
    DistSlot(home(key), m, |s|);
    ProbeFails(s, home, key, m);
  }

  lemma WrapShift<V>(s: Table<V>, home: nat -> nat, key: nat)
    requires Good(s, home) && home(key) < |s| && Passed(s, key, home(key), |s|)
    requires s[Slot(home(key), |s| - 1, |s|)].Valid()
    ensures OutcomeOk(s, key, home(key), Shift(home(key), true))
  {
    ProbeFails(s, home, key, |s|);
  }

  lemma {:induction false} ProbeOutcome<V>(s: Table<V>, home: nat -> nat, key: nat, m: nat)
    requires Good(s, home) && home(key) < |s| && m <= |s| && key != KEY_EMPTY && key != KEY_DELETED
    requires Passed(s, key, home(key), m)
    requires m == |s| ==> s[Slot(home(key), |s| - 1, |s|)].Valid()
    ensures OutcomeOk(s, key, home(key), Probe(s, key, home(key), m))
    decreases |s| - m, 1
  {
    var tgt, c := home(key), |s|;
    var o := Probe(s, key, tgt, m);
    if m == c {
      WrapShift(s, home, key);
      return;
    }
    var i := Slot(tgt, m, c);
    DistSlot(tgt, m, c);
    if s[i].key == key {
      assert o == Overwrite(i);
    } else if s[i].Empty() {
      assert o == Place(i);
      EmptyPlace(s, home, key, m);
    } else if s[i].Tombstone() {
      ProbeAtTombstone(s, home, key, m);
    } else if m <= Dist(s[i].hash, i, c) {
      PassOne(s, key, tgt, m);
      ProbeOutcome(s, home, key, m + 1);
      assert o == Probe(s, key, tgt, m + 1);
    } else {
      assert o == Shift(i, false);
      StopShift(s, home, key, m);
    }
  }

  lemma {:induction false} ProbeAtTombstone<V>(s: Table<V>, home: nat -> nat, key: nat, m: nat)
    requires Good(s, home) && home(key) < |s| && m < |s| && key != KEY_EMPTY && key != KEY_DELETED
    requires Passed(s, key, home(key), m) && s[Slot(home(key), m, |s|)].Tombstone()
    ensures OutcomeOk(s, key, home(key), Probe(s, key, home(key), m))
    decreases |s| - m, 0
  {
    var tgt, c := home(key), |s|;
    var n := TombEnd(s, tgt, m + 1);
    var o := Probe(s, key, tgt, m);
    if n < c {
      DistSlot(tgt, n, c);
      var e := Slot(tgt, n, c);
      if s[e].Empty() || n > Dist(s[e].hash, e, c) {
        assert o == Place(Slot(tgt, m, c));
        TombstonePlace(s, home, key, m, n);
      } else {
        assert o == Probe(s, key, tgt, n);
        PassTombstones(s, key, tgt, m, m + 1);
        PassTombstones(s, key, tgt, m + 1, n);
        ProbeOutcome(s, home, key, n);
      }
    } else {
      assert o == Place(Slot(tgt, m, c));
      TombstonePlace(s, home, key, m, n);
    }
  }

  // ---------------------------------------------------------------------
  // Lookup
  // ---------------------------------------------------------------------

  /** The index that the lookup probe for `key` returns after `m` slots; -1 for
      the null pointer. */
  function Lookup<V>(s: Table<V>, key: nat, tgt: nat, m: nat): int
    requires tgt < |s| && m <= |s|
    decreases |s| - m
  {
    if m == |s| then -1 else
    var i := Slot(tgt, m, |s|);
    if s[i].key == key then i
    else if s[i].Empty() then -1
    else if s[i].Tombstone() || Dist(tgt, i, |s|) <= Dist(s[i].hash, i, |s|) then Lookup(s, key, tgt, m + 1)
    else -1
  }

  /** What lies on the way from `tgt` to `i` lets the probe pass. */
  ghost predicate Reachable<V>(s: Table<V>, i: int)
    requires 0 <= i < |s|
  {
    forall k {:trigger Passable(s, i, k)} | 0 <= k < |s| && Before(s, i, k) :: Passable(s, i, k)
  }

  /** A probe that has passed `m` slots finds the entry at `i` if and only if the
      rest of its way is passable. */
  lemma {:induction false} LookupReaches<V>(s: Table<V>, home: nat -> nat, i: nat, m: nat)
    requires Hashed(s, home) && Unique(s) && i < |s| && s[i].Valid() && m <= Dist(s[i].hash, i, |s|)
    requires forall k | 0 <= k < |s| && Dist(s[i].hash, k, |s|) < m :: Passable(s, i, k)
    ensures Lookup(s, s[i].key, s[i].hash, m) == i <==> Reachable(s, i)
    decreases |s| - m
  {
    var tgt, c := s[i].hash, |s|;
    var k := Slot(tgt, m, c);
    DistSlot(tgt, m, c);
    if k != i {
      assert Before(s, i, k);
      if Passable(s, i, k) {
        assert forall l | 0 <= l < c && Dist(tgt, l, c) == m :: l == k;
        LookupReaches(s, home, i, m + 1);
      } else {
        assert Lookup(s, s[i].key, tgt, m) != i;
      }
    }
  }

  /** The probe invariant says no more and no less than that every key in the
      table is found, at its own slot. */
  lemma OrderedIffFound<V>(s: Table<V>, home: nat -> nat)
    requires Hashed(s, home) && Unique(s)
    ensures Ordered(s) <==> forall i | 0 <= i < |s| && s[i].Valid() :: Lookup(s, s[i].key, home(s[i].key), 0) == i
  {
    forall i | 0 <= i < |s| && s[i].Valid()
      ensures Lookup(s, s[i].key, home(s[i].key), 0) == i <==> Reachable(s, i)
    {
      LookupReaches(s, home, i, 0);
    }
    assert Ordered(s) <==> forall i | 0 <= i < |s| && s[i].Valid() :: Reachable(s, i);
  }

  lemma {:induction false} LookupSound<V>(s: Table<V>, key: nat, tgt: nat, m: nat)
    requires tgt < |s| && m <= |s|
    ensures var i := Lookup(s, key, tgt, m); i == -1 || (0 <= i < |s| && s[i].key == key)
    decreases |s| - m
  {
    if m < |s| {
      LookupSound(s, key, tgt, m + 1);
    }
  }

  /** Lookup returns the bucket of a key that is there, and null for one that is not. */
  lemma LookupIff<V>(s: Table<V>, home: nat -> nat, key: nat)
    requires Good(s, home) && home(key) < |s| && key != KEY_EMPTY && key != KEY_DELETED
    ensures var i := Lookup(s, key, home(key), 0);
      && (i == -1 <==> key !in Contents(s))
      && (i != -1 ==> 0 <= i < |s| && s[i].Valid() && s[i].key == key && s[i].data == Contents(s)[key])
  {
    LookupSound(s, key, home(key), 0);
    OrderedIffFound(s, home);
    forall i | 0 <= i < |s| && s[i].Valid() && s[i].key == key
      ensures Lookup(s, key, home(key), 0) == i
    {
    }
  }
}
