/** Tables of capacity 8 without an empty slot, in a history that the policy lets through:
    an insertion loses a key from view, and another gives the lost key a second bucket. */
module FullTable {
  import opened ProbeOrder
  import opened ProbeInsert
  import opened ProbeShift
  import opened TableCounts
  import opened TableContents
  import opened TableState

  const EARLY: nat := 100

  /** Every key hashes to 5 but EARLY, which hashes to 4. */
  function MockHash(key: nat): nat { if key == EARLY then 4 else 5 }

  function Entry(key: nat): Bucket<nat> { Bucket(key, MockHash(key), key) }

  // ---------------------------------------------------------------------
  // Operations, with the rebuilds they lead to
  // ---------------------------------------------------------------------

  datatype Op = Insert(key: nat) | Remove(key: nat)
  datatype Snapshot = Snapshot(buckets: Table<nat>, occupancy: nat, insRmCount: int)

  /** The loop of a rebuild to capacity 8, over the first `n` old buckets. */
  function Refilled(from: Table<nat>, n: nat): (t: Table<nat>)
    requires n <= |from|
    ensures |t| == 8
  {
    if n == 0 then Filled([])
    else if from[n - 1].Valid() then Inserted(Refilled(from, n - 1), Entry(from[n - 1].key))
    else Refilled(from, n - 1)
  }

  /** After the rebuild decision of an insertion. */
  function MadeRoom(s: Snapshot): Snapshot {
    if RebuildDue(|s.buckets|, s.occupancy, s.insRmCount) then Snapshot(Refilled(s.buckets, |s.buckets|), s.occupancy, 0) else s
  }

  /** An insertion that leaves capacity 8, and a removal that keeps it. */
  predicate Steps(s: Snapshot, op: Op, t: Snapshot) {
    match op
    case Insert(key) =>
      && |s.buckets| == (if Grows(|s.buckets|, s.occupancy) then 4 else 8)
      && var u := MadeRoom(s);
        var added := if Lookup(u.buckets, key, MockHash(key), 0) == -1 then 1 else 0;
        t == Snapshot(Inserted(u.buckets, Entry(key)), u.occupancy + added, u.insRmCount + added)
    case Remove(key) =>
      && |s.buckets| == 8 && s.occupancy > 0 && !Underloaded(s.occupancy - 1, 8)
      && var i := Lookup(s.buckets, key, MockHash(key), 0);
      && 0 <= i < 8
      && var u := Snapshot(Buried(s.buckets, i), s.occupancy - 1, s.insRmCount + 1);
        t == if TimeToRebuild(u.insRmCount, 8) then Snapshot(Refilled(u.buckets, 8), u.occupancy, 0) else u
  }

  ghost predicate Follows(s: Snapshot, t: Snapshot) { exists op :: Steps(s, op, t) }

  /** Operations on a full linear table. */
  ghost predicate Run(states: seq<Snapshot>) {
    && states != [] && states[0] == Snapshot(Linear4(), 4, 0)
    && forall i | 0 <= i < |states| - 1 :: Follows(states[i], states[i + 1])
  }

  ghost predicate Reachable(t: Snapshot) { exists states :: Run(states) && states[|states| - 1] == t }

  lemma Reach(s: Snapshot, op: Op, t: Snapshot)
    requires Reachable(s) && Steps(s, op, t)
    ensures Reachable(t)
  {
    var states :| Run(states) && states[|states| - 1] == s;
    assert Follows(s, t);
    assert Run(states + [t]);
  }

  // ---------------------------------------------------------------------
  // Tables filled with keys that hash to 5
  // ---------------------------------------------------------------------

  /** The keys from slot 5 on. */
  function Filled(ks: seq<nat>): Table<nat>
    requires |ks| <= 8
  {
    seq(8, i requires 0 <= i < 8 => if Dist(5, i, 8) < |ks| then Entry(ks[Dist(5, i, 8)]) else Bucket(KEY_EMPTY, 0, 0))
  }

  ghost predicate Late(ks: seq<nat>) {
    && (forall i | 0 <= i < |ks| :: IsKey(ks[i]) && ks[i] != EARLY)
    && (forall i, j | 0 <= i < j < |ks| :: ks[i] != ks[j])
  }

  lemma {:induction false} FilledProbe(ks: seq<nat>, key: nat, m: nat)
    requires m <= |ks| < 8 && Late(ks + [key])
    ensures Probe(Filled(ks), key, 5, m) == Place(Slot(5, |ks|, 8)) && Lookup(Filled(ks), key, 5, m) == -1
    decreases |ks| - m
  {
    DistSlot(5, m, 8);
    assert (ks + [key])[|ks|] == key;
    if m < |ks| {
      assert (ks + [key])[m] == ks[m];
      FilledProbe(ks, key, m + 1);
    }
  }

  lemma FillNext(ks: seq<nat>, key: nat)
    requires |ks| < 8 && Late(ks + [key])
    ensures Inserted(Filled(ks), Entry(key)) == Filled(ks + [key]) && Lookup(Filled(ks), key, 5, 0) == -1
  {
    assert (ks + [key])[|ks|] == key;
    FilledProbe(ks, key, 0);
    DistSlot(5, |ks|, 8);
    assert forall i | 0 <= i < 8 && Dist(5, i, 8) == |ks| :: i == Slot(5, |ks|, 8);
  }

  function KeysOf(from: Table<nat>, n: nat): (ks: seq<nat>)
    requires n <= |from|
    ensures |ks| <= n
  {
    if n == 0 then [] else KeysOf(from, n - 1) + if from[n - 1].Valid() then [from[n - 1].key] else []
  }

  lemma {:induction false} RefilledFills(from: Table<nat>, n: nat)
    requires n <= |from| <= 8 && Late(KeysOf(from, n))
    ensures Refilled(from, n) == Filled(KeysOf(from, n))
  {
    if n > 0 {
      var ks := KeysOf(from, n - 1);
      assert KeysOf(from, n)[..|ks|] == ks;
      assert forall i | 0 <= i < |ks| :: KeysOf(from, n)[i] == ks[i];
      RefilledFills(from, n - 1);
      if from[n - 1].Valid() {
        FillNext(ks, from[n - 1].key);
      }
    }
  }

  /** A rebuild that puts `expected` keys in, and insertions after it. */
  lemma {:induction false} FilledOk(ks: seq<nat>, expected: nat)
    requires |ks| <= 8 && Late(ks) && expected <= 7
    ensures TableOk(Filled(ks), MockHash, |ks|, |ks| - expected) && Ordered(Filled(ks))
  {
    if ks == [] {
      FreshOk(Filled([]), MockHash, expected);
    } else {
      var n := |ks| - 1;
      var s, key := Filled(ks[..n]), ks[n];
      assert ks[..n] + [key] == ks;
      FilledOk(ks[..n], expected);
      FillNext(ks[..n], key);
      FilledProbe(ks[..n], key, 0);
      HashedIsGood(s, MockHash, n, n - expected);
      GoodKeyVisible(s, Home(MockHash, 8), key);
      LookupIff(s, Home(MockHash, 8), key);
      HashInsertion(s, MockHash, n, n - expected, Entry(key), Filled(ks));
    }
  }

  // ---------------------------------------------------------------------
  // The history
  // ---------------------------------------------------------------------

  /** Four keys in a linear table of capacity 4, in this order. */
  function Linear4(): Table<nat> { [Bucket(5, 0, 5), Bucket(6, 0, 6), Bucket(7, 0, 7), Bucket(1, 0, 1)] }

  function First8(): seq<nat> { [5, 6, 7, 1, 2, 3, 4, 8] }
  function Again8(): seq<nat> { [1, 2, 3, 4, 5, 6, 7, 8] }

  function Hole8(): Table<nat> { Buried(Filled(First8()), 4) }

  function Eight(): Table<nat> { [Entry(4), Entry(5), Entry(6), Entry(7), Entry(8), Entry(1), Entry(2), Entry(3)] }
  function Mixed(): Table<nat> { [Entry(4), Entry(5), Entry(6), Entry(7), Entry(8), Entry(EARLY), Entry(1), Entry(3)] }
  function Broken(): Table<nat> { [Entry(4), Entry(5), Entry(6), Entry(7), Entry(8), Entry(9), Entry(EARLY), Entry(1)] }
  function Twice(): Table<nat> { [Entry(4), Entry(5), Entry(6), Entry(7), Entry(8), Entry(EARLY), Entry(9), Entry(EARLY)] }

  lemma AllLate()
    ensures Late(First8()) && Late(Again8())
    ensures forall k | 0 <= k <= 8 :: Late(First8()[..k]) && Late(Again8()[..k])
  {
  }

  lemma LinearKeys()
    ensures KeysOf(Linear4(), 4) == First8()[..4]
  {
    var l := Linear4();
    assert KeysOf(l, 1) == [5] && KeysOf(l, 2) == [5, 6] && KeysOf(l, 3) == [5, 6, 7];
  }

  lemma FirstRebuild()
    ensures Steps(Snapshot(Linear4(), 4, 0), Insert(2), Snapshot(Filled(First8()[..5]), 5, 1))
  {
    AllLate();
    LinearKeys();
    RefilledFills(Linear4(), 4);
    assert First8()[..4] + [2] == First8()[..5];
    FillNext(First8()[..4], 2);
  }

  lemma FillingUp(k: nat)
    requires 5 <= k < 8
    ensures Steps(Snapshot(Filled(First8()[..k]), k, k - 4), Insert(First8()[k]), Snapshot(Filled(First8()[..k + 1]), k + 1, k - 3))
  {
    AllLate();
    assert First8()[..k] + [First8()[k]] == First8()[..k + 1];
    FillNext(First8()[..k], First8()[k]);
  }

  lemma {:induction false} LookupLast(m: nat)
    requires m <= 7
    ensures Lookup(Filled(First8()), 8, 5, m) == 4
    decreases 7 - m
  {
    DistSlot(5, m, 8);
    if m < 7 {
      LookupLast(m + 1);
    }
  }

  lemma {:induction false} HoleProbe(m: nat)
    requires m <= 7
    ensures Probe(Hole8(), 8, 5, m) == Place(4) && Lookup(Hole8(), 8, 5, m) == -1
    decreases 7 - m
  {
    DistSlot(5, m, 8);
    if m < 7 {
      HoleProbe(m + 1);
    }
  }

  lemma InAndOut(insRmCount: int)
    requires insRmCount <= 8
    ensures insRmCount < 8 ==> Steps(Snapshot(Filled(First8()), 8, insRmCount), Remove(8), Snapshot(Hole8(), 7, insRmCount + 1))
    ensures Steps(Snapshot(Hole8(), 7, insRmCount), Insert(8), Snapshot(Filled(First8()), 8, insRmCount + 1))
  {
    LookupLast(0);
    HoleProbe(0);
    assert Inserted(Hole8(), Entry(8)) == Filled(First8());
  }

  lemma HoleKeys()
    ensures KeysOf(Hole8(), 8) == Again8()[..7]
  {
    var h := Hole8();
    assert KeysOf(h, 4) == [1, 2, 3, 4] by {
      assert KeysOf(h, 1) == [1] && KeysOf(h, 2) == [1, 2] && KeysOf(h, 3) == [1, 2, 3];
    }
    assert KeysOf(h, 5) == [1, 2, 3, 4] && KeysOf(h, 6) == [1, 2, 3, 4, 5] && KeysOf(h, 7) == [1, 2, 3, 4, 5, 6];
  }

  lemma SecondRebuild()
    ensures Steps(Snapshot(Filled(First8()), 8, 8), Remove(8), Snapshot(Filled(Again8()[..7]), 7, 0))
  {
    AllLate();
    LookupLast(0);
    HoleKeys();
    RefilledFills(Hole8(), 8);
  }

  lemma EightAgain()
    ensures Steps(Snapshot(Filled(Again8()[..7]), 7, 0), Insert(8), Snapshot(Eight(), 8, 1)) && Filled(Again8()) == Eight()
  {
    AllLate();
    assert Again8()[..7] + [8] == Again8();
    FillNext(Again8()[..7], 8);
  }

  // ---------------------------------------------------------------------
  // The key that is lost
  // ---------------------------------------------------------------------

  lemma FirstInsertion()
    ensures Inserted(Buried(Eight(), 6), Entry(EARLY)) == Mixed() && InsertSafe(Buried(Eight(), 6), Entry(EARLY))
    ensures Lookup(Buried(Eight(), 6), EARLY, 4, 0) == -1
  {
    var s := Buried(Eight(), 6);
    assert Probe(s, EARLY, 4, 0) == Probe(s, EARLY, 4, 1) == Shift(5, false);
    assert Lookup(s, EARLY, 4, 0) == Lookup(s, EARLY, 4, 1) == -1;
    assert Hole(s, 5, 0) == Hole(s, 5, 1) == 1;
  }

  lemma SecondProbe()
    ensures Probe(Buried(Mixed(), 7), 9, 5, 0) == Shift(5, true)
  {
    var s := Buried(Mixed(), 7);
    assert TombEnd(s, 5, 3) == 3;
    assert Probe(s, 9, 5, 0) == Probe(s, 9, 5, 1) == Probe(s, 9, 5, 2) == Probe(s, 9, 5, 3);
    assert Probe(s, 9, 5, 3) == Probe(s, 9, 5, 4) == Probe(s, 9, 5, 5);
    assert Probe(s, 9, 5, 5) == Probe(s, 9, 5, 6) == Probe(s, 9, 5, 7) == Probe(s, 9, 5, 8);
  }

  lemma SecondInsertion()
    ensures Inserted(Buried(Mixed(), 7), Entry(9)) == Broken() && !InsertSafe(Buried(Mixed(), 7), Entry(9))
  {
    var s := Buried(Mixed(), 7);
    SecondProbe();
    assert Hole(s, 5, 0) == Hole(s, 5, 1) == Hole(s, 5, 2) == 2;
    assert TombEnd(s, 5, 0) == 0 && First(s, 5) == 5;
  }

  lemma ThirdInsertion()
    ensures Inserted(Buried(Broken(), 7), Entry(EARLY)) == Twice()
    ensures Lookup(Buried(Broken(), 7), EARLY, 4, 0) == -1 == Lookup(Broken(), EARLY, 4, 0)
  {
    var s := Buried(Broken(), 7);
    assert Probe(s, EARLY, 4, 0) == Probe(s, EARLY, 4, 1) == Shift(5, false);
    assert Hole(s, 5, 0) == Hole(s, 5, 1) == Hole(s, 5, 2) == 2;
    assert Lookup(s, EARLY, 4, 0) == Lookup(s, EARLY, 4, 1) == -1;
    assert Lookup(Broken(), EARLY, 4, 0) == Lookup(Broken(), EARLY, 4, 1) == -1;
  }

  /** Lookups of the keys that are removed. */
  lemma Removed()
    ensures Lookup(Eight(), 2, 5, 0) == 6 && Lookup(Mixed(), 3, 5, 0) == 7 && Lookup(Broken(), 1, 5, 0) == 7
  {
    assert Lookup(Eight(), 2, 5, 0) == Lookup(Eight(), 2, 5, 1);
    assert Lookup(Mixed(), 3, 5, 0) == Lookup(Mixed(), 3, 5, 1) == Lookup(Mixed(), 3, 5, 2);
    assert Lookup(Broken(), 1, 5, 0) == Lookup(Broken(), 1, 5, 1) == Lookup(Broken(), 1, 5, 2);
  }

  lemma NotThere()
    ensures !Holds(Buried(Eight(), 6), EARLY) && !Holds(Buried(Mixed(), 7), 9)
    ensures Lookup(Buried(Mixed(), 7), 9, 5, 0) == -1
  {
    var s := Buried(Mixed(), 7);
    assert forall i | 0 <= i < 8 :: Buried(Eight(), 6)[i].key != EARLY && s[i].key != 9;
    LookupSound(s, 9, 5, 0);
  }

  lemma {:induction false} FillingReached(k: nat)
    requires 5 <= k <= 8
    ensures Reachable(Snapshot(Filled(First8()[..k]), k, k - 4))
  {
    if k == 5 {
      assert Run([Snapshot(Linear4(), 4, 0)]);
      FirstRebuild();
      Reach(Snapshot(Linear4(), 4, 0), Insert(2), Snapshot(Filled(First8()[..5]), 5, 1));
    } else {
      FillingReached(k - 1);
      FillingUp(k - 1);
      Reach(Snapshot(Filled(First8()[..k - 1]), k - 1, k - 5), Insert(First8()[k - 1]), Snapshot(Filled(First8()[..k]), k, k - 4));
    }
  }

  lemma OneCycle(insRmCount: int)
    requires insRmCount < 7 && Reachable(Snapshot(Filled(First8()), 8, insRmCount))
    ensures Reachable(Snapshot(Filled(First8()), 8, insRmCount + 2))
  {
    InAndOut(insRmCount);
    InAndOut(insRmCount + 1);
    Reach(Snapshot(Filled(First8()), 8, insRmCount), Remove(8), Snapshot(Hole8(), 7, insRmCount + 1));
    Reach(Snapshot(Hole8(), 7, insRmCount + 1), Insert(8), Snapshot(Filled(First8()), 8, insRmCount + 2));
  }

  lemma EightReached()
    ensures Reachable(Snapshot(Eight(), 8, 1))
  {
    FillingReached(8);
    assert First8()[..8] == First8();
    OneCycle(4);
    OneCycle(6);
    SecondRebuild();
    Reach(Snapshot(Filled(First8()), 8, 8), Remove(8), Snapshot(Filled(Again8()[..7]), 7, 0));
    EightAgain();
    Reach(Snapshot(Filled(Again8()[..7]), 7, 0), Insert(8), Snapshot(Eight(), 8, 1));
  }

  lemma BrokenReached()
    ensures Reachable(Snapshot(Buried(Mixed(), 7), 7, 4)) && Reachable(Snapshot(Broken(), 8, 5))
    ensures Reachable(Snapshot(Buried(Broken(), 7), 7, 6))
  {
    EightReached();
    LastSteps();
    Reach(Snapshot(Eight(), 8, 1), Remove(2), Snapshot(Buried(Eight(), 6), 7, 2));
    Reach(Snapshot(Buried(Eight(), 6), 7, 2), Insert(EARLY), Snapshot(Mixed(), 8, 3));
    Reach(Snapshot(Mixed(), 8, 3), Remove(3), Snapshot(Buried(Mixed(), 7), 7, 4));
    Reach(Snapshot(Buried(Mixed(), 7), 7, 4), Insert(9), Snapshot(Broken(), 8, 5));
    Reach(Snapshot(Broken(), 8, 5), Remove(1), Snapshot(Buried(Broken(), 7), 7, 6));
  }

  lemma LastSteps()
    ensures Steps(Snapshot(Eight(), 8, 1), Remove(2), Snapshot(Buried(Eight(), 6), 7, 2))
    ensures Steps(Snapshot(Buried(Eight(), 6), 7, 2), Insert(EARLY), Snapshot(Mixed(), 8, 3))
    ensures Steps(Snapshot(Mixed(), 8, 3), Remove(3), Snapshot(Buried(Mixed(), 7), 7, 4))
    ensures Steps(Snapshot(Buried(Mixed(), 7), 7, 4), Insert(9), Snapshot(Broken(), 8, 5))
    ensures Steps(Snapshot(Broken(), 8, 5), Remove(1), Snapshot(Buried(Broken(), 7), 7, 6))
    ensures Steps(Snapshot(Buried(Broken(), 7), 7, 6), Insert(EARLY), Snapshot(Twice(), 8, 7))
  {
    Removed();
    FirstInsertion();
    NotThere();
    SecondInsertion();
    ThirdInsertion();
  }

  // ---------------------------------------------------------------------
  // The counters
  // ---------------------------------------------------------------------

  /** What an insertion of a new key does to the counters and to the probe invariant. */
  lemma NewKey(s: Snapshot, key: nat)
    requires |s.buckets| == 8 && TableOk(s.buckets, MockHash, s.occupancy, s.insRmCount)
    requires !RebuildDue(8, s.occupancy, s.insRmCount) && IsKey(key) && !Holds(s.buckets, key)
    ensures TableOk(Inserted(s.buckets, Entry(key)), MockHash, s.occupancy + 1, s.insRmCount + 1)
    ensures Ordered(s.buckets) ==> (Ordered(Inserted(s.buckets, Entry(key))) <==> InsertSafe(s.buckets, Entry(key)))
  {
    HashedIsGood(s.buckets, MockHash, s.occupancy, s.insRmCount);
    HoldsIff(s.buckets, key);
    HashInsertion(s.buckets, MockHash, s.occupancy, s.insRmCount, Entry(key), Inserted(s.buckets, Entry(key)));
  }

  /** What a removal does to them. */
  lemma Gone(s: Snapshot, i: nat)
    requires |s.buckets| == 8 && TableOk(s.buckets, MockHash, s.occupancy, s.insRmCount) && i < 8 && s.buckets[i].Valid()
    ensures s.occupancy > 0 && TableOk(Buried(s.buckets, i), MockHash, s.occupancy - 1, s.insRmCount + 1)
    ensures Ordered(s.buckets) ==> Ordered(Buried(s.buckets, i))
  {
    BuriedOk(s.buckets, MockHash, s.occupancy, s.insRmCount, i);
  }

  lemma MixedOk()
    ensures TableOk(Eight(), MockHash, 8, 1) && TableOk(Buried(Eight(), 6), MockHash, 7, 2)
    ensures TableOk(Mixed(), MockHash, 8, 3) && Ordered(Mixed())
  {
    AllLate();
    FilledOk(Again8(), 7);
    EightAgain();
    Gone(Snapshot(Eight(), 8, 1), 6);
    NotThere();
    FirstInsertion();
    NewKey(Snapshot(Buried(Eight(), 6), 7, 2), EARLY);
  }

  /** The last tables have the counters that go with them, but are not ordered. */
  lemma BrokenOk()
    ensures TableOk(Buried(Mixed(), 7), MockHash, 7, 4) && TableOk(Broken(), MockHash, 8, 5) && !Ordered(Broken())
    ensures TableOk(Buried(Broken(), 7), MockHash, 7, 6)
  {
    MixedOk();
    Gone(Snapshot(Mixed(), 8, 3), 7);
    NotThere();
    SecondInsertion();
    NewKey(Snapshot(Buried(Mixed(), 7), 7, 4), 9);
    Gone(Snapshot(Broken(), 8, 5), 7);
  }

  lemma BrokenHides()
    ensures Holds(Broken(), EARLY) && Holds(Buried(Broken(), 7), EARLY)
  {
    assert Broken()[6].Valid() && Buried(Broken(), 7)[6].Valid();
  }

  /** A table that the policy lets operations reach: its last insertion, which was not
      safe, has left the key EARLY in the map, but it is not found. */
  lemma FullTableLosesKey()
    ensures Reachable(Snapshot(Buried(Mixed(), 7), 7, 4)) && !InsertSafe(Buried(Mixed(), 7), Entry(9))
    ensures Steps(Snapshot(Buried(Mixed(), 7), 7, 4), Insert(9), Snapshot(Broken(), 8, 5))
    ensures TableOk(Broken(), MockHash, 8, 5) && EARLY in MapOf(Broken(), 8) && Lookup(Broken(), EARLY, MockHash(EARLY), 0) == -1
  {
    BrokenReached();
    LastSteps();
    BrokenOk();
    BrokenHides();
    SecondInsertion();
    ThirdInsertion();
    HoldsIff(Broken(), EARLY);
  }

  /** One removal later no rebuild is due, and an insertion of the hidden key gives it a
      second bucket. */
  lemma HiddenKeyTwice()
    ensures Reachable(Snapshot(Buried(Broken(), 7), 7, 6)) && TableOk(Buried(Broken(), 7), MockHash, 7, 6) && !RebuildDue(8, 7, 6)
    ensures Holds(Buried(Broken(), 7), EARLY) && !KeyVisible(Buried(Broken(), 7), EARLY, MockHash(EARLY))
    ensures Steps(Snapshot(Buried(Broken(), 7), 7, 6), Insert(EARLY), Snapshot(Twice(), 8, 7)) && !Unique(Twice())
  {
    BrokenReached();
    LastSteps();
    BrokenOk();
    BrokenHides();
    ThirdInsertion();
    var t := Twice();
    assert t[5].Valid() && t[7].Valid() && t[5].key == t[7].key;
  }
}
