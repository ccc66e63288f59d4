/** What an insertion does to the abstract map and to the probe invariant. */
module ProbeInsert {
  import opened ProbeOrder

  // ---------------------------------------------------------------------
  // The abstract map
  // ---------------------------------------------------------------------

  /** `t` has the entries of `s` and one more, `b`. */
  ghost predicate Adds<V>(s: Table<V>, t: Table<V>, b: Bucket<V>) {
    && |s| == |t|
    && (exists k :: 0 <= k < |t| && t[k] == b)
    && (forall i | 0 <= i < |s| && s[i].Valid() :: exists k :: 0 <= k < |t| && t[k] == s[i])
    && (forall k | 0 <= k < |t| && t[k].Valid() :: t[k] == b || exists i :: 0 <= i < |s| && s[i] == t[k])
  }

  lemma ContentsAt<V>(s: Table<V>, i: nat)
    requires Unique(s) && i < |s| && s[i].Valid()
    ensures s[i].key in Contents(s) && Contents(s)[s[i].key] == s[i].data
  {
  }

  lemma ContentsKey<V>(s: Table<V>, key: nat) returns (i: nat)
    requires Unique(s) && key in Contents(s)
    ensures i < |s| && s[i].Valid() && s[i].key == key && Contents(s)[key] == s[i].data
  {
    i :| 0 <= i < |s| && s[i].Valid() && s[i].key == key;
  }

  lemma SameMap<V>(m: map<nat, V>, n: map<nat, V>)
    requires forall key | key in m :: key in n && m[key] == n[key]
    requires forall key | key in n :: key in m
    ensures m == n
  {
  }

  /** A map with the data of every entry, and no other key, is the abstract map. */
  lemma ContentsIs<V>(s: Table<V>, m: map<nat, V>)
    requires Unique(s) && forall key | key in m :: Holds(s, key)
    requires forall i | 0 <= i < |s| && s[i].Valid() :: s[i].key in m && m[s[i].key] == s[i].data
    ensures Contents(s) == m
  {
    forall key | key in m
      ensures key in Contents(s) && m[key] == Contents(s)[key]
    {
      var i :| 0 <= i < |s| && s[i].Valid() && s[i].key == key;
      ContentsAt(s, i);
    }
    forall key | key in Contents(s)
      ensures key in m
    {
      var i := ContentsKey(s, key);
    }
    SameMap(m, Contents(s));
  }

  lemma AddsContents<V>(s: Table<V>, t: Table<V>, b: Bucket<V>)
    requires Unique(s) && Unique(t) && Adds(s, t, b) && b.Valid() && !Holds(s, b.key)
    ensures Contents(t) == Contents(s)[b.key := b.data]
  {
    var m, n := Contents(s)[b.key := b.data], Contents(t);
    forall key | key in m
      ensures key in n && m[key] == n[key]
    {
      if key == b.key {
        var k :| 0 <= k < |t| && t[k] == b;
        ContentsAt(t, k);
      } else {
        var i := ContentsKey(s, key);
        var k :| 0 <= k < |t| && t[k] == s[i];
        ContentsAt(t, k);
      }
    }
    forall key | key in n
      ensures key in m
    {
      var k := ContentsKey(t, key);
      if t[k] != b {
        var i :| 0 <= i < |s| && s[i] == t[k];
        ContentsAt(s, i);
      }
    }
    SameMap(m, n);
  }

  lemma OverwriteKeepsOrder<V>(s: Table<V>, home: nat -> nat, i: nat, data: V)
    requires Hashed(s, home) && Unique(s) && i < |s| && s[i].Valid()
    ensures var t := s[i := s[i].(data := data)]; Hashed(t, home) && Unique(t) && (Ordered(s) ==> Ordered(t))
  {
    var t := s[i := s[i].(data := data)];
    if !Ordered(s) {
      return;
    }
    forall j, k | 0 <= j < |t| && 0 <= k < |t| && t[j].Valid() && Before(t, j, k)
      ensures Passable(t, j, k)
    {
      assert Before(s, j, k) && Passable(s, j, k);
    }
  }

  lemma OverwriteContents<V>(s: Table<V>, home: nat -> nat, i: nat, data: V)
    requires Hashed(s, home) && Unique(s) && i < |s| && s[i].Valid()
    ensures var t := s[i := s[i].(data := data)]; Hashed(t, home) && Unique(t) && (Ordered(s) ==> Ordered(t)) && Contents(t) == Contents(s)[s[i].key := data]
  {
    var t := s[i := s[i].(data := data)];
    OverwriteKeepsOrder(s, home, i, data);
    var m, n := Contents(s)[s[i].key := data], Contents(t);
    forall key | key in m
      ensures key in n && m[key] == n[key]
    {
      if key == s[i].key {
        ContentsAt(t, i);
      } else {
        var k := ContentsKey(s, key);
        ContentsAt(t, k);
      }
    }
    forall key | key in n
      ensures key in m
    {
      var k := ContentsKey(t, key);
      ContentsAt(s, k);
    }
    SameMap(m, n);
  }

  lemma PlaceAdds<V>(s: Table<V>, home: nat -> nat, b: Bucket<V>, i: nat)
    requires Hashed(s, home) && Unique(s) && i < |s| && !s[i].Valid() && b.Valid() && !Holds(s, b.key)
    requires b.hash == home(b.key) < |s|
    ensures var t := s[i := b]; Hashed(t, home) && Unique(t) && Adds(s, t, b)
  {
    var t := s[i := b];
    assert t[i] == b;
    assert forall j | 0 <= j < |s| && s[j].Valid() :: t[j] == s[j];
  }

  lemma PlaceKeepsOrder<V>(s: Table<V>, home: nat -> nat, b: Bucket<V>, i: nat)
    requires Good(s, home) && b.Valid() && b.hash == home(b.key) < |s|
    requires OutcomeOk(s, b.key, b.hash, Place(i))
    ensures Ordered(s[i := b])
  {
    var t := s[i := b];
    forall j, k | 0 <= j < |t| && 0 <= k < |t| && t[j].Valid() && Before(t, j, k)
      ensures Passable(t, j, k)
    {
      if j != i {
        assert Before(s, j, k) && Passable(s, j, k);
      }
    }
  }

  // ---------------------------------------------------------------------
  // Shifting
  // ---------------------------------------------------------------------

  function Next(k: int, c: int): int { if k + 1 == c then 0 else k + 1 }
  function Prev(k: int, c: int): int { if k == 0 then c - 1 else k - 1 }

  /** The shape of a shift: `r` entries from `p` on, and then a slot without one. */
  ghost predicate ShiftsAt<V>(s: Table<V>, p: nat, r: nat) {
    && p < |s| && r < |s|
    && (forall k | 0 <= k < |s| && Dist(p, k, |s|) < r :: s[k].Valid())
    && !s[Slot(p, r, |s|)].Valid()
  }

  /** Where the entry of slot `k` of the shifted table was. */
  lemma ShiftedSlot<V>(s: Table<V>, b: Bucket<V>, p: nat, r: nat, k: int)
    requires ShiftsAt(s, p, r) && 0 <= k < |s|
    ensures var t := ShiftIn(s, b, p, r); var c := |s|;
      && (k == p ==> t[k] == b)
      && (k != p && Dist(p, k, c) <= r ==>
            t[k] == s[Prev(k, c)] && Dist(p, Prev(k, c), c) == Dist(p, k, c) - 1 && t[k].Valid())
      && (Dist(p, k, c) > r ==> t[k] == s[k])
  {
    var c := |s|;
    if k != p && Dist(p, k, c) <= r {
      assert Dist(p, Prev(k, c), c) == Dist(p, k, c) - 1;
    }
  }

  /** Where the entry of slot `i` went. */
  lemma ShiftedEntry<V>(s: Table<V>, b: Bucket<V>, p: nat, r: nat, i: int)
    requires ShiftsAt(s, p, r) && 0 <= i < |s| && s[i].Valid()
    ensures var t := ShiftIn(s, b, p, r); var c := |s|;
      if Dist(p, i, c) < r then t[Next(i, c)] == s[i] && Next(i, c) != p else t[i] == s[i] && Dist(p, i, c) > r
  {
    var c := |s|;
    if Dist(p, i, c) < r {
      assert Dist(p, Next(i, c), c) == Dist(p, i, c) + 1;
      ShiftedSlot(s, b, p, r, Next(i, c));
    } else {
      assert Dist(p, i, c) == r ==> i == Slot(p, r, c);
      ShiftedSlot(s, b, p, r, i);
    }
  }

  lemma ShiftHashed<V>(s: Table<V>, home: nat -> nat, b: Bucket<V>, p: nat, r: nat)
    requires Hashed(s, home) && ShiftsAt(s, p, r) && b.Valid() && b.hash == home(b.key) < |s|
    ensures Hashed(ShiftIn(s, b, p, r), home)
  {
    forall k | 0 <= k < |s|
      ensures var t := ShiftIn(s, b, p, r); t[k].Valid() ==> t[k].hash == home(t[k].key) && t[k].hash < |s|
    {
      ShiftedSlot(s, b, p, r, k);
    }
  }

  lemma ShiftUnique<V>(s: Table<V>, b: Bucket<V>, p: nat, r: nat)
    requires Unique(s) && ShiftsAt(s, p, r) && b.Valid() && !Holds(s, b.key)
    ensures Unique(ShiftIn(s, b, p, r))
  {
    var t, c := ShiftIn(s, b, p, r), |s|;
    forall i, k | 0 <= i < c && 0 <= k < c && t[i].Valid() && t[k].Valid() && t[i].key == t[k].key
      ensures i == k
    {
      ShiftedSlot(s, b, p, r, i);
      ShiftedSlot(s, b, p, r, k);
      assert forall j | 0 <= j < c && s[j].Valid() :: s[j].key != b.key;
    }
  }

  lemma ShiftAdds<V>(s: Table<V>, b: Bucket<V>, p: nat, r: nat)
    requires ShiftsAt(s, p, r)
    ensures Adds(s, ShiftIn(s, b, p, r), b)
  {
    var t, c := ShiftIn(s, b, p, r), |s|;
    assert t[p] == b;
    forall k | 0 <= k < c && t[k].Valid()
      ensures t[k] == b || exists i :: 0 <= i < c && s[i] == t[k]
    {
      ShiftedSlot(s, b, p, r, k);
    }
    forall i | 0 <= i < c && s[i].Valid()
      ensures exists k :: 0 <= k < c && t[k] == s[i]
    {
      ShiftedEntry(s, b, p, r, i);
    }
  }
}
