/** The abstract map of a table under the single-slot updates of the hypertable. */
module TableContents {
  import opened Counting
  import opened ProbeOrder
  import opened ProbeInsert
  import opened TableCounts

  /** Adding the next slot to a prefix of a table. */
  lemma PrefixStep<V>(s: Table<V>, i: nat)
    requires Unique(s) && i < |s|
    ensures Unique(s[..i]) && Unique(s[..i + 1])
    ensures var m, n := Contents(s[..i]), Contents(s[..i + 1]);
      if s[i].Valid() then s[i].key !in m && n == m[s[i].key := s[i].data] else n == m
  {
    var p, t := s[..i], s[..i + 1];
    var m := Contents(p);
    var mm := if s[i].Valid() then m[s[i].key := s[i].data] else m;
    forall key | key in m
      ensures Holds(t, key) && (s[i].Valid() ==> key != s[i].key)
    {
      var k := ContentsKey(p, key);
      assert t[k] == s[k];
    }
    assert s[i].Valid() ==> t[i].Valid() && Holds(t, s[i].key);
    forall j | 0 <= j < |t| && t[j].Valid()
      ensures t[j].key in mm && mm[t[j].key] == t[j].data
    {
      if j < i {
        assert p[j] == s[j];
        ContentsAt(p, j);
      }
    }
    ContentsIs(t, mm);
  }

  lemma PrefixEntries<V>(s: Table<V>, i: nat)
    requires i < |s|
    ensures |Entries(s[..i + 1])| == |Entries(s[..i])| + (if s[i].Valid() then 1 else 0)
    ensures |Entries(s[..i + 1])| <= |Entries(s)|
  {
    assert Entries(s[..i + 1]) == if s[i].Valid() then Entries(s[..i]) + {i} else Entries(s[..i]);
    SubsetSize(Entries(s[..i + 1]), Entries(s));
  }

  /** Replacing an entry by one with the same key. */
  lemma ReplaceContents<V>(s: Table<V>, i: nat, b: Bucket<V>)
    requires Unique(s) && i < |s| && s[i].Valid() && b.key == s[i].key
    ensures Unique(s[i := b]) && Contents(s[i := b]) == Contents(s)[b.key := b.data]
  {
    var t := s[i := b];
    var m, n := Contents(s)[b.key := b.data], Contents(t);
    forall key | key in m
      ensures key in n && m[key] == n[key]
    {
      ContentsAt(t, i);
      if key != b.key {
        var k := ContentsKey(s, key);
        ContentsAt(t, k);
      }
    }
    forall key | key in n
      ensures key in m
    {
      var k := ContentsKey(t, key);
      ContentsAt(s, k);
    }
    SameMap(m, n);
  }

  /** Taking one entry out, wherever the others go. */
  lemma TakenContents<V>(s: Table<V>, t: Table<V>, i: nat)
    requires Unique(s) && Unique(t) && i < |s| && s[i].Valid()
    requires forall j | 0 <= j < |s| && s[j].Valid() && j != i :: exists k :: 0 <= k < |t| && t[k] == s[j]
    requires forall k | 0 <= k < |t| && t[k].Valid() :: exists j :: 0 <= j < |s| && j != i && s[j] == t[k]
    ensures Contents(t) == Contents(s) - {s[i].key}
  {
    var m, n := Contents(s) - {s[i].key}, Contents(t);
    forall key | key in m
      ensures key in n && m[key] == n[key]
    {
      var j := ContentsKey(s, key);
      var k :| 0 <= k < |t| && t[k] == s[j];
      ContentsAt(t, k);
    }
    forall key | key in n
      ensures key in m
    {
      var k := ContentsKey(t, key);
      var j :| 0 <= j < |s| && j != i && s[j] == t[k];
      ContentsAt(s, j);
    }
    SameMap(m, n);
  }

  function SwappedOut<V>(s: Table<V>, i: nat): Table<V>
    requires i < |s|
  {
    s[i := s[|s| - 1]][..|s| - 1]
  }

  lemma SwappedUnique<V>(s: Table<V>, i: nat)
    requires Unique(s) && i < |s| && (forall j | 0 <= j < |s| :: s[j].Valid())
    ensures Unique(SwappedOut(s, i)) && (forall j | 0 <= j < |s| - 1 :: SwappedOut(s, i)[j].Valid())
  {
    var n := |s| - 1;
    assert forall k | 0 <= k < n :: SwappedOut(s, i)[k] == s[if k == i then n else k];
  }

  /** Swap-with-last removal from a linear table. */
  lemma SwapOut<V>(s: Table<V>, i: nat)
    requires Unique(s) && i < |s| && (forall j | 0 <= j < |s| :: s[j].Valid())
    ensures var t := SwappedOut(s, i);
      && Unique(t) && (forall j | 0 <= j < |t| :: t[j].Valid())
      && Contents(t) == Contents(s) - {s[i].key}
  {
    var n := |s| - 1;
    var t := SwappedOut(s, i);
    SwappedUnique(s, i);
    forall j | 0 <= j < |s| && j != i
      ensures exists k :: 0 <= k < |t| && t[k] == s[j]
    {
      assert t[if j == n then i else j] == s[j];
    }
    forall k | 0 <= k < |t|
      ensures exists j :: 0 <= j < |s| && j != i && s[j] == t[k]
    {
      assert s[if k == i then n else k] == t[k];
    }
    TakenContents(s, t, i);
  }

  function Buried<V>(s: Table<V>, i: nat): Table<V>
    requires i < |s|
  {
    s[i := s[i].(key := KEY_DELETED)]
  }

  lemma BuryKeepsOrder<V>(s: Table<V>, home: nat -> nat, i: nat)
    requires Hashed(s, home) && Unique(s) && i < |s|
    ensures var t := Buried(s, i); Hashed(t, home) && Unique(t) && (Ordered(s) ==> Ordered(t))
  {
    var t := Buried(s, i);
    assert t[i].Tombstone();
    assert forall j | 0 <= j < |t| && t[j].Valid() :: t[j] == s[j];
    if !Ordered(s) {
      return;
    }
    forall j, k | 0 <= j < |t| && 0 <= k < |t| && t[j].Valid() && Before(t, j, k)
      ensures Passable(t, j, k)
    {
      assert Before(s, j, k) && Passable(s, j, k);
    }
  }

  lemma BuryContents<V>(s: Table<V>, i: nat)
    requires Unique(s) && i < |s| && s[i].Valid() && Unique(Buried(s, i))
    ensures Contents(Buried(s, i)) == Contents(s) - {s[i].key}
  {
    var t := Buried(s, i);
    assert forall j | 0 <= j < |s| && s[j].Valid() && j != i :: t[j] == s[j];
    assert forall k | 0 <= k < |t| && t[k].Valid() :: s[k] == t[k] && k != i;
    TakenContents(s, t, i);
  }

  lemma BuryCounts<V>(s: Table<V>, i: nat)
    requires i < |s| && s[i].Valid()
    ensures |Entries(Buried(s, i))| == |Entries(s)| - 1 && Used(Buried(s, i)) == Used(s)
  {
    assert Entries(Buried(s, i)) == Entries(s) - {i};
  }

  /** Turning an entry into a tombstone takes out that key and nothing else. */
  lemma BuryEntry<V>(s: Table<V>, home: nat -> nat, i: nat)
    requires Hashed(s, home) && Unique(s) && i < |s| && s[i].Valid()
    ensures var t := Buried(s, i);
      && Hashed(t, home) && Unique(t) && (Ordered(s) ==> Ordered(t)) && Contents(t) == Contents(s) - {s[i].key}
      && |Entries(t)| == |Entries(s)| - 1 && Used(t) == Used(s)
  {
    BuryKeepsOrder(s, home, i);
    BuryContents(s, i);
    BuryCounts(s, i);
  }

  // ---------------------------------------------------------------------
  // Fresh arrays
  // ---------------------------------------------------------------------

  /** Slot `i` of a fresh array of `n` buckets: empty, or a graveyard tombstone. */
  predicate Graveyard(n: nat, i: int) { n >= MIN_HT_CAPACITY && i % (GRAVEYARD_GAP + 1) == GRAVEYARD_GAP }

  ghost predicate Fresh<V>(s: Table<V>) {
    forall i | 0 <= i < |s| :: if Graveyard(|s|, i) then s[i].Tombstone() else s[i].Empty()
  }

  ghost function Graves(n: nat): set<int> { set i | 0 <= i < n && i % 33 == 32 }

  lemma {:induction false} GravesSize(n: nat)
    ensures |Graves(n)| == n / 33
  {
    if n > 0 {
      GravesSize(n - 1);
      assert Graves(n) == if (n - 1) % 33 == 32 then Graves(n - 1) + {n - 1} else Graves(n - 1);
    } else {
      assert Graves(0) == {};
    }
  }

  lemma FreshTable<V>(s: Table<V>, home: nat -> nat)
    requires 0 < |s| <= WORD && Fresh(s)
    ensures Good(s, home) && Contents(s) == map[] && Entries(s) == {}
    ensures |Used(s)| == if |s| >= MIN_HT_CAPACITY then |s| / 33 else 0
  {
    GravesSize(|s|);
    assert forall i | 0 <= i < |s| :: !s[i].Valid();
    if |s| >= MIN_HT_CAPACITY {
      assert Used(s) == Graves(|s|);
    } else {
      assert Used(s) == {};
    }
  }
}
