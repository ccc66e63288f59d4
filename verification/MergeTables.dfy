/** Merging the hypertables of two strands, left before right. */
module MergeTables {
  import opened ProbeOrder
  import opened ProbeInsert
  import opened ProbeShift
  import opened TableCounts
  import opened TableContents
  import opened TableState
  import opened HyperTables

  /** The merge that the reducers call for: left before right in every key. */
  function Merged<V>(left: map<nat, V>, right: map<nat, V>, reduce: (V, V) -> V): map<nat, V> {
    map key | key in left.Keys + right.Keys ::
      if key !in right then left[key]
      else if key !in left then right[key]
      else reduce(left[key], right[key])
  }

  ghost predicate Associative<V(!new)>(reduce: (V, V) -> V) {
    forall x, y, z :: reduce(reduce(x, y), z) == reduce(x, reduce(y, z))
  }

  /** The order in which the tables of a row of strands are merged is free. */
  lemma MergedAssociative<V(!new)>(a: map<nat, V>, b: map<nat, V>, c: map<nat, V>, reduce: (V, V) -> V)
    requires Associative(reduce)
    ensures Merged(Merged(a, b, reduce), c, reduce) == Merged(a, Merged(b, c, reduce), reduce)
  {
    var l, r := Merged(Merged(a, b, reduce), c, reduce), Merged(a, Merged(b, c, reduce), reduce);
    assert forall key :: key in l <==> key in a || key in b || key in c;
    assert forall key :: key in r <==> key in a || key in b || key in c;
    forall key | key in l
      ensures l[key] == r[key]
    {
      if key in a && key in b && key in c {
        assert reduce(reduce(a[key], b[key]), c[key]) == reduce(a[key], reduce(b[key], c[key]));
      }
    }
  }

  lemma MergedIdentity<V>(m: map<nat, V>, reduce: (V, V) -> V)
    ensures Merged(map[], m, reduce) == m && Merged(m, map[], reduce) == m
  {
    assert forall key :: key in Merged(map[], m, reduce) <==> key in m;
    assert forall key :: key in Merged(m, map[], reduce) <==> key in m;
  }

  /** The destination's map merged with what has been read of the source. */
  function Folded<V>(dst: map<nat, V>, src: map<nat, V>, leftDst: bool, reduce: (V, V) -> V): map<nat, V> {
    if leftDst then Merged(dst, src, reduce) else Merged(src, dst, reduce)
  }

  function Joined<V>(d: V, s: V, leftDst: bool, reduce: (V, V) -> V): V {
    if leftDst then reduce(d, s) else reduce(s, d)
  }

  lemma FoldStep<V>(dst: map<nat, V>, src: map<nat, V>, leftDst: bool, reduce: (V, V) -> V, key: nat, data: V)
    requires key !in src
    ensures var m := Folded(dst, src, leftDst, reduce);
      && (key in m <==> key in dst)
      && Folded(dst, src[key := data], leftDst, reduce) == m[key := if key in m then Joined(m[key], data, leftDst, reduce) else data]
  {
    var m := Folded(dst, src, leftDst, reduce);
    var n := Folded(dst, src[key := data], leftDst, reduce);
    SameMap(n, m[key := if key in m then Joined(m[key], data, leftDst, reduce) else data]);
  }

  lemma FoldBucket<V>(l: Table<V>, i: nat, dst: map<nat, V>, leftDst: bool, reduce: (V, V) -> V)
    requires Unique(l) && i < |l| && Unique(l[..i])
    ensures |Entries(l[..i + 1])| == |Entries(l[..i])| + (if l[i].Valid() then 1 else 0) <= |Entries(l)|
    ensures Unique(l[..i + 1])
    ensures var m := Folded(dst, Contents(l[..i]), leftDst, reduce);
      Folded(dst, Contents(l[..i + 1]), leftDst, reduce) ==
        if l[i].Valid() then m[l[i].key := if l[i].key in m then Joined(m[l[i].key], l[i].data, leftDst, reduce) else l[i].data] else m
  {
    PrefixStep(l, i);
    PrefixEntries(l, i);
    if l[i].Valid() {
      FoldStep(dst, Contents(l[..i]), leftDst, reduce, l[i].key, l[i].data);
    }
  }

  /** Joins one bucket of the source with the destination's bucket for its key, or
      inserts it. The table stays sound if and only if the insertion is safe. */
  method MergeBucket<V>(b: Bucket<V>, dst: HyperTable<V>, leftDst: bool, reduce: (V, V) -> V)
    requires IsKey(b.key) && dst.Valid() && dst.Sees(b.key)
    requires Grows(dst.capacity, dst.occupancy) ==> 2 * dst.capacity <= MAX_CAPACITY
    modifies dst, dst.buckets
    ensures dst.Valid() && (old(dst.Spare() && dst.Findable()) ==> dst.Spare() && dst.Findable())
    ensures old(dst.Findable()) ==>
              (dst.Findable() <==> b.key in old(dst.View()) || old(dst.capacity < MIN_HT_CAPACITY || dst.Due())
                                   || InsertSafe(old(dst.buckets[..]), Bucket(b.key, Home(dst.hash, old(dst.capacity))(b.key), b.data)))
    ensures dst.View() == old(dst.View())[b.key :=
              if b.key in old(dst.View()) then Joined(old(dst.View())[b.key], b.data, leftDst, reduce) else b.data]
    ensures dst.buckets == old(dst.buckets) || fresh(dst.buckets)
    ensures dst.occupancy <= old(dst.occupancy) + 1
    ensures dst.capacity == old(dst.capacity) || (old(Grows(dst.capacity, dst.occupancy)) && dst.capacity == 2 * old(dst.capacity))
  {
    var j := dst.Find(b.key);
    if j == -1 {
      var success := dst.Insert(b.key, b.data);
    } else {
      dst.Store(j, Joined(dst.buckets[j].data, b.data, leftDst, reduce));
    }
  }

  predicate GrownTo(capacity: nat, c: nat) { capacity == c || capacity == 2 * c || capacity == 4 * c }

  /** Moves the entries of the first `n` buckets into `dst`. */
  method MergeEntries<V>(buckets: array<Bucket<V>>, n: nat, dst: HyperTable<V>, leftDst: bool, reduce: (V, V) -> V)
    requires buckets != dst.buckets && n <= buckets.Length && Unique(buckets[..n])
    requires dst.Valid() && dst.Findable() && dst.Spare() && 4 * dst.capacity <= MAX_CAPACITY
    requires |Entries(buckets[..n])| <= dst.occupancy <= 15 * dst.capacity / 16 + 1
    modifies dst, dst.buckets
    ensures dst.Valid() && dst.Findable() && dst.Spare()
    ensures dst.View() == Folded(old(dst.View()), Contents(old(buckets[..n])), leftDst, reduce)
  {
    ghost var l, d := buckets[..n], dst.View();
    ghost var c, occ := dst.capacity, dst.occupancy;
    assert l[..0] == [];
    MergedIdentity(d, reduce);
    for i := 0 to n
      invariant dst.buckets == old(dst.buckets) || fresh(dst.buckets)
      invariant dst.Valid() && dst.Findable() && dst.Spare()
      invariant Unique(l[..i]) && dst.View() == Folded(d, Contents(l[..i]), leftDst, reduce)
      invariant dst.occupancy <= occ + |Entries(l[..i])| && GrownTo(dst.capacity, c)
    {
      FoldBucket(l, i, d, leftDst, reduce);
      var b := buckets[i];
      assert b == l[i];
      if b.Valid() {
        dst.FindableSees(b.key);
        MergeBucket(b, dst, leftDst, reduce);
      }
    }
    assert l[..n] == l;
  }

  /** Moves every entry of `src` into `dst`. */
  method MergeInto<V>(src: HyperTable<V>, dst: HyperTable<V>, leftDst: bool, reduce: (V, V) -> V)
    requires src != dst && src.buckets != dst.buckets && src.Valid() && src.occupancy <= dst.occupancy
    requires dst.Valid() && dst.Findable() && dst.Spare() && 4 * dst.capacity <= MAX_CAPACITY
    modifies dst, dst.buckets
    ensures dst.Valid() && dst.Findable() && dst.Spare()
    ensures dst.View() == Folded(old(dst.View()), old(src.View()), leftDst, reduce)
  {
    LiveUnique(src.buckets[..], src.hash, src.occupancy, src.insRmCount);
    FullLive(src.buckets[..], src.hash, src.occupancy, src.insRmCount);
    FullLive(dst.buckets[..], dst.hash, dst.occupancy, dst.insRmCount);
    var n := if src.capacity < MIN_HT_CAPACITY then src.occupancy else src.capacity;
    assert src.buckets[..n] == Live(src.buckets[..], src.occupancy);
    MergeEntries(src.buckets, n, dst, leftDst, reduce);
  }

  /** The map that a possibly absent table stands for. */
  ghost function MapOrEmpty<V>(t: HyperTable?<V>): map<nat, V>
    reads t, if t != null then {t.buckets} else {}
  {
    if t == null then map[] else t.View()
  }

  /** Both tables hold entries, and so one is merged into the other. */
  ghost predicate BothFilled<V>(left: HyperTable?<V>, right: HyperTable?<V>)
    reads left, right
  {
    left != null && right != null && left.occupancy > 0 && right.occupancy > 0
  }

  /** Merges two tables; the fuller one is kept, and left views stay left. */
  method MergeTwo<V>(left: HyperTable?<V>, right: HyperTable?<V>, reduce: (V, V) -> V) returns (result: HyperTable?<V>)
    requires (left != null ==> left.Valid()) && (right != null ==> right.Valid())
    requires left != null && right != null ==> left != right && left.buckets != right.buckets
    requires BothFilled(left, right) ==>
               var dst := if left.occupancy >= right.occupancy then left else right;
               dst.Findable() && dst.Spare() && 4 * dst.capacity <= MAX_CAPACITY
    modifies left, if left != null then {left.buckets} else {}
    modifies right, if right != null then {right.buckets} else {}
    ensures result == left || result == right
    ensures result != null ==> result.Valid()
    ensures if old(BothFilled(left, right)) then result != null && result.Findable() && result.Spare()
            else (left != null ==> unchanged(left) && left.buckets[..] == old(left.buckets[..])) && (right != null ==> unchanged(right) && right.buckets[..] == old(right.buckets[..]))
    ensures MapOrEmpty(result) == Merged(old(MapOrEmpty(left)), old(MapOrEmpty(right)), reduce)
  {
    MergedIdentity(MapOrEmpty(left), reduce);
    MergedIdentity(MapOrEmpty(right), reduce);
    if left == null {
      return right;
    }
    if right == null {
      return left;
    }
    OccupancyIsSize(left.buckets[..], left.hash, left.occupancy, left.insRmCount);
    OccupancyIsSize(right.buckets[..], right.hash, right.occupancy, right.insRmCount);
    if left.occupancy == 0 {
      return right;
    }
    if right.occupancy == 0 {
      return left;
    }
    if left.occupancy >= right.occupancy {
      MergeInto(right, left, true, reduce);
      return left;
    } else {
      MergeInto(left, right, false, reduce);
      return right;
    }
  }
}
