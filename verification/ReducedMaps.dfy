/** The maps of the scheduler's runs as the hypertables that stand for them: each update
    goes to one reducer, and maps are merged reducer by reducer. */
module ReducedMaps {
  import opened Options
  import opened ClosureTree
  import opened ClosureInvariant
  import opened SerialOrder
  import opened MergeTables

  /** The reducer that an update is for, the view that it leaves in an empty hypermap,
      and the reduction of two views. */
  datatype Reading<!V> = Reading(key: int -> nat, view: int -> V, reduce: (V, V) -> V)

  function Updated<V>(u: int, r: Reading<V>): map<nat, V> { map[r.key(u) := r.view(u)] }

  /** The hypermap that a strand's updates leave. */
  function Views<V>(ht: HyperMap, r: Reading<V>): map<nat, V> {
    if ht == [] then map[] else Merged(Views(ht[..|ht| - 1], r), Updated(ht[|ht| - 1], r), r.reduce)
  }

  /** The views of one reducer's updates, in their order. */
  function Of<V>(ht: HyperMap, key: nat, r: Reading<V>): seq<V> {
    if ht == [] then [] else Of(ht[..|ht| - 1], key, r) + if r.key(ht[|ht| - 1]) == key then [r.view(ht[|ht| - 1])] else []
  }

  /** They are reduced from left to right. */
  function Reduced<V>(views: seq<V>, reduce: (V, V) -> V): V
    requires views != []
  {
    var n := |views| - 1;
    if n == 0 then views[0] else reduce(Reduced(views[..n], reduce), views[n])
  }

  lemma {:induction false} ViewOf<V>(ht: HyperMap, key: nat, r: Reading<V>)
    ensures key in Views(ht, r) <==> Of(ht, key, r) != []
    ensures key in Views(ht, r) ==> Views(ht, r)[key] == Reduced(Of(ht, key, r), r.reduce)
  {
    if ht != [] {
      var before, u := ht[..|ht| - 1], ht[|ht| - 1];
      ViewOf(before, key, r);
      var views := Of(before, key, r);
      if r.key(u) == key {
        assert (views + [r.view(u)])[..|views|] == views;
      } else {
        assert Of(ht, key, r) == views;
      }
    }
  }

  /** Only the empty map has no update: a returning child finds a map to merge exactly
      when there is one. */
  lemma EmptyViews<V>(ht: HyperMap, r: Reading<V>)
    ensures Views(ht, r) == map[] <==> ht == []
  {
    if ht != [] {
      var u := ht[|ht| - 1];
      assert r.key(u) in Views(ht, r);
    }
  }

  /** Joining two strands' updates is merging their hypermaps. */
  lemma {:induction false} JoinMerges<V(!new)>(a: HyperMap, b: HyperMap, r: Reading<V>)
    requires Associative(r.reduce)
    ensures Views(a + b, r) == Merged(Views(a, r), Views(b, r), r.reduce)
    decreases |b|
  {
    if b == [] {
      assert a + b == a;
      MergedIdentity(Views(a, r), r.reduce);
    } else {
      var n, u := |b| - 1, b[|b| - 1];
      assert (a + b)[..|a + b| - 1] == a + b[..n] && (a + b)[|a + b| - 1] == u;
      JoinMerges(a, b[..n], r);
      MergedAssociative(Views(a, r), Views(b[..n], r), Updated(u, r), r.reduce);
    }
  }

  /** __cilkrts_do_reductions merges the map of the left siblings, the worker's own, and
      the map of the right siblings, in this order. */
  lemma ReductionsMerge<V(!new)>(s: State, w: Wid, r: Reading<V>)
    requires Enabled(s, Reduce(w)) && Associative(r.reduce)
    ensures var k := s.workers[w];
      Views(DoReductions(s, w).workers[w].hyperTable, r)
      == Merged(Merged(Views(k.lht, r), Views(k.hyperTable, r), r.reduce), Views(k.rht, r), r.reduce)
  {
    var k := s.workers[w];
    JoinMerges(k.lht + k.hyperTable, k.rht, r);
    JoinMerges(k.lht, k.hyperTable, r);
  }

  /** In every run that finishes, each reducer's final view is the one of the serial
      elision: the views of its updates, reduced in serial order. */
  lemma SerialViews<V>(code: Code, nworkers: nat, steps: seq<Step>, t: State, r: Reading<V>, key: nat)
    requires nworkers > 0 && Reaches(Init(code, nworkers), steps, t) && t.result.Some?
    ensures var views, all := Views(t.result.value, r), Of(Serial(code), key, r);
      (key in views <==> all != []) && (key in views ==> views[key] == Reduced(all, r.reduce))
  {
    SerialDeterminism(code, nworkers, steps, t);
    ViewOf(Serial(code), key, r);
  }
}
