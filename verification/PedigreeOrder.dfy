/** The pedigrees of the serial elision: in serial order they increase, so that no two
    draws have the same. */
module PedigreeOrder {
  import opened Options
  import opened ClosureTree
  import opened PedigreeRuns

  /** The lexicographic order, a prefix first. */
  predicate Less(p: Pedigree, q: Pedigree) {
    q != [] && (p == [] || p[0] < q[0] || (p[0] == q[0] && Less(p[1..], q[1..])))
  }

  lemma {:induction false} LessTransitive(p: Pedigree, q: Pedigree, r: Pedigree)
    requires Less(p, q) && Less(q, r)
    ensures Less(p, r)
  {
    if p != [] && p[0] == q[0] == r[0] {
      LessTransitive(p[1..], q[1..], r[1..]);
    }
  }

  lemma {:induction false} LessIrreflexive(p: Pedigree)
    ensures !Less(p, p)
  {
    if p != [] {
      LessIrreflexive(p[1..]);
    }
  }

  lemma {:induction false} LessBelow(chain: seq<nat>, p: Pedigree, q: Pedigree)
    ensures Less(chain + p, chain + q) <==> Less(p, q)
  {
    if chain == [] {
      assert chain + p == p && chain + q == q;
    } else {
      assert (chain + p)[1..] == chain[1..] + p && (chain + q)[1..] == chain[1..] + q;
      LessBelow(chain[1..], p, q);
    }
  }

  /** A draw between two ranks of the frame `chain`. */
  ghost predicate Between(p: Pedigree, chain: seq<nat>, from: nat, to: nat) {
    Less(chain + [from], p) && (p == chain + [to] || Less(p, chain + [to]))
  }

  ghost predicate AllBetween(ds: seq<Draw>, chain: seq<nat>, from: nat, to: nat) {
    forall i | 0 <= i < |ds| :: Between(ds[i].pedigree, chain, from, to)
  }

  lemma RanksLess(chain: seq<nat>, r: nat, s: nat)
    ensures r < s ==> Less(chain + [r], chain + [s])
  {
    LessBelow(chain, [r], [s]);
  }

  lemma Widened(p: Pedigree, chain: seq<nat>, from: nat, to: nat, from': nat, to': nat)
    requires Between(p, chain, from, to) && from' <= from && to <= to'
    ensures Between(p, chain, from', to')
  {
    if from' < from {
      RanksLess(chain, from', from);
      LessTransitive(chain + [from'], chain + [from], p);
    }
    if to < to' {
      RanksLess(chain, to, to');
      if p != chain + [to] {
        LessTransitive(p, chain + [to], chain + [to']);
      }
    }
  }

  lemma AllWidened(ds: seq<Draw>, chain: seq<nat>, from: nat, to: nat, from': nat, to': nat)
    requires AllBetween(ds, chain, from, to) && from' <= from && to <= to'
    ensures AllBetween(ds, chain, from', to')
  {
    forall i | 0 <= i < |ds|
      ensures Between(ds[i].pedigree, chain, from', to')
    {
      Widened(ds[i].pedigree, chain, from, to, from', to');
    }
  }

  /** The draws of a spawned function lie between two ranks of its parent. */
  lemma ChildBetween(p: Pedigree, chain: seq<nat>, rank: nat, from: nat, to: nat)
    requires Between(p, chain + [rank], from, to)
    ensures Between(p, chain, rank, rank + 1)
  {
    assert chain + [rank] + [from] == chain + [rank, from] && chain + [rank] + [to] == chain + [rank, to];
    LessBelow(chain, [rank], [rank, from]);
    LessTransitive(chain + [rank], chain + [rank, from], p);
    LessBelow(chain, [rank, to], [rank + 1]);
    if p != chain + [rank, to] {
      LessTransitive(p, chain + [rank, to], chain + [rank + 1]);
    }
  }

  /** Draws in increasing order, between two ranks of a frame. */
  ghost predicate InOrder(ds: seq<Draw>, chain: seq<nat>, from: nat, to: nat) {
    AllBetween(ds, chain, from, to) && forall i, j | 0 <= i < j < |ds| :: Less(ds[i].pedigree, ds[j].pedigree)
  }

  /** The draws up to a rank come before those after it. */
  lemma Appended(a: seq<Draw>, b: seq<Draw>, chain: seq<nat>, from: nat, mid: nat, to: nat)
    requires InOrder(a, chain, from, mid) && InOrder(b, chain, mid, to) && from <= mid <= to
    ensures InOrder(a + b, chain, from, to)
  {
    AllWidened(a, chain, from, mid, from, to);
    AllWidened(b, chain, mid, to, from, to);
    forall i, j | 0 <= i < j < |a + b|
      ensures Less((a + b)[i].pedigree, (a + b)[j].pedigree)
    {
      if i < |a| <= j {
        var p, q := a[i].pedigree, b[j - |a|].pedigree;
        assert Between(p, chain, from, mid) && Between(q, chain, mid, to);
        if p != chain + [mid] {
          LessTransitive(p, chain + [mid], q);
        }
      }
    }
  }

  lemma OneDraw(u: int, chain: seq<nat>, rank: nat)
    ensures InOrder([Draw(u, chain + [rank + 1])], chain, rank, rank + 1)
  {
    RanksLess(chain, rank, rank + 1);
  }

  lemma ChildInOrder(ds: seq<Draw>, chain: seq<nat>, rank: nat, to: nat)
    requires InOrder(ds, chain + [rank], 0, to)
    ensures InOrder(ds, chain, rank, rank + 1)
  {
    forall i | 0 <= i < |ds|
      ensures Between(ds[i].pedigree, chain, rank, rank + 1)
    {
      ChildBetween(ds[i].pedigree, chain, rank, 0, to);
    }
  }

  lemma {:induction false} DrawsInOrder(code: Code, chain: seq<nat>, rank: nat, lab: Labels)
    ensures InOrder(Draws(code, chain, rank, lab), chain, rank, rank + Ticks(code, lab))
  {
    if code != [] {
      var to, ds := rank + Ticks(code, lab), Draws(code, chain, rank, lab);
      match code[0]
      case Update(u) =>
        if lab(u).Some? {
          var rest := Draws(code[1..], chain, rank + 1, lab);
          DrawsInOrder(code[1..], chain, rank + 1, lab);
          OneDraw(u, chain, rank);
          Appended([Draw(u, chain + [rank + 1])], rest, chain, rank, rank + 1, to);
        } else {
          DrawsInOrder(code[1..], chain, rank, lab);
        }
      case Spawn(body) =>
        var child, rest := Draws(body, chain + [rank], 0, lab), Draws(code[1..], chain, rank + 1, lab);
        DrawsInOrder(body, chain + [rank], 0, lab);
        DrawsInOrder(code[1..], chain, rank + 1, lab);
        ChildInOrder(child, chain, rank, Ticks(body, lab));
        Appended(child, rest, chain, rank, rank + 1, to);
      case Call(body) =>
        var mid := rank + Ticks(body, lab);
        var callee, rest := Draws(body, chain, rank, lab), Draws(code[1..], chain, mid, lab);
        DrawsInOrder(body, chain, rank, lab);
        DrawsInOrder(code[1..], chain, mid, lab);
        Appended(callee, rest, chain, rank, mid, to);
      case Sync =>
        DrawsInOrder(code[1..], chain, rank + 1, lab);
        AllWidened(ds, chain, rank + 1, to, rank, to);
    }
  }

  /** In the serial elision the pedigrees of the draws increase, and no two draws have the
      same pedigree. */
  lemma SerialPedigreesIncrease(code: Code, lab: Labels, i: nat, j: nat)
    requires i < j < |Draws(code, [], 0, lab)|
    ensures var ds := Draws(code, [], 0, lab); Less(ds[i].pedigree, ds[j].pedigree) && ds[i].pedigree != ds[j].pedigree
  {
    DrawsInOrder(code, [], 0, lab);
    LessIrreflexive(Draws(code, [], 0, lab)[i].pedigree);
  }

  // ---------------------------------------------------------------------
  // What a rank counts
  // ---------------------------------------------------------------------

  /** The instructions that a function performs on its own pedigree frame, with those of
      the functions that it calls. */
  function OnFrame(code: Code): Code
    decreases code
  {
    if code == [] then [] else if code[0].Call? then OnFrame(code[0].body) + OnFrame(code[1..]) else [code[0]] + OnFrame(code[1..])
  }

  predicate Counts(i: Instr, lab: Labels) { i.Spawn? || i.Sync? || (i.Update? && lab(i.u).Some?) }

  function Counting(code: Code, lab: Labels): Code {
    if code == [] then [] else (if Counts(code[0], lab) then [code[0]] else []) + Counting(code[1..], lab)
  }

  lemma Joined<T>(a: seq<T>, b: seq<T>, c: seq<T>)
    ensures a + (b + c) == a + b + c
  {
  }

  lemma {:induction false} CountingAppend(a: Code, b: Code, lab: Labels)
    ensures Counting(a + b, lab) == Counting(a, lab) + Counting(b, lab)
  {
    if a == [] {
      assert a + b == b;
    } else {
      assert (a + b)[0] == a[0] && (a + b)[1..] == a[1..] + b;
      CountingAppend(a[1..], b, lab);
      Joined(if Counts(a[0], lab) then [a[0]] else [], Counting(a[1..], lab), Counting(b, lab));
    }
  }

  /** A rank counts the spawns, the syncs and the draws of its frame, each once. */
  lemma {:induction false} RankCounts(code: Code, lab: Labels)
    ensures Ticks(code, lab) == |Counting(OnFrame(code), lab)|
    decreases code
  {
    if code != [] {
      RankCounts(code[1..], lab);
      if code[0].Call? {
        RankCounts(code[0].body, lab);
        CountingAppend(OnFrame(code[0].body), OnFrame(code[1..]), lab);
      } else {
        assert ([code[0]] + OnFrame(code[1..]))[1..] == OnFrame(code[1..]);
      }
    }
  }

  lemma {:induction false} DrawsAppend(a: Code, b: Code, chain: seq<nat>, rank: nat, lab: Labels)
    ensures Draws(a + b, chain, rank, lab) == Draws(a, chain, rank, lab) + Draws(b, chain, rank + Ticks(a, lab), lab)
    decreases a
  {
    if a == [] {
      assert a + b == b;
    } else {
      var rest, to := a[1..] + b, rank + Ticks(a, lab);
      var last := Draws(b, chain, to, lab);
      assert (a + b)[0] == a[0] && (a + b)[1..] == rest;
      match a[0]
      case Update(u) =>
        if lab(u).Some? {
          DrawsAppend(a[1..], b, chain, rank + 1, lab);
          Joined([Draw(u, chain + [rank + 1])], Draws(a[1..], chain, rank + 1, lab), last);
        } else {
          DrawsAppend(a[1..], b, chain, rank, lab);
        }
      case Spawn(body) =>
        DrawsAppend(a[1..], b, chain, rank + 1, lab);
        Joined(Draws(body, chain + [rank], 0, lab), Draws(a[1..], chain, rank + 1, lab), last);
      case Call(body) =>
        var mid := rank + Ticks(body, lab);
        DrawsAppend(a[1..], b, chain, mid, lab);
        Joined(Draws(body, chain, rank, lab), Draws(a[1..], chain, mid, lab), last);
      case Sync =>
        DrawsAppend(a[1..], b, chain, rank + 1, lab);
    }
  }

  /** A draw that follows `before` in a function has its frame's chain and the rank that it
      raises. */
  lemma DrawAfter(before: Code, u: int, chain: seq<nat>, rank: nat, lab: Labels)
    requires lab(u).Some?
    ensures Draws(before + [Update(u)], chain, rank, lab)
         == Draws(before, chain, rank, lab) + [Draw(u, chain + [rank + |Counting(OnFrame(before), lab)| + 1])]
  {
    DrawsAppend(before, [Update(u)], chain, rank, lab);
    RankCounts(before, lab);
    assert [Update(u)][1..] == [];
  }
}
