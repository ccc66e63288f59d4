/** What every step of the scheduler keeps. */
module ClosureInvariant {
  import opened Options
  import opened ClosureTree

  // ---------------------------------------------------------------------
  // The invariant
  // ---------------------------------------------------------------------

  /** The closures form a tree: every closure but the root is a spawned child or
      the callee of exactly one closure, and parents are older. */
  ghost predicate LinksOk(cls: map<Id, Closure>, c: Id)
    requires c in cls
  {
    var cl := cls[c];
    && (forall i, j | 0 <= i < j < |cl.children| :: cl.children[i] != cl.children[j])
    && (forall k | k in cl.children :: c < k && k in cls && cls[k].spawnParent == Some(c))
    && (cl.callee.Some? ==>
          && c < cl.callee.value && cl.callee.value in cls
          && cls[cl.callee.value].callParent == Some(c))
    && (cl.spawnParent.Some? ==>
          && cl.spawnParent.value < c && cl.spawnParent.value in cls
          && c in cls[cl.spawnParent.value].children && cl.callParent.None?)
    && (cl.callParent.Some? ==>
          && cl.callParent.value < c && cl.callParent.value in cls
          && cls[cl.callParent.value].callee == Some(c))
    && (cl.spawnParent.None? && cl.callParent.None? <==> c == ROOT)
  }

  function Outstanding(cl: Closure): nat {
    |cl.children| + if cl.callee.Some? then 1 else 0
  }

  /** join_counter counts the linked children and the callee, a synched frame has
      no child and no child map, and a suspended closure waits for something. */
  ghost predicate CountsOk(cl: Closure) {
    && cl.joinCounter == Outstanding(cl)
    && (!cl.unsynced ==> cl.children == [] && cl.childHt == [])
    && (cl.status == Suspended <==> cl.runner.None?)
    && (cl.runner.Some? ==> cl.callee.None? && cl.userHt == [] && cl.frames == [])
    && (cl.runner.None? ==> Outstanding(cl) > 0 && cl.frames != [] && cl.owner.None?)
    && (cl.runner.None? && cl.callee.None? ==> |cl.frames| == 1 && cl.unsynced)
    && (cl.callee.Some? ==> cl.userHt == [])
    && (cl.owner.Some? ==> cl.status == Running)
    && (cl.spawnParent.None? ==> cl.rightHt == [])
  }

  ghost predicate RunnerOk(s: State, c: Id)
    requires c in s.closures
  {
    var cl := s.closures[c];
    && (cl.runner.Some? ==>
          && cl.runner.value < |s.workers|
          && !s.workers[cl.runner.value].phase.Stealing?
          && s.workers[cl.runner.value].closure == c)
    && (cl.owner.Some? ==> cl.owner.value < |s.busy| && s.busy[cl.owner.value] == Some(c))
  }

  ghost predicate WorkerOk(s: State, w: Wid)
    requires w < |s.workers| == |s.busy|
  {
    var k := s.workers[w];
    && (k.phase.Stealing? ==> k == IDLE)
    && (!k.phase.Stealing? ==> k.closure in s.closures && HoldsOk(k, w, s.closures[k.closure]))
    && s.busy[w] == (if k.phase.User? then Some(k.closure) else None)
  }

  /** Worker `k` with identifier `w` executes or returns closure `cl`. */
  ghost predicate HoldsOk(k: Worker, w: Wid, cl: Closure) {
    && cl.runner == Some(w)
    && k.stack != []
    && cl.status == (if k.phase.Leaving? then Returning else Running)
    && (if k.phase == Entering(true) || k.phase == User(true)
        then |k.stack| == 1 && !cl.unsynced
        else k.lht == [] && k.rht == [])
    && (k.phase.Leaving? ==> |k.stack| == 1 && k.stack[0].rest == [] && !cl.unsynced && cl.spawnParent.Some?)
    && (k.phase.User? ==> cl.owner == Some(w))
  }

  ghost predicate Links(cls: map<Id, Closure>, next: Id) {
    && (forall c | c in cls :: c < next)
    && (forall c {:trigger LinksOk(cls, c)} | c in cls :: LinksOk(cls, c))
  }

  ghost predicate Counts(cls: map<Id, Closure>) {
    forall c {:trigger CountsOk(cls[c])} | c in cls :: CountsOk(cls[c])
  }

  ghost predicate Runners(s: State) {
    && |s.workers| == |s.busy|
    && (forall c {:trigger RunnerOk(s, c)} | c in s.closures :: RunnerOk(s, c))
    && (forall w {:trigger WorkerOk(s, w)} | 0 <= w < |s.workers| :: WorkerOk(s, w))
  }

  ghost predicate Inv(s: State) {
    ROOT in s.closures && Links(s.closures, s.next) && Counts(s.closures) && Runners(s)
  }

  // ---------------------------------------------------------------------
  // What a step leaves alone
  // ---------------------------------------------------------------------

  predicate SameLinks(a: Closure, b: Closure) {
    a.children == b.children && a.callee == b.callee && a.spawnParent == b.spawnParent && a.callParent == b.callParent
  }

  lemma LinksKept(s: map<Id, Closure>, t: map<Id, Closure>, next: Id)
    requires Links(s, next) && s.Keys == t.Keys
    requires forall c | c in s :: SameLinks(s[c], t[c])
    ensures Links(t, next)
  {
    forall c | c in t
      ensures LinksOk(t, c)
    {
      assert LinksOk(s, c);
    }
  }

  lemma CountsUpdate(cls: map<Id, Closure>, x: Id, cl: Closure)
    requires Counts(cls) && x in cls && CountsOk(cl)
    ensures Counts(cls[x := cl])
  {
    assert forall c | c in cls :: CountsOk(cls[c]);
  }

  predicate SameRun(a: Closure, b: Closure) {
    a.runner == b.runner && a.owner == b.owner && a.status == b.status && a.unsynced == b.unsynced
    && a.spawnParent == b.spawnParent
  }

  /** If only workers `ws` and the closures `cs` they hold take part in a step,
      the others stay as they were. */
  lemma OthersKept(s: State, t: State, ws: set<Wid>, cs: set<Id>)
    requires Runners(s) && |s.workers| == |t.workers| == |t.busy|
    requires forall v | 0 <= v < |s.workers| && v !in ws :: s.workers[v] == t.workers[v] && s.busy[v] == t.busy[v]
    requires forall c | c in s.closures && c !in cs :: c in t.closures && SameRun(s.closures[c], t.closures[c])
    requires forall w | w in ws && w < |s.workers| :: s.workers[w].phase.Stealing? || s.workers[w].closure in cs
    requires forall c | c in cs && c in s.closures :: s.closures[c].runner.Some? ==> s.closures[c].runner.value in ws
    ensures forall v | 0 <= v < |s.workers| && v !in ws :: WorkerOk(t, v)
    ensures forall c {:trigger RunnerOk(t, c)} | c in s.closures && c !in cs :: RunnerOk(t, c)
  {
    forall v | 0 <= v < |s.workers| && v !in ws
      ensures WorkerOk(t, v)
    {
      assert WorkerOk(s, v);
    }
    forall c | c in s.closures && c !in cs
      ensures RunnerOk(t, c)
    {
      assert RunnerOk(s, c);
      var owner := s.closures[c].owner;
      if owner.Some? {
        assert WorkerOk(s, owner.value);
      }
    }
  }

  // ---------------------------------------------------------------------
  // Steps
  // ---------------------------------------------------------------------

  /** A step of worker `w` alone that changes at most its own closure's fields. */
  lemma OwnStepKeepsInv(s: State, t: State, w: Wid)
    requires Inv(s) && w < |s.workers| && !s.workers[w].phase.Stealing?
    requires s.workers[w].closure in s.closures
    requires |t.workers| == |t.busy| == |s.workers| && t.next == s.next
    requires forall v | 0 <= v < |s.workers| && v != w :: s.workers[v] == t.workers[v] && s.busy[v] == t.busy[v]
    requires s.workers[w].closure in t.closures
    requires t.closures == s.closures[s.workers[w].closure := t.closures[s.workers[w].closure]]
    requires var x := s.workers[w].closure; SameLinks(s.closures[x], t.closures[x]) && CountsOk(t.closures[x]) && RunnerOk(t, x)
    requires WorkerOk(t, w)
    ensures Inv(t)
  {
    var x := s.workers[w].closure;
    LinksKept(s.closures, t.closures, s.next);
    assert WorkerOk(s, w);
    OthersKept(s, t, {w}, {x});
    forall c | c in t.closures
      ensures CountsOk(t.closures[c]) && RunnerOk(t, c)
    {
      if c != x {
        assert CountsOk(s.closures[c]);
      }
    }
  }

  lemma ExecKeepsInv(s: State, w: Wid)
    requires Inv(s) && Enabled(s, Exec(w))
    ensures Inv(DoExec(s, w))
  {
    var x := s.workers[w].closure;
    assert WorkerOk(s, w) && CountsOk(s.closures[x]) && RunnerOk(s, x);
    OwnStepKeepsInv(s, DoExec(s, w), w);
  }

  lemma EnterKeepsInv(s: State, w: Wid)
    requires Inv(s) && Enabled(s, Enter(w))
    ensures Inv(DoEnter(s, w))
  {
    var x := s.workers[w].closure;
    assert WorkerOk(s, w) && CountsOk(s.closures[x]) && RunnerOk(s, x);
    OwnStepKeepsInv(s, DoEnter(s, w), w);
  }

  lemma SyncKeepsInv(s: State, w: Wid)
    requires Inv(s) && Enabled(s, SyncStep(w))
    ensures Inv(DoSync(s, w))
  {
    var x := s.workers[w].closure;
    assert WorkerOk(s, w) && CountsOk(s.closures[x]) && RunnerOk(s, x);
    OwnStepKeepsInv(s, DoSync(s, w), w);
  }

  lemma ReduceKeepsInv(s: State, w: Wid)
    requires Inv(s) && Enabled(s, Reduce(w))
    ensures Inv(DoReductions(s, w))
  {
    assert WorkerOk(s, w);
    var x := s.workers[w].closure;
    assert CountsOk(s.closures[x]) && RunnerOk(s, x);
    OwnStepKeepsInv(s, DoReductions(s, w), w);
  }

  lemma BeginReturnKeepsInv(s: State, w: Wid)
    requires Inv(s) && Enabled(s, BeginReturn(w))
    ensures Inv(DoBeginReturn(s, w))
  {
    var x := s.workers[w].closure;
    assert WorkerOk(s, w) && CountsOk(s.closures[x]) && RunnerOk(s, x);
    OwnStepKeepsInv(s, DoBeginReturn(s, w), w);
  }

  // ---------------------------------------------------------------------
  // Tree edits
  // ---------------------------------------------------------------------

  predicate Leaf(cl: Closure) { cl.children == [] && cl.callee.None? }

  /** add_child with a fresh closure. */
  lemma AddChildKeepsLinks(cls: map<Id, Closure>, next: Id, p: Id, parent: Closure, child: Closure)
    requires Links(cls, next) && p in cls
    requires SameLinks(cls[p].(children := cls[p].children + [next]), parent)
    requires Leaf(child) && child.spawnParent == Some(p) && child.callParent.None? && next != ROOT
    ensures Links(cls[p := parent][next := child], next + 1)
  {
    var t := cls[p := parent][next := child];
    assert LinksOk(cls, p);
    assert parent.children[|parent.children| - 1] == next;
    assert forall k | k in cls[p].children :: k in cls && k < next;
    assert forall i | 0 <= i < |cls[p].children| :: parent.children[i] in cls[p].children;
    forall c | c in t
      ensures LinksOk(t, c)
    {
      if c in cls {
        assert LinksOk(cls, c);
        assert c != p ==> t[c] == cls[c];
      }
    }
  }

  /** add_callee with a fresh closure. */
  lemma AddCalleeKeepsLinks(cls: map<Id, Closure>, next: Id, p: Id, parent: Closure, callee: Closure)
    requires Links(cls, next) && p in cls && cls[p].callee.None?
    requires SameLinks(cls[p].(callee := Some(next)), parent)
    requires Leaf(callee) && callee.callParent == Some(p) && callee.spawnParent.None? && next != ROOT
    ensures Links(cls[p := parent][next := callee], next + 1)
  {
    var t := cls[p := parent][next := callee];
    assert LinksOk(cls, p);
    forall c | c in t
      ensures LinksOk(t, c)
    {
      if c in cls {
        assert LinksOk(cls, c);
      }
    }
  }

  lemma WithoutFacts(children: seq<Id>, j: nat)
    requires j < |children|
    requires forall i, k | 0 <= i < k < |children| :: children[i] != children[k]
    ensures var left := Without(children, j);
      && (forall i, k | 0 <= i < k < |left| :: left[i] != left[k])
      && (forall c :: c in left <==> c in children && c != children[j])
  {
    var left := Without(children, j);
    forall c
      ensures c in left <==> c in children && c != children[j]
    {
      if c in children && c != children[j] {
        var i :| 0 <= i < |children| && children[i] == c;
        assert left[if i < j then i else i - 1] == c;
      }
    }
  }

  /** remove_child and the destruction of the child. */
  lemma RemoveChildKeepsLinks(cls: map<Id, Closure>, next: Id, p: Id, j: nat, parent: Closure)
    requires Links(cls, next) && p in cls && j < |cls[p].children|
    requires var c := cls[p].children[j]; c in cls && Leaf(cls[c])
    requires SameLinks(cls[p].(children := Without(cls[p].children, j)), parent)
    ensures Links((cls - {cls[p].children[j]})[p := parent], next)
  {
    var gone := cls[p].children[j];
    var t := (cls - {gone})[p := parent];
    assert LinksOk(cls, p);
    assert LinksOk(cls, gone);
    WithoutFacts(cls[p].children, j);
    forall c | c in t
      ensures LinksOk(t, c)
    {
      assert LinksOk(cls, c);
      assert c != p ==> t[c] == cls[c];
    }
  }

  /** remove_callee and the destruction of the callee. */
  lemma RemoveCalleeKeepsLinks(cls: map<Id, Closure>, next: Id, p: Id, parent: Closure)
    requires Links(cls, next) && p in cls && cls[p].callee.Some?
    requires var c := cls[p].callee.value; c in cls && Leaf(cls[c])
    requires SameLinks(cls[p].(callee := None), parent)
    ensures Links((cls - {cls[p].callee.value})[p := parent], next)
  {
    var gone := cls[p].callee.value;
    var t := (cls - {gone})[p := parent];
    assert LinksOk(cls, p);
    assert LinksOk(cls, gone);
    forall c | c in t
      ensures LinksOk(t, c)
    {
      assert LinksOk(cls, c);
    }
  }

  // ---------------------------------------------------------------------
  // Steals and returns
  // ---------------------------------------------------------------------

  lemma StealOwnFrameKeepsTree(s: State, thief: Wid, victim: Wid)
    requires Inv(s) && Enabled(s, Steal(thief, victim, 0))
    ensures var t := DoSteal(s, thief, victim, 0); ROOT in t.closures && Links(t.closures, t.next) && Counts(t.closures)
  {
    var t := DoSteal(s, thief, victim, 0);
    var x := s.workers[victim].closure;
    assert WorkerOk(s, victim) && CountsOk(s.closures[x]);
    AddChildKeepsLinks(s.closures, s.next, x, t.closures[x], t.closures[s.next]);
    forall c | c in t.closures
      ensures CountsOk(t.closures[c])
    {
      if c != x && c != s.next {
        assert CountsOk(s.closures[c]);
      }
    }
  }

  lemma StealOwnFrameKeepsInv(s: State, thief: Wid, victim: Wid)
    requires Inv(s) && Enabled(s, Steal(thief, victim, 0))
    ensures Inv(DoSteal(s, thief, victim, 0))
  {
    var t := DoSteal(s, thief, victim, 0);
    var x := s.workers[victim].closure;
    assert WorkerOk(s, victim) && WorkerOk(s, thief) && RunnerOk(s, x);
    StealOwnFrameKeepsTree(s, thief, victim);
    OthersKept(s, t, {thief, victim}, {x});
    assert RunnerOk(t, x) && RunnerOk(t, s.next);
    forall v | 0 <= v < |t.workers|
      ensures WorkerOk(t, v)
    {
    }
  }

  lemma StealCalledFrameKeepsTree(s: State, thief: Wid, victim: Wid, head: nat)
    requires Inv(s) && Enabled(s, Steal(thief, victim, head)) && head > 0
    ensures var t := DoSteal(s, thief, victim, head); ROOT in t.closures && Links(t.closures, t.next) && Counts(t.closures)
  {
    var t := DoSteal(s, thief, victim, head);
    var x := s.workers[victim].closure;
    assert WorkerOk(s, victim) && CountsOk(s.closures[x]);
    var called := NewClosure(None, Some(x), thief);
    AddCalleeKeepsLinks(s.closures, s.next, x, t.closures[x], called);
    AddChildKeepsLinks(s.closures[x := t.closures[x]][s.next := called], s.next + 1, s.next,
                       t.closures[s.next], t.closures[s.next + 1]);
    assert t.closures == s.closures[x := t.closures[x]][s.next := called]
                         [s.next := t.closures[s.next]][s.next + 1 := t.closures[s.next + 1]];
    forall c | c in t.closures
      ensures CountsOk(t.closures[c])
    {
      if c != x && c != s.next && c != s.next + 1 {
        assert CountsOk(s.closures[c]);
      }
    }
  }

  lemma StealCalledFrameKeepsInv(s: State, thief: Wid, victim: Wid, head: nat)
    requires Inv(s) && Enabled(s, Steal(thief, victim, head)) && head > 0
    ensures Inv(DoSteal(s, thief, victim, head))
  {
    StealCalledFrameKeepsTree(s, thief, victim, head);
    StealCalledFrameKeepsRunners(s, thief, victim, head);
  }

  lemma StealCalledFrameKeepsRunners(s: State, thief: Wid, victim: Wid, head: nat)
    requires Inv(s) && Enabled(s, Steal(thief, victim, head)) && head > 0
    ensures Runners(DoSteal(s, thief, victim, head))
  {
    var t := DoSteal(s, thief, victim, head);
    var x := s.workers[victim].closure;
    assert WorkerOk(s, victim) && WorkerOk(s, thief) && RunnerOk(s, x);
    OthersKept(s, t, {thief, victim}, {x});
    assert RunnerOk(t, x) && RunnerOk(t, s.next) && RunnerOk(t, s.next + 1);
    assert WorkerOk(t, thief) && WorkerOk(t, victim);
  }

  lemma CallReturnKeepsInv(s: State, w: Wid)
    requires Inv(s) && Enabled(s, CallReturn(w))
    ensures Inv(DoCallReturn(s, w))
  {
    var t := DoCallReturn(s, w);
    var x := s.workers[w].closure;
    assert WorkerOk(s, w) && CountsOk(s.closures[x]) && RunnerOk(s, x) && LinksOk(s.closures, x);
    var p := s.closures[x].callParent.value;
    assert CountsOk(s.closures[p]);
    RemoveCalleeKeepsLinks(s.closures, s.next, p, t.closures[p]);
    OthersKept(s, t, {w}, {x, p});
    forall c | c in t.closures
      ensures CountsOk(t.closures[c]) && RunnerOk(t, c)
    {
      if c != p {
        assert CountsOk(s.closures[c]);
      }
    }
  }

  /** `*lht_ptr = ht` touches a map slot only. */
  lemma SetLeftMapKeepsTree(s: State, p: Id, j: nat, ht: HyperMap)
    requires Inv(s) && p in s.closures && j < |s.closures[p].children|
    requires forall k :: k in s.closures[p].children ==> k in s.closures
    requires s.closures[p].unsynced
    ensures var t := SetLeftMap(s, p, j, ht);
      && t.Keys == s.closures.Keys && Links(t, s.next) && Counts(t)
      && (forall c | c in t :: SameLinks(s.closures[c], t[c]) && SameRun(s.closures[c], t[c])
                            && s.closures[c].joinCounter == t[c].joinCounter && s.closures[c].frames == t[c].frames)
  {
    var t := SetLeftMap(s, p, j, ht);
    LinksKept(s.closures, t, s.next);
    assert LinksOk(s.closures, p);
    var c := if j == 0 then p else s.closures[p].children[j - 1];
    assert CountsOk(s.closures[c]);
    CountsUpdate(s.closures, c, t[c]);
  }

  lemma TakeMapsKeepsTree(s: State, w: Wid, c: Id, p: Id, j: nat)
    requires Inv(s) && Enabled(s, Return(w)) && c == s.workers[w].closure && p == s.closures[c].spawnParent.value
    requires j < |s.closures[p].children| && s.closures[p].children[j] == c
    ensures var t := TakeMaps(s, w, c, p, j).closures;
      && ROOT in t && Links(t, s.next) && Counts(t) && t.Keys == s.closures.Keys
      && (forall d | d in t && d != c :: SameRun(s.closures[d], t[d]))
      && t[c].status == Running && SameRun(s.closures[c].(status := Running), t[c])
  {
    var t := TakeMaps(s, w, c, p, j).closures;
    assert WorkerOk(s, w) && CountsOk(s.closures[c]) && LinksOk(s.closures, c) && CountsOk(s.closures[p]);
    var cls := SetLeftMap(s, p, j, []);
    SetLeftMapKeepsTree(s, p, j, []);
    LinksKept(cls, t, s.next);
    assert CountsOk(cls[c]);
    CountsUpdate(cls, c, t[c]);
  }

  lemma TakeMapsKeepsInv(s: State, w: Wid, c: Id, p: Id, j: nat)
    requires Inv(s) && Enabled(s, Return(w)) && c == s.workers[w].closure && p == s.closures[c].spawnParent.value
    requires j < |s.closures[p].children| && s.closures[p].children[j] == c
    ensures Inv(TakeMaps(s, w, c, p, j))
  {
    var t := TakeMaps(s, w, c, p, j);
    assert WorkerOk(s, w) && RunnerOk(s, c);
    TakeMapsKeepsTree(s, w, c, p, j);
    OthersKept(s, t, {w}, {c});
    assert WorkerOk(t, w) && RunnerOk(t, c);
  }

  /** After the deposit the tree is in order but for one thing: a suspended
      parent may have nothing left to wait for. */
  lemma DepositKeepsTree(s: State, w: Wid, c: Id, p: Id, j: nat)
    requires Inv(s) && Enabled(s, Return(w)) && c == s.workers[w].closure && p == s.closures[c].spawnParent.value
    requires j < |s.closures[p].children| && s.closures[p].children[j] == c
    ensures var t := Deposit(s, w, c, p, j); ROOT in t.closures && Links(t.closures, t.next)
    ensures var t := Deposit(s, w, c, p, j);
      && (forall d | d in t.closures && d != p :: d in s.closures && CountsOk(t.closures[d]))
      && t.closures[p].joinCounter == Outstanding(t.closures[p]) >= 0
      && SameRun(s.closures[p], t.closures[p]) && t.closures[p].frames == s.closures[p].frames
      && t.closures[p].callee == s.closures[p].callee
      && (t.closures[p].joinCounter != 0 ==> CountsOk(t.closures[p]))
  {
    var t := Deposit(s, w, c, p, j);
    assert WorkerOk(s, w) && CountsOk(s.closures[c]) && LinksOk(s.closures, c) && CountsOk(s.closures[p]);
    var cls := SetLeftMap(s, p, j, s.workers[w].hyperTable);
    SetLeftMapKeepsTree(s, p, j, s.workers[w].hyperTable);
    RemoveChildKeepsLinks(cls, s.next, p, j, t.closures[p]);
    assert CountsOk(cls[p]);
    forall d | d in t.closures && d != p
      ensures d in s.closures && CountsOk(t.closures[d])
    {
      assert CountsOk(cls[d]);
    }
  }

  lemma DepositKeepsRunners(s: State, w: Wid, c: Id, p: Id, j: nat)
    requires Inv(s) && Enabled(s, Return(w)) && c == s.workers[w].closure && p == s.closures[c].spawnParent.value
    requires j < |s.closures[p].children| && s.closures[p].children[j] == c
    ensures Runners(Deposit(s, w, c, p, j))
  {
    var t := Deposit(s, w, c, p, j);
    assert WorkerOk(s, w) && RunnerOk(s, c) && CountsOk(s.closures[p]);
    SetLeftMapKeepsTree(s, p, j, s.workers[w].hyperTable);
    OthersKept(s, t, {w}, {c});
    assert WorkerOk(t, w);
  }

  lemma ProvablyGoodStealKeepsInv(s: State, w: Wid, p: Id)
    requires Runners(s) && ROOT in s.closures && Links(s.closures, s.next)
    requires p in s.closures && w < |s.workers| && s.workers[w] == IDLE
    requires forall d | d in s.closures && d != p :: CountsOk(s.closures[d])
    requires var cl := s.closures[p];
      && cl.status == Suspended && cl.runner.None? && cl.owner.None? && |cl.frames| == 1
      && cl.joinCounter == 0 && Leaf(cl) && (cl.spawnParent.None? ==> cl.rightHt == [])
    ensures Inv(ProvablyGoodSteal(s, w, p))
  {
    var t := ProvablyGoodSteal(s, w, p);
    assert WorkerOk(s, w) && RunnerOk(s, p);
    LinksKept(s.closures, t.closures, s.next);
    OthersKept(s, t, {w}, {p});
    assert WorkerOk(t, w) && RunnerOk(t, p) && CountsOk(t.closures[p]);
  }

  lemma ReturnKeepsInv(s: State, w: Wid)
    requires Inv(s) && Enabled(s, Return(w))
    ensures Inv(DoReturn(s, w))
  {
    var c := s.workers[w].closure;
    var p := s.closures[c].spawnParent.value;
    var j := IndexOf(s.closures[p].children, c);
    if LeftMap(s, p, j) != [] || s.closures[c].rightHt != [] {
      TakeMapsKeepsInv(s, w, c, p, j);
    } else {
      var t := Deposit(s, w, c, p, j);
      DepositKeepsTree(s, w, c, p, j);
      DepositKeepsRunners(s, w, c, p, j);
      assert CountsOk(s.closures[p]);
      if t.closures[p].joinCounter == 0 && t.closures[p].status == Suspended {
        ProvablyGoodStealKeepsInv(t, w, p);
      } else {
        assert CountsOk(t.closures[p]);
      }
    }
  }

  lemma FinishKeepsInv(s: State, w: Wid)
    requires Inv(s) && Enabled(s, Finish(w))
    ensures Inv(DoFinish(s, w))
  {
    var x := s.workers[w].closure;
    assert WorkerOk(s, w) && CountsOk(s.closures[x]) && RunnerOk(s, x);
    OwnStepKeepsInv(s, DoFinish(s, w), w);
  }
}
