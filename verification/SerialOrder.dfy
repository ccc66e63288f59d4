/** Reducer determinism: whatever the schedule, the hypermaps of the closure tree
    flatten to the updates of the serial elision. */
module SerialOrder {
  import opened Options
  import opened ClosureTree
  import opened ClosureInvariant

  // ---------------------------------------------------------------------
  // Flattening
  // ---------------------------------------------------------------------

  lemma {:induction false} FlatChildrenAppend(s: State, c: Id, a: seq<Id>, b: seq<Id>)
    ensures FlatChildren(s, c, a + b) == FlatChildren(s, c, a) + FlatChildren(s, c, b)
  {
    if a == [] {
      assert a + b == b;
    } else {
      assert (a + b)[1..] == a[1..] + b && (a + b)[0] == a[0];
      calc {
        FlatChildren(s, c, a + b);
        ChildPart(s, c, a[0]) + FlatChildren(s, c, a[1..] + b);
        { FlatChildrenAppend(s, c, a[1..], b); }
        ChildPart(s, c, a[0]) + (FlatChildren(s, c, a[1..]) + FlatChildren(s, c, b));
        FlatChildren(s, c, a) + FlatChildren(s, c, b);
      }
    }
  }

  lemma {:induction false} RemainingAppend(a: seq<Frame>, b: seq<Frame>)
    ensures Remaining(a + b) == Remaining(b) + Remaining(a)
  {
    if b == [] {
      assert a + b == a;
    } else {
      var f, older := b[|b| - 1], b[..|b| - 1];
      assert (a + b)[|a + b| - 1] == f && (a + b)[..|a + b| - 1] == a + older;
      RemainingAppend(a, older);
      Regroup(Serial(f.rest), Remaining(older), Remaining(a));
    }
  }

  lemma RemainingOne(f: Frame)
    ensures Remaining([f]) == Serial(f.rest)
  {
    assert [f][..0] == [];
  }

  /** Closure `c` contributes the same to the flattening in `s` and in `t`, apart
      from what its children and callee contribute. */
  ghost predicate LocalSame(s: State, t: State, c: Id)
    requires c in s.closures
  {
    && c in t.closures
    && var a, b := s.closures[c], t.closures[c];
    && a.childHt == b.childHt && a.children == b.children && a.callee == b.callee
    && a.userHt == b.userHt && a.frames == b.frames
    && RunnerPart(s, a.runner) == RunnerPart(t, b.runner)
    && (forall k | k in a.children :: RightHt(s, k) == RightHt(t, k))
  }

  lemma {:induction false} FlatChildrenSame(s: State, t: State, c: Id, ks: seq<Id>)
    requires forall k | k in ks :: ChildPart(s, c, k) == ChildPart(t, c, k)
    ensures FlatChildren(s, c, ks) == FlatChildren(t, c, ks)
  {
    if ks != [] {
      assert ks[0] in ks;
      assert forall k | k in ks[1..] :: k in ks;
      FlatChildrenSame(s, t, c, ks[1..]);
    }
  }

  ghost predicate SameApartFrom(s: State, t: State, x: int, moved: set<Id>) {
    && s.next <= t.next
    && Links(s.closures, s.next)
    && (forall c | c in s.closures && c != x && c !in moved ::
          && LocalSame(s, t, c)
          && (forall k | k in s.closures[c].children :: k !in moved)
          && (s.closures[c].callee.Some? ==> s.closures[c].callee.value !in moved))
  }

  /** A step that rearranges only closure `x` and its children `moved`, and keeps
      the flattening of `x`, keeps every other flattening. */
  lemma {:induction false} FlatKept(s: State, t: State, x: int, moved: set<Id>, c: Id)
    requires SameApartFrom(s, t, x, moved)
    requires c in s.closures && c !in moved
    requires c <= x ==> x >= 0 && Flat(s, x) == Flat(t, x)
    ensures Flat(s, c) == Flat(t, c)
    decreases s.next - c
  {
    assert LinksOk(s.closures, c);
    if c != x {
      assert LocalSame(s, t, c);
      var cl := s.closures[c];
      forall k | k in cl.children
        ensures ChildPart(s, c, k) == ChildPart(t, c, k)
      {
        assert LinksOk(s.closures, k);
        FlatKept(s, t, x, moved, k);
      }
      FlatChildrenSame(s, t, c, cl.children);
      if cl.callee.Some? {
        assert LinksOk(s.closures, cl.callee.value);
        FlatKept(s, t, x, moved, cl.callee.value);
      }
    }
  }

  lemma FlatKeptAbove(s: State, t: State, x: int, moved: set<Id>)
    requires SameApartFrom(s, t, x, moved)
    ensures forall c | c in s.closures && c !in moved && x < c :: Flat(s, c) == Flat(t, c)
  {
    forall c | c in s.closures && c !in moved && x < c
      ensures Flat(s, c) == Flat(t, c)
    {
      FlatKept(s, t, x, moved, c);
    }
  }

  predicate SameMaps(a: Closure, b: Closure) {
    a.childHt == b.childHt && a.children == b.children && a.callee == b.callee
    && a.userHt == b.userHt && a.frames == b.frames && a.runner == b.runner
  }

  /** Children of `x`, and its callee, are nobody else's. */
  lemma NotShared(s: State, x: Id, c: Id)
    requires Links(s.closures, s.next) && x in s.closures && c in s.closures && c != x
    ensures forall k | k in s.closures[c].children :: k in s.closures && k !in s.closures[x].children && s.closures[x].callee != Some(k)
    ensures var callee := s.closures[c].callee; callee.Some? ==> callee.value !in s.closures[x].children && s.closures[x].callee != callee
  {
    assert LinksOk(s.closures, c) && LinksOk(s.closures, x);
    forall k | k in s.closures[c].children
      ensures k in s.closures && k !in s.closures[x].children && s.closures[x].callee != Some(k)
    {
      assert LinksOk(s.closures, k);
    }
    if s.closures[c].callee.Some? {
      assert LinksOk(s.closures, s.closures[c].callee.value);
    }
  }

  lemma OthersSame(s: State, t: State, ws: set<Wid>, x: Id, moved: set<Id>)
    requires Links(s.closures, s.next) && Runners(s)
    requires x in s.closures && s.next <= t.next && |s.workers| == |t.workers|
    requires forall v | 0 <= v < |s.workers| && v !in ws :: s.workers[v] == t.workers[v]
    requires forall w | w in ws && w < |s.workers| ::
               s.workers[w].phase.Stealing? || s.workers[w].closure == x || s.workers[w].closure in moved
    requires forall m | m in moved :: m in s.closures[x].children || s.closures[x].callee == Some(m)
    requires forall c | c in s.closures && c != x && c !in moved :: c in t.closures && SameMaps(s.closures[c], t.closures[c])
    requires forall k | k in s.closures && k !in s.closures[x].children && k !in moved :: RightHt(s, k) == RightHt(t, k)
    ensures SameApartFrom(s, t, x, moved)
  {
    forall c | c in s.closures && c != x && c !in moved
      ensures LocalSame(s, t, c)
      ensures forall k | k in s.closures[c].children :: k !in moved
      ensures s.closures[c].callee.Some? ==> s.closures[c].callee.value !in moved
    {
      NotShared(s, x, c);
      assert RunnerOk(s, c);
    }
  }

  /** If `x` keeps its flattening, the root does. */
  lemma RootKept(s: State, t: State, x: Id, moved: set<Id>)
    requires Links(s.closures, s.next) && ROOT in s.closures && x in s.closures && x !in moved
    requires SameApartFrom(s, t, x, moved)
    requires ROOT !in moved
    requires Flat(s, x) == Flat(t, x)
    ensures Flat(s, ROOT) == Flat(t, ROOT)
  {
    FlatKept(s, t, x, moved, ROOT);
  }

  /** The runner of `c` has the whole contribution of a closure without callee. */
  lemma FlatRunning(s: State, c: Id)
    requires Inv(s) && c in s.closures && s.closures[c].runner.Some? && s.closures[c].runner.value < |s.workers|
    ensures Flat(s, c) == s.closures[c].childHt + FlatChildren(s, c, s.closures[c].children)
                          + Strand(s.workers[s.closures[c].runner.value])
  {
    assert CountsOk(s.closures[c]) && RunnerOk(s, c);
  }

  lemma ChildrenKept(s: State, t: State, x: Id, moved: set<Id>, ks: seq<Id>)
    requires SameApartFrom(s, t, x, moved) && x in s.closures
    requires forall k | k in ks :: k in s.closures[x].children && k !in moved && RightHt(s, k) == RightHt(t, k)
    ensures FlatChildren(s, x, ks) == FlatChildren(t, x, ks)
  {
    assert LinksOk(s.closures, x);
    FlatKeptAbove(s, t, x, moved);
    FlatChildrenSame(s, t, x, ks);
  }

  // ---------------------------------------------------------------------
  // Steps
  // ---------------------------------------------------------------------

  /** Dropping `Sync`, or splitting a call or a spawn off into its own frame,
      leaves the same updates to do. */
  lemma SetTopRemaining(stack: seq<Frame>, code: Code)
    requires stack != []
    ensures Remaining(SetTop(stack, code)) == Serial(code) + Remaining(stack[..|stack| - 1])
  {
    var t := SetTop(stack, code);
    assert t[..|t| - 1] == stack[..|stack| - 1];
  }

  lemma PushRemaining(stack: seq<Frame>, f: Frame)
    ensures Remaining(stack + [f]) == Serial(f.rest) + Remaining(stack)
  {
    assert (stack + [f])[..|stack + [f]| - 1] == stack;
  }

  lemma ExecKeepsUpdates(k: Worker)
    requires k.stack != []
    ensures ExecWorker(k).hyperTable + Remaining(ExecWorker(k).stack) == k.hyperTable + Remaining(k.stack)
  {
    var rest := Top(k.stack).rest;
    if rest != [] {
      var stack := SetTop(k.stack, rest[1..]);
      SetTopRemaining(k.stack, rest[1..]);
      var later := Remaining(k.stack[..|k.stack| - 1]);
      match rest[0]
      case Update(u) =>
        Regroup([u], Serial(rest[1..]), later);
        Regroup(k.hyperTable, [u], Remaining(stack));
      case Spawn(body) =>
        PushRemaining(stack, Frame(body, true));
        Regroup(Serial(body), Serial(rest[1..]), later);
      case Call(body) =>
        PushRemaining(stack, Frame(body, false));
        Regroup(Serial(body), Serial(rest[1..]), later);
      case Sync =>
    }
  }

  lemma Regroup(a: HyperMap, b: HyperMap, c: HyperMap)
    ensures a + (b + c) == (a + b) + c
  {
  }

  /** Steps that only touch a worker's own part of the flattening. */
  lemma RunnerStepKeepsFlat(s: State, t: State, w: Wid)
    requires Inv(s) && w < |s.workers| && s.workers[w].closure in s.closures && !s.workers[w].phase.Stealing?
    requires s.next == t.next && |s.workers| == |t.workers| && s.closures.Keys == t.closures.Keys
    requires forall v | 0 <= v < |s.workers| && v != w :: s.workers[v] == t.workers[v]
    requires forall c | c in s.closures :: SameMaps(s.closures[c], t.closures[c]) && s.closures[c].rightHt == t.closures[c].rightHt
    requires RunnerPart(s, Some(w)) == RunnerPart(t, Some(w))
    ensures Flat(s, ROOT) == Flat(t, ROOT)
  {
    forall c | c in s.closures
      ensures LocalSame(s, t, c)
    {
      assert LinksOk(s.closures, c) && RunnerOk(s, c);
    }
    FlatKept(s, t, -1, {}, ROOT);
  }

  lemma StrandInUserCode(k: Worker)
    requires k.lht == [] && k.rht == []
    ensures Strand(k) == k.hyperTable + Remaining(k.stack)
  {
  }

  lemma ExecKeepsFlat(s: State, w: Wid)
    requires Inv(s) && Enabled(s, Exec(w))
    ensures Flat(DoExec(s, w), ROOT) == Flat(s, ROOT)
  {
    assert WorkerOk(s, w);
    ExecKeepsUpdates(s.workers[w]);
    StrandInUserCode(s.workers[w]);
    StrandInUserCode(ExecWorker(s.workers[w]));
    RunnerStepKeepsFlat(s, DoExec(s, w), w);
  }

  lemma EnterKeepsFlat(s: State, w: Wid)
    requires Inv(s) && Enabled(s, Enter(w))
    ensures Flat(DoEnter(s, w), ROOT) == Flat(s, ROOT)
  {
    RunnerStepKeepsFlat(s, DoEnter(s, w), w);
  }

  lemma ReduceKeepsFlat(s: State, w: Wid)
    requires Inv(s) && Enabled(s, Reduce(w))
    ensures Flat(DoReductions(s, w), ROOT) == Flat(s, ROOT)
  {
    assert WorkerOk(s, w);
    RunnerStepKeepsFlat(s, DoReductions(s, w), w);
  }

  lemma BeginReturnKeepsFlat(s: State, w: Wid)
    requires Inv(s) && Enabled(s, BeginReturn(w))
    ensures Flat(DoBeginReturn(s, w), ROOT) == Flat(s, ROOT)
  {
    RunnerStepKeepsFlat(s, DoBeginReturn(s, w), w);
  }

  lemma SyncRemaining(stack: seq<Frame>)
    requires |stack| == 1 && (stack[0].rest == [] || stack[0].rest[0] == Sync)
    ensures Remaining(SetTop(stack, if stack[0].rest == [] then [] else stack[0].rest[1..])) == Remaining(stack)
  {
    SetTopRemaining(stack, if stack[0].rest == [] then [] else stack[0].rest[1..]);
  }

  lemma SyncAlgebra(childHt: HyperMap, kids: HyperMap, ht: HyperMap, rest: HyperMap)
    ensures Join(childHt, kids, [], ht, [], rest) == Join(childHt, kids, [], [], [] + ht + [] + rest, [])
    ensures Join([], [], [], [], childHt + ht + [] + rest, []) == Join(childHt, [], [], [], [] + ht + [] + rest, [])
  {
  }

  lemma RunningJoin(s: State, w: Wid)
    requires Inv(s) && w < |s.workers| && s.workers[w].phase.User?
    ensures s.workers[w].closure in s.closures
    ensures var x := s.workers[w].closure;
      Flat(s, x) == Join(s.closures[x].childHt, FlatChildren(s, x, s.closures[x].children), [], [], Strand(s.workers[w]), [])
  {
    assert WorkerOk(s, w) && CountsOk(s.closures[s.workers[w].closure]);
  }

  lemma SuspendKeepsClosureFlat(s: State, w: Wid, kids: HyperMap)
    requires Inv(s) && Enabled(s, SyncStep(w)) && s.closures[s.workers[w].closure].HasChildren()
    requires var x := s.workers[w].closure;
      FlatChildren(DoSync(s, w), x, s.closures[x].children) == kids == FlatChildren(s, x, s.closures[x].children)
    ensures Flat(DoSync(s, w), s.workers[w].closure) == Flat(s, s.workers[w].closure)
  {
    var k := s.workers[w];
    var cl := s.closures[k.closure];
    assert WorkerOk(s, w) && CountsOk(cl);
    RunningJoin(s, w);
    SyncRemaining(k.stack);
    SyncAlgebra(cl.childHt, kids, k.hyperTable, Remaining(k.stack));
  }

  lemma PassSyncKeepsClosureFlat(s: State, w: Wid)
    requires Inv(s) && Enabled(s, SyncStep(w)) && !s.closures[s.workers[w].closure].HasChildren()
    ensures Flat(DoSync(s, w), s.workers[w].closure) == Flat(s, s.workers[w].closure)
  {
    var t := DoSync(s, w);
    var k := s.workers[w];
    var cl := s.closures[k.closure];
    assert WorkerOk(s, w) && CountsOk(cl);
    SyncKeepsInv(s, w);
    RunningJoin(s, w);
    RunningJoin(t, w);
    SyncRemaining(k.stack);
    assert Strand(t.workers[w]) == cl.childHt + k.hyperTable + [] + Remaining(k.stack);
    SyncAlgebra(cl.childHt, [], k.hyperTable, Remaining(k.stack));
  }

  lemma SyncKeepsFlat(s: State, w: Wid)
    requires Inv(s) && Enabled(s, SyncStep(w))
    ensures Flat(DoSync(s, w), ROOT) == Flat(s, ROOT)
  {
    var t := DoSync(s, w);
    var x := s.workers[w].closure;
    OthersSame(s, t, {w}, x, {});
    assert LinksOk(s.closures, x);
    ChildrenKept(s, t, x, {}, s.closures[x].children);
    if s.closures[x].HasChildren() {
      SuspendKeepsClosureFlat(s, w, FlatChildren(s, x, s.closures[x].children));
    } else {
      PassSyncKeepsClosureFlat(s, w);
    }
    RootKept(s, t, x, {});
  }

  lemma SplitThree(stack: seq<Frame>, head: nat)
    requires head < |stack|
    ensures stack == (stack[..head] + stack[head..head + 1]) + stack[head + 1..]
  {
  }

  lemma StealSplitsStack(stack: seq<Frame>, head: nat)
    requires head < |stack|
    ensures Remaining(stack) == Remaining(stack[head + 1..]) + (Remaining(stack[head..head + 1]) + Remaining(stack[..head]))
  {
    var old', top, young := stack[..head], stack[head..head + 1], stack[head + 1..];
    SplitThree(stack, head);
    RemainingAppend(old' + top, young);
    RemainingAppend(old', top);
  }

  /** A leaf run by worker `w`, as the newest child of `p`. */
  lemma NewChildFlat(s: State, p: Id, c: Id, w: Wid)
    requires p < c < s.next && c in s.closures && w < |s.workers|
    requires var k := s.workers[w]; k.lht == [] && k.rht == []
    requires s.closures[c] == NewClosure(s.closures[c].spawnParent, None, w).(owner := Some(w))
    ensures FlatChildren(s, p, [c]) == s.workers[w].hyperTable + Remaining(s.workers[w].stack)
  {
    assert [c][1..] == [] && [c][0] == c;
    assert Flat(s, c) == Strand(s.workers[w]) == s.workers[w].hyperTable + Remaining(s.workers[w].stack);
    assert ChildPart(s, p, c) == Flat(s, c) + RightHt(s, c) == Flat(s, c);
  }

  lemma StealAlgebra(childHt: HyperMap, kids: HyperMap, ht: HyperMap, young: HyperMap, top: HyperMap, rest: HyperMap)
    ensures Join(childHt, kids + (ht + young), [], [], top, []) == childHt + kids + (ht + (young + top))
    ensures Join(childHt, kids, Join([], ht + young, [], [], top, []), [], [], rest)
            == childHt + kids + (ht + (young + (top + rest)))
  {
  }

  lemma VictimFlat(s: State, w: Wid)
    requires Inv(s) && InUserCode(s, w)
    ensures var k := s.workers[w];
      Flat(s, k.closure) == s.closures[k.closure].childHt + FlatChildren(s, k.closure, s.closures[k.closure].children)
                            + (k.hyperTable + Remaining(k.stack))
  {
    var k := s.workers[w];
    assert WorkerOk(s, w);
    FlatRunning(s, k.closure);
    StrandInUserCode(k);
  }

  lemma NewChildAppended(s: State, thief: Wid, victim: Wid, kids: HyperMap)
    requires Inv(s) && Enabled(s, Steal(thief, victim, 0))
    requires var x := s.workers[victim].closure;
             FlatChildren(DoSteal(s, thief, victim, 0), x, s.closures[x].children) == kids
    ensures var v := s.workers[victim];
      FlatChildren(DoSteal(s, thief, victim, 0), v.closure, s.closures[v.closure].children + [s.next])
      == kids + (v.hyperTable + Remaining(v.stack[1..]))
  {
    var t := DoSteal(s, thief, victim, 0);
    var x := s.workers[victim].closure;
    assert WorkerOk(s, victim);
    FlatChildrenAppend(t, x, s.closures[x].children, [s.next]);
    NewChildFlat(t, x, s.next, victim);
  }

  /** The new rightmost child stands where the victim's strand stood, and the
      thief's continuation follows it. */
  lemma StealOwnFrameClosureFlat(s: State, thief: Wid, victim: Wid, kids: HyperMap)
    requires Inv(s) && Enabled(s, Steal(thief, victim, 0))
    requires var x := s.workers[victim].closure;
             FlatChildren(DoSteal(s, thief, victim, 0), x, s.closures[x].children) == kids
    ensures var v := s.workers[victim];
      Flat(DoSteal(s, thief, victim, 0), v.closure)
      == s.closures[v.closure].childHt + kids
         + (v.hyperTable + (Remaining(v.stack[1..]) + (Remaining(v.stack[..1]) + [])))
  {
    var t := DoSteal(s, thief, victim, 0);
    var v := s.workers[victim];
    var x := v.closure;
    assert WorkerOk(s, victim) && CountsOk(s.closures[x]);
    NewChildAppended(s, thief, victim, kids);
    var top := Remaining(v.stack[..1]);
    assert Strand(t.workers[thief]) == top;
    assert t.closures[x].childHt == s.closures[x].childHt && t.closures[x].children == s.closures[x].children + [s.next];
    assert Flat(t, x) == Join(s.closures[x].childHt, kids + (v.hyperTable + Remaining(v.stack[1..])), [], [], top, []);
    StealAlgebra(s.closures[x].childHt, kids, v.hyperTable, Remaining(v.stack[1..]), top, []);
  }

  lemma StealOwnFrameKeepsFlat(s: State, thief: Wid, victim: Wid)
    requires Inv(s) && Enabled(s, Steal(thief, victim, 0))
    ensures Flat(DoSteal(s, thief, victim, 0), ROOT) == Flat(s, ROOT)
  {
    var t := DoSteal(s, thief, victim, 0);
    var x := s.workers[victim].closure;
    assert WorkerOk(s, victim);
    OthersSame(s, t, {thief, victim}, x, {});
    assert LinksOk(s.closures, x);
    ChildrenKept(s, t, x, {}, s.closures[x].children);
    VictimFlat(s, victim);
    StealSplitsStack(s.workers[victim].stack, 0);
    StealOwnFrameClosureFlat(s, thief, victim, FlatChildren(s, x, s.closures[x].children));
    RootKept(s, t, x, {});
  }

  lemma StealCalledFrameClosureFlat(s: State, thief: Wid, victim: Wid, head: nat, kids: HyperMap)
    requires Inv(s) && Enabled(s, Steal(thief, victim, head)) && head > 0
    requires var x := s.workers[victim].closure;
             FlatChildren(DoSteal(s, thief, victim, head), x, s.closures[x].children) == kids
    ensures var v := s.workers[victim];
      Flat(DoSteal(s, thief, victim, head), v.closure)
      == s.closures[v.closure].childHt + kids
         + (v.hyperTable + (Remaining(v.stack[head + 1..]) + (Remaining(v.stack[head..head + 1]) + Remaining(v.stack[..head]))))
  {
    var t := DoSteal(s, thief, victim, head);
    var v := s.workers[victim];
    var x := v.closure;
    assert WorkerOk(s, victim) && CountsOk(s.closures[x]);
    NewChildFlat(t, s.next, s.next + 1, victim);
    assert t.closures[x].childHt == s.closures[x].childHt;
    var childHt := s.closures[x].childHt;
    var young, top := Remaining(v.stack[head + 1..]), Remaining(v.stack[head..head + 1]);
    assert Strand(t.workers[thief]) == top;
    assert Flat(t, s.next) == Join([], v.hyperTable + young, [], [], top, []);
    assert Flat(t, x) == Join(childHt, kids, Flat(t, s.next), [], [], Remaining(v.stack[..head]));
    StealAlgebra(childHt, kids, v.hyperTable, young, top, Remaining(v.stack[..head]));
  }

  lemma StealCalledFrameKeepsFlat(s: State, thief: Wid, victim: Wid, head: nat)
    requires Inv(s) && Enabled(s, Steal(thief, victim, head)) && head > 0
    ensures Flat(DoSteal(s, thief, victim, head), ROOT) == Flat(s, ROOT)
  {
    var t := DoSteal(s, thief, victim, head);
    var x := s.workers[victim].closure;
    assert WorkerOk(s, victim);
    OthersSame(s, t, {thief, victim}, x, {});
    assert LinksOk(s.closures, x);
    ChildrenKept(s, t, x, {}, s.closures[x].children);
    VictimFlat(s, victim);
    StealSplitsStack(s.workers[victim].stack, head);
    StealCalledFrameClosureFlat(s, thief, victim, head, FlatChildren(s, x, s.closures[x].children));
    RootKept(s, t, x, {});
  }

  /** A closure whose frame is done and synched stands for its worker's map. */
  lemma FinishedFlat(s: State, w: Wid)
    requires Inv(s) && w < |s.workers| && s.workers[w].closure in s.closures
    requires s.workers[w].phase == User(false) || s.workers[w].phase == Leaving
    requires |s.workers[w].stack| == 1 && s.workers[w].stack[0].rest == []
    requires !s.closures[s.workers[w].closure].unsynced
    ensures Flat(s, s.workers[w].closure) == s.workers[w].hyperTable
  {
    var k := s.workers[w];
    assert WorkerOk(s, w) && CountsOk(s.closures[k.closure]);
    RemainingOne(k.stack[0]);
    FlatRunning(s, k.closure);
  }

  lemma CallParentFlat(s: State, w: Wid, p: Id)
    requires Inv(s) && Enabled(s, CallReturn(w)) && s.closures[s.workers[w].closure].callParent == Some(p)
    ensures Flat(s, p) == Join(s.closures[p].childHt, FlatChildren(s, p, s.closures[p].children),
                               s.workers[w].hyperTable, [], [], Remaining(s.closures[p].frames))
  {
    var c := s.workers[w].closure;
    assert LinksOk(s.closures, c) && CountsOk(s.closures[p]);
    FinishedFlat(s, w);
    assert CalleePart(s, p, Some(c)) == s.workers[w].hyperTable;
  }

  lemma CallReturnClosureFlat(s: State, w: Wid, kids: HyperMap)
    requires Inv(s) && Enabled(s, CallReturn(w))
    requires var p := s.closures[s.workers[w].closure].callParent.value;
      && FlatChildren(s, p, s.closures[p].children) == kids
      && FlatChildren(DoCallReturn(s, w), p, s.closures[p].children) == kids
    ensures var p := s.closures[s.workers[w].closure].callParent.value; Flat(DoCallReturn(s, w), p) == Flat(s, p)
  {
    var t := DoCallReturn(s, w);
    var k := s.workers[w];
    var p := s.closures[k.closure].callParent.value;
    assert WorkerOk(s, w) && CountsOk(s.closures[p]) && LinksOk(s.closures, k.closure);
    CallParentFlat(s, w, p);
    var childHt, frames := s.closures[p].childHt, Remaining(s.closures[p].frames);
    assert Strand(t.workers[w]) == k.hyperTable + frames;
  }

  lemma CallReturnKeepsFlat(s: State, w: Wid)
    requires Inv(s) && Enabled(s, CallReturn(w))
    ensures Flat(DoCallReturn(s, w), ROOT) == Flat(s, ROOT)
  {
    var t := DoCallReturn(s, w);
    var c := s.workers[w].closure;
    var p := s.closures[c].callParent.value;
    assert WorkerOk(s, w) && LinksOk(s.closures, c) && LinksOk(s.closures, p) && CountsOk(s.closures[p]);
    OthersSame(s, t, {w}, p, {c});
    ChildrenKept(s, t, p, {c}, s.closures[p].children);
    CallReturnClosureFlat(s, w, FlatChildren(s, p, s.closures[p].children));
    RootKept(s, t, p, {c});
  }

  // ---------------------------------------------------------------------
  // The return of a spawned child
  // ---------------------------------------------------------------------

  /** What stands in `p` before child `j`, without the map on the child's left. */
  function Before(s: State, p: Id, ks: seq<Id>, j: nat): HyperMap
    requires p in s.closures && j <= |ks|
  {
    if j == 0 then [] else s.closures[p].childHt + FlatChildren(s, p, ks[..j - 1]) + Flat(s, ks[j - 1])
  }

  function LeftOf(s: State, p: Id, ks: seq<Id>, j: nat): HyperMap
    requires p in s.closures && j <= |ks|
  {
    if j == 0 then s.closures[p].childHt else RightHt(s, ks[j - 1])
  }

  lemma OneChild(s: State, p: Id, k: Id)
    ensures FlatChildren(s, p, [k]) == ChildPart(s, p, k)
  {
    assert [k][1..] == [];
  }

  lemma SplitBeforeAlgebra(childHt: HyperMap, kids: HyperMap, left: HyperMap, right: HyperMap)
    ensures childHt + (kids + (left + right)) == (childHt + kids + left) + right
  {
  }

  lemma SplitBefore(s: State, p: Id, ks: seq<Id>, j: nat)
    requires p in s.closures && j <= |ks|
    requires j > 0 ==> p < ks[j - 1] < s.next
    ensures s.closures[p].childHt + FlatChildren(s, p, ks[..j]) == Before(s, p, ks, j) + LeftOf(s, p, ks, j)
  {
    if j > 0 {
      var a, left := ks[..j - 1], ks[j - 1];
      assert ks[..j] == a + [left];
      FlatChildrenAppend(s, p, a, [left]);
      OneChild(s, p, left);
      SplitBeforeAlgebra(s.closures[p].childHt, FlatChildren(s, p, a), Flat(s, left), RightHt(s, left));
    }
  }

  lemma SplitAt(s: State, p: Id, ks: seq<Id>, j: nat)
    requires j < |ks|
    ensures FlatChildren(s, p, ks) == FlatChildren(s, p, ks[..j]) + (ChildPart(s, p, ks[j]) + FlatChildren(s, p, ks[j + 1..]))
  {
    assert ks == ks[..j] + ks[j..];
    FlatChildrenAppend(s, p, ks[..j], ks[j..]);
    assert ks[j..][0] == ks[j] && ks[j..][1..] == ks[j + 1..];
  }

  /** What stands in `p` after its children. */
  function After(s: State, p: Id): HyperMap
    requires p in s.closures
  {
    var cl := s.closures[p];
    CalleePart(s, p, cl.callee) + (cl.userHt + (RunnerPart(s, cl.runner) + Remaining(cl.frames)))
  }

  lemma FlatByParts(s: State, p: Id)
    requires p in s.closures
    ensures Flat(s, p) == (s.closures[p].childHt + FlatChildren(s, p, s.closures[p].children)) + After(s, p)
  {
    var cl := s.closures[p];
    JoinByParts(cl.childHt, FlatChildren(s, p, cl.children), CalleePart(s, p, cl.callee),
                cl.userHt, RunnerPart(s, cl.runner), Remaining(cl.frames));
  }

  lemma JoinByParts(a: HyperMap, b: HyperMap, c: HyperMap, d: HyperMap, e: HyperMap, f: HyperMap)
    ensures Join(a, b, c, d, e, f) == (a + b) + (c + (d + (e + f)))
  {
  }

  /** A step of Closure_return: child `j` of `p`, with identifier `c`, is run by
      the returning worker `w`. */
  ghost predicate Returns(s: State, w: Wid, c: Id, p: Id, j: nat) {
    && Inv(s) && Enabled(s, Return(w)) && c == s.workers[w].closure && p == s.closures[c].spawnParent.value
    && j < |s.closures[p].children| && s.closures[p].children[j] == c
  }

  lemma ReturningChildPart(s: State, w: Wid, c: Id, p: Id, j: nat)
    requires Returns(s, w, c, p, j)
    ensures ChildPart(s, p, c) == s.workers[w].hyperTable + s.closures[c].rightHt
  {
    assert WorkerOk(s, w) && LinksOk(s.closures, c);
    FinishedFlat(s, w);
  }

  /** A closure's children around child `j`, with the map on its left set apart. */
  lemma SplitChildren(s: State, p: Id, ks: seq<Id>, j: nat)
    requires p in s.closures && j < |ks|
    requires j > 0 ==> p < ks[j - 1] < s.next
    ensures s.closures[p].childHt + FlatChildren(s, p, ks)
            == (Before(s, p, ks, j) + LeftOf(s, p, ks, j)) + (ChildPart(s, p, ks[j]) + FlatChildren(s, p, ks[j + 1..]))
    ensures s.closures[p].childHt + FlatChildren(s, p, Without(ks, j))
            == (Before(s, p, ks, j) + LeftOf(s, p, ks, j)) + FlatChildren(s, p, ks[j + 1..])
  {
    SplitBefore(s, p, ks, j);
    SplitAt(s, p, ks, j);
    Regroup(s.closures[p].childHt, FlatChildren(s, p, ks[..j]), ChildPart(s, p, ks[j]) + FlatChildren(s, p, ks[j + 1..]));
    FlatChildrenAppend(s, p, ks[..j], ks[j + 1..]);
    Regroup(s.closures[p].childHt, FlatChildren(s, p, ks[..j]), FlatChildren(s, p, ks[j + 1..]));
  }

  /** `t` differs from `s` in `p`, in child `j` of `p`, and in that child's left
      sibling at most in its right_ht. */
  ghost predicate ReturnTouches(s: State, t: State, w: Wid, c: Id, p: Id, j: nat)
    requires Returns(s, w, c, p, j)
  {
    var ks := s.closures[p].children;
    && s.next == t.next && |s.workers| == |t.workers|
    && (forall v | 0 <= v < |s.workers| && v != w :: s.workers[v] == t.workers[v])
    && (forall d | d in s.closures && d != c :: d in t.closures)
    && (forall d | d in s.closures && d != p && d != c :: SameMaps(s.closures[d], t.closures[d]))
    && (forall d | d in s.closures && d != c && (j == 0 || d != ks[j - 1]) :: s.closures[d].rightHt == t.closures[d].rightHt)
  }

  lemma TakeMapsTouches(s: State, w: Wid, c: Id, p: Id, j: nat)
    requires Returns(s, w, c, p, j)
    ensures ReturnTouches(s, TakeMaps(s, w, c, p, j), w, c, p, j)
  {
    assert LinksOk(s.closures, p) && LinksOk(s.closures, c);
  }

  lemma DepositTouches(s: State, w: Wid, c: Id, p: Id, j: nat)
    requires Returns(s, w, c, p, j)
    ensures ReturnTouches(s, Deposit(s, w, c, p, j), w, c, p, j)
  {
    assert LinksOk(s.closures, p) && LinksOk(s.closures, c);
  }

  lemma ReturnSameApart(s: State, t: State, w: Wid, c: Id, p: Id, j: nat)
    requires Returns(s, w, c, p, j) && ReturnTouches(s, t, w, c, p, j)
    ensures SameApartFrom(s, t, p, {c})
  {
    assert WorkerOk(s, w) && LinksOk(s.closures, p);
    OthersSame(s, t, {w}, p, {c});
  }

  /** Everything in `p` but child `j` and the map on its left keeps its reading. */
  lemma ReturnKeepsRight(s: State, t: State, w: Wid, c: Id, p: Id, j: nat)
    requires Returns(s, w, c, p, j) && ReturnTouches(s, t, w, c, p, j)
    ensures var ks := s.closures[p].children; FlatChildren(s, p, ks[j + 1..]) == FlatChildren(t, p, ks[j + 1..])
  {
    var ks := s.closures[p].children;
    assert LinksOk(s.closures, p);
    ReturnSameApart(s, t, w, c, p, j);
    assert forall k | k in ks[j + 1..] :: k in ks && k != c && (j == 0 || k != ks[j - 1]);
    ChildrenKept(s, t, p, {c}, ks[j + 1..]);
  }

  lemma ReturnKeepsLeft(s: State, t: State, w: Wid, c: Id, p: Id, j: nat)
    requires Returns(s, w, c, p, j) && ReturnTouches(s, t, w, c, p, j)
    requires j > 0 ==> s.closures[p].childHt == t.closures[p].childHt
    ensures var ks := s.closures[p].children; Before(s, p, ks, j) == Before(t, p, ks, j)
  {
    if j > 0 {
      var ks := s.closures[p].children;
      assert LinksOk(s.closures, p);
      ReturnSameApart(s, t, w, c, p, j);
      assert forall k | k in ks[..j - 1] :: k in ks && k != c && k != ks[j - 1];
      ChildrenKept(s, t, p, {c}, ks[..j - 1]);
      assert ks[j - 1] in ks && ks[j - 1] != c;
      FlatKept(s, t, p, {c}, ks[j - 1]);
    }
  }

  lemma ReturnKeepsAfter(s: State, t: State, w: Wid, c: Id, p: Id, j: nat)
    requires Returns(s, w, c, p, j) && ReturnTouches(s, t, w, c, p, j)
    requires var a, b := s.closures[p], t.closures[p];
             a.callee == b.callee && a.userHt == b.userHt && a.runner == b.runner && a.frames == b.frames
    ensures After(s, p) == After(t, p)
  {
    assert WorkerOk(s, w) && LinksOk(s.closures, p) && LinksOk(s.closures, c) && RunnerOk(s, p);
    ReturnSameApart(s, t, w, c, p, j);
    if s.closures[p].callee.Some? {
      assert LinksOk(s.closures, s.closures[p].callee.value);
      FlatKeptAbove(s, t, p, {c});
    }
  }

  /** The maps taken from both sides stand where they stood. */
  lemma TakeMapsAlgebra(before: HyperMap, left: HyperMap, ht: HyperMap, right: HyperMap, rest: HyperMap)
    ensures (before + []) + ((left + ht + right) + rest) == (before + left) + ((ht + right) + rest)
  {
  }

  lemma TakenChildPart(s: State, w: Wid, c: Id, p: Id, j: nat)
    requires Returns(s, w, c, p, j)
    ensures ChildPart(TakeMaps(s, w, c, p, j), p, c) == LeftMap(s, p, j) + s.workers[w].hyperTable + s.closures[c].rightHt
  {
    var t := TakeMaps(s, w, c, p, j);
    assert WorkerOk(s, w) && CountsOk(s.closures[c]) && LinksOk(s.closures, c) && LinksOk(s.closures, p);
    RemainingOne(s.workers[w].stack[0]);
    assert Flat(t, c) == Join([], [], [], [], Strand(t.workers[w]), []);
  }

  lemma TakeMapsKeepsFlat(s: State, w: Wid, c: Id, p: Id, j: nat)
    requires Returns(s, w, c, p, j)
    ensures Flat(TakeMaps(s, w, c, p, j), ROOT) == Flat(s, ROOT)
  {
    var t := TakeMaps(s, w, c, p, j);
    var ks := s.closures[p].children;
    assert LinksOk(s.closures, p);
    assert j > 0 ==> ks[j - 1] in ks;
    TakeMapsTouches(s, w, c, p, j);
    ReturnKeepsRight(s, t, w, c, p, j);
    ReturnKeepsLeft(s, t, w, c, p, j);
    ReturnKeepsAfter(s, t, w, c, p, j);
    ReturningChildPart(s, w, c, p, j);
    TakenChildPart(s, w, c, p, j);
    SplitChildren(s, p, ks, j);
    SplitChildren(t, p, ks, j);
    TakeMapsAlgebra(Before(s, p, ks, j), LeftMap(s, p, j), s.workers[w].hyperTable, s.closures[c].rightHt,
                    FlatChildren(s, p, ks[j + 1..]));
    FlatByParts(s, p);
    FlatByParts(t, p);
    ReturnSameApart(s, t, w, c, p, j);
    assert LinksOk(s.closures, c);
    RootKept(s, t, p, {c});
  }

  lemma DepositedMap(s: State, w: Wid, c: Id, p: Id, j: nat)
    requires Returns(s, w, c, p, j)
    ensures var t, ks := Deposit(s, w, c, p, j), s.closures[p].children;
      && t.closures[p].children == Without(ks, j)
      && LeftOf(t, p, ks, j) == s.workers[w].hyperTable
      && (j > 0 ==> ks[j - 1] in ks && t.closures[p].childHt == s.closures[p].childHt && p < ks[j - 1] < s.next)
  {
    assert LinksOk(s.closures, p);
    if j > 0 {
      assert s.closures[p].children[j - 1] in s.closures[p].children;
    }
  }

  lemma ReturningParentFlat(s: State, w: Wid, c: Id, p: Id, j: nat)
    requires Returns(s, w, c, p, j)
    requires LeftMap(s, p, j) == [] && s.closures[c].rightHt == []
    ensures var ks := s.closures[p].children;
      Flat(s, p) == (Before(s, p, ks, j) + (s.workers[w].hyperTable + FlatChildren(s, p, ks[j + 1..]))) + After(s, p)
  {
    var ks := s.closures[p].children;
    assert LinksOk(s.closures, p);
    assert j > 0 ==> ks[j - 1] in ks;
    ReturningChildPart(s, w, c, p, j);
    SplitChildren(s, p, ks, j);
    FlatByParts(s, p);
    DepositAlgebra(Before(s, p, ks, j), s.workers[w].hyperTable, FlatChildren(s, p, ks[j + 1..]));
  }

  lemma DepositAlgebra(before: HyperMap, ht: HyperMap, rest: HyperMap)
    ensures (before + []) + ((ht + []) + rest) == before + (ht + rest)
  {
  }

  lemma DepositedParentFlat(s: State, w: Wid, c: Id, p: Id, j: nat)
    requires Returns(s, w, c, p, j)
    ensures var t, ks := Deposit(s, w, c, p, j), s.closures[p].children;
      Flat(t, p) == (Before(t, p, ks, j) + (s.workers[w].hyperTable + FlatChildren(t, p, ks[j + 1..]))) + After(t, p)
  {
    var t, ks := Deposit(s, w, c, p, j), s.closures[p].children;
    DepositedMap(s, w, c, p, j);
    SplitChildren(t, p, ks, j);
    FlatByParts(t, p);
    Regroup(Before(t, p, ks, j), s.workers[w].hyperTable, FlatChildren(t, p, ks[j + 1..]));
  }

  lemma DepositKeepsFlat(s: State, w: Wid, c: Id, p: Id, j: nat)
    requires Returns(s, w, c, p, j)
    requires LeftMap(s, p, j) == [] && s.closures[c].rightHt == []
    ensures Flat(Deposit(s, w, c, p, j), ROOT) == Flat(s, ROOT)
  {
    var t, ks := Deposit(s, w, c, p, j), s.closures[p].children;
    DepositedMap(s, w, c, p, j);
    DepositTouches(s, w, c, p, j);
    ReturnKeepsRight(s, t, w, c, p, j);
    ReturnKeepsLeft(s, t, w, c, p, j);
    ReturnKeepsAfter(s, t, w, c, p, j);
    ReturningParentFlat(s, w, c, p, j);
    DepositedParentFlat(s, w, c, p, j);
    ReturnSameApart(s, t, w, c, p, j);
    assert LinksOk(s.closures, c);
    RootKept(s, t, p, {c});
  }

  lemma ProvablyGoodStealAlgebra(childHt: HyperMap, userHt: HyperMap, frames: HyperMap)
    ensures Join(childHt, [], [], userHt, [], frames) == Join([], [], [], [], childHt + userHt + [] + frames, [])
  {
  }

  lemma ProvablyGoodStealKeepsFlat(s: State, w: Wid, p: Id)
    requires Runners(s) && ROOT in s.closures && Links(s.closures, s.next)
    requires p in s.closures && w < |s.workers| && s.workers[w] == IDLE
    requires var cl := s.closures[p]; cl.runner.None? && Leaf(cl)
    ensures Flat(ProvablyGoodSteal(s, w, p), ROOT) == Flat(s, ROOT)
  {
    var t := ProvablyGoodSteal(s, w, p);
    var cl := s.closures[p];
    OthersSame(s, t, {w}, p, {});
    ProvablyGoodStealAlgebra(cl.childHt, cl.userHt, Remaining(cl.frames));
    assert Strand(t.workers[w]) == cl.childHt + cl.userHt + [] + Remaining(cl.frames);
    RootKept(s, t, p, {});
  }

  lemma ReturnKeepsFlat(s: State, w: Wid)
    requires Inv(s) && Enabled(s, Return(w))
    ensures Flat(DoReturn(s, w), ROOT) == Flat(s, ROOT)
  {
    var c := s.workers[w].closure;
    var p := s.closures[c].spawnParent.value;
    var j := IndexOf(s.closures[p].children, c);
    if LeftMap(s, p, j) != [] || s.closures[c].rightHt != [] {
      TakeMapsKeepsFlat(s, w, c, p, j);
    } else {
      var t := Deposit(s, w, c, p, j);
      DepositKeepsFlat(s, w, c, p, j);
      DepositKeepsTree(s, w, c, p, j);
      DepositKeepsRunners(s, w, c, p, j);
      assert CountsOk(s.closures[p]);
      if t.closures[p].joinCounter == 0 && t.closures[p].status == Suspended {
        ProvablyGoodStealKeepsFlat(t, w, p);
      }
    }
  }

  // ---------------------------------------------------------------------
  // Runs
  // ---------------------------------------------------------------------

  lemma StepKeepsInv(s: State, step: Step)
    requires Inv(s) && Enabled(s, step)
    ensures Inv(Apply(s, step))
  {
    match step
    case Exec(w) => ExecKeepsInv(s, w);
    case Steal(thief, victim, head) =>
      if head == 0 { StealOwnFrameKeepsInv(s, thief, victim); } else { StealCalledFrameKeepsInv(s, thief, victim, head); }
    case Enter(w) => EnterKeepsInv(s, w);
    case SyncStep(w) => SyncKeepsInv(s, w);
    case Reduce(w) => ReduceKeepsInv(s, w);
    case BeginReturn(w) => BeginReturnKeepsInv(s, w);
    case Return(w) => ReturnKeepsInv(s, w);
    case CallReturn(w) => CallReturnKeepsInv(s, w);
    case Finish(w) => FinishKeepsInv(s, w);
  }

  /** No step changes the serial reading of the tree. */
  lemma StepKeepsFlat(s: State, step: Step)
    requires Inv(s) && Enabled(s, step) && !step.Finish?
    ensures Flat(Apply(s, step), ROOT) == Flat(s, ROOT)
  {
    match step
    case Exec(w) => ExecKeepsFlat(s, w);
    case Steal(thief, victim, head) =>
      if head == 0 { StealOwnFrameKeepsFlat(s, thief, victim); } else { StealCalledFrameKeepsFlat(s, thief, victim, head); }
    case Enter(w) => EnterKeepsFlat(s, w);
    case SyncStep(w) => SyncKeepsFlat(s, w);
    case Reduce(w) => ReduceKeepsFlat(s, w);
    case BeginReturn(w) => BeginReturnKeepsFlat(s, w);
    case Return(w) => ReturnKeepsFlat(s, w);
    case CallReturn(w) => CallReturnKeepsFlat(s, w);
  }

  lemma InitOk(code: Code, nworkers: nat)
    requires nworkers > 0
    ensures Inv(Init(code, nworkers)) && Flat(Init(code, nworkers), ROOT) == Serial(code)
  {
    var s := Init(code, nworkers);
    forall w | 0 <= w < nworkers
      ensures WorkerOk(s, w)
    {
    }
    RemainingOne(Frame(code, false));
    FlatRunning(s, ROOT);
  }

  lemma {:induction false} RunKeepsSerial(s: State, steps: seq<Step>, t: State, serial: HyperMap)
    requires Inv(s) && s.result.None? && Flat(s, ROOT) == serial && Reaches(s, steps, t)
    ensures Inv(t)
    ensures if t.result.Some? then t.result == Some(serial) else Flat(t, ROOT) == serial
    decreases |steps|
  {
    if steps != [] {
      var s1 := Apply(s, steps[0]);
      StepKeepsInv(s, steps[0]);
      if steps[0].Finish? {
        var w := steps[0].w;
        FinishedFlat(s, w);
      } else {
        StepKeepsFlat(s, steps[0]);
        RunKeepsSerial(s1, steps[1..], t, serial);
      }
    }
  }

  /** Reducer determinism: in every run, on any number of workers and under any
      schedule, the maps in the tree and the updates still to come read as the
      serial elision, and the root's final map is the serial list of updates. */
  lemma SerialDeterminism(code: Code, nworkers: nat, steps: seq<Step>, t: State)
    requires nworkers > 0 && Reaches(Init(code, nworkers), steps, t)
    ensures Inv(t)
    ensures t.result.None? ==> Flat(t, ROOT) == Serial(code)
    ensures t.result.Some? ==> t.result.value == Serial(code)
  {
    InitOk(code, nworkers);
    RunKeepsSerial(Init(code, nworkers), steps, t, Serial(code));
  }
}
