/** Every step of the scheduler keeps the pedigrees of the serial elision. */
module SerialPedigrees {
  import opened Options
  import opened ClosureTree
  import opened ClosureInvariant
  import opened SerialOrder
  import opened PedigreeRuns

  // ---------------------------------------------------------------------
  // What a step leaves alone
  // ---------------------------------------------------------------------

  predicate TakesPart(holder: Holder, ws: set<Wid>, cs: set<Id>) {
    match holder
    case OnWorker(w) => w in ws
    case AtRest(c) => c in cs
  }

  /** The heap keeps its chains, and every frame that none of these hold. */
  ghost predicate HeapKept(h: Heap, h': Heap, ws: set<Wid>, cs: set<Id>) {
    forall p | p in h ::
      p in h' && h'[p].chain == h[p].chain && (TakesPart(h[p].holder, ws, cs) || h'[p] == h[p])
  }

  predicate SameFrames(a: Closure, b: Closure) {
    && a.unsynced == b.unsynced && a.spawnParent == b.spawnParent && a.callParent == b.callParent
    && a.frames == b.frames && a.callee == b.callee && a.runner == b.runner
  }

  /** Only the workers `ws` and the closures `cs` take part in a step of the scheduler. */
  ghost predicate RunsApart(s: State, t: State, ws: set<Wid>, cs: set<Id>) {
    && |t.workers| == |s.workers|
    && (forall v | 0 <= v < |s.workers| && v !in ws :: t.workers[v] == s.workers[v])
    && (forall c | c in s.closures && c !in cs && (s.closures[c].runner.Some? ==> s.closures[c].runner.value !in ws) ::
          c in t.closures && SameFrames(s.closures[c], t.closures[c]))
    && (forall c | c in t.closures && c !in cs && t.closures[c].runner.None? :: c in s.closures && s.closures[c].runner.None?)
  }

  /** The same of the pedigree frames and the pointers to them. */
  ghost predicate ExtsApart(x: Ext, y: Ext, ws: set<Wid>, cs: set<Id>) {
    && |y.workers| == |x.workers| && HeapKept(x.heap, y.heap, ws, cs)
    && (forall v | 0 <= v < |x.workers| && v !in ws :: y.workers[v] == x.workers[v])
    && (forall c | c in x.rest && c !in cs :: c in y.rest && y.rest[c] == x.rest[c])
    && (forall c | c in x.called :: c in y.called && y.called[c] == x.called[c])
  }

  ghost predicate Apart(x: Ext, y: Ext, s: State, t: State, ws: set<Wid>, cs: set<Id>) {
    |x.workers| == |s.workers| && RunsApart(s, t, ws, cs) && ExtsApart(x, y, ws, cs)
  }

  lemma OtherWorker(x: Ext, y: Ext, s: State, t: State, ws: set<Wid>, cs: set<Id>, v: Wid, lab: Labels)
    requires Inv(s) && ExtInv(x, s, lab) && Apart(x, y, s, t, ws, cs)
    requires v < |s.workers| && v !in ws && (!s.workers[v].phase.Stealing? ==> s.workers[v].closure !in cs)
    ensures WorkerExtOk(y, t, v, lab)
  {
    var k, e := s.workers[v], x.workers[v];
    assert WorkerExtOk(x, s, v, lab) && WorkerOk(s, v);
    if !k.phase.Stealing? && !Done(k, s.closures[k.closure]) {
      assert ClosureExtOk(x, s, k.closure, lab);
      var cur := Current(k, e);
      StackKept(x.heap, y.heap, k.stack, e.saved, cur, x.heap[cur].rank + Owed(e.owed), OnWorker(v),
                Bottom(x, s, k.closure), -1, -1, lab);
    }
  }

  lemma OtherClosure(x: Ext, y: Ext, s: State, t: State, ws: set<Wid>, cs: set<Id>, c: Id, lab: Labels)
    requires Inv(s) && ExtInv(x, s, lab) && Apart(x, y, s, t, ws, cs)
    requires c in t.closures && c !in cs && t.closures[c].runner.None?
    ensures ClosureExtOk(y, t, c, lab)
  {
    var cl := s.closures[c];
    assert ClosureExtOk(x, s, c, lab) && CountsOk(cl);
    var e := x.rest[c];
    if cl.callee.Some? {
      var (p, final) := x.called[cl.callee.value];
      UncutKept(x.heap, y.heap, cl.frames, e.saved, p, final, None, None, Bottom(x, s, c), -1, -1, lab);
    } else {
      var p := e.saved[0].value;
      UncutKept(x.heap, y.heap, cl.frames, e.saved, p, x.heap[p].rank + Owed(e.owed), Some(AtRest(c)), Some(AtRest(c)),
                Bottom(x, s, c), -1, -1, lab);
    }
  }

  /** The invariant again, from the workers and the closures that took part. */
  lemma Together(x: Ext, y: Ext, s: State, t: State, ws: set<Wid>, cs: set<Id>, lab: Labels)
    requires Inv(s) && ExtInv(x, s, lab) && Apart(x, y, s, t, ws, cs)
    requires forall p | p in y.heap :: p < y.next
    requires forall c | c in y.called :: c < t.next
    requires forall v | 0 <= v < |s.workers| && v !in ws && !s.workers[v].phase.Stealing? :: s.workers[v].closure !in cs
    requires forall v | v in ws && v < |s.workers| :: WorkerExtOk(y, t, v, lab)
    requires forall c | c in cs && c in t.closures && t.closures[c].runner.None? :: ClosureExtOk(y, t, c, lab)
    requires forall c | c in t.closures && t.closures[c].callParent.Some? :: c in y.called
    ensures ExtInv(y, t, lab)
  {
    forall v | 0 <= v < |t.workers|
      ensures WorkerExtOk(y, t, v, lab)
    {
      if v !in ws {
        OtherWorker(x, y, s, t, ws, cs, v, lab);
      }
    }
    forall c | c in t.closures
      ensures ClosureExtOk(y, t, c, lab)
    {
      if t.closures[c].runner.None? && c !in cs {
        OtherClosure(x, y, s, t, ws, cs, c, lab);
      }
    }
  }

  /** A step of one worker on its own closure, which it keeps. */
  lemma OwnStep(x: Ext, y: Ext, s: State, t: State, w: Wid, lab: Labels)
    requires Inv(s) && ExtInv(x, s, lab)
    requires w < |s.workers| && !s.workers[w].phase.Stealing? && s.workers[w].closure in s.closures
    requires |t.workers| == |s.workers| == |y.workers| && t.next == s.next
    requires forall v | 0 <= v < |s.workers| && v != w :: t.workers[v] == s.workers[v] && y.workers[v] == x.workers[v]
    requires s.workers[w].closure in t.closures && t.closures == s.closures[s.workers[w].closure := t.closures[s.workers[w].closure]]
    requires t.closures[s.workers[w].closure].runner == Some(w)
    requires t.closures[s.workers[w].closure].callParent == s.closures[s.workers[w].closure].callParent
    requires HeapKept(x.heap, y.heap, {w}, {}) && (forall p | p in y.heap :: p < y.next)
    requires y.rest == x.rest && y.called == x.called
    requires WorkerExtOk(y, t, w, lab)
    ensures ExtInv(y, t, lab)
  {
    var c := s.workers[w].closure;
    assert WorkerOk(s, w);
    forall d | d in t.closures && t.closures[d].callParent.Some?
      ensures d in y.called
    {
      assert ClosureExtOk(x, s, d, lab);
    }
    Together(x, y, s, t, {w}, {}, lab);
  }

  // ---------------------------------------------------------------------
  // User code
  // ---------------------------------------------------------------------

  /** The first instruction of the top frame is done, and has raised the rank by `d`. */
  lemma AfterTop(h: Heap, h': Heap, stack: seq<Frame>, saved: seq<Option<Pid>>, saved': seq<Option<Pid>>, cur: Pid, rank: nat,
                 who: Holder, bottom: Option<(Pid, nat)>, d: nat, lab: Labels)
    requires stack != [] && Top(stack).rest != [] && StackOk(h, stack, saved, cur, rank, Some(who), bottom, -1, lab)
    requires var rest := Top(stack).rest; Labelled(rest[1..], h[cur].chain, rank + d, lab) && Ticks(rest, lab) == d + Ticks(rest[1..], lab)
    requires |saved'| == |saved| && saved'[..|saved| - 1] == saved[..|saved| - 1]
    requires saved'[|saved| - 1].Some? ==> saved'[|saved| - 1].value == cur
    requires cur in h' && h'[cur].chain == h[cur].chain && h'[cur].holder == who
    requires forall p | p in h && p < cur :: p in h' && h'[p] == h[p]
    ensures StackOk(h', SetTop(stack, Top(stack).rest[1..]), saved', cur, rank + d, Some(who), bottom, -1, lab)
  {
    var n := |stack| - 1;
    var t := SetTop(stack, Top(stack).rest[1..]);
    assert t[..n] == stack[..n];
    if n > 0 {
      if stack[n].spawned {
        var q := saved[n - 1].value;
        assert saved'[n - 1] == saved'[..n][n - 1] == saved[..n][n - 1];
        StackKept(h, h', stack[..n], saved[..n], q, h[q].rank, who, bottom, -1, -1, lab);
      } else {
        StackKept(h, h', stack[..n], saved[..n], cur, rank + Ticks(stack[n].rest, lab), who, bottom, -1, -1, lab);
      }
    }
  }

  /** The strand of a worker in user code. */
  ghost predicate Strand(x: Ext, s: State, w: Wid, lab: Labels)
    requires w < |s.workers| == |x.workers| && s.workers[w].closure in s.closures
  {
    var k, y := s.workers[w], x.workers[w];
    && y.extension in x.heap && x.heap[y.extension].holder == OnWorker(w) && !y.owed && |y.saved| == |k.stack|
    && StackOk(x.heap, k.stack, y.saved, y.extension, x.heap[y.extension].rank, Some(OnWorker(w)), Bottom(x, s, k.closure), -1, lab)
  }

  lemma InStrand(x: Ext, s: State, w: Wid, lab: Labels)
    requires Inv(s) && ExtInv(x, s, lab) && InUserCode(s, w) && !Finished(s, w)
    ensures Strand(x, s, w, lab)
  {
    assert WorkerExtOk(x, s, w, lab);
  }

  lemma PopStrand(x: Ext, s: State, w: Wid, lab: Labels)
    requires Enabled(s, Exec(w)) && s.workers[w].closure in s.closures && w < |x.workers| == |s.workers| && Strand(x, s, w, lab) && Top(s.workers[w].stack).rest == []
    ensures Strand(ExecExt(x, s, w, lab), DoExec(s, w), w, lab)
  {
    var k, y := s.workers[w], x.workers[w];
    var n := |k.stack| - 1;
    assert n > 0;
    if k.stack[n].spawned {
      var q := y.saved[n - 1].value;
      assert StackOk(x.heap, k.stack[..n], y.saved[..n], q, x.heap[q].rank, Some(OnWorker(w)), Bottom(x, s, k.closure), -1, lab);
    }
  }

  lemma CountStrand(x: Ext, s: State, w: Wid, lab: Labels)
    requires Enabled(s, Exec(w)) && s.workers[w].closure in s.closures && w < |x.workers| == |s.workers| && Strand(x, s, w, lab)
    requires var rest := Top(s.workers[w].stack).rest; rest != [] && (rest[0].Update? || rest[0].Sync?)
    ensures Strand(ExecExt(x, s, w, lab), DoExec(s, w), w, lab)
  {
    var k, y := s.workers[w], x.workers[w];
    var cur, rest := y.extension, Top(k.stack).rest;
    var d := if rest[0].Sync? || lab(rest[0].u).Some? then 1 else 0;
    AfterTop(x.heap, if d == 1 then Ticked(x.heap, cur) else x.heap, k.stack, y.saved, y.saved, cur, x.heap[cur].rank, OnWorker(w),
             Bottom(x, s, k.closure), d, lab);
  }

  /** A called frame goes on top, on its caller's pedigree frame. */
  lemma PushCalled(h: Heap, stack: seq<Frame>, saved: seq<Option<Pid>>, cur: Pid, rank: nat, who: Holder, bottom: Option<(Pid, nat)>,
                   body: Code, lab: Labels)
    requires cur in h && stack != [] && StackOk(h, stack, saved, cur, rank + Ticks(body, lab), Some(who), bottom, -1, lab)
    requires h[cur].holder == who && Labelled(body, h[cur].chain, rank, lab)
    ensures StackOk(h, stack + [Frame(body, false)], saved + [None], cur, rank, Some(who), bottom, -1, lab)
  {
    assert (stack + [Frame(body, false)])[..|stack|] == stack && (saved + [None])[..|stack|] == saved;
  }

  lemma CallStrand(x: Ext, s: State, w: Wid, lab: Labels)
    requires Enabled(s, Exec(w)) && s.workers[w].closure in s.closures && w < |x.workers| == |s.workers| && Strand(x, s, w, lab)
    requires var rest := Top(s.workers[w].stack).rest; rest != [] && rest[0].Call?
    ensures Strand(ExecExt(x, s, w, lab), DoExec(s, w), w, lab)
  {
    var k, y := s.workers[w], x.workers[w];
    var cur, rest := y.extension, Top(k.stack).rest;
    AfterTop(x.heap, x.heap, k.stack, y.saved, y.saved, cur, x.heap[cur].rank, OnWorker(w), Bottom(x, s, k.closure),
             Ticks(rest[0].body, lab), lab);
    PushCalled(x.heap, SetTop(k.stack, rest[1..]), y.saved, cur, x.heap[cur].rank, OnWorker(w), Bottom(x, s, k.closure), rest[0].body, lab);
  }

  /** A spawned frame goes on top, on a pedigree frame of its own. */
  lemma PushSpawned(h: Heap, stack: seq<Frame>, saved: seq<Option<Pid>>, cur: Pid, who: Holder, bottom: Option<(Pid, nat)>,
                    q: Pid, body: Code, lab: Labels)
    requires cur in h && stack != [] && StackOk(h, stack, saved, cur, h[cur].rank, Some(who), bottom, -1, lab)
    requires saved[|stack| - 1] == Some(cur) && cur < q && q in h && h[q].holder == who
    requires Labelled(body, h[q].chain, 0, lab)
    ensures StackOk(h, stack + [Frame(body, true)], saved + [None], q, 0, Some(who), bottom, -1, lab)
  {
    assert (stack + [Frame(body, true)])[..|stack|] == stack && (saved + [None])[..|stack|] == saved;
  }

  lemma SpawnStack(h: Heap, h': Heap, stack: seq<Frame>, saved: seq<Option<Pid>>, cur: Pid, who: Holder, bottom: Option<(Pid, nat)>,
                   q: Pid, lab: Labels)
    requires cur in h && stack != [] && StackOk(h, stack, saved, cur, h[cur].rank, Some(who), bottom, -1, lab)
    requires Top(stack).rest != [] && Top(stack).rest[0].Spawn? && forall p | p in h :: p < q
    requires h' == Ticked(h, cur)[q := Ped(h[cur].chain + [h[cur].rank], 0, who)]
    ensures StackOk(h', SetTop(stack, Top(stack).rest[1..]) + [Frame(Top(stack).rest[0].body, true)],
                    saved[|stack| - 1 := Some(cur)] + [None], q, 0, Some(who), bottom, -1, lab)
  {
    var saved' := saved[|stack| - 1 := Some(cur)];
    AfterTop(h, h', stack, saved, saved', cur, h[cur].rank, who, bottom, 1, lab);
    PushSpawned(h', SetTop(stack, Top(stack).rest[1..]), saved', cur, who, bottom, q, Top(stack).rest[0].body, lab);
  }

  lemma SpawnStrand(x: Ext, s: State, w: Wid, lab: Labels)
    requires Enabled(s, Exec(w)) && s.workers[w].closure in s.closures && w < |x.workers| == |s.workers| && Strand(x, s, w, lab)
    requires var rest := Top(s.workers[w].stack).rest; rest != [] && rest[0].Spawn?
    requires forall p | p in x.heap :: p < x.next
    ensures Strand(ExecExt(x, s, w, lab), DoExec(s, w), w, lab)
  {
    var k, y := s.workers[w], x.workers[w];
    SpawnStack(x.heap, ExecExt(x, s, w, lab).heap, k.stack, y.saved, y.extension, OnWorker(w), Bottom(x, s, k.closure), x.next, lab);
  }

  /** A step of user code keeps its strand. */
  lemma ExecStrand(x: Ext, s: State, w: Wid, lab: Labels)
    requires Inv(s) && ExtInv(x, s, lab) && Enabled(s, Exec(w)) && Strand(x, s, w, lab)
    ensures Strand(ExecExt(x, s, w, lab), DoExec(s, w), w, lab)
  {
    var rest := Top(s.workers[w].stack).rest;
    if rest == [] {
      PopStrand(x, s, w, lab);
    } else if rest[0].Call? {
      CallStrand(x, s, w, lab);
    } else if rest[0].Spawn? {
      SpawnStrand(x, s, w, lab);
    } else {
      CountStrand(x, s, w, lab);
    }
  }

  lemma ExecApart(x: Ext, s: State, w: Wid, lab: Labels)
    requires w < |x.workers| == |s.workers| && Enabled(s, Exec(w)) && Strand(x, s, w, lab)
    requires forall p | p in x.heap :: p < x.next
    ensures var y := ExecExt(x, s, w, lab);
      && |y.workers| == |x.workers| && y.rest == x.rest && y.called == x.called
      && HeapKept(x.heap, y.heap, {w}, {}) && (forall p | p in y.heap :: p < y.next)
      && (forall v | 0 <= v < |x.workers| && v != w :: y.workers[v] == x.workers[v])
      && (x.workers[w].saved[0].Some? && y.workers[w].saved != [] ==> y.workers[w].saved[0].Some?)
  {
    var rest := Top(s.workers[w].stack).rest;
    if rest == [] {
    } else if rest[0].Spawn? {
    } else if rest[0].Call? {
    }
  }

  lemma ExecKeepsExt(x: Ext, s: State, w: Wid, lab: Labels)
    requires Inv(s) && ExtInv(x, s, lab) && Enabled(s, Exec(w))
    ensures ExtInv(ExecExt(x, s, w, lab), DoExec(s, w), lab)
  {
    assert WorkerExtOk(x, s, w, lab) && WorkerOk(s, w);
    InStrand(x, s, w, lab);
    ExecStrand(x, s, w, lab);
    ExecApart(x, s, w, lab);
    OwnStep(x, ExecExt(x, s, w, lab), s, DoExec(s, w), w, lab);
  }

  lemma EnterKeepsExt(x: Ext, s: State, w: Wid, lab: Labels)
    requires Inv(s) && ExtInv(x, s, lab) && Enabled(s, Enter(w))
    ensures ExtInv(EnterExt(x, s, w), DoEnter(s, w), lab)
  {
    assert WorkerExtOk(x, s, w, lab) && WorkerOk(s, w);
    var y, t := EnterExt(x, s, w), DoEnter(s, w);
    assert WorkerExtOk(y, t, w, lab);
    OwnStep(x, y, s, t, w, lab);
  }

  lemma BeginReturnKeepsExt(x: Ext, s: State, w: Wid, lab: Labels)
    requires Inv(s) && ExtInv(x, s, lab) && Enabled(s, BeginReturn(w))
    ensures ExtInv(BeginReturnExt(x, s, w), DoBeginReturn(s, w), lab)
  {
    assert WorkerExtOk(x, s, w, lab) && WorkerOk(s, w);
    var y, t := BeginReturnExt(x, s, w), DoBeginReturn(s, w);
    assert WorkerExtOk(y, t, w, lab);
    OwnStep(x, y, s, t, w, lab);
  }

  // ---------------------------------------------------------------------
  // Syncs
  // ---------------------------------------------------------------------

  lemma ReduceKeepsExt(x: Ext, s: State, w: Wid, lab: Labels)
    requires Inv(s) && ExtInv(x, s, lab) && Enabled(s, Reduce(w))
    ensures ExtInv(ReduceExt(x, w), DoReductions(s, w), lab)
  {
    assert WorkerExtOk(x, s, w, lab) && WorkerOk(s, w);
    var k, e, y, t := s.workers[w], x.workers[w], ReduceExt(x, w), DoReductions(s, w);
    if !Done(k, s.closures[k.closure]) {
      StackKept(x.heap, y.heap, k.stack, e.saved, e.extension, x.heap[e.extension].rank + Owed(e.owed), OnWorker(w),
                Bottom(x, s, k.closure), -1, -1, lab);
    }
    assert WorkerExtOk(y, t, w, lab);
    OwnStep(x, y, s, t, w, lab);
  }

  /** The single frame of a closure at a sync: its strand runs on the pointer kept in it,
      and an explicit sync is owed. */
  lemma AtSync(x: Ext, s: State, w: Wid, lab: Labels)
    requires Inv(s) && ExtInv(x, s, lab) && Enabled(s, SyncStep(w))
    ensures Strand(x, s, w, lab) && x.workers[w].saved == [Some(x.workers[w].extension)]
    ensures var k, y := s.workers[w], x.workers[w]; var rest := k.stack[0].rest;
      StackOk(x.heap, SetTop(k.stack, if rest == [] then [] else rest[1..]), y.saved, y.extension,
              x.heap[y.extension].rank + Owed(rest != []), Some(OnWorker(w)), Bottom(x, s, k.closure), -1, lab)
  {
    assert WorkerExtOk(x, s, w, lab);
    InStrand(x, s, w, lab);
  }

  lemma PassKeepsExt(x: Ext, s: State, w: Wid, lab: Labels)
    requires Inv(s) && ExtInv(x, s, lab) && Enabled(s, SyncStep(w)) && !s.closures[s.workers[w].closure].HasChildren()
    ensures ExtInv(SyncExt(x, s, w), DoSync(s, w), lab)
  {
    AtSync(x, s, w, lab);
    assert WorkerOk(s, w);
    var y, t := SyncExt(x, s, w), DoSync(s, w);
    assert WorkerExtOk(y, t, w, lab);
    OwnStep(x, y, s, t, w, lab);
  }

  lemma StillCalled(x: Ext, s: State, lab: Labels)
    requires ExtInv(x, s, lab)
    ensures forall d | d in s.closures && s.closures[d].callParent.Some? :: d in x.called
  {
    forall d | d in s.closures && s.closures[d].callParent.Some?
      ensures d in x.called
    {
      assert ClosureExtOk(x, s, d, lab);
    }
  }

  /** No other worker holds what worker `w` holds, or what nobody holds. */
  lemma NotHeld(s: State, ws: set<Wid>, c: Id)
    requires Inv(s) && c in s.closures && (s.closures[c].runner.Some? ==> s.closures[c].runner.value in ws)
    ensures forall v | 0 <= v < |s.workers| && v !in ws && !s.workers[v].phase.Stealing? :: s.workers[v].closure != c
  {
    forall v | 0 <= v < |s.workers| && v !in ws && !s.workers[v].phase.Stealing?
      ensures s.workers[v].closure != c
    {
      assert WorkerOk(s, v);
    }
  }

  lemma SuspendRunsApart(s: State, w: Wid)
    requires Inv(s) && Enabled(s, SyncStep(w)) && s.closures[s.workers[w].closure].HasChildren()
    ensures RunsApart(s, DoSync(s, w), {w}, {s.workers[w].closure})
  {
    assert WorkerOk(s, w);
  }

  lemma SuspendKeepsExt(x: Ext, s: State, w: Wid, lab: Labels)
    requires Inv(s) && ExtInv(x, s, lab) && Enabled(s, SyncStep(w)) && s.closures[s.workers[w].closure].HasChildren()
    ensures ExtInv(SyncExt(x, s, w), DoSync(s, w), lab)
  {
    AtSync(x, s, w, lab);
    var k, e, y, t := s.workers[w], x.workers[w], SyncExt(x, s, w), DoSync(s, w);
    var c := k.closure;
    assert WorkerOk(s, w) && CountsOk(s.closures[c]) && ClosureExtOk(x, s, c, lab);
    UncutKept(x.heap, y.heap, t.closures[c].frames, e.saved, e.extension, x.heap[e.extension].rank + Owed(k.stack[0].rest != []),
              Some(OnWorker(w)), Some(AtRest(c)), Bottom(x, s, c), -1, -1, lab);
    assert ClosureExtOk(y, t, c, lab);
    SuspendRunsApart(s, w);
    StillCalled(x, s, lab);
    NotHeld(s, {w}, c);
    Together(x, y, s, t, {w}, {c}, lab);
  }

  // ---------------------------------------------------------------------
  // Returns
  // ---------------------------------------------------------------------

  /** A called closure that returns leaves its call parent on the pedigree frame and the
      rank that the serial elision has after the call. */
  lemma AtCallReturn(x: Ext, s: State, w: Wid, lab: Labels)
    requires Inv(s) && ExtInv(x, s, lab) && Enabled(s, CallReturn(w))
    ensures var c, y := s.workers[w].closure, x.workers[w];
      && c in x.called && y.extension in x.heap && x.called[c] == (y.extension, x.heap[y.extension].rank)
      && x.heap[y.extension].holder == OnWorker(w) && !y.owed
  {
    var c := s.workers[w].closure;
    assert WorkerExtOk(x, s, w, lab) && WorkerOk(s, w) && LinksOk(s.closures, c) && ClosureExtOk(x, s, c, lab);
  }

  lemma CallReturnRunsApart(s: State, w: Wid)
    requires Inv(s) && Enabled(s, CallReturn(w))
    ensures var c := s.workers[w].closure; RunsApart(s, DoCallReturn(s, w), {w}, {c, s.closures[c].callParent.value})
  {
    assert WorkerOk(s, w) && LinksOk(s.closures, s.workers[w].closure);
  }

  lemma CallReturnKeepsExt(x: Ext, s: State, w: Wid, lab: Labels)
    requires Inv(s) && ExtInv(x, s, lab) && Enabled(s, CallReturn(w))
    ensures ExtInv(CallReturnExt(x, s, w), DoCallReturn(s, w), lab)
  {
    AtCallReturn(x, s, w, lab);
    var c, y, t := s.workers[w].closure, CallReturnExt(x, s, w), DoCallReturn(s, w);
    var p := s.closures[c].callParent.value;
    assert WorkerOk(s, w) && LinksOk(s.closures, c) && CountsOk(s.closures[p]) && ClosureExtOk(x, s, p, lab);
    var e := x.rest[p];
    var (q, final) := x.called[c];
    UncutKept(x.heap, x.heap, s.closures[p].frames, e.saved, q, final, None, Some(OnWorker(w)), Bottom(x, s, p), -1, -1, lab);
    assert WorkerExtOk(y, t, w, lab);
    CallReturnRunsApart(s, w);
    StillCalled(x, s, lab);
    NotHeld(s, {w}, p);
    NotHeld(s, {w}, c);
    Together(x, y, s, t, {w}, {c, p}, lab);
  }

  lemma TakeMapsRunsApart(s: State, w: Wid, c: Id, p: Id, j: nat)
    requires Returns(s, w, c, p, j)
    ensures RunsApart(s, TakeMaps(s, w, c, p, j), {w}, {})
  {
    var t := TakeMaps(s, w, c, p, j);
    assert WorkerOk(s, w);
    assert forall d | d in t.closures :: d in s.closures && SameFrames(s.closures[d], t.closures[d]);
  }

  lemma TakeMapsKeepsExt(x: Ext, s: State, w: Wid, c: Id, p: Id, j: nat, lab: Labels)
    requires Inv(s) && ExtInv(x, s, lab) && Returns(s, w, c, p, j)
    ensures ExtInv(x, TakeMaps(s, w, c, p, j), lab)
  {
    var t := TakeMaps(s, w, c, p, j);
    assert WorkerOk(s, w) && WorkerExtOk(x, s, w, lab);
    TakeMapsRunsApart(s, w, c, p, j);
    assert WorkerExtOk(x, t, w, lab);
    StillCalled(x, s, lab);
    Together(x, x, s, t, {w}, {}, lab);
  }

  lemma DepositRunsApart(s: State, w: Wid, c: Id, p: Id, j: nat)
    requires Returns(s, w, c, p, j)
    ensures RunsApart(s, Deposit(s, w, c, p, j), {w}, {})
  {
    var t := Deposit(s, w, c, p, j);
    assert WorkerOk(s, w);
    assert forall d | d in t.closures :: d in s.closures && SameFrames(s.closures[d], t.closures[d]);
  }

  lemma DepositKeepsExt(x: Ext, s: State, w: Wid, c: Id, p: Id, j: nat, lab: Labels)
    requires Inv(s) && ExtInv(x, s, lab) && Returns(s, w, c, p, j)
    ensures ExtInv(x.(workers := x.workers[w := WorkerExt(x.workers[w].extension, [], false)]), Deposit(s, w, c, p, j), lab)
  {
    var t, y := Deposit(s, w, c, p, j), x.(workers := x.workers[w := WorkerExt(x.workers[w].extension, [], false)]);
    assert WorkerOk(s, w);
    DepositRunsApart(s, w, c, p, j);
    assert WorkerExtOk(y, t, w, lab);
    StillCalled(x, s, lab);
    Together(x, y, s, t, {w}, {}, lab);
  }

  function Resumed(x: Ext, w: Wid, p: Id): Ext
    requires w < |x.workers| && p in x.rest
  {
    var q := Saved(x.rest[p].saved, 0, x.workers[w].extension);
    x.(heap := Held(x.heap, q, OnWorker(w)), workers := x.workers[w := WorkerExt(q, x.rest[p].saved, x.rest[p].owed)])
  }

  ghost predicate Resumes(x: Ext, s: State, w: Wid, c: Id, p: Id, j: nat, lab: Labels) {
    && Inv(s) && ExtInv(x, s, lab) && Returns(s, w, c, p, j) && p in x.rest
    && !Deposit(s, w, c, p, j).closures[p].HasChildren() && s.closures[p].status == Suspended
  }

  lemma ResumedWorker(x: Ext, s: State, w: Wid, c: Id, p: Id, j: nat, lab: Labels)
    requires Resumes(x, s, w, c, p, j, lab)
    ensures WorkerExtOk(Resumed(x, w, p), ProvablyGoodSteal(Deposit(s, w, c, p, j), w, p), w, lab)
    ensures var e := x.rest[p]; e.saved != [] && e.saved[0].Some? && e.saved[0].value in x.heap && x.heap[e.saved[0].value].holder == AtRest(p)
  {
    var y, t := Resumed(x, w, p), ProvablyGoodSteal(Deposit(s, w, c, p, j), w, p);
    var e, cl := x.rest[p], s.closures[p];
    assert CountsOk(cl) && ClosureExtOk(x, s, p, lab);
    var q := e.saved[0].value;
    assert t.closures[p].callParent == cl.callParent;
    UncutKept(x.heap, y.heap, cl.frames, e.saved, q, x.heap[q].rank + Owed(e.owed), Some(AtRest(p)), Some(OnWorker(w)),
              Bottom(x, s, p), -1, -1, lab);
  }

  lemma ResumedRunsApart(s: State, w: Wid, c: Id, p: Id, j: nat)
    requires Inv(s) && Returns(s, w, c, p, j)
    ensures RunsApart(s, ProvablyGoodSteal(Deposit(s, w, c, p, j), w, p), {w}, {p})
  {
    DepositRunsApart(s, w, c, p, j);
  }

  lemma ResumedApart(x: Ext, s: State, w: Wid, c: Id, p: Id, j: nat, lab: Labels)
    requires Resumes(x, s, w, c, p, j, lab)
    ensures Apart(x, Resumed(x, w, p), s, ProvablyGoodSteal(Deposit(s, w, c, p, j), w, p), {w}, {p})
    ensures s.closures[p].runner.None?
  {
    ResumedWorker(x, s, w, c, p, j, lab);
    ResumedRunsApart(s, w, c, p, j);
    assert CountsOk(s.closures[p]);
  }

  lemma ProvablyGoodStealKeepsExt(x: Ext, s: State, w: Wid, c: Id, p: Id, j: nat, lab: Labels)
    requires Resumes(x, s, w, c, p, j, lab)
    ensures ExtInv(Resumed(x, w, p), ProvablyGoodSteal(Deposit(s, w, c, p, j), w, p), lab)
  {
    ResumedWorker(x, s, w, c, p, j, lab);
    ResumedApart(x, s, w, c, p, j, lab);
    StillCalled(x, s, lab);
    NotHeld(s, {w}, p);
    Together(x, Resumed(x, w, p), s, ProvablyGoodSteal(Deposit(s, w, c, p, j), w, p), {w}, {p}, lab);
  }

  lemma ReturnKeepsExt(x: Ext, s: State, w: Wid, lab: Labels)
    requires Inv(s) && ExtInv(x, s, lab) && Enabled(s, Return(w))
    ensures ExtInv(ReturnExt(x, s, w), DoReturn(s, w), lab)
  {
    var c := s.workers[w].closure;
    var p := s.closures[c].spawnParent.value;
    var j := IndexOf(s.closures[p].children, c);
    assert WorkerOk(s, w) && LinksOk(s.closures, c) && CountsOk(s.closures[p]);
    assert ClosureExtOk(x, s, p, lab);
    if LeftMap(s, p, j) != [] || s.closures[c].rightHt != [] {
      TakeMapsKeepsExt(x, s, w, c, p, j, lab);
    } else {
      DepositKeepsExt(x, s, w, c, p, j, lab);
      var s1 := Deposit(s, w, c, p, j);
      if !s1.closures[p].HasChildren() && s1.closures[p].status == Suspended {
        ProvablyGoodStealKeepsExt(x, s, w, c, p, j, lab);
      }
    }
  }

  // ---------------------------------------------------------------------
  // Steals
  // ---------------------------------------------------------------------

  /** What a steal finds. */
  ghost predicate Stealable(x: Ext, s: State, thief: Wid, victim: Wid, head: nat) {
    && Enabled(s, Steal(thief, victim, head)) && |x.workers| == |s.workers|
    && (forall c | c in s.closures :: c < s.next) && (forall c | c in x.called :: c < s.next)
    && (forall p | p in x.heap :: p < x.next)
    && (forall c | c in s.closures && s.closures[c].callParent.Some? :: c in x.called)
    && s.closures[s.workers[victim].closure].runner == Some(victim)
    && var e := x.workers[victim];
    && |e.saved| == |s.workers[victim].stack| && e.saved[head].Some? && e.saved[head].value in x.heap
    && x.heap[e.saved[head].value].holder == OnWorker(victim) && e.saved[head].value != e.extension
  }

  /** The victim keeps what is above the stolen frame. */
  lemma VictimKeeps(x: Ext, s: State, thief: Wid, victim: Wid, head: nat, lab: Labels)
    requires Inv(s) && ExtInv(x, s, lab) && Enabled(s, Steal(thief, victim, head))
    ensures Strand(x, s, victim, lab) && Stealable(x, s, thief, victim, head)
    ensures var v, y := s.workers[victim], x.workers[victim];
      && y.saved[head].Some? && y.saved[head].value in x.heap
      && var q := y.saved[head].value; var h' := Held(x.heap, q, OnWorker(thief));
      && x.heap[q].holder == OnWorker(victim) && q != y.extension
      && StackOk(h', v.stack[head + 1..], y.saved[head + 1..], y.extension, x.heap[y.extension].rank,
                 Some(OnWorker(victim)), None, -1, lab)
      && StackOk(x.heap, v.stack[..head + 1], y.saved[..head + 1], q, x.heap[q].rank,
                 Some(OnWorker(victim)), Bottom(x, s, v.closure), -1, lab)
  {
    InStrand(x, s, victim, lab);
    var v, y, h := s.workers[victim], x.workers[victim], x.heap;
    assert WorkerOk(s, victim);
    StillCalled(x, s, lab);
    StackSplit(h, v.stack, y.saved, y.extension, h[y.extension].rank, Some(OnWorker(victim)), Bottom(x, s, v.closure), -1, head + 1, lab);
    var q := y.saved[head].value;
    var h' := Held(h, q, OnWorker(thief));
    StackKept(h, h', v.stack[head + 1..], y.saved[head + 1..], y.extension, h[y.extension].rank, OnWorker(victim), None, q, -1, lab);
  }

  lemma StealRunsApart(s: State, thief: Wid, victim: Wid, head: nat)
    requires Enabled(s, Steal(thief, victim, head)) && (forall c | c in s.closures :: c < s.next)
    requires s.closures[s.workers[victim].closure].runner == Some(victim)
    ensures RunsApart(s, DoSteal(s, thief, victim, head), {thief, victim}, if head == 0 then {} else {s.workers[victim].closure})
  {
    var t, x := DoSteal(s, thief, victim, head), s.workers[victim].closure;
    assert forall d | d in s.closures && d != x :: t.closures[d] == s.closures[d];
    assert forall d | d in t.closures && d !in s.closures :: t.closures[d].runner.Some?;
  }

  lemma StealExtsApart(x: Ext, s: State, thief: Wid, victim: Wid, head: nat, lab: Labels)
    requires Stealable(x, s, thief, victim, head)
    ensures ExtsApart(x, StealExt(x, s, thief, victim, head, lab), {thief, victim}, if head == 0 then {} else {s.workers[victim].closure})
  {
  }

  lemma StealApart(x: Ext, s: State, thief: Wid, victim: Wid, head: nat, lab: Labels)
    requires Stealable(x, s, thief, victim, head)
    ensures Apart(x, StealExt(x, s, thief, victim, head, lab), s, DoSteal(s, thief, victim, head), {thief, victim},
                  if head == 0 then {} else {s.workers[victim].closure})
  {
    StealRunsApart(s, thief, victim, head);
    StealExtsApart(x, s, thief, victim, head, lab);
  }

  lemma StealNumbers(x: Ext, s: State, thief: Wid, victim: Wid, head: nat, lab: Labels)
    requires Stealable(x, s, thief, victim, head)
    ensures var y, t := StealExt(x, s, thief, victim, head, lab), DoSteal(s, thief, victim, head);
      && (forall p | p in y.heap :: p < y.next) && (forall c | c in y.called :: c < t.next)
      && (forall c | c in t.closures && t.closures[c].callParent.Some? :: c in y.called)
  {
  }

  /** The stolen frame goes on on the pedigree frame that the pointer kept in it leads to. */
  lemma ThiefOwnFrame(x: Ext, s: State, thief: Wid, victim: Wid, bottom: Option<(Pid, nat)>, lab: Labels)
    requires Stealable(x, s, thief, victim, 0)
    requires var v, e := s.workers[victim], x.workers[victim]; var q := e.saved[0].value;
      StackOk(x.heap, v.stack[..1], e.saved[..1], q, x.heap[q].rank, Some(OnWorker(victim)), bottom, -1, lab)
    requires bottom == Bottom(x, s, s.workers[victim].closure)
    requires s.closures[s.workers[victim].closure].callParent.Some? ==> s.workers[victim].closure in x.called
    ensures WorkerExtOk(StealExt(x, s, thief, victim, 0, lab), DoSteal(s, thief, victim, 0), thief, lab)
  {
    var v, e, y := s.workers[victim], x.workers[victim], StealExt(x, s, thief, victim, 0, lab);
    var q := e.saved[0].value;
    UncutKept(x.heap, y.heap, v.stack[..1], e.saved[..1], q, x.heap[q].rank, Some(OnWorker(victim)), Some(OnWorker(thief)),
              bottom, -1, -1, lab);
    assert e.saved[0..1] == e.saved[..1];
  }

  lemma ThiefCalledFrame(x: Ext, s: State, thief: Wid, victim: Wid, head: nat, bottom: Option<(Pid, nat)>, lab: Labels)
    requires Stealable(x, s, thief, victim, head) && head > 0
    requires var v, e := s.workers[victim], x.workers[victim]; var q := e.saved[head].value;
      StackOk(x.heap, v.stack[..head + 1], e.saved[..head + 1], q, x.heap[q].rank, Some(OnWorker(victim)), bottom, -1, lab)
    ensures WorkerExtOk(StealExt(x, s, thief, victim, head, lab), DoSteal(s, thief, victim, head), thief, lab)
  {
    var v, e, y, t := s.workers[victim], x.workers[victim], StealExt(x, s, thief, victim, head, lab), DoSteal(s, thief, victim, head);
    var q := e.saved[head].value;
    assert v.stack[..head + 1][head] == v.stack[head];
    assert Bottom(y, t, s.next) == Some((q, x.heap[q].rank + Ticks(v.stack[head].rest, lab)));
    assert StackOk(y.heap, [v.stack[head]], [e.saved[head]], q, x.heap[q].rank, Some(OnWorker(thief)), Bottom(y, t, s.next), -1, lab);
    assert v.stack[head..head + 1] == [v.stack[head]] && e.saved[head..head + 1] == [e.saved[head]];
  }

  lemma ThiefGets(x: Ext, s: State, thief: Wid, victim: Wid, head: nat, lab: Labels)
    requires Inv(s) && ExtInv(x, s, lab) && Enabled(s, Steal(thief, victim, head))
    ensures WorkerExtOk(StealExt(x, s, thief, victim, head, lab), DoSteal(s, thief, victim, head), thief, lab)
  {
    VictimKeeps(x, s, thief, victim, head, lab);
    if head == 0 {
      ThiefOwnFrame(x, s, thief, victim, Bottom(x, s, s.workers[victim].closure), lab);
    } else {
      ThiefCalledFrame(x, s, thief, victim, head, Bottom(x, s, s.workers[victim].closure), lab);
    }
  }

  lemma VictimFrames(x: Ext, s: State, thief: Wid, victim: Wid, head: nat, lab: Labels)
    requires Stealable(x, s, thief, victim, head)
    requires var v, e := s.workers[victim], x.workers[victim];
      && e.extension in x.heap && !e.owed
      && StackOk(Held(x.heap, e.saved[head].value, OnWorker(thief)), v.stack[head + 1..], e.saved[head + 1..], e.extension,
                 x.heap[e.extension].rank, Some(OnWorker(victim)), None, -1, lab)
    ensures WorkerExtOk(StealExt(x, s, thief, victim, head, lab), DoSteal(s, thief, victim, head), victim, lab)
  {
    var y, t := StealExt(x, s, thief, victim, head, lab), DoSteal(s, thief, victim, head);
    assert Bottom(y, t, t.workers[victim].closure) == None;
  }

  lemma VictimGoesOn(x: Ext, s: State, thief: Wid, victim: Wid, head: nat, lab: Labels)
    requires Inv(s) && ExtInv(x, s, lab) && Enabled(s, Steal(thief, victim, head))
    ensures WorkerExtOk(StealExt(x, s, thief, victim, head, lab), DoSteal(s, thief, victim, head), victim, lab)
  {
    VictimKeeps(x, s, thief, victim, head, lab);
    VictimFrames(x, s, thief, victim, head, lab);
  }

  /** The closure of which a called frame has been stolen waits for it. */
  lemma CallerWaits(x: Ext, s: State, thief: Wid, victim: Wid, head: nat, bottom: Option<(Pid, nat)>, lab: Labels)
    requires Stealable(x, s, thief, victim, head) && head > 0
    requires var v, e := s.workers[victim], x.workers[victim]; var q := e.saved[head].value;
      StackOk(x.heap, v.stack[..head + 1], e.saved[..head + 1], q, x.heap[q].rank, Some(OnWorker(victim)), bottom, -1, lab)
    requires s.closures[s.workers[victim].closure].unsynced ==> x.workers[victim].saved[0].Some?
    requires bottom == Bottom(x, s, s.workers[victim].closure)
    ensures ClosureExtOk(StealExt(x, s, thief, victim, head, lab), DoSteal(s, thief, victim, head), s.workers[victim].closure, lab)
  {
    var v, e, y, t := s.workers[victim], x.workers[victim], StealExt(x, s, thief, victim, head, lab), DoSteal(s, thief, victim, head);
    var c, q := v.closure, e.saved[head].value;
    var lower, saved := v.stack[..head + 1], e.saved[..head + 1];
    var final := x.heap[q].rank + Ticks(v.stack[head].rest, lab);
    assert lower[..head] == v.stack[..head] && saved[..head] == e.saved[..head];
    UncutKept(x.heap, y.heap, v.stack[..head], e.saved[..head], q, final, Some(OnWorker(victim)), None, bottom, -1, -1, lab);
    assert c != s.next && t.closures[c].callParent == s.closures[c].callParent;
    assert Bottom(y, t, c) == bottom && y.called[s.next] == (q, final);
  }

  lemma CallerKept(x: Ext, s: State, thief: Wid, victim: Wid, head: nat, lab: Labels)
    requires Inv(s) && ExtInv(x, s, lab) && Enabled(s, Steal(thief, victim, head)) && head > 0
    ensures Stealable(x, s, thief, victim, head)
    ensures ClosureExtOk(StealExt(x, s, thief, victim, head, lab), DoSteal(s, thief, victim, head), s.workers[victim].closure, lab)
  {
    assert WorkerExtOk(x, s, victim, lab);
    VictimKeeps(x, s, thief, victim, head, lab);
    CallerWaits(x, s, thief, victim, head, Bottom(x, s, s.workers[victim].closure), lab);
  }

  /** What a steal leaves behind. */
  ghost predicate HasStolen(y: Ext, s: State, t: State, thief: Wid, victim: Wid, cs: set<Id>, lab: Labels) {
    && thief < |t.workers| == |y.workers| && victim < |t.workers|
    && WorkerExtOk(y, t, thief, lab) && WorkerExtOk(y, t, victim, lab)
    && (forall c | c in cs && c in t.closures :: ClosureExtOk(y, t, c, lab))
    && (forall c | c in cs :: c in s.closures && s.closures[c].runner == Some(victim))
    && (forall p | p in y.heap :: p < y.next) && (forall c | c in y.called :: c < t.next)
    && (forall c | c in t.closures && t.closures[c].callParent.Some? :: c in y.called)
  }

  lemma StealTogether(x: Ext, y: Ext, s: State, t: State, thief: Wid, victim: Wid, cs: set<Id>, lab: Labels)
    requires Inv(s) && ExtInv(x, s, lab) && Apart(x, y, s, t, {thief, victim}, cs) && HasStolen(y, s, t, thief, victim, cs, lab)
    ensures ExtInv(y, t, lab)
  {
    forall c | c in cs
      ensures forall v | 0 <= v < |s.workers| && v != thief && v != victim && !s.workers[v].phase.Stealing? :: s.workers[v].closure != c
    {
      NotHeld(s, {thief, victim}, c);
    }
    Together(x, y, s, t, {thief, victim}, cs, lab);
  }

  lemma OwnFrameStolen(x: Ext, s: State, thief: Wid, victim: Wid, lab: Labels)
    requires Inv(s) && ExtInv(x, s, lab) && Enabled(s, Steal(thief, victim, 0))
    ensures HasStolen(StealExt(x, s, thief, victim, 0, lab), s, DoSteal(s, thief, victim, 0), thief, victim, {}, lab)
  {
    ThiefGets(x, s, thief, victim, 0, lab);
    VictimGoesOn(x, s, thief, victim, 0, lab);
    VictimKeeps(x, s, thief, victim, 0, lab);
    StealNumbers(x, s, thief, victim, 0, lab);
  }

  lemma CalledFrameStolen(x: Ext, s: State, thief: Wid, victim: Wid, head: nat, lab: Labels)
    requires Inv(s) && ExtInv(x, s, lab) && Enabled(s, Steal(thief, victim, head)) && head > 0
    ensures HasStolen(StealExt(x, s, thief, victim, head, lab), s, DoSteal(s, thief, victim, head), thief, victim,
                      {s.workers[victim].closure}, lab)
  {
    ThiefGets(x, s, thief, victim, head, lab);
    VictimGoesOn(x, s, thief, victim, head, lab);
    CallerKept(x, s, thief, victim, head, lab);
    StealNumbers(x, s, thief, victim, head, lab);
  }

  lemma StealKeepsExt(x: Ext, s: State, thief: Wid, victim: Wid, head: nat, lab: Labels)
    requires Inv(s) && ExtInv(x, s, lab) && Enabled(s, Steal(thief, victim, head))
    ensures ExtInv(StealExt(x, s, thief, victim, head, lab), DoSteal(s, thief, victim, head), lab)
  {
    VictimKeeps(x, s, thief, victim, head, lab);
    StealApart(x, s, thief, victim, head, lab);
    if head == 0 {
      OwnFrameStolen(x, s, thief, victim, lab);
    } else {
      CalledFrameStolen(x, s, thief, victim, head, lab);
    }
    StealTogether(x, StealExt(x, s, thief, victim, head, lab), s, DoSteal(s, thief, victim, head), thief, victim,
                  if head == 0 then {} else {s.workers[victim].closure}, lab);
  }

  // ---------------------------------------------------------------------
  // Runs
  // ---------------------------------------------------------------------

  lemma StepKeepsExt(x: Ext, s: State, step: Step, lab: Labels)
    requires Inv(s) && ExtInv(x, s, lab) && Enabled(s, step)
    ensures ExtInv(Follow(x, s, step, lab), Apply(s, step), lab)
  {
    match step
    case Exec(w) => ExecKeepsExt(x, s, w, lab);
    case Steal(thief, victim, head) => StealKeepsExt(x, s, thief, victim, head, lab);
    case Enter(w) => EnterKeepsExt(x, s, w, lab);
    case SyncStep(w) =>
      if s.closures[s.workers[w].closure].HasChildren() {
        SuspendKeepsExt(x, s, w, lab);
      } else {
        PassKeepsExt(x, s, w, lab);
      }
    case Reduce(w) => ReduceKeepsExt(x, s, w, lab);
    case BeginReturn(w) => BeginReturnKeepsExt(x, s, w, lab);
    case Return(w) => ReturnKeepsExt(x, s, w, lab);
    case CallReturn(w) => CallReturnKeepsExt(x, s, w, lab);
    case Finish(w) => FinishKeepsExt(x, s, w, lab);
  }

  lemma FinishKeepsExt(x: Ext, s: State, w: Wid, lab: Labels)
    requires ExtInv(x, s, lab) && Enabled(s, Finish(w))
    ensures ExtInv(x, DoFinish(s, w), lab)
  {
    var t := DoFinish(s, w);
    forall v | 0 <= v < |t.workers|
      ensures WorkerExtOk(x, t, v, lab)
    {
      assert WorkerExtOk(x, s, v, lab);
    }
    forall c | c in t.closures
      ensures ClosureExtOk(x, t, c, lab)
    {
      assert ClosureExtOk(x, s, c, lab);
    }
  }

  lemma StartOk(code: Code, nworkers: nat, lab: Labels)
    requires nworkers > 0 && Labelled(code, [], 0, lab)
    ensures ExtInv(Start(nworkers), Init(code, nworkers), lab)
  {
  }

  lemma {:induction false} RunKeepsExt(x: Ext, s: State, steps: seq<Step>, y: Ext, t: State, lab: Labels)
    requires Inv(s) && ExtInv(x, s, lab) && Leads(x, s, steps, y, t, lab)
    ensures Inv(t) && ExtInv(y, t, lab)
    decreases |steps|
  {
    if steps != [] {
      StepKeepsExt(x, s, steps[0], lab);
      StepKeepsInv(s, steps[0]);
      RunKeepsExt(Follow(x, s, steps[0], lab), Apply(s, steps[0]), steps[1..], y, t, lab);
    }
  }

  /** Every run of the scheduler has its pointers and pedigree frames. */
  lemma {:induction false} RunIsFollowed(x: Ext, s: State, steps: seq<Step>, t: State, lab: Labels) returns (y: Ext)
    requires Inv(s) && ExtInv(x, s, lab) && Reaches(s, steps, t)
    ensures Leads(x, s, steps, y, t, lab)
    decreases |steps|
  {
    if steps == [] {
      y := x;
    } else {
      StepKeepsExt(x, s, steps[0], lab);
      StepKeepsInv(s, steps[0]);
      y := RunIsFollowed(Follow(x, s, steps[0], lab), Apply(s, steps[0]), steps[1..], t, lab);
    }
  }

  /** The pedigree that a draw reads through the worker's extension pointer. */
  function DrawnAt(x: Ext, w: Wid): Pedigree
    requires w < |x.workers|
  {
    ChainOf(x.heap, x.workers[w].extension) + [RankOf(x.heap, x.workers[w].extension) + 1]
  }

  /** Whatever has been stolen, every draw reads the pedigree that it has in the serial
      elision, for any labelling of the draws with the pedigrees of the serial elision. */
  lemma DrawsAreSerial(code: Code, nworkers: nat, lab: Labels, steps: seq<Step>, x: Ext, t: State, w: Wid, u: int)
    requires nworkers > 0 && AllLabelled(Draws(code, [], 0, lab), lab)
    requires Leads(Start(nworkers), Init(code, nworkers), steps, x, t, lab)
    requires w < |t.workers| && Enabled(t, Exec(w))
    requires var rest := Top(t.workers[w].stack).rest; rest != [] && rest[0] == Update(u) && lab(u).Some?
    ensures w < |x.workers| && lab(u) == Some(DrawnAt(x, w))
  {
    LabelledIff(code, [], 0, lab);
    StartOk(code, nworkers, lab);
    InitOk(code, nworkers);
    RunKeepsExt(Start(nworkers), Init(code, nworkers), steps, x, t, lab);
    InStrand(x, t, w, lab);
  }

  /** After every steal, sync and return a worker in user code has the extension of the
      frame that it runs, and no other worker in user code has it. */
  lemma ExtensionIsOwn(code: Code, nworkers: nat, lab: Labels, steps: seq<Step>, x: Ext, t: State, w: Wid)
    requires nworkers > 0 && AllLabelled(Draws(code, [], 0, lab), lab)
    requires Leads(Start(nworkers), Init(code, nworkers), steps, x, t, lab)
    requires InUserCode(t, w) && !Finished(t, w)
    ensures |x.workers| == |t.workers|
    ensures var k, y := t.workers[w], x.workers[w];
      && y.extension in x.heap && |y.saved| == |k.stack|
      && (y.saved[|k.stack| - 1].Some? ==> y.saved[|k.stack| - 1].value == y.extension)
      && (forall v | 0 <= v < |t.workers| && v != w && InUserCode(t, v) && !Finished(t, v) :: x.workers[v].extension != y.extension)
  {
    LabelledIff(code, [], 0, lab);
    StartOk(code, nworkers, lab);
    InitOk(code, nworkers);
    RunKeepsExt(Start(nworkers), Init(code, nworkers), steps, x, t, lab);
    InStrand(x, t, w, lab);
    forall v | 0 <= v < |t.workers| && v != w && InUserCode(t, v) && !Finished(t, v)
      ensures x.workers[v].extension != x.workers[w].extension
    {
      InStrand(x, t, v, lab);
    }
  }
}
