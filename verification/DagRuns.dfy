/** Every run of the scheduler respects the order of the program. */
module DagRuns {
  import opened Options
  import opened ClosureTree
  import opened ClosureInvariant
  import opened SerialOrder
  import opened DagOrder

  /** For the proof: the updates of the whole function instance that a stack frame belongs
      to, of each frame of a worker's stack, of a suspended closure's frames, and of the
      first frame of a closure; and the updates done so far. */
  datatype Scopes = Scopes(
    done: set<int>,
    workers: seq<seq<set<int>>>,
    rest: map<Id, seq<set<int>>>,
    scope: map<Id, set<int>>)

  function Start(code: Code, nworkers: nat): Scopes
    requires nworkers > 0
  {
    Scopes({}, [[Of(code)]] + seq(nworkers - 1, _ => []), map[], map[ROOT := Of(code)])
  }

  // ---------------------------------------------------------------------
  // Steps
  // ---------------------------------------------------------------------

  /** The updates that a step does. */
  function Does(s: State, step: Step): set<int>
    requires Enabled(s, step)
  {
    if step.Exec? && Top(s.workers[step.w].stack).rest != [] && Top(s.workers[step.w].stack).rest[0].Update?
    then {Top(s.workers[step.w].stack).rest[0].u} else {}
  }

  function ExecScopes(x: Scopes, s: State, w: Wid): Scopes
    requires Enabled(s, Exec(w)) && w < |x.workers|
  {
    var y, rest := x.workers[w], Top(s.workers[w].stack).rest;
    if rest == [] then x.(workers := x.workers[w := if y == [] then y else y[..|y| - 1]]) else
    match rest[0]
    case Update(u) => x.(done := x.done + {u})
    case Spawn(body) => x.(workers := x.workers[w := y + [Of(body)]])
    case Call(body) => x.(workers := x.workers[w := y + [Of(body)]])
    case Sync => x
  }

  function StealScopes(x: Scopes, s: State, thief: Wid, victim: Wid, head: nat): Scopes
    requires Enabled(s, Steal(thief, victim, head)) && thief < |x.workers| && victim < |x.workers|
  {
    var y := x.workers[victim];
    if |y| != |s.workers[victim].stack| then x else
    x.(workers := x.workers[thief := y[head..head + 1]][victim := y[head + 1..]],
       rest := if head == 0 then x.rest else x.rest[s.workers[victim].closure := y[..head]],
       scope := if head == 0 then x.scope[s.next := y[1]] else x.scope[s.next := y[head]][s.next + 1 := y[head + 1]])
  }

  function SyncScopes(x: Scopes, s: State, w: Wid): Scopes
    requires Enabled(s, SyncStep(w)) && w < |x.workers|
  {
    if s.closures[s.workers[w].closure].HasChildren()
    then x.(workers := x.workers[w := []], rest := x.rest[s.workers[w].closure := x.workers[w]])
    else x
  }

  /** Worker `w` goes on with the frames of the suspended closure `p`. */
  function TakenUp(x: Scopes, w: Wid, p: Id): Scopes
    requires w < |x.workers|
  {
    x.(workers := x.workers[w := if p in x.rest then x.rest[p] else []])
  }

  function ReturnScopes(x: Scopes, s: State, w: Wid): Scopes
    requires Enabled(s, Return(w)) && w < |x.workers|
  {
    var t := DoReturn(s, w);
    if w >= |t.workers| || t.workers[w].phase.Stealing? then x.(workers := x.workers[w := []])
    else if t.workers[w].closure == s.workers[w].closure then x
    else TakenUp(x, w, t.workers[w].closure)
  }

  function Follow(x: Scopes, s: State, step: Step): Scopes
    requires Enabled(s, step) && |x.workers| == |s.workers|
  {
    match step
    case Exec(w) => ExecScopes(x, s, w)
    case Steal(thief, victim, head) => StealScopes(x, s, thief, victim, head)
    case SyncStep(w) => SyncScopes(x, s, w)
    case Return(w) => ReturnScopes(x, s, w)
    case CallReturn(w) => TakenUp(x, w, s.closures[s.workers[w].closure].callParent.value)
    case _ => x
  }

  // ---------------------------------------------------------------------
  // The invariant
  // ---------------------------------------------------------------------

  /** Of a closure's spawned children. */
  function Spawned(scope: map<Id, set<int>>, children: seq<Id>): set<int> {
    if children == [] then {} else (if children[0] in scope then scope[children[0]] else {}) + Spawned(scope, children[1..])
  }

  /** Of the frame above frame `i`, or of what is called on top of the stack. */
  function Above(scopes: seq<set<int>>, i: nat, called: set<int>): set<int> {
    if i + 1 < |scopes| then scopes[i + 1] else called
  }

  /** A frame: what is before its remaining code is done, or belongs to what it has called;
      and all of its instance is done, or to come, or belongs to what it has spawned or
      called. */
  ghost predicate FrameOk(whole: Code, f: Frame, scope: set<int>, above: set<int>, detached: bool, spawned: set<int>, done: set<int>) {
    && scope <= done + Of(f.rest) + above + spawned
    && if detached then Ordered(whole, f.rest, done, spawned + above) else Ordered(whole, f.rest, done + above, spawned)
  }

  /** The frames of a stack, with `called` on top of it; `spawned` belongs to the first. */
  ghost predicate StackOk(whole: Code, stack: seq<Frame>, scopes: seq<set<int>>, done: set<int>, called: set<int>, spawned: set<int>) {
    |scopes| == |stack| && forall i | 0 <= i < |stack| :: FrameAt(whole, stack, scopes, i, done, called, spawned)
  }

  ghost predicate FrameAt(whole: Code, stack: seq<Frame>, scopes: seq<set<int>>, i: nat, done: set<int>, called: set<int>, spawned: set<int>)
    requires i < |stack| == |scopes|
  {
    FrameOk(whole, stack[i], scopes[i], Above(scopes, i, called), i + 1 < |stack| && stack[i + 1].spawned, if i == 0 then spawned else {}, done)
  }

  function Children(x: Scopes, s: State, c: Id): set<int> {
    if c in s.closures then Spawned(x.scope, s.closures[c].children) else {}
  }

  /** What a suspended closure waits for. */
  function Awaited(x: Scopes, s: State, c: Id): set<int>
    requires c in s.closures
  {
    var callee := s.closures[c].callee;
    if callee.None? then Children(x, s, c) else if callee.value in x.scope then x.scope[callee.value] else {}
  }

  ghost predicate WorkerDag(whole: Code, x: Scopes, s: State, w: Wid)
    requires w < |s.workers| == |x.workers|
  {
    var k := s.workers[w];
    k.phase.Stealing? ||
    (&& k.stack != [] && StackOk(whole, k.stack, x.workers[w], x.done, {}, Children(x, s, k.closure))
     && k.closure in x.scope && x.scope[k.closure] == x.workers[w][0])
  }

  ghost predicate ClosureDag(whole: Code, x: Scopes, s: State, c: Id)
    requires c in s.closures
  {
    var cl := s.closures[c];
    && c in x.scope
    && (cl.runner.None? ==>
          && c in x.rest && cl.frames != [] && StackOk(whole, cl.frames, x.rest[c], x.done, Awaited(x, s, c), Children(x, s, c))
          && x.scope[c] == x.rest[c][0])
  }

  ghost predicate DagInv(whole: Code, x: Scopes, s: State) {
    && |x.workers| == |s.workers| && (forall c | c in x.scope :: c < s.next)
    && (forall w {:trigger WorkerDag(whole, x, s, w)} | 0 <= w < |s.workers| :: WorkerDag(whole, x, s, w))
    && (forall c {:trigger ClosureDag(whole, x, s, c)} | c in s.closures :: ClosureDag(whole, x, s, c))
  }

  // ---------------------------------------------------------------------
  // What a step leaves alone
  // ---------------------------------------------------------------------

  lemma FrameMore(whole: Code, f: Frame, scope: set<int>, above: set<int>, detached: bool, spawned: set<int>, done: set<int>,
                  above': set<int>, spawned': set<int>, done': set<int>)
    requires FrameOk(whole, f, scope, above, detached, spawned, done)
    requires done <= done' && above <= done' + above' && spawned <= done' + spawned'
    ensures FrameOk(whole, f, scope, above', detached, spawned', done')
  {
    if detached {
      OrderedMore(whole, f.rest, done, spawned + above, done', spawned' + above');
    } else {
      OrderedMore(whole, f.rest, done + above, spawned, done' + above', spawned');
    }
  }

  lemma StackMore(whole: Code, stack: seq<Frame>, scopes: seq<set<int>>, done: set<int>, called: set<int>, spawned: set<int>,
                  done': set<int>, called': set<int>, spawned': set<int>)
    requires StackOk(whole, stack, scopes, done, called, spawned)
    requires done <= done' && called <= done' + called' && spawned <= done' + spawned'
    ensures StackOk(whole, stack, scopes, done', called', spawned')
  {
    forall i | 0 <= i < |stack|
      ensures FrameAt(whole, stack, scopes, i, done', called', spawned')
    {
      assert FrameAt(whole, stack, scopes, i, done, called, spawned);
      FrameMore(whole, stack[i], scopes[i], Above(scopes, i, called), i + 1 < |stack| && stack[i + 1].spawned,
                if i == 0 then spawned else {}, done, Above(scopes, i, called'), if i == 0 then spawned' else {}, done');
    }
  }

  lemma {:induction false} SpawnedSame(scope: map<Id, set<int>>, scope': map<Id, set<int>>, children: seq<Id>)
    requires forall c | c in children :: c in scope && c in scope' && scope[c] == scope'[c]
    ensures Spawned(scope, children) == Spawned(scope', children)
  {
    if children != [] {
      assert children[0] in children;
      SpawnedSame(scope, scope', children[1..]);
    }
  }

  lemma {:induction false} SpawnedHas(scope: map<Id, set<int>>, children: seq<Id>, u: int)
    ensures u in Spawned(scope, children) <==> exists c :: c in children && c in scope && u in scope[c]
  {
    if children != [] {
      SpawnedHas(scope, children[1..], u);
      assert forall c :: c in children <==> c == children[0] || c in children[1..];
    }
  }

  /** Done work grows, instances stay what they are, and no outstanding work disappears. */
  ghost predicate Follows(x: Scopes, y: Scopes, s: State, t: State) {
    && x.done <= y.done && |y.workers| == |t.workers| == |s.workers|
    && (forall c | c in x.scope :: c in y.scope && y.scope[c] == x.scope[c])
    && (forall c | c in y.scope :: c < t.next)
    && (forall c | c in s.closures && c in t.closures :: Children(x, s, c) <= y.done + Children(y, t, c))
  }

  /** Worker `v` takes no part. */
  lemma OtherWorker(whole: Code, x: Scopes, y: Scopes, s: State, t: State, v: Wid)
    requires Inv(s) && DagInv(whole, x, s) && Follows(x, y, s, t) && v < |s.workers|
    requires t.workers[v] == s.workers[v] && y.workers[v] == x.workers[v]
    requires !s.workers[v].phase.Stealing? ==> s.workers[v].closure in t.closures
    ensures WorkerDag(whole, y, t, v)
  {
    var k := s.workers[v];
    assert WorkerDag(whole, x, s, v) && WorkerOk(s, v);
    if !k.phase.Stealing? {
      StackMore(whole, k.stack, x.workers[v], x.done, {}, Children(x, s, k.closure), y.done, {}, Children(y, t, k.closure));
    }
  }

  /** Nor does closure `c`, which stays suspended. */
  lemma OtherClosure(whole: Code, x: Scopes, y: Scopes, s: State, t: State, c: Id)
    requires Inv(s) && DagInv(whole, x, s) && Follows(x, y, s, t) && c in s.closures && c in t.closures
    requires s.closures[c].runner.None? && t.closures[c].frames == s.closures[c].frames && t.closures[c].callee == s.closures[c].callee
    requires c in x.rest ==> c in y.rest && y.rest[c] == x.rest[c]
    ensures ClosureDag(whole, y, t, c)
  {
    var cl := s.closures[c];
    assert ClosureDag(whole, x, s, c) && LinksOk(s.closures, c);
    if cl.callee.Some? {
      assert ClosureDag(whole, x, s, cl.callee.value);
    }
    StackMore(whole, cl.frames, x.rest[c], x.done, Awaited(x, s, c), Children(x, s, c), y.done, Awaited(y, t, c), Children(y, t, c));
  }

  lemma ChildrenSame(whole: Code, x: Scopes, y: Scopes, s: State, t: State, c: Id)
    requires Inv(s) && DagInv(whole, x, s) && c in s.closures && c in t.closures && t.closures[c].children == s.closures[c].children
    requires forall d | d in x.scope :: d in y.scope && y.scope[d] == x.scope[d]
    ensures Children(y, t, c) == Children(x, s, c)
  {
    assert LinksOk(s.closures, c);
    forall d | d in s.closures[c].children
      ensures d in x.scope
    {
      assert ClosureDag(whole, x, s, d);
    }
    SpawnedSame(x.scope, y.scope, s.closures[c].children);
  }

  /** Only the workers `ws` and the closures `cs` take part. */
  ghost predicate Untouched(x: Scopes, y: Scopes, s: State, t: State, ws: set<Wid>, cs: set<Id>) {
    && |t.workers| == |s.workers| == |x.workers| == |y.workers|
    && (forall v | 0 <= v < |s.workers| && v !in ws :: t.workers[v] == s.workers[v] && y.workers[v] == x.workers[v])
    && (forall v | 0 <= v < |s.workers| && v !in ws && !s.workers[v].phase.Stealing? :: s.workers[v].closure in t.closures)
    && (forall c | c in t.closures && c !in cs :: c in y.scope)
    && (forall c | c in t.closures && c !in cs && t.closures[c].runner.None? ::
          && c in s.closures && s.closures[c].runner.None?
          && t.closures[c].frames == s.closures[c].frames && t.closures[c].callee == s.closures[c].callee
          && (c in x.rest ==> c in y.rest && y.rest[c] == x.rest[c]))
  }

  /** The invariant again, from the workers and the closures that took part. */
  lemma Together(whole: Code, x: Scopes, y: Scopes, s: State, t: State, ws: set<Wid>, cs: set<Id>)
    requires Inv(s) && DagInv(whole, x, s) && Follows(x, y, s, t) && Untouched(x, y, s, t, ws, cs)
    requires forall v | v in ws && v < |s.workers| :: WorkerDag(whole, y, t, v)
    requires forall c | c in cs && c in t.closures :: ClosureDag(whole, y, t, c)
    ensures DagInv(whole, y, t)
  {
    forall v | 0 <= v < |t.workers|
      ensures WorkerDag(whole, y, t, v)
    {
      if v !in ws {
        OtherWorker(whole, x, y, s, t, v);
      }
    }
    forall c | c in t.closures
      ensures ClosureDag(whole, y, t, c)
    {
      if c !in cs && t.closures[c].runner.None? {
        OtherClosure(whole, x, y, s, t, c);
      }
    }
  }

  // ---------------------------------------------------------------------
  // User code
  // ---------------------------------------------------------------------

  /** The youngest frame has gone on; the others keep what they have. */
  lemma TopGoesOn(whole: Code, stack: seq<Frame>, scopes: seq<set<int>>, done: set<int>, spawned: set<int>, code: Code, done': set<int>)
    requires stack != [] && StackOk(whole, stack, scopes, done, {}, spawned) && done <= done'
    requires var n := |stack| - 1; FrameOk(whole, Frame(code, stack[n].spawned), scopes[n], {}, false, if n == 0 then spawned else {}, done')
    ensures StackOk(whole, SetTop(stack, code), scopes, done', {}, spawned)
  {
    var n, t := |stack| - 1, SetTop(stack, code);
    StackMore(whole, stack, scopes, done, {}, spawned, done', {}, spawned);
    forall i | 0 <= i < |t|
      ensures FrameAt(whole, t, scopes, i, done', {}, spawned)
    {
      assert FrameAt(whole, stack, scopes, i, done', {}, spawned);
    }
  }

  lemma UpdateOk(whole: Code, stack: seq<Frame>, scopes: seq<set<int>>, done: set<int>, spawned: set<int>)
    requires stack != [] && StackOk(whole, stack, scopes, done, {}, spawned)
    requires Top(stack).rest != [] && Top(stack).rest[0].Update?
    ensures StackOk(whole, SetTop(stack, Top(stack).rest[1..]), scopes, done + {Top(stack).rest[0].u}, {}, spawned)
    ensures forall u | Precedes(whole, u, Top(stack).rest[0].u) :: u in done
  {
    assert FrameAt(whole, stack, scopes, |stack| - 1, done, {}, spawned);
    var u := Top(stack).rest[0].u;
    assert done + {} + {u} == done + {u} + {} && done + {} == done;
    TopGoesOn(whole, stack, scopes, done, spawned, Top(stack).rest[1..], done + {u});
  }

  lemma SyncOk(whole: Code, stack: seq<Frame>, scopes: seq<set<int>>, done: set<int>, spawned: set<int>)
    requires stack != [] && StackOk(whole, stack, scopes, done, {}, spawned) && (|stack| == 1 ==> spawned == {})
    requires Top(stack).rest != [] && Top(stack).rest[0].Sync?
    ensures StackOk(whole, SetTop(stack, Top(stack).rest[1..]), scopes, done, {}, spawned)
  {
    assert FrameAt(whole, stack, scopes, |stack| - 1, done, {}, spawned);
    assert done + {} + {} == done + {};
    TopGoesOn(whole, stack, scopes, done, spawned, Top(stack).rest[1..], done);
  }

  /** A frame goes on top of the stack. */
  lemma PushOk(whole: Code, stack: seq<Frame>, scopes: seq<set<int>>, done: set<int>, spawned: set<int>, body: Code, detached: bool)
    requires stack != [] && StackOk(whole, stack, scopes, done, {}, spawned) && Top(stack).rest != []
    requires Top(stack).rest[0] == if detached then Spawn(body) else Call(body)
    ensures StackOk(whole, SetTop(stack, Top(stack).rest[1..]) + [Frame(body, detached)], scopes + [Of(body)], done, {}, spawned)
  {
    var n, rest := |stack| - 1, Top(stack).rest;
    var t, above := SetTop(stack, rest[1..]) + [Frame(body, detached)], scopes + [Of(body)];
    var mine := if n == 0 then spawned else {};
    assert done + {} == done;
    assert FrameAt(whole, stack, scopes, n, done, {}, spawned);
    assert FrameOk(whole, t[n], scopes[n], Of(body), detached, mine, done);
    assert FrameOk(whole, t[n + 1], Of(body), {}, false, {}, done);
    forall i | 0 <= i < |t|
      ensures FrameAt(whole, t, above, i, done, {}, spawned)
    {
      if i < n {
        assert FrameAt(whole, stack, scopes, i, done, {}, spawned);
      }
    }
  }

  /** The youngest frame has returned: all of its instance is done. */
  lemma PopOk(whole: Code, stack: seq<Frame>, scopes: seq<set<int>>, done: set<int>, spawned: set<int>)
    requires |stack| > 1 && StackOk(whole, stack, scopes, done, {}, spawned) && Top(stack).rest == []
    ensures StackOk(whole, stack[..|stack| - 1], scopes[..|stack| - 1], done, {}, spawned)
  {
    var n := |stack| - 1;
    var t, lower := stack[..n], scopes[..n];
    assert FrameAt(whole, stack, scopes, n, done, {}, spawned);
    assert scopes[n] <= done;
    forall i | 0 <= i < |t|
      ensures FrameAt(whole, t, lower, i, done, {}, spawned)
    {
      assert FrameAt(whole, stack, scopes, i, done, {}, spawned);
      if i == n - 1 {
        var mine := if i == 0 then spawned else {};
        if stack[n].spawned {
          OrderedMore(whole, stack[i].rest, done, mine + scopes[n], done + {}, mine);
        } else {
          OrderedMore(whole, stack[i].rest, done + scopes[n], mine, done + {}, mine);
        }
      }
    }
  }

  lemma ExecStrand(whole: Code, x: Scopes, s: State, w: Wid)
    requires Inv(s) && DagInv(whole, x, s) && Enabled(s, Exec(w))
    ensures WorkerDag(whole, ExecScopes(x, s, w), DoExec(s, w), w)
    ensures forall v | v in Does(s, Exec(w)) :: forall u | Precedes(whole, u, v) :: u in x.done
  {
    var k, c := s.workers[w], s.workers[w].closure;
    assert WorkerDag(whole, x, s, w) && WorkerOk(s, w) && CountsOk(s.closures[c]);
    var rest, spawned := Top(k.stack).rest, Children(x, s, c);
    if rest == [] {
      PopOk(whole, k.stack, x.workers[w], x.done, spawned);
    } else {
      match rest[0]
      case Update(_) => UpdateOk(whole, k.stack, x.workers[w], x.done, spawned);
      case Spawn(body) => PushOk(whole, k.stack, x.workers[w], x.done, spawned, body, true);
      case Call(body) => PushOk(whole, k.stack, x.workers[w], x.done, spawned, body, false);
      case Sync => SyncOk(whole, k.stack, x.workers[w], x.done, spawned);
    }
  }

  lemma ExecKeepsDag(whole: Code, x: Scopes, s: State, w: Wid)
    requires Inv(s) && DagInv(whole, x, s) && Enabled(s, Exec(w))
    ensures DagInv(whole, ExecScopes(x, s, w), DoExec(s, w))
  {
    ExecStrand(whole, x, s, w);
    var y, t := ExecScopes(x, s, w), DoExec(s, w);
    assert y.scope == x.scope && y.rest == x.rest;
    Held(s);
    InScope(whole, x, s);
    Together(whole, x, y, s, t, {w}, {});
  }

  lemma Held(s: State)
    requires Inv(s)
    ensures forall v | 0 <= v < |s.workers| && !s.workers[v].phase.Stealing? :: s.workers[v].closure in s.closures
  {
    forall v | 0 <= v < |s.workers| && !s.workers[v].phase.Stealing?
      ensures s.workers[v].closure in s.closures
    {
      assert WorkerOk(s, v);
    }
  }

  lemma InScope(whole: Code, x: Scopes, s: State)
    requires DagInv(whole, x, s)
    ensures forall c | c in s.closures :: c in x.scope
  {
    forall c | c in s.closures
      ensures c in x.scope
    {
      assert ClosureDag(whole, x, s, c);
    }
  }

  // ---------------------------------------------------------------------
  // Syncs
  // ---------------------------------------------------------------------

  predicate SamePlace(a: Worker, b: Worker) { a.stack == b.stack && a.closure == b.closure && a.phase.Stealing? == b.phase.Stealing? }

  predicate SameWork(a: Closure, b: Closure) {
    a.children == b.children && a.callee == b.callee && a.frames == b.frames && a.runner == b.runner
  }

  /** A step that moves no frame. */
  lemma QuietKeepsDag(whole: Code, x: Scopes, s: State, t: State, w: Wid)
    requires Inv(s) && DagInv(whole, x, s) && w < |s.workers| == |t.workers| && t.next == s.next
    requires forall v | 0 <= v < |s.workers| && v != w :: t.workers[v] == s.workers[v]
    requires SamePlace(s.workers[w], t.workers[w]) && t.closures.Keys == s.closures.Keys
    requires forall c | c in s.closures :: SameWork(s.closures[c], t.closures[c])
    ensures DagInv(whole, x, t)
  {
    Held(s);
    InScope(whole, x, s);
    assert WorkerDag(whole, x, s, w);
    assert WorkerDag(whole, x, t, w);
    Together(whole, x, x, s, t, {w}, {});
  }

  lemma AtSync(whole: Code, x: Scopes, s: State, w: Wid)
    requires Inv(s) && DagInv(whole, x, s) && Enabled(s, SyncStep(w))
    ensures var k, y := s.workers[w], x.workers[w]; var rest := if k.stack[0].rest == [] then [] else k.stack[0].rest[1..];
      && k.closure in s.closures && k.closure in x.scope && |y| == 1 && y[0] == x.scope[k.closure]
      && var spawned := Children(x, s, k.closure);
      && Ordered(whole, rest, x.done + spawned, {}) && y[0] <= x.done + Of(rest) + spawned
  {
    var k := s.workers[w];
    var spawned := Children(x, s, k.closure);
    assert WorkerDag(whole, x, s, w) && FrameAt(whole, k.stack, x.workers[w], 0, x.done, {}, spawned);
    assert x.done + {} == x.done;
    if k.stack[0].rest == [] {
      assert Ordered(whole, [], x.done + spawned, {});
    }
  }

  lemma PassKeepsDag(whole: Code, x: Scopes, s: State, w: Wid)
    requires Inv(s) && DagInv(whole, x, s) && Enabled(s, SyncStep(w)) && !s.closures[s.workers[w].closure].HasChildren()
    ensures DagInv(whole, x, DoSync(s, w))
  {
    var t, k := DoSync(s, w), s.workers[w];
    AtSync(whole, x, s, w);
    assert WorkerOk(s, w) && CountsOk(s.closures[k.closure]);
    assert x.done + {} == x.done;
    assert FrameAt(whole, t.workers[w].stack, x.workers[w], 0, x.done, {}, {});
    assert WorkerDag(whole, x, t, w);
    Held(s);
    InScope(whole, x, s);
    Together(whole, x, x, s, t, {w}, {});
  }

  lemma SuspendKeepsDag(whole: Code, x: Scopes, s: State, w: Wid)
    requires Inv(s) && DagInv(whole, x, s) && Enabled(s, SyncStep(w)) && s.closures[s.workers[w].closure].HasChildren()
    ensures DagInv(whole, SyncScopes(x, s, w), DoSync(s, w))
  {
    var y, t, c := SyncScopes(x, s, w), DoSync(s, w), s.workers[w].closure;
    AtSync(whole, x, s, w);
    assert WorkerOk(s, w) && CountsOk(s.closures[c]);
    var spawned, frames := Children(x, s, c), t.closures[c].frames;
    ChildrenSame(whole, x, y, s, t, c);
    OrderedMore(whole, frames[0].rest, x.done + spawned, {}, x.done + spawned, spawned);
    assert FrameAt(whole, frames, y.rest[c], 0, y.done, spawned, spawned);
    assert ClosureDag(whole, y, t, c);
    Held(s);
    InScope(whole, x, s);
    Together(whole, x, y, s, t, {w}, {c});
  }

  // ---------------------------------------------------------------------
  // Steals
  // ---------------------------------------------------------------------

  /** The frames above `head` become a stack of their own. */
  lemma UpperOk(whole: Code, stack: seq<Frame>, scopes: seq<set<int>>, done: set<int>, spawned: set<int>, i: nat)
    requires StackOk(whole, stack, scopes, done, {}, spawned) && 0 < i < |stack|
    ensures StackOk(whole, stack[i..], scopes[i..], done, {}, {})
  {
    forall j | 0 <= j < |stack[i..]|
      ensures FrameAt(whole, stack[i..], scopes[i..], j, done, {}, {})
    {
      assert FrameAt(whole, stack, scopes, i + j, done, {}, spawned);
    }
  }

  /** The frames below a called one, which stays on top of them. */
  lemma LowerOk(whole: Code, stack: seq<Frame>, scopes: seq<set<int>>, done: set<int>, spawned: set<int>, i: nat)
    requires StackOk(whole, stack, scopes, done, {}, spawned) && 0 < i < |stack| && !stack[i].spawned
    ensures StackOk(whole, stack[..i], scopes[..i], done, scopes[i], spawned)
  {
    forall j | 0 <= j < i
      ensures FrameAt(whole, stack[..i], scopes[..i], j, done, scopes[i], spawned)
    {
      assert FrameAt(whole, stack, scopes, j, done, {}, spawned);
    }
  }

  /** A frame with a detached one above it, on its own. */
  lemma StolenOk(whole: Code, stack: seq<Frame>, scopes: seq<set<int>>, done: set<int>, spawned: set<int>, i: nat, children: set<int>)
    requires StackOk(whole, stack, scopes, done, {}, spawned) && i + 1 < |stack| && stack[i + 1].spawned
    requires children == scopes[i + 1] + if i == 0 then spawned else {}
    ensures StackOk(whole, stack[i..i + 1], scopes[i..i + 1], done, {}, children)
  {
    assert FrameAt(whole, stack, scopes, i, done, {}, spawned);
    OrderedMore(whole, stack[i].rest, done, (if i == 0 then spawned else {}) + scopes[i + 1], done + {}, children);
    assert FrameAt(whole, stack[i..i + 1], scopes[i..i + 1], 0, done, {}, children);
  }

  lemma {:induction false} SpawnedAppend(scope: map<Id, set<int>>, children: seq<Id>, c: Id)
    requires c in scope
    ensures Spawned(scope, children + [c]) == Spawned(scope, children) + scope[c]
  {
    if children == [] {
      assert [c][1..] == [] && children + [c] == [c];
    } else {
      assert (children + [c])[1..] == children[1..] + [c];
      SpawnedAppend(scope, children[1..], c);
    }
  }

  lemma SpawnedStays(whole: Code, x: Scopes, y: Scopes, s: State, c: Id)
    requires Inv(s) && DagInv(whole, x, s) && c in s.closures && forall d | d in x.scope :: d in y.scope && y.scope[d] == x.scope[d]
    ensures Spawned(y.scope, s.closures[c].children) == Children(x, s, c)
  {
    ChildrenSame(whole, x, y, s, s, c);
  }

  /** What the new closures leave to their parents. */
  lemma StealChildren(whole: Code, x: Scopes, s: State, thief: Wid, victim: Wid, head: nat)
    requires Inv(s) && DagInv(whole, x, s) && Enabled(s, Steal(thief, victim, head))
    ensures |x.workers[victim]| == |s.workers[victim].stack|
    ensures var y, t, c := StealScopes(x, s, thief, victim, head), DoSteal(s, thief, victim, head), s.workers[victim].closure;
      var above := x.workers[victim][head + 1];
      if head == 0 then Children(y, t, c) == Children(x, s, c) + above && Children(y, t, s.next) == {}
      else Children(y, t, c) == Children(x, s, c) && Children(y, t, s.next) == above && Children(y, t, s.next + 1) == {}
  {
    var y, t, c := StealScopes(x, s, thief, victim, head), DoSteal(s, thief, victim, head), s.workers[victim].closure;
    assert WorkerDag(whole, x, s, victim) && WorkerOk(s, victim);
    SpawnedStays(whole, x, y, s, c);
    if head == 0 {
      SpawnedAppend(y.scope, s.closures[c].children, s.next);
    } else {
      assert t.closures[s.next].children == [] + [s.next + 1] && Spawned(y.scope, []) == {};
      SpawnedAppend(y.scope, [], s.next + 1);
    }
  }

  lemma StealGrows(x: Scopes, s: State, thief: Wid, victim: Wid, head: nat)
    requires Enabled(s, Steal(thief, victim, head)) && |x.workers| == |s.workers| && forall c | c in x.scope :: c < s.next
    ensures var y, t := StealScopes(x, s, thief, victim, head), DoSteal(s, thief, victim, head);
      && y.done == x.done && |y.workers| == |t.workers| == |s.workers|
      && (forall c | c in x.scope :: c in y.scope && y.scope[c] == x.scope[c])
      && (forall c | c in y.scope :: c < t.next)
      && forall d | d in s.closures && d in t.closures && d != s.workers[victim].closure && d < s.next :: t.closures[d] == s.closures[d]
  {
  }

  lemma StealFollows(whole: Code, x: Scopes, s: State, thief: Wid, victim: Wid, head: nat)
    requires Inv(s) && DagInv(whole, x, s) && Enabled(s, Steal(thief, victim, head))
    ensures Follows(x, StealScopes(x, s, thief, victim, head), s, DoSteal(s, thief, victim, head))
  {
    var y, t, c := StealScopes(x, s, thief, victim, head), DoSteal(s, thief, victim, head), s.workers[victim].closure;
    StealChildren(whole, x, s, thief, victim, head);
    StealGrows(x, s, thief, victim, head);
    forall d | d in s.closures && d in t.closures
      ensures Children(x, s, d) <= y.done + Children(y, t, d)
    {
      if d != c {
        ChildrenSame(whole, x, y, s, t, d);
      }
    }
  }

  lemma ThiefDag(whole: Code, x: Scopes, s: State, thief: Wid, victim: Wid, head: nat)
    requires Inv(s) && DagInv(whole, x, s) && Enabled(s, Steal(thief, victim, head))
    ensures WorkerDag(whole, StealScopes(x, s, thief, victim, head), DoSteal(s, thief, victim, head), thief)
  {
    var y, t, v := StealScopes(x, s, thief, victim, head), DoSteal(s, thief, victim, head), s.workers[victim];
    assert WorkerDag(whole, x, s, victim) && WorkerOk(s, victim);
    StealChildren(whole, x, s, thief, victim, head);
    StolenOk(whole, v.stack, x.workers[victim], x.done, Children(x, s, v.closure), head,
             Children(y, t, if head == 0 then v.closure else s.next));
    assert head == 0 ==> v.stack[0..1] == v.stack[..1];
  }

  lemma VictimDag(whole: Code, x: Scopes, s: State, thief: Wid, victim: Wid, head: nat)
    requires Inv(s) && DagInv(whole, x, s) && Enabled(s, Steal(thief, victim, head))
    ensures WorkerDag(whole, StealScopes(x, s, thief, victim, head), DoSteal(s, thief, victim, head), victim)
  {
    var v := s.workers[victim];
    assert WorkerDag(whole, x, s, victim) && WorkerOk(s, victim);
    StealChildren(whole, x, s, thief, victim, head);
    UpperOk(whole, v.stack, x.workers[victim], x.done, Children(x, s, v.closure), head + 1);
  }

  /** The closure of which a called frame has been stolen waits for it. */
  lemma CallerDag(whole: Code, x: Scopes, s: State, thief: Wid, victim: Wid, head: nat)
    requires Inv(s) && DagInv(whole, x, s) && Enabled(s, Steal(thief, victim, head)) && head > 0
    ensures ClosureDag(whole, StealScopes(x, s, thief, victim, head), DoSteal(s, thief, victim, head), s.workers[victim].closure)
  {
    var y, t, v := StealScopes(x, s, thief, victim, head), DoSteal(s, thief, victim, head), s.workers[victim];
    var c, mine := v.closure, x.workers[victim];
    assert WorkerDag(whole, x, s, victim) && WorkerOk(s, victim);
    StealChildren(whole, x, s, thief, victim, head);
    LowerOk(whole, v.stack, mine, x.done, Children(x, s, c), head);
    assert t.closures[c].frames == v.stack[..head] && t.closures[c].callee == Some(s.next) && y.rest[c] == mine[..head];
    assert Awaited(y, t, c) == mine[head];
  }

  lemma StealUntouched(x: Scopes, s: State, thief: Wid, victim: Wid, head: nat)
    requires Enabled(s, Steal(thief, victim, head)) && |x.workers| == |s.workers| && |x.workers[victim]| == |s.workers[victim].stack|
    requires (forall c | c in s.closures :: c < s.next && c in x.scope) && s.closures[s.workers[victim].closure].runner == Some(victim)
    requires forall v | 0 <= v < |s.workers| && !s.workers[v].phase.Stealing? :: s.workers[v].closure in s.closures
    ensures Untouched(x, StealScopes(x, s, thief, victim, head), s, DoSteal(s, thief, victim, head), {thief, victim},
                      if head == 0 then {} else {s.workers[victim].closure})
  {
    var t := DoSteal(s, thief, victim, head);
    assert forall d | d in t.closures && d !in s.closures :: t.closures[d].runner.Some?;
  }

  lemma StealTouches(whole: Code, x: Scopes, s: State, thief: Wid, victim: Wid, head: nat)
    requires Inv(s) && DagInv(whole, x, s) && Enabled(s, Steal(thief, victim, head))
    ensures Untouched(x, StealScopes(x, s, thief, victim, head), s, DoSteal(s, thief, victim, head), {thief, victim},
                      if head == 0 then {} else {s.workers[victim].closure})
  {
    assert WorkerDag(whole, x, s, victim) && WorkerOk(s, victim);
    InScope(whole, x, s);
    Held(s);
    StealUntouched(x, s, thief, victim, head);
  }

  lemma StealOwnFrameKeepsDag(whole: Code, x: Scopes, s: State, thief: Wid, victim: Wid)
    requires Inv(s) && DagInv(whole, x, s) && Enabled(s, Steal(thief, victim, 0))
    ensures DagInv(whole, StealScopes(x, s, thief, victim, 0), DoSteal(s, thief, victim, 0))
  {
    StealFollows(whole, x, s, thief, victim, 0);
    ThiefDag(whole, x, s, thief, victim, 0);
    VictimDag(whole, x, s, thief, victim, 0);
    StealTouches(whole, x, s, thief, victim, 0);
    Together(whole, x, StealScopes(x, s, thief, victim, 0), s, DoSteal(s, thief, victim, 0), {thief, victim}, {});
  }

  lemma StealCalledFrameKeepsDag(whole: Code, x: Scopes, s: State, thief: Wid, victim: Wid, head: nat)
    requires Inv(s) && DagInv(whole, x, s) && Enabled(s, Steal(thief, victim, head)) && head > 0
    ensures DagInv(whole, StealScopes(x, s, thief, victim, head), DoSteal(s, thief, victim, head))
  {
    var y, t, c := StealScopes(x, s, thief, victim, head), DoSteal(s, thief, victim, head), s.workers[victim].closure;
    StealFollows(whole, x, s, thief, victim, head);
    ThiefDag(whole, x, s, thief, victim, head);
    VictimDag(whole, x, s, thief, victim, head);
    CallerDag(whole, x, s, thief, victim, head);
    StealTouches(whole, x, s, thief, victim, head);
    Together(whole, x, y, s, t, {thief, victim}, {c});
  }

  // ---------------------------------------------------------------------
  // Returns
  // ---------------------------------------------------------------------

  /** When a function instance ends, all of it is done. */
  lemma InstanceDone(whole: Code, x: Scopes, s: State, w: Wid)
    requires Inv(s) && DagInv(whole, x, s) && w < |s.workers| && !s.workers[w].phase.Stealing?
    requires |s.workers[w].stack| == 1 && s.workers[w].stack[0].rest == []
    requires s.workers[w].closure in s.closures && s.closures[s.workers[w].closure].children == []
    ensures s.workers[w].closure in x.scope && x.scope[s.workers[w].closure] <= x.done
  {
    assert WorkerDag(whole, x, s, w);
    assert FrameAt(whole, s.workers[w].stack, x.workers[w], 0, x.done, {}, {});
  }

  lemma ReturnedDone(whole: Code, x: Scopes, s: State, w: Wid, c: Id, p: Id, j: nat)
    requires DagInv(whole, x, s) && Returns(s, w, c, p, j)
    ensures c in x.scope && x.scope[c] <= x.done
  {
    assert WorkerOk(s, w) && CountsOk(s.closures[c]);
    InstanceDone(whole, x, s, w);
  }

  lemma CallReturnedDone(whole: Code, x: Scopes, s: State, w: Wid)
    requires Inv(s) && DagInv(whole, x, s) && Enabled(s, CallReturn(w))
    ensures var c := s.workers[w].closure; c in x.scope && x.scope[c] <= x.done
  {
    assert WorkerOk(s, w) && CountsOk(s.closures[s.workers[w].closure]);
    InstanceDone(whole, x, s, w);
  }

  lemma TakeMapsKeepsDag(whole: Code, x: Scopes, s: State, w: Wid, c: Id, p: Id, j: nat)
    requires DagInv(whole, x, s) && Returns(s, w, c, p, j)
    ensures DagInv(whole, x, TakeMaps(s, w, c, p, j))
  {
    assert WorkerOk(s, w) && LinksOk(s.closures, p);
    QuietKeepsDag(whole, x, s, TakeMaps(s, w, c, p, j), w);
  }

  /** One child less, all of which is done. */
  lemma {:induction false} SpawnedWithout(scope: map<Id, set<int>>, children: seq<Id>, j: nat, done: set<int>)
    requires j < |children| && children[j] in scope && scope[children[j]] <= done
    ensures Spawned(scope, children) <= done + Spawned(scope, Without(children, j))
  {
    forall u | u in Spawned(scope, children)
      ensures u in done + Spawned(scope, Without(children, j))
    {
      SpawnedHas(scope, children, u);
      SpawnedHas(scope, Without(children, j), u);
      var c :| c in children && c in scope && u in scope[c];
      var i :| 0 <= i < |children| && children[i] == c;
      if i != j {
        assert Without(children, j)[if i < j then i else i - 1] == c;
      }
    }
  }

  lemma DepositTree(s: State, w: Wid, c: Id, p: Id, j: nat)
    requires Returns(s, w, c, p, j)
    ensures var t := Deposit(s, w, c, p, j).closures;
      && t.Keys == s.closures.Keys - {c} && p in s.closures && p != c
      && t[p].children == Without(s.closures[p].children, j)
      && (forall d | d in t && d != p :: t[d].children == s.closures[d].children)
      && (forall d | d in t :: t[d].frames == s.closures[d].frames && t[d].callee == s.closures[d].callee && t[d].runner == s.closures[d].runner)
  {
    assert LinksOk(s.closures, p) && LinksOk(s.closures, c);
  }

  /** A return that unlinks the child, whoever goes on. */
  lemma ReturnFollows(whole: Code, x: Scopes, y: Scopes, s: State, t: State, w: Wid, c: Id, p: Id, j: nat)
    requires DagInv(whole, x, s) && Returns(s, w, c, p, j) && |t.workers| == |s.workers| == |y.workers| && t.next == s.next
    requires y.done == x.done && y.scope == x.scope && t.closures.Keys == s.closures.Keys - {c}
    requires forall d | d in t.closures :: t.closures[d].children == Deposit(s, w, c, p, j).closures[d].children
    ensures Follows(x, y, s, t)
  {
    DepositTree(s, w, c, p, j);
    ReturnedDone(whole, x, s, w, c, p, j);
    SpawnedWithout(x.scope, s.closures[p].children, j, x.done);
  }

  lemma OnlyHolder(s: State, w: Wid, c: Id)
    requires Inv(s) && c in s.closures && s.closures[c].runner == Some(w)
    ensures forall v | 0 <= v < |s.workers| && v != w && !s.workers[v].phase.Stealing? :: s.workers[v].closure in s.closures && s.workers[v].closure != c
  {
    forall v | 0 <= v < |s.workers| && v != w && !s.workers[v].phase.Stealing?
      ensures s.workers[v].closure in s.closures && s.workers[v].closure != c
    {
      assert WorkerOk(s, v);
    }
  }

  lemma DepositKeepsDag(whole: Code, x: Scopes, s: State, w: Wid, c: Id, p: Id, j: nat)
    requires DagInv(whole, x, s) && Returns(s, w, c, p, j)
    ensures DagInv(whole, x.(workers := x.workers[w := []]), Deposit(s, w, c, p, j))
  {
    var y, t := x.(workers := x.workers[w := []]), Deposit(s, w, c, p, j);
    DepositTree(s, w, c, p, j);
    ReturnFollows(whole, x, y, s, t, w, c, p, j);
    assert WorkerOk(s, w);
    OnlyHolder(s, w, c);
    InScope(whole, x, s);
    Together(whole, x, y, s, t, {w}, {});
  }

  /** The last child has returned: what the suspended frame waited for is done. */
  lemma ResumedStack(whole: Code, x: Scopes, s: State, w: Wid, c: Id, p: Id, j: nat)
    requires DagInv(whole, x, s) && Returns(s, w, c, p, j)
    requires !Deposit(s, w, c, p, j).closures[p].HasChildren() && s.closures[p].status == Suspended
    ensures p in x.scope && p in x.rest && s.closures[p].frames != [] && s.closures[p].callee.None? && s.closures[p].children == [c]
    ensures StackOk(whole, s.closures[p].frames, x.rest[p], x.done, {}, {}) && x.scope[p] == x.rest[p][0]
  {
    DepositTree(s, w, c, p, j);
    ReturnedDone(whole, x, s, w, c, p, j);
    assert CountsOk(s.closures[p]) && ClosureDag(whole, x, s, p);
    assert s.closures[p].children == [c] && [c][1..] == [] && Spawned(x.scope, []) == {};
    StackMore(whole, s.closures[p].frames, x.rest[p], x.done, Awaited(x, s, p), Children(x, s, p), x.done, {}, {});
  }

  lemma ProvablyGoodStealKeepsDag(whole: Code, x: Scopes, s: State, w: Wid, c: Id, p: Id, j: nat)
    requires DagInv(whole, x, s) && Returns(s, w, c, p, j)
    requires !Deposit(s, w, c, p, j).closures[p].HasChildren() && s.closures[p].status == Suspended
    ensures DagInv(whole, TakenUp(x, w, p), ProvablyGoodSteal(Deposit(s, w, c, p, j), w, p))
  {
    var y, t := TakenUp(x, w, p), ProvablyGoodSteal(Deposit(s, w, c, p, j), w, p);
    DepositTree(s, w, c, p, j);
    ResumedStack(whole, x, s, w, c, p, j);
    ReturnFollows(whole, x, y, s, t, w, c, p, j);
    assert Without([c], 0) == [];
    assert Children(y, t, p) == {};
    assert WorkerDag(whole, y, t, w);
    assert WorkerOk(s, w);
    OnlyHolder(s, w, c);
    InScope(whole, x, s);
    Together(whole, x, y, s, t, {w}, {p});
  }

  lemma ReturnKeepsDag(whole: Code, x: Scopes, s: State, w: Wid)
    requires Inv(s) && DagInv(whole, x, s) && Enabled(s, Return(w))
    ensures DagInv(whole, ReturnScopes(x, s, w), DoReturn(s, w))
  {
    var c := s.workers[w].closure;
    var p := s.closures[c].spawnParent.value;
    var j := IndexOf(s.closures[p].children, c);
    if LeftMap(s, p, j) != [] || s.closures[c].rightHt != [] {
      TakeMapsKeepsDag(whole, x, s, w, c, p, j);
      assert ReturnScopes(x, s, w) == x;
    } else {
      DepositTree(s, w, c, p, j);
      var s1 := Deposit(s, w, c, p, j);
      if !s1.closures[p].HasChildren() && s1.closures[p].status == Suspended {
        assert LinksOk(s.closures, p);
        ProvablyGoodStealKeepsDag(whole, x, s, w, c, p, j);
        assert ReturnScopes(x, s, w) == TakenUp(x, w, p);
      } else {
        DepositKeepsDag(whole, x, s, w, c, p, j);
        assert ReturnScopes(x, s, w) == x.(workers := x.workers[w := []]);
      }
    }
  }

  /** The call is over: what the suspended frames waited for is done. */
  lemma CallReturnKeepsDag(whole: Code, x: Scopes, s: State, w: Wid)
    requires Inv(s) && DagInv(whole, x, s) && Enabled(s, CallReturn(w))
    ensures DagInv(whole, TakenUp(x, w, s.closures[s.workers[w].closure].callParent.value), DoCallReturn(s, w))
  {
    var c, t := s.workers[w].closure, DoCallReturn(s, w);
    var p := s.closures[c].callParent.value;
    var y := TakenUp(x, w, p);
    CallReturnedDone(whole, x, s, w);
    CallerStack(whole, x, s, w, c, p);
    assert WorkerOk(s, w);
    forall d | d in s.closures && d in t.closures
      ensures Children(x, s, d) <= y.done + Children(y, t, d)
    {
    }
    assert WorkerDag(whole, y, t, w);
    OnlyHolder(s, w, c);
    InScope(whole, x, s);
    Together(whole, x, y, s, t, {w}, {p});
  }

  lemma CallerStack(whole: Code, x: Scopes, s: State, w: Wid, c: Id, p: Id)
    requires Inv(s) && DagInv(whole, x, s) && c in s.closures && s.closures[c].callParent == Some(p) && c in x.scope && x.scope[c] <= x.done
    ensures p in s.closures && p in x.scope && p in x.rest && s.closures[p].frames != [] && s.closures[p].runner.None?
    ensures StackOk(whole, s.closures[p].frames, x.rest[p], x.done, {}, Children(x, s, p)) && x.scope[p] == x.rest[p][0]
  {
    assert LinksOk(s.closures, c) && CountsOk(s.closures[p]) && ClosureDag(whole, x, s, p);
    StackMore(whole, s.closures[p].frames, x.rest[p], x.done, Awaited(x, s, p), Children(x, s, p), x.done, {}, Children(x, s, p));
  }

  // ---------------------------------------------------------------------
  // Runs
  // ---------------------------------------------------------------------

  lemma StepKeepsDag(whole: Code, x: Scopes, s: State, step: Step)
    requires Inv(s) && DagInv(whole, x, s) && Enabled(s, step)
    ensures DagInv(whole, Follow(x, s, step), Apply(s, step)) && Follow(x, s, step).done == x.done + Does(s, step)
  {
    match step
    case Exec(w) => ExecKeepsDag(whole, x, s, w);
    case Steal(thief, victim, head) =>
      if head == 0 { StealOwnFrameKeepsDag(whole, x, s, thief, victim); } else { StealCalledFrameKeepsDag(whole, x, s, thief, victim, head); }
    case SyncStep(w) =>
      if s.closures[s.workers[w].closure].HasChildren() {
        SuspendKeepsDag(whole, x, s, w);
      } else {
        PassKeepsDag(whole, x, s, w);
      }
    case Return(w) => ReturnKeepsDag(whole, x, s, w);
    case CallReturn(w) => CallReturnKeepsDag(whole, x, s, w);
    case _ => OtherStepKeepsDag(whole, x, s, step);
  }

  lemma OtherStepKeepsDag(whole: Code, x: Scopes, s: State, step: Step)
    requires Inv(s) && DagInv(whole, x, s) && Enabled(s, step) && (step.Enter? || step.Reduce? || step.BeginReturn? || step.Finish?)
    ensures DagInv(whole, x, Apply(s, step))
  {
    QuietKeepsDag(whole, x, s, Apply(s, step), step.w);
  }

  /** The updates that a run has done. */
  ghost function Done(s: State, steps: seq<Step>): set<int>
    decreases |steps|
  {
    if steps == [] || !Enabled(s, steps[0]) then {} else Does(s, steps[0]) + Done(Apply(s, steps[0]), steps[1..])
  }

  lemma {:induction false} RunKeepsDag(whole: Code, x: Scopes, s: State, steps: seq<Step>, t: State) returns (y: Scopes)
    requires Inv(s) && DagInv(whole, x, s) && Reaches(s, steps, t)
    ensures Inv(t) && DagInv(whole, y, t) && y.done == x.done + Done(s, steps)
    decreases |steps|
  {
    if steps == [] {
      y := x;
    } else {
      StepKeepsDag(whole, x, s, steps[0]);
      StepKeepsInv(s, steps[0]);
      y := RunKeepsDag(whole, Follow(x, s, steps[0]), Apply(s, steps[0]), steps[1..], t);
    }
  }

  lemma StartDag(code: Code, nworkers: nat)
    requires nworkers > 0 && Distinct(Serial(code))
    ensures DagInv(code, Start(code, nworkers), Init(code, nworkers))
  {
    ProgramOrdered(code);
    var x, s := Start(code, nworkers), Init(code, nworkers);
    assert x.done + {} == {};
    assert FrameAt(code, s.workers[0].stack, x.workers[0], 0, {}, {}, {});
    assert WorkerDag(code, x, s, 0);
  }

  /** In every run, on any number of workers and under any schedule, an update is done only
      when every update that the program orders before it has been done: what was called
      has returned, and a sync has waited for all that was spawned before it. */
  lemma UpdatesInOrder(code: Code, nworkers: nat, steps: seq<Step>, t: State, w: Wid, u: int, v: int)
    requires nworkers > 0 && Distinct(Serial(code)) && Reaches(Init(code, nworkers), steps, t)
    requires Enabled(t, Exec(w)) && Top(t.workers[w].stack).rest != [] && Top(t.workers[w].stack).rest[0] == Update(v)
    requires Precedes(code, u, v)
    ensures u in Done(Init(code, nworkers), steps)
  {
    StartDag(code, nworkers);
    InitOk(code, nworkers);
    var x := RunKeepsDag(code, Start(code, nworkers), Init(code, nworkers), steps, t);
    ExecStrand(code, x, t, w);
    assert v in Does(t, Exec(w));
  }
}
