/** Consequences of the scheduler invariant over whole runs: who resumes a
    suspended closure, what a busy closure can be, and that work never gets stuck. */
module ClosureProtocol {
  import opened Options
  import opened ClosureTree
  import opened ClosureInvariant
  import opened SerialOrder

  // ---------------------------------------------------------------------
  // Resumption
  // ---------------------------------------------------------------------

  /** The last outstanding child of `c` returns with `step`, and the worker that
      returns it takes `c`. */
  ghost predicate LastChildReturns(s: State, step: Step, c: Id) {
    && step.Return? && step.w < |s.workers|
    && c in s.closures && s.closures[c].children == [s.workers[step.w].closure]
  }

  ghost predicate StillSuspended(s: State, t: State, c: Id)
    requires c in s.closures
  {
    && c in t.closures && t.closures[c].status == Suspended
    && t.closures[c].frames == s.closures[c].frames && t.closures[c].userHt == s.closures[c].userHt
    && t.closures[c].callee == s.closures[c].callee
  }

  lemma DepositKeepsSuspended(s: State, w: Wid, x: Id, p: Id, j: nat, c: Id)
    requires Returns(s, w, x, p, j) && c in s.closures && s.closures[c].status == Suspended
    ensures StillSuspended(s, Deposit(s, w, x, p, j), c)
    ensures StillSuspended(s, TakeMaps(s, w, x, p, j), c)
    ensures var t := Deposit(s, w, x, p, j).closures;
      t[p].joinCounter == 0 ==> s.closures[p].children == [x] && s.closures[p].callee.None?
  {
    assert WorkerOk(s, w) && LinksOk(s.closures, x) && LinksOk(s.closures, p);
    assert CountsOk(s.closures[c]) && CountsOk(s.closures[p]);
  }

  lemma ReturnResumes(s: State, w: Wid, c: Id)
    requires Inv(s) && Enabled(s, Return(w)) && c in s.closures && s.closures[c].status == Suspended
    ensures var t := DoReturn(s, w);
      || StillSuspended(s, t, c)
      || (s.closures[c].callee.None? && LastChildReturns(s, Return(w), c)
          && c in t.closures && t.closures[c].runner == Some(w) && t.closures[c].joinCounter == 0)
  {
    var x := s.workers[w].closure;
    var p := s.closures[x].spawnParent.value;
    var j := IndexOf(s.closures[p].children, x);
    DepositKeepsSuspended(s, w, x, p, j, c);
  }

  lemma OtherStepsKeepSuspended(s: State, step: Step, c: Id)
    requires Inv(s) && Enabled(s, step) && c in s.closures && s.closures[c].status == Suspended && !step.Return?
    ensures var t := Apply(s, step);
      || StillSuspended(s, t, c)
      || (step.CallReturn? && s.closures[c].callee == Some(s.workers[step.w].closure)
          && c in t.closures && t.closures[c].runner == Some(step.w))
  {
    assert CountsOk(s.closures[c]);
    match step
    case Exec(w) =>
    case Steal(thief, victim, head) => assert WorkerOk(s, victim);
    case Enter(w) => assert WorkerOk(s, w);
    case SyncStep(w) => assert WorkerOk(s, w);
    case Reduce(w) =>
    case BeginReturn(w) => assert WorkerOk(s, w);
    case CallReturn(w) => assert WorkerOk(s, w) && LinksOk(s.closures, s.workers[w].closure);
    case Finish(w) =>
  }

  /** A suspended closure leaves that state in one of two ways only.  After a
      failed sync, the worker that returns its last child takes it, and no other
      worker holds it then.  Suspended at a call, it is resumed by its callee's
      worker: a provably good steal never takes it. */
  lemma ResumedOnce(s: State, step: Step, c: Id)
    requires Inv(s) && Enabled(s, step) && c in s.closures && s.closures[c].status == Suspended
    ensures s.closures[c].joinCounter > 0
    ensures var t := Apply(s, step);
      || StillSuspended(s, t, c)
      || (c in t.closures && t.closures[c].runner.Some?
          && (forall v | 0 <= v < |t.workers| && !t.workers[v].phase.Stealing? && t.workers[v].closure == c
                :: t.closures[c].runner == Some(v))
          && if s.closures[c].callee.None?
             then LastChildReturns(s, step, c) && t.closures[c].runner == Some(step.w) && t.closures[c].joinCounter == 0
             else step.CallReturn? && s.closures[c].callee == Some(s.workers[step.w].closure)
                  && t.closures[c].runner == Some(step.w))
  {
    var t := Apply(s, step);
    StepKeepsInv(s, step);
    assert CountsOk(s.closures[c]);
    if step.Return? {
      ReturnResumes(s, step.w, c);
    } else {
      OtherStepsKeepSuspended(s, step, c);
    }
    forall v | 0 <= v < |t.workers| && !t.workers[v].phase.Stealing? && t.workers[v].closure == c
      ensures t.closures[c].runner == Some(v)
    {
      assert WorkerOk(t, v);
    }
  }

  /** In every reachable state: a suspended closure waits for a linked child or a
      callee, and join_counter counts exactly those. */
  lemma NoneSuspendedAtZero(code: Code, nworkers: nat, steps: seq<Step>, t: State, c: Id)
    requires nworkers > 0 && Reaches(Init(code, nworkers), steps, t) && c in t.closures
    ensures t.closures[c].joinCounter == |t.closures[c].children| + (if t.closures[c].callee.Some? then 1 else 0)
    ensures t.closures[c].status == Suspended ==> t.closures[c].joinCounter > 0
    ensures t.closures[c].status == Suspended ==> forall v | 0 <= v < |t.busy| :: t.busy[v] != Some(c)
  {
    SerialDeterminism(code, nworkers, steps, t);
    assert CountsOk(t.closures[c]);
    forall v | 0 <= v < |t.busy|
      ensures t.closures[c].status == Suspended ==> t.busy[v] != Some(c)
    {
      assert WorkerOk(t, v);
    }
  }

  // ---------------------------------------------------------------------
  // Syncs and steals
  // ---------------------------------------------------------------------

  /** No spawned child of the closure that `w` executes is outstanding. */
  ghost predicate Joined(s: State, w: Wid) {
    && w < |s.workers| && s.workers[w].closure in s.closures
    && var cl := s.closures[s.workers[w].closure]; cl.children == [] && cl.joinCounter == 0
  }

  /** The closure's own frame is the youngest one, and its next instruction is a sync. */
  predicate BeforeSync(k: Worker) { |k.stack| == 1 && k.stack[0].rest != [] && k.stack[0].rest[0] == Sync }

  /** A sync waits. In every reachable state user code goes past a sync of the closure's own
      frame by itself only if no spawned child is outstanding; Cilk_sync lets it pass only
      then, and otherwise suspends the closure; and a closure that was suspended at a sync
      is taken up again only then. */
  lemma SyncWaits(code: Code, nworkers: nat, steps: seq<Step>, t: State, step: Step)
    requires nworkers > 0 && Reaches(Init(code, nworkers), steps, t) && Enabled(t, step)
    ensures step.Exec? && BeforeSync(t.workers[step.w]) ==> Joined(t, step.w)
    ensures step.SyncStep? ==>
              var u := Apply(t, step); var c := t.workers[step.w].closure;
              if Joined(t, step.w) then u.workers[step.w].closure == c && u.workers[step.w].phase == User(true) && Joined(u, step.w)
              else u.workers[step.w] == IDLE && c in u.closures && u.closures[c].status == Suspended
    ensures forall c | c in t.closures && t.closures[c].status == Suspended && t.closures[c].callee.None? && c in Apply(t, step).closures ::
              Apply(t, step).closures[c].status != Suspended ==> Apply(t, step).closures[c].children == []
  {
    SerialDeterminism(code, nworkers, steps, t);
    if step.Exec? || step.SyncStep? {
      assert WorkerOk(t, step.w) && CountsOk(t.closures[t.workers[step.w].closure]);
    }
    StepKeepsInv(t, step);
    forall c | c in t.closures && t.closures[c].status == Suspended && t.closures[c].callee.None? && c in Apply(t, step).closures
      ensures Apply(t, step).closures[c].status != Suspended ==> Apply(t, step).closures[c].children == []
    {
      ResumedOnce(t, step, c);
      assert CountsOk(Apply(t, step).closures[c]);
    }
  }

  /** A thief can steal from every worker in user code whose stack has a detached frame
      above its first one, and the frame that it takes is the oldest with a detached frame
      above it. */
  lemma StealIffDetached(code: Code, nworkers: nat, steps: seq<Step>, t: State, thief: Wid, victim: Wid, head: nat)
    requires nworkers > 0 && Reaches(Init(code, nworkers), steps, t) && t.result.None?
    requires thief < |t.workers| && victim < |t.workers| && thief != victim && t.workers[thief].phase == Stealing
    ensures Enabled(t, Steal(thief, victim, head)) <==>
              && t.workers[victim].phase == User(false)
              && head + 1 < |t.workers[victim].stack| && t.workers[victim].stack[head + 1].spawned
              && forall j | 1 <= j <= head :: !t.workers[victim].stack[j].spawned
  {
    SerialDeterminism(code, nworkers, steps, t);
    assert WorkerOk(t, victim);
  }

  /** In every reachable state, a busy closure is running, belongs to that worker
      and is no other worker's: a thief that gets the lock never meets the default
      branch of Closure_steal. */
  lemma BusyClosureIsRunning(code: Code, nworkers: nat, steps: seq<Step>, t: State, w: Wid, c: Id)
    requires nworkers > 0 && Reaches(Init(code, nworkers), steps, t)
    requires w < |t.busy| && t.busy[w] == Some(c)
    ensures c in t.closures && t.closures[c].status == Running && t.closures[c].owner == Some(w)
    ensures forall v | 0 <= v < |t.busy| && v != w :: t.busy[v] != Some(c)
  {
    SerialDeterminism(code, nworkers, steps, t);
    assert WorkerOk(t, w);
    forall v | 0 <= v < |t.busy| && v != w
      ensures t.busy[v] != Some(c)
    {
      assert WorkerOk(t, v);
    }
  }

  /** What __cilkrts_set_return asserts of the returning callee and its parent. */
  lemma SetReturnAssertions(s: State, w: Wid)
    requires Inv(s) && Enabled(s, CallReturn(w))
    ensures var t := s.closures[s.workers[w].closure];
      && t.status == Running && !t.HasChildren() && t.childHt == [] && t.rightHt == [] && t.spawnParent.None?
      && s.closures[t.callParent.value].status == Suspended && s.closures[t.callParent.value].joinCounter > 0
  {
    var c := s.workers[w].closure;
    assert WorkerOk(s, w) && CountsOk(s.closures[c]) && LinksOk(s.closures, c);
    assert CountsOk(s.closures[s.closures[c].callParent.value]);
  }

  /** What Closure_return asserts of the child and its parent. */
  lemma ClosureReturnAssertions(s: State, w: Wid)
    requires Inv(s) && Enabled(s, Return(w))
    ensures var child := s.closures[s.workers[w].closure]; var parent := s.closures[child.spawnParent.value];
      && child.status == Returning && child.joinCounter == 0 && child.owner.None?
      && child.callParent.None? && child.childHt == [] && child.userHt == []
      && parent.status != Returning && parent.joinCounter > 0
      && (parent.status == Suspended && parent.joinCounter == 1 ==> parent.owner.None? && parent.frames != [])
      && s.workers[w].lht == []
  {
    var c := s.workers[w].closure;
    var p := s.closures[c].spawnParent.value;
    assert WorkerOk(s, w) && CountsOk(s.closures[c]) && LinksOk(s.closures, c) && RunnerOk(s, c);
    assert CountsOk(s.closures[p]) && RunnerOk(s, p);
    if s.closures[p].runner.Some? {
      assert WorkerOk(s, s.closures[p].runner.value);
    }
  }

  // ---------------------------------------------------------------------
  // Progress
  // ---------------------------------------------------------------------

  /** A worker that holds a closure can take a step. */
  lemma HolderCanStep(s: State, w: Wid)
    requires Inv(s) && s.result.None? && w < |s.workers| && !s.workers[w].phase.Stealing?
    ensures exists step :: Enabled(s, step)
  {
    var k := s.workers[w];
    assert WorkerOk(s, w) && LinksOk(s.closures, k.closure) && CountsOk(s.closures[k.closure]);
    match k.phase
    case Entering(_) => assert Enabled(s, Enter(w));
    case Leaving =>
      assert LinksOk(s.closures, s.closures[k.closure].spawnParent.value);
      assert Enabled(s, Return(w));
    case User(reduce) =>
      if reduce {
        assert Enabled(s, Reduce(w));
      } else if AtRuntimeSync(s, w) {
        assert Enabled(s, SyncStep(w));
      } else if !Finished(s, w) {
        assert Enabled(s, Exec(w));
      } else if s.closures[k.closure].spawnParent.Some? {
        assert Enabled(s, BeginReturn(w));
      } else if s.closures[k.closure].callParent.Some? {
        assert Enabled(s, CallReturn(w));
      } else {
        assert Enabled(s, Finish(w));
      }
  }

  /** Below every closure there is one that a worker holds. */
  lemma {:induction false} SomeHolder(s: State, c: Id) returns (w: Wid)
    requires Inv(s) && c in s.closures
    ensures w < |s.workers| && !s.workers[w].phase.Stealing?
    decreases s.next - c
  {
    var cl := s.closures[c];
    assert LinksOk(s.closures, c) && CountsOk(cl) && RunnerOk(s, c);
    if cl.runner.Some? {
      w := cl.runner.value;
    } else if cl.callee.Some? {
      w := SomeHolder(s, cl.callee.value);
    } else {
      assert cl.children[0] in cl.children;
      w := SomeHolder(s, cl.children[0]);
    }
  }

  /** No run gets stuck before the root finishes. */
  lemma Progress(code: Code, nworkers: nat, steps: seq<Step>, t: State)
    requires nworkers > 0 && Reaches(Init(code, nworkers), steps, t) && t.result.None?
    ensures exists step :: Enabled(t, step)
  {
    SerialDeterminism(code, nworkers, steps, t);
    var w := SomeHolder(t, ROOT);
    HolderCanStep(t, w);
  }
}
