/** A potential that every step of the scheduler lowers: runs end, and with the serial
    result. */
module Termination {
  import opened Options
  import opened ClosureTree
  import opened ClosureInvariant
  import opened SerialOrder
  import opened ClosureProtocol

  // ---------------------------------------------------------------------
  // The potential
  // ---------------------------------------------------------------------

  const MAP: nat := 4       // a map that a returning child may have to merge
  const CLOSURE: nat := 5
  const UNSYNCED: nat := 5
  const BOUNDARY: nat := 19 // a detached frame whose parent can be stolen

  function CodeWeight(code: Code): nat {
    if code == [] then 0 else
    (match code[0]
     case Update(_) => 1
     case Spawn(body) => CodeWeight(body) + BOUNDARY + 2
     case Call(body) => CodeWeight(body) + 2
     case Sync => 1) + CodeWeight(code[1..])
  }

  function FrameWeight(f: Frame, bottom: bool): nat {
    1 + CodeWeight(f.rest) + if f.spawned && !bottom then BOUNDARY else 0
  }

  function StackWeight(stack: seq<Frame>): nat {
    if stack == [] then 0 else StackWeight(stack[..|stack| - 1]) + FrameWeight(Top(stack), |stack| == 1)
  }

  function PhaseWeight(phase: Phase): nat {
    match phase
    case Stealing => 0
    case Leaving => 1
    case User(reduce) => if reduce then 3 else 2
    case Entering(reduce) => if reduce then 4 else 3
  }

  function WorkerWeight(k: Worker): nat { PhaseWeight(k.phase) + StackWeight(k.stack) }

  function MapWeight(ht: HyperMap): nat { if ht == [] then 0 else MAP }

  function ClosureWeight(cl: Closure): nat {
    CLOSURE + MapWeight(cl.childHt) + MapWeight(cl.rightHt) + StackWeight(cl.frames) + if cl.unsynced then UNSYNCED else 0
  }

  function WorkersWeight(ks: seq<Worker>): nat {
    if ks == [] then 0 else WorkersWeight(ks[..|ks| - 1]) + WorkerWeight(ks[|ks| - 1])
  }

  /** The closures below `next`. */
  function ClosuresWeight(cls: map<Id, Closure>, next: Id): nat {
    if next == 0 then 0
    else ClosuresWeight(cls, next - 1) + if next - 1 in cls then ClosureWeight(cls[next - 1]) else 0
  }

  function Weight(s: State): nat {
    WorkersWeight(s.workers) + ClosuresWeight(s.closures, s.next) + if s.result.None? then 1 else 0
  }

  // ---------------------------------------------------------------------
  // How it follows a step
  // ---------------------------------------------------------------------

  lemma {:induction false} WorkerChanges(ks: seq<Worker>, w: Wid, k: Worker)
    requires w < |ks|
    ensures WorkersWeight(ks[w := k]) == WorkersWeight(ks) - WorkerWeight(ks[w]) + WorkerWeight(k)
  {
    var last := |ks| - 1;
    if w == last {
      assert ks[w := k][..last] == ks[..last];
    } else {
      assert ks[w := k][..last] == ks[..last][w := k];
      WorkerChanges(ks[..last], w, k);
    }
  }

  function Entry(cls: map<Id, Closure>, c: Id): nat { if c in cls then ClosureWeight(cls[c]) else 0 }

  /** Two maps that differ in one closure only. */
  lemma {:induction false} ClosureChanges(s: map<Id, Closure>, t: map<Id, Closure>, c: Id, next: Id)
    requires c < next && forall d | d != c :: (d in s <==> d in t) && (d in s ==> s[d] == t[d])
    ensures ClosuresWeight(t, next) == ClosuresWeight(s, next) - Entry(s, c) + Entry(t, c)
  {
    if c == next - 1 {
      ClosuresSame(s, t, next - 1);
    } else {
      ClosureChanges(s, t, c, next - 1);
    }
  }

  lemma {:induction false} ClosuresSame(s: map<Id, Closure>, t: map<Id, Closure>, next: Id)
    requires forall d | 0 <= d < next :: (d in s <==> d in t) && (d in s ==> s[d] == t[d])
    ensures ClosuresWeight(t, next) == ClosuresWeight(s, next)
  {
    if next > 0 {
      ClosuresSame(s, t, next - 1);
    }
  }

  lemma {:induction false} StackAppend(a: seq<Frame>, b: seq<Frame>)
    requires a != [] && b != []
    ensures StackWeight(a + b) == StackWeight(a) + StackWeight(b) + if b[0].spawned then BOUNDARY else 0
  {
    var last := |b| - 1;
    assert (a + b)[..|a + b| - 1] == a + b[..last];
    if last == 0 {
      assert b[..last] == [] && a + [] == a;
    } else {
      StackAppend(a, b[..last]);
    }
  }

  lemma TopWeight(stack: seq<Frame>, code: Code)
    requires stack != []
    ensures StackWeight(SetTop(stack, code)) == StackWeight(stack) - CodeWeight(Top(stack).rest) + CodeWeight(code)
  {
    assert SetTop(stack, code)[..|stack| - 1] == stack[..|stack| - 1];
  }

  lemma ExecLowers(k: Worker)
    requires k.stack != [] && (|k.stack| > 1 || Top(k.stack).rest != [])
    ensures StackWeight(ExecWorker(k).stack) < StackWeight(k.stack)
  {
    var rest := Top(k.stack).rest;
    if rest != [] {
      TopWeight(k.stack, rest[1..]);
      var stack := SetTop(k.stack, rest[1..]);
      match rest[0]
      case Spawn(body) =>
        StackAppend(stack, [Frame(body, true)]);
      case Call(body) =>
        StackAppend(stack, [Frame(body, false)]);
      case _ =>
    }
  }

  // ---------------------------------------------------------------------
  // Every step
  // ---------------------------------------------------------------------

  /** A step of worker `w` on its own closure. */
  lemma OwnStep(s: State, t: State, w: Wid, x: Id)
    requires w < |s.workers| == |t.workers| && t.workers == s.workers[w := t.workers[w]] && t.next == s.next && t.result == s.result
    requires x in s.closures && x < s.next && x in t.closures && t.closures == s.closures[x := t.closures[x]]
    ensures Weight(t) == Weight(s) - WorkerWeight(s.workers[w]) + WorkerWeight(t.workers[w])
                         - ClosureWeight(s.closures[x]) + ClosureWeight(t.closures[x])
  {
    WorkerChanges(s.workers, w, t.workers[w]);
    ClosureChanges(s.closures, t.closures, x, s.next);
  }

  lemma OwnStepLowers(s: State, step: Step)
    requires Inv(s) && Enabled(s, step) && !step.Steal? && !step.Return? && !step.CallReturn? && !step.Finish?
    ensures Weight(Apply(s, step)) < Weight(s)
  {
    match step
    case Exec(w) => ExecStepLowers(s, w);
    case SyncStep(w) => SyncStepLowers(s, w);
    case _ => PhaseStepLowers(s, step);
  }

  lemma ExecStepLowers(s: State, w: Wid)
    requires Inv(s) && Enabled(s, Exec(w))
    ensures Weight(DoExec(s, w)) < Weight(s)
  {
    assert WorkerOk(s, w);
    WorkerChanges(s.workers, w, ExecWorker(s.workers[w]));
    ExecLowers(s.workers[w]);
  }

  lemma SyncStepLowers(s: State, w: Wid)
    requires Inv(s) && Enabled(s, SyncStep(w))
    ensures Weight(DoSync(s, w)) < Weight(s)
  {
    assert WorkerOk(s, w);
    var k, t := s.workers[w], DoSync(s, w);
    assert CountsOk(s.closures[k.closure]);
    OwnStep(s, t, w, k.closure);
    var rest := if k.stack[0].rest == [] then [] else k.stack[0].rest[1..];
    TopWeight(k.stack, rest);
    assert CodeWeight(rest) <= CodeWeight(k.stack[0].rest);
  }

  /** Steps that leave the stack as it is. */
  lemma PhaseStepLowers(s: State, step: Step)
    requires Inv(s) && Enabled(s, step) && (step.Enter? || step.Reduce? || step.BeginReturn?)
    ensures Weight(Apply(s, step)) < Weight(s)
  {
    var w := step.w;
    assert WorkerOk(s, w);
    OwnStep(s, Apply(s, step), w, s.workers[w].closure);
  }

  lemma TwoWorkers(ks: seq<Worker>, w: Wid, k: Worker, v: Wid, l: Worker)
    requires w < |ks| && v < |ks| && w != v
    ensures WorkersWeight(ks[w := k][v := l])
         == WorkersWeight(ks) - WorkerWeight(ks[w]) + WorkerWeight(k) - WorkerWeight(ks[v]) + WorkerWeight(l)
  {
    WorkerChanges(ks, w, k);
    WorkerChanges(ks[w := k], v, l);
  }

  /** One closure changes, and there is a new one. */
  lemma NewClosureWeight(s: map<Id, Closure>, x: Id, cl: Closure, next: Id, new': Closure)
    requires x in s && x < next && next !in s
    ensures ClosuresWeight(s[x := cl][next := new'], next + 1)
         == ClosuresWeight(s, next) - ClosureWeight(s[x]) + ClosureWeight(cl) + ClosureWeight(new')
  {
    ClosureChanges(s, s[x := cl], x, next);
    ClosuresSame(s[x := cl], s[x := cl][next := new'], next);
  }

  lemma StealOwnFrameLowers(s: State, thief: Wid, victim: Wid)
    requires Inv(s) && Enabled(s, Steal(thief, victim, 0))
    ensures Weight(DoSteal(s, thief, victim, 0)) < Weight(s)
  {
    assert WorkerOk(s, victim) && WorkerOk(s, thief);
    var v, t := s.workers[victim], DoSteal(s, thief, victim, 0);
    TwoWorkers(s.workers, thief, t.workers[thief], victim, t.workers[victim]);
    StackAppend(v.stack[..1], v.stack[1..]);
    assert v.stack == v.stack[..1] + v.stack[1..];
    NewClosureWeight(s.closures, v.closure, t.closures[v.closure], s.next, t.closures[s.next]);
  }

  lemma StealSplits(stack: seq<Frame>, head: nat)
    requires AtHead(stack, head) && head > 0
    ensures StackWeight(stack) == StackWeight(stack[..head]) + StackWeight(stack[head..head + 1]) + StackWeight(stack[head + 1..]) + BOUNDARY
  {
    StackAppend(stack[..head + 1], stack[head + 1..]);
    assert stack == stack[..head + 1] + stack[head + 1..];
    StackAppend(stack[..head], stack[head..head + 1]);
    assert stack[..head + 1] == stack[..head] + stack[head..head + 1];
  }

  lemma StealCalledFrameWorkers(s: State, thief: Wid, victim: Wid, head: nat)
    requires Inv(s) && Enabled(s, Steal(thief, victim, head)) && head > 0
    ensures WorkersWeight(DoSteal(s, thief, victim, head).workers)
         == WorkersWeight(s.workers) + 3 - BOUNDARY - StackWeight(s.workers[victim].stack[..head])
  {
    assert WorkerOk(s, thief);
    var v, t := s.workers[victim], DoSteal(s, thief, victim, head);
    TwoWorkers(s.workers, thief, t.workers[thief], victim, t.workers[victim]);
    StealSplits(v.stack, head);
  }

  lemma StealCalledFrameClosures(s: State, thief: Wid, victim: Wid, head: nat)
    requires Inv(s) && Enabled(s, Steal(thief, victim, head)) && head > 0
    ensures var t := DoSteal(s, thief, victim, head);
      ClosuresWeight(t.closures, t.next)
      == ClosuresWeight(s.closures, s.next) + 2 * CLOSURE + UNSYNCED + StackWeight(s.workers[victim].stack[..head])
  {
    assert WorkerOk(s, victim);
    var t, x := DoSteal(s, thief, victim, head), s.workers[victim].closure;
    assert CountsOk(s.closures[x]);
    var parent, child := t.closures[s.next], t.closures[s.next + 1];
    assert ClosureWeight(parent) == CLOSURE + UNSYNCED && ClosureWeight(child) == CLOSURE;
    var cls := s.closures[x := t.closures[x]][s.next := parent];
    NewClosureWeight(s.closures, x, t.closures[x], s.next, parent);
    NewClosureWeight(cls, s.next, parent, s.next + 1, child);
    assert t.closures == cls[s.next := parent][s.next + 1 := child];
  }

  lemma StealCalledFrameLowers(s: State, thief: Wid, victim: Wid, head: nat)
    requires Inv(s) && Enabled(s, Steal(thief, victim, head)) && head > 0
    ensures Weight(DoSteal(s, thief, victim, head)) < Weight(s)
  {
    StealCalledFrameWorkers(s, thief, victim, head);
    StealCalledFrameClosures(s, thief, victim, head);
  }

  lemma CallReturnLowers(s: State, w: Wid)
    requires Inv(s) && Enabled(s, CallReturn(w))
    ensures Weight(DoCallReturn(s, w)) < Weight(s)
  {
    var k, t := s.workers[w], DoCallReturn(s, w);
    var x := k.closure;
    var p := s.closures[x].callParent.value;
    assert WorkerOk(s, w) && LinksOk(s.closures, x);
    WorkerChanges(s.workers, w, t.workers[w]);
    var cls := s.closures - {x};
    ClosureChanges(s.closures, cls, x, s.next);
    ClosureChanges(cls, t.closures, p, s.next);
  }

  /** `*lht_ptr = ht` */
  lemma SetLeftMapWeight(s: State, p: Id, j: nat, ht: HyperMap)
    requires Inv(s) && p in s.closures && j < |s.closures[p].children|
    requires forall k :: k in s.closures[p].children ==> k in s.closures
    ensures ClosuresWeight(SetLeftMap(s, p, j, ht), s.next) == ClosuresWeight(s.closures, s.next) - MapWeight(LeftMap(s, p, j)) + MapWeight(ht)
  {
    var c := if j == 0 then p else s.closures[p].children[j - 1];
    ClosureChanges(s.closures, SetLeftMap(s, p, j, ht), c, s.next);
  }

  lemma TakeMapsLowers(s: State, w: Wid, c: Id, p: Id, j: nat)
    requires Inv(s) && Returns(s, w, c, p, j) && (LeftMap(s, p, j) != [] || s.closures[c].rightHt != [])
    ensures Weight(TakeMaps(s, w, c, p, j)) < Weight(s)
  {
    var t := TakeMaps(s, w, c, p, j);
    assert WorkerOk(s, w) && LinksOk(s.closures, p);
    WorkerChanges(s.workers, w, t.workers[w]);
    SetLeftMapWeight(s, p, j, []);
    var cls := SetLeftMap(s, p, j, []);
    assert cls[c] == s.closures[c];
    ClosureChanges(cls, t.closures, c, s.next);
  }

  lemma DepositWeight(s: State, w: Wid, c: Id, p: Id, j: nat)
    requires Inv(s) && Returns(s, w, c, p, j) && LeftMap(s, p, j) == []
    ensures Weight(Deposit(s, w, c, p, j)) <= Weight(s) - 2
  {
    var t := Deposit(s, w, c, p, j);
    assert WorkerOk(s, w) && LinksOk(s.closures, p) && LinksOk(s.closures, c);
    WorkerChanges(s.workers, w, IDLE);
    var ht := s.workers[w].hyperTable;
    SetLeftMapWeight(s, p, j, ht);
    var cls := SetLeftMap(s, p, j, ht);
    assert cls[c] == s.closures[c];
    ClosureChanges(cls, cls - {c}, c, s.next);
    ClosureChanges(cls - {c}, t.closures, p, s.next);
  }

  lemma ProvablyGoodStealWeight(s: State, w: Wid, p: Id)
    requires p in s.closures && p < s.next && w < |s.workers| && s.workers[w] == IDLE && s.closures[p].unsynced
    ensures Weight(ProvablyGoodSteal(s, w, p)) < Weight(s)
  {
    OwnStep(s, ProvablyGoodSteal(s, w, p), w, p);
  }

  lemma ReturnLowers(s: State, w: Wid)
    requires Inv(s) && Enabled(s, Return(w))
    ensures Weight(DoReturn(s, w)) < Weight(s)
  {
    assert WorkerOk(s, w);
    var c := s.workers[w].closure;
    var p := s.closures[c].spawnParent.value;
    var j := IndexOf(s.closures[p].children, c);
    assert LinksOk(s.closures, c) && CountsOk(s.closures[p]);
    if LeftMap(s, p, j) != [] || s.closures[c].rightHt != [] {
      TakeMapsLowers(s, w, c, p, j);
    } else {
      DepositWeight(s, w, c, p, j);
      var s1 := Deposit(s, w, c, p, j);
      if !s1.closures[p].HasChildren() && s1.closures[p].status == Suspended {
        ProvablyGoodStealWeight(s1, w, p);
      }
    }
  }

  /** Every step lowers the potential. */
  lemma StepLowers(s: State, step: Step)
    requires Inv(s) && Enabled(s, step)
    ensures Weight(Apply(s, step)) < Weight(s)
  {
    match step
    case Steal(thief, victim, head) =>
      if head == 0 {
        StealOwnFrameLowers(s, thief, victim);
      } else {
        StealCalledFrameLowers(s, thief, victim, head);
      }
    case Return(w) => ReturnLowers(s, w);
    case CallReturn(w) => CallReturnLowers(s, w);
    case Finish(w) =>
    case _ => OwnStepLowers(s, step);
  }

  lemma {:induction false} RunLowers(s: State, steps: seq<Step>, t: State)
    requires Inv(s) && Reaches(s, steps, t)
    ensures |steps| <= Weight(s) - Weight(t)
    decreases |steps|
  {
    if steps != [] {
      StepLowers(s, steps[0]);
      StepKeepsInv(s, steps[0]);
      RunLowers(Apply(s, steps[0]), steps[1..], t);
    }
  }

  // ---------------------------------------------------------------------
  // Runs end
  // ---------------------------------------------------------------------

  lemma IdleWeight(n: nat)
    ensures WorkersWeight(seq(n, i => IDLE)) == 0
  {
    var ks := seq(n, i => IDLE);
    if n > 0 {
      assert ks[..n - 1] == seq(n - 1, i => IDLE);
      IdleWeight(n - 1);
    }
  }

  lemma InitWeight(code: Code, nworkers: nat)
    requires nworkers > 0
    ensures Weight(Init(code, nworkers)) == CodeWeight(code) + 10
  {
    var s := Init(code, nworkers);
    var idle := s.workers[0 := IDLE];
    assert idle == seq(nworkers, i => IDLE);
    IdleWeight(nworkers);
    WorkerChanges(idle, 0, s.workers[0]);
    assert idle[0 := s.workers[0]] == s.workers;
    assert s.workers[0].stack[..0] == [];
    assert StackWeight(s.workers[0].stack) == 1 + CodeWeight(code);
    assert ClosuresWeight(s.closures, 1) == ClosuresWeight(s.closures, 0) + CLOSURE;
  }

  /** Whatever the workers steal, a run takes no more steps than a bound on the code. */
  lemma RunsAreBounded(code: Code, nworkers: nat, steps: seq<Step>, t: State)
    requires nworkers > 0 && Reaches(Init(code, nworkers), steps, t)
    ensures |steps| <= CodeWeight(code) + 10
  {
    InitOk(code, nworkers);
    InitWeight(code, nworkers);
    RunLowers(Init(code, nworkers), steps, t);
  }

  ghost predicate Ended(t: State) { forall step :: !Enabled(t, step) }

  /** A run cannot go on if and only if it has ended with the serial result. */
  lemma EveryRunEnds(code: Code, nworkers: nat, steps: seq<Step>, t: State)
    requires nworkers > 0 && Reaches(Init(code, nworkers), steps, t)
    ensures |steps| <= CodeWeight(code) + 10
    ensures Ended(t) <==> t.result == Some(Serial(code))
  {
    RunsAreBounded(code, nworkers, steps, t);
    SerialDeterminism(code, nworkers, steps, t);
    if t.result.None? {
      Progress(code, nworkers, steps, t);
    }
  }
}
