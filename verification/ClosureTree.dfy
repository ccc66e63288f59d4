/** The closure tree of the work-stealing scheduler, with one step per
    lock-protected region of runtime/scheduler.cpp.

    A Cilk function instance is the finite list of parallel instructions it
    performs.  A hypermap is an element of the free monoid over updates, and the
    empty sequence stands for a null map.  A reducer's final value is then the
    list of updates in the order in which the runtime reduced them.
 */
module ClosureTree {
  import opened Options

  type Id = nat  // a closure; identifiers are handed out in order of creation
  type Wid = nat // a worker
  type HyperMap = seq<int>

  datatype Instr = Update(u: int) | Spawn(body: seq<Instr>) | Call(body: seq<Instr>) | Sync
  type Code = seq<Instr>

  /** The updates of `code` in the order of its serial elision. */
  function Serial(code: Code): HyperMap
    decreases code
  {
    if code == [] then [] else
    match code[0]
    case Update(u) => [u] + Serial(code[1..])
    case Spawn(body) => Serial(body) + Serial(code[1..])
    case Call(body) => Serial(body) + Serial(code[1..])
    case Sync => Serial(code[1..])
  }

  /** A Cilk stack frame: the instructions left to do, and whether the frame is
      a detached spawn helper.  A frame below a detached one is on the deque. */
  datatype Frame = Frame(rest: Code, spawned: bool)

  datatype Status = Running | Suspended | Returning

  /** `children` lists the spawned children from left to right (the links from
      right_most_child through left_sib), `callee` is the closure whose
      call_parent this is, `frames` holds the frames a suspended closure resumes
      with, and `runner` is the worker that executes or returns the closure. */
  datatype Closure = Closure(
    status: Status,
    joinCounter: int,
    spawnParent: Option<Id>,
    callParent: Option<Id>,
    owner: Option<Wid>,
    children: seq<Id>,
    callee: Option<Id>,
    rightHt: HyperMap,
    childHt: HyperMap,
    userHt: HyperMap,
    unsynced: bool,
    frames: seq<Frame>,
    runner: Option<Wid>)
  {
    predicate HasChildren() { joinCounter != 0 }
  }

  /** Where a worker is: in the steal loop, holding a closure it has not yet made
      its busy closure, executing that closure, or returning it.  `reduce` says
      that the worker must first run __cilkrts_do_reductions. */
  datatype Phase = Stealing | Entering(reduce: bool) | User(reduce: bool) | Leaving

  datatype Worker = Worker(
    phase: Phase,
    closure: Id,
    stack: seq<Frame>,
    hyperTable: HyperMap,
    lht: HyperMap,
    rht: HyperMap)

  const IDLE := Worker(Stealing, 0, [], [], [], [])

  datatype State = State(
    closures: map<Id, Closure>,
    workers: seq<Worker>,
    busy: seq<Option<Id>>,
    next: Id,
    result: Option<HyperMap>)

  const ROOT: Id := 0

  function NewClosure(spawnParent: Option<Id>, callParent: Option<Id>, runner: Wid): Closure {
    Closure(Running, 0, spawnParent, callParent, None, [], None, [], [], [], false, [], Some(runner))
  }

  /** The root closure starts on worker 0; the other workers are thieves. */
  function Init(code: Code, nworkers: nat): State
    requires nworkers > 0
  {
    State(map[ROOT := NewClosure(None, None, 0)],
          [Worker(Entering(false), ROOT, [Frame(code, false)], [], [], [])]
          + seq(nworkers - 1, i => IDLE),
          seq(nworkers, i => None), 1, None)
  }

  // ---------------------------------------------------------------------
  // The serial reading of a state
  // ---------------------------------------------------------------------

  /** What is left to do on a stack, youngest frame first. */
  function Remaining(stack: seq<Frame>): HyperMap {
    if stack == [] then []
    else Serial(stack[|stack| - 1].rest) + Remaining(stack[..|stack| - 1])
  }

  function Strand(k: Worker): HyperMap {
    k.lht + k.hyperTable + k.rht + Remaining(k.stack)
  }

  function RunnerPart(s: State, runner: Option<Wid>): HyperMap {
    match runner
    case None => []
    case Some(w) =>
      if w < |s.workers| then Strand(s.workers[w]) else []
  }

  /** The left-to-right flattening of the subtree of closure `c`, with every
      strand's outstanding updates at that strand's own place. */
  function Flat(s: State, c: Id): HyperMap
    decreases s.next - c, 2, 0
  {
    if c !in s.closures then [] else
    var cl := s.closures[c];
    Join(cl.childHt, FlatChildren(s, c, cl.children), CalleePart(s, c, cl.callee),
         cl.userHt, RunnerPart(s, cl.runner), Remaining(cl.frames))
  }

  function Join(childHt: HyperMap, children: HyperMap, callee: HyperMap,
                userHt: HyperMap, runner: HyperMap, frames: HyperMap): HyperMap
  {
    childHt + children + callee + userHt + runner + frames
  }

  function CalleePart(s: State, c: Id, callee: Option<Id>): HyperMap
    decreases s.next - c, 0, 0
  {
    if callee.Some? && c < callee.value < s.next then Flat(s, callee.value) else []
  }

  function RightHt(s: State, c: Id): HyperMap {
    if c in s.closures then s.closures[c].rightHt else []
  }

  /** A spawned child with what its right siblings left in its right_ht. */
  function ChildPart(s: State, c: Id, k: Id): HyperMap
    decreases s.next - c, 0, 0
  {
    (if c < k < s.next then Flat(s, k) else []) + RightHt(s, k)
  }

  function FlatChildren(s: State, c: Id, children: seq<Id>): HyperMap
    decreases s.next - c, 1, |children|
  {
    if children == [] then [] else ChildPart(s, c, children[0]) + FlatChildren(s, c, children[1..])
  }

  // ---------------------------------------------------------------------
  // Steps
  // ---------------------------------------------------------------------

  datatype Step =
    | Exec(w: Wid)
    | Steal(thief: Wid, victim: Wid, head: nat)
    | Enter(w: Wid)
    | SyncStep(w: Wid)
    | Reduce(w: Wid)
    | BeginReturn(w: Wid)
    | Return(w: Wid)
    | CallReturn(w: Wid)
    | Finish(w: Wid)

  function Top(stack: seq<Frame>): Frame
    requires stack != []
  {
    stack[|stack| - 1]
  }

  function SetTop(stack: seq<Frame>, code: Code): seq<Frame>
    requires stack != []
  {
    stack[..|stack| - 1] + [Top(stack).(rest := code)]
  }

  predicate InUserCode(s: State, w: Wid) {
    && w < |s.workers| && w < |s.busy|
    && s.workers[w].phase == User(false)
    && s.workers[w].stack != []
    && s.workers[w].closure in s.closures
  }

  /** The oldest frame of the stack is at a sync that must enter the runtime: the
      frame was stolen since its last sync. */
  predicate AtRuntimeSync(s: State, w: Wid)
    requires InUserCode(s, w)
  {
    var k := s.workers[w];
    && |k.stack| == 1
    && s.closures[k.closure].unsynced
    && (k.stack[0].rest == [] || k.stack[0].rest[0] == Sync)
  }

  /** The closure's own frame has nothing left to do and is synched. */
  predicate Finished(s: State, w: Wid)
    requires InUserCode(s, w)
  {
    var k := s.workers[w];
    |k.stack| == 1 && k.stack[0].rest == [] && !s.closures[k.closure].unsynced
  }

  /** Index `head` is the entry at the deque's head: the oldest frame with a
      detached frame above it. */
  predicate AtHead(stack: seq<Frame>, head: nat) {
    && head + 1 < |stack|
    && stack[head + 1].spawned
    && (forall j | 0 < j <= head :: !stack[j].spawned)
  }

  predicate Enabled(s: State, step: Step) {
    s.result.None? &&
    match step
    case Exec(w) => InUserCode(s, w) && !AtRuntimeSync(s, w) && !Finished(s, w)
    case Steal(thief, victim, head) =>
      && InUserCode(s, victim) && thief < |s.workers| && thief != victim
      && s.workers[thief].phase == Stealing
      && s.busy[victim] == Some(s.workers[victim].closure)
      && AtHead(s.workers[victim].stack, head)
    case Enter(w) => w < |s.workers| && w < |s.busy| && s.workers[w].phase.Entering? && s.workers[w].closure in s.closures
    case SyncStep(w) => InUserCode(s, w) && AtRuntimeSync(s, w)
    case Reduce(w) => w < |s.workers| && s.workers[w].phase == User(true)
    case BeginReturn(w) => InUserCode(s, w) && Finished(s, w) && s.closures[s.workers[w].closure].spawnParent.Some?
    case Return(w) =>
      && w < |s.workers| && s.workers[w].phase == Leaving && s.workers[w].closure in s.closures
      && var child := s.closures[s.workers[w].closure];
      && child.spawnParent.Some? && child.spawnParent.value in s.closures
      && s.workers[w].closure in s.closures[child.spawnParent.value].children
      && (forall k :: k in s.closures[child.spawnParent.value].children ==> k in s.closures)
      && child.spawnParent.value !in s.closures[child.spawnParent.value].children
    case CallReturn(w) =>
      && InUserCode(s, w) && Finished(s, w)
      && var t := s.closures[s.workers[w].closure];
      && t.callParent.Some? && t.callParent.value in s.closures && t.callParent.value != s.workers[w].closure
    case Finish(w) => InUserCode(s, w) && Finished(s, w) && s.workers[w].closure == ROOT
  }

  function Apply(s: State, step: Step): State
    requires Enabled(s, step)
  {
    match step
    case Exec(w) => DoExec(s, w)
    case Steal(thief, victim, head) => DoSteal(s, thief, victim, head)
    case Enter(w) => DoEnter(s, w)
    case SyncStep(w) => DoSync(s, w)
    case Reduce(w) => DoReductions(s, w)
    case BeginReturn(w) => DoBeginReturn(s, w)
    case Return(w) => DoReturn(s, w)
    case CallReturn(w) => DoCallReturn(s, w)
    case Finish(w) => DoFinish(s, w)
  }

  /** One instruction of user code that stays outside the scheduler. */
  function ExecWorker(k: Worker): Worker
    requires k.stack != []
  {
    var rest := Top(k.stack).rest;
    if rest == [] then k.(stack := k.stack[..|k.stack| - 1]) else
    match rest[0]
    case Update(u) => k.(stack := SetTop(k.stack, rest[1..]), hyperTable := k.hyperTable + [u])
    case Spawn(body) => k.(stack := SetTop(k.stack, rest[1..]) + [Frame(body, true)])
    case Call(body) => k.(stack := SetTop(k.stack, rest[1..]) + [Frame(body, false)])
    case Sync => k.(stack := SetTop(k.stack, rest[1..]))
  }

  function DoExec(s: State, w: Wid): State
    requires Enabled(s, Exec(w))
  {
    s.(workers := s.workers[w := ExecWorker(s.workers[w])])
  }

  /** Closure_steal, promote_child and finish_promote. */
  function DoSteal(s: State, thief: Wid, victim: Wid, head: nat): State
    requires Enabled(s, Steal(thief, victim, head))
  {
    var v := s.workers[victim];
    var cl := s.closures[v.closure];
    if head == 0 then
      // The frame to steal is the closure's own: the thief takes the closure.
      var child := s.next;
      var parent := cl.(owner := None, runner := Some(thief), unsynced := true,
                        children := cl.children + [child], joinCounter := cl.joinCounter + 1);
      var t := Worker(Entering(false), v.closure, v.stack[..1], [], [], []);
      State(s.closures[v.closure := parent]
            [child := NewClosure(Some(v.closure), None, victim).(owner := Some(victim))],
            s.workers[thief := t][victim := v.(closure := child, stack := v.stack[1..])],
            s.busy[victim := Some(child)], s.next + 1, s.result)
    else
      // A called frame is stolen: it gets a closure of its own, and `cl` is suspended.
      var spawner := s.next;
      var child := s.next + 1;
      var caller := cl.(owner := None, runner := None, status := Suspended,
                        callee := Some(spawner), joinCounter := cl.joinCounter + 1,
                        frames := v.stack[..head]);
      var parent := NewClosure(None, Some(v.closure), thief)
                    .(unsynced := true, children := [child], joinCounter := 1);
      var t := Worker(Entering(false), spawner, v.stack[head..head + 1], [], [], []);
      State(s.closures[v.closure := caller][spawner := parent]
            [child := NewClosure(Some(spawner), None, victim).(owner := Some(victim))],
            s.workers[thief := t][victim := v.(closure := child, stack := v.stack[head + 1..])],
            s.busy[victim := Some(child)], s.next + 2, s.result)
  }

  /** do_what_it_says, CLOSURE_RUNNING: the closure becomes the busy closure. */
  function DoEnter(s: State, w: Wid): State
    requires Enabled(s, Enter(w))
  {
    var k := s.workers[w];
    s.(workers := s.workers[w := k.(phase := User(k.phase.reduce))],
       busy := s.busy[w := Some(k.closure)],
       closures := s.closures[k.closure := s.closures[k.closure].(owner := Some(w))])
  }

  /** Cilk_sync. */
  function DoSync(s: State, w: Wid): State
    requires Enabled(s, SyncStep(w))
  {
    var k := s.workers[w];
    var cl := s.closures[k.closure];
    var rest := if k.stack[0].rest == [] then [] else k.stack[0].rest[1..];
    var stack := SetTop(k.stack, rest);
    if cl.HasChildren() then
      s.(workers := s.workers[w := IDLE],
         busy := s.busy[w := None],
         closures := s.closures[k.closure := cl.(status := Suspended, owner := None, runner := None,
                                                 userHt := k.hyperTable, frames := stack)])
    else
      s.(workers := s.workers[w := k.(phase := User(true), stack := stack, lht := cl.childHt)],
         closures := s.closures[k.closure := cl.(unsynced := false, childHt := [])])
  }

  /** __cilkrts_do_reductions, with each user reduction taken as atomic. */
  function DoReductions(s: State, w: Wid): State
    requires Enabled(s, Reduce(w))
  {
    var k := s.workers[w];
    s.(workers := s.workers[w := k.(phase := User(false), lht := [], rht := [],
                                    hyperTable := k.lht + k.hyperTable + k.rht)])
  }

  /** __cilkrts_exception_handler for a stolen parent, up to the release of the
      busy lock in do_what_it_says. */
  function DoBeginReturn(s: State, w: Wid): State
    requires Enabled(s, BeginReturn(w))
  {
    var k := s.workers[w];
    s.(workers := s.workers[w := k.(phase := Leaving)],
       busy := s.busy[w := None],
       closures := s.closures[k.closure := s.closures[k.closure].(status := Returning, owner := None)])
  }

  function IndexOf(children: seq<Id>, c: Id): (j: nat)
    requires c in children
    ensures j < |children| && children[j] == c
  {
    if children[0] == c then 0 else 1 + IndexOf(children[1..], c)
  }

  function Without(children: seq<Id>, j: nat): seq<Id>
    requires j < |children|
  {
    children[..j] + children[j + 1..]
  }

  /** The map on the left of child `j`: its left sibling's right_ht, or the
      parent's child_ht when it is the leftmost child. */
  function LeftMap(s: State, p: Id, j: nat): HyperMap
    requires p in s.closures && j < |s.closures[p].children|
  {
    if j == 0 then s.closures[p].childHt else RightHt(s, s.closures[p].children[j - 1])
  }

  /** `*lht_ptr = ht`. */
  function SetLeftMap(s: State, p: Id, j: nat, ht: HyperMap): map<Id, Closure>
    requires p in s.closures && j < |s.closures[p].children|
    requires forall k :: k in s.closures[p].children ==> k in s.closures
  {
    if j == 0 then s.closures[p := s.closures[p].(childHt := ht)]
    else var left := s.closures[p].children[j - 1]; s.closures[left := s.closures[left].(rightHt := ht)]
  }

  /** Closure_return, with provably_good_steal_maybe at its end. */
  function DoReturn(s: State, w: Wid): State
    requires Enabled(s, Return(w))
  {
    var c := s.workers[w].closure;
    var p := s.closures[c].spawnParent.value;
    var j := IndexOf(s.closures[p].children, c);
    if LeftMap(s, p, j) != [] || s.closures[c].rightHt != [] then TakeMaps(s, w, c, p, j)
    else
      var s1 := Deposit(s, w, c, p, j);
      if !s1.closures[p].HasChildren() && s1.closures[p].status == Suspended
      then ProvablyGoodSteal(s1, w, p) else s1
  }

  /** There are maps to merge: the child takes both and runs again. */
  function TakeMaps(s: State, w: Wid, c: Id, p: Id, j: nat): State
    requires Enabled(s, Return(w)) && c == s.workers[w].closure && p == s.closures[c].spawnParent.value
    requires j < |s.closures[p].children| && s.closures[p].children[j] == c
  {
    var cls := SetLeftMap(s, p, j, []);
    var k := s.workers[w];
    s.(workers := s.workers[w := k.(phase := Entering(true), lht := LeftMap(s, p, j), rht := s.closures[c].rightHt)],
       closures := cls[c := cls[c].(status := Running, rightHt := [])])
  }

  /** Nothing to merge: the child leaves its map on the left and is unlinked and
      destroyed. */
  function Deposit(s: State, w: Wid, c: Id, p: Id, j: nat): (r: State)
    requires Enabled(s, Return(w)) && c == s.workers[w].closure && p == s.closures[c].spawnParent.value
    requires j < |s.closures[p].children| && s.closures[p].children[j] == c
    ensures p in r.closures && |r.workers| == |s.workers|
  {
    var cls := SetLeftMap(s, p, j, s.workers[w].hyperTable);
    var parent := cls[p].(children := Without(cls[p].children, j), joinCounter := cls[p].joinCounter - 1);
    s.(workers := s.workers[w := IDLE],
       closures := (cls - {c})[p := parent])
  }

  function ProvablyGoodSteal(s: State, w: Wid, p: Id): State
    requires p in s.closures && w < |s.workers|
  {
    var cl := s.closures[p];
    s.(workers := s.workers[w := Worker(Entering(true), p, cl.frames, cl.userHt, cl.childHt, [])],
       closures := s.closures[p := cl.(status := Running, runner := Some(w), unsynced := false,
                                       childHt := [], userHt := [], frames := [])])
  }

  /** __cilkrts_set_return: a called closure returns to its call parent. */
  function DoCallReturn(s: State, w: Wid): State
    requires Enabled(s, CallReturn(w))
  {
    var k := s.workers[w];
    var p := s.closures[k.closure].callParent.value;
    var parent := s.closures[p].(status := Running, joinCounter := s.closures[p].joinCounter - 1,
                                 callee := None, owner := Some(w), runner := Some(w), frames := []);
    s.(workers := s.workers[w := k.(closure := p, stack := s.closures[p].frames)],
       busy := s.busy[w := Some(p)],
       closures := (s.closures - {k.closure})[p := parent])
  }

  /** The root frame leaves the cilkified region. */
  function DoFinish(s: State, w: Wid): State
    requires Enabled(s, Finish(w))
  {
    s.(result := Some(s.workers[w].hyperTable))
  }

  /** `t` is reached from `s` by performing `steps` in order. */
  ghost predicate Reaches(s: State, steps: seq<Step>, t: State)
    decreases |steps|
  {
    if steps == [] then s == t
    else Enabled(s, steps[0]) && Reaches(Apply(s, steps[0]), steps[1..], t)
  }
}
