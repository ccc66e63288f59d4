/** Pedigrees over whole runs of the scheduler: every worker's extension pointer, the
    pointers that stack frames keep for whoever resumes them, and the pedigree frames
    they lead to. Whatever is stolen, a strand sees the pedigrees of the serial elision. */
module PedigreeRuns {
  import opened Options
  import opened ClosureTree
  import opened ClosureInvariant

  type Pid = nat // a pedigree frame
  type Pedigree = seq<nat>
  type Labels = int -> Option<Pedigree> // which updates draw a number, and where

  datatype Draw = Draw(update: int, pedigree: Pedigree)

  // ---------------------------------------------------------------------
  // The serial elision
  // ---------------------------------------------------------------------

  /** By how much `code` raises the rank of the pedigree frame it runs on. */
  function Ticks(code: Code, lab: Labels): nat {
    if code == [] then 0 else
    (match code[0]
     case Update(u) => if lab(u).Some? then 1 else 0
     case Spawn(_) => 1
     case Call(body) => Ticks(body, lab)
     case Sync => 1) + Ticks(code[1..], lab)
  }

  /** The draws of the serial elision, in order, with their pedigrees. */
  function Draws(code: Code, chain: seq<nat>, rank: nat, lab: Labels): seq<Draw> {
    if code == [] then [] else
    match code[0]
    case Update(u) =>
      if lab(u).Some? then [Draw(u, chain + [rank + 1])] + Draws(code[1..], chain, rank + 1, lab)
      else Draws(code[1..], chain, rank, lab)
    case Spawn(body) => Draws(body, chain + [rank], 0, lab) + Draws(code[1..], chain, rank + 1, lab)
    case Call(body) => Draws(body, chain, rank, lab) + Draws(code[1..], chain, rank + Ticks(body, lab), lab)
    case Sync => Draws(code[1..], chain, rank + 1, lab)
  }

  /** The labels of the updates in `code` are the pedigrees of the serial elision. */
  predicate Labelled(code: Code, chain: seq<nat>, rank: nat, lab: Labels) {
    code == [] ||
    match code[0]
    case Update(u) =>
      if lab(u).Some? then lab(u).value == chain + [rank + 1] && Labelled(code[1..], chain, rank + 1, lab)
      else Labelled(code[1..], chain, rank, lab)
    case Spawn(body) => Labelled(body, chain + [rank], 0, lab) && Labelled(code[1..], chain, rank + 1, lab)
    case Call(body) => Labelled(body, chain, rank, lab) && Labelled(code[1..], chain, rank + Ticks(body, lab), lab)
    case Sync => Labelled(code[1..], chain, rank + 1, lab)
  }

  ghost predicate AllLabelled(ds: seq<Draw>, lab: Labels) {
    forall i | 0 <= i < |ds| :: lab(ds[i].update) == Some(ds[i].pedigree)
  }

  lemma AllLabelledAppend(a: seq<Draw>, b: seq<Draw>, lab: Labels)
    ensures AllLabelled(a + b, lab) <==> AllLabelled(a, lab) && AllLabelled(b, lab)
  {
    if AllLabelled(a + b, lab) {
      assert forall i | 0 <= i < |a| :: a[i] == (a + b)[i];
      assert forall i | 0 <= i < |b| :: b[i] == (a + b)[|a| + i];
    }
  }

  /** A labelling is right exactly when it gives every draw of the serial elision its
      pedigree. */
  lemma {:induction false} LabelledIff(code: Code, chain: seq<nat>, rank: nat, lab: Labels)
    ensures Labelled(code, chain, rank, lab) <==> AllLabelled(Draws(code, chain, rank, lab), lab)
  {
    if code != [] {
      match code[0]
      case Update(u) =>
        var tick := if lab(u).Some? then 1 else 0;
        LabelledIff(code[1..], chain, rank + tick, lab);
        AllLabelledAppend([Draw(u, chain + [rank + 1])], Draws(code[1..], chain, rank + tick, lab), lab);
        assert AllLabelled([Draw(u, chain + [rank + 1])], lab) <==> lab(u) == Some(chain + [rank + 1]) by {
          var d := [Draw(u, chain + [rank + 1])];
          assert d[0].update == u && d[0].pedigree == chain + [rank + 1];
        }
      case Spawn(body) =>
        LabelledIff(body, chain + [rank], 0, lab);
        LabelledIff(code[1..], chain, rank + 1, lab);
        AllLabelledAppend(Draws(body, chain + [rank], 0, lab), Draws(code[1..], chain, rank + 1, lab), lab);
      case Call(body) =>
        LabelledIff(body, chain, rank, lab);
        LabelledIff(code[1..], chain, rank + Ticks(body, lab), lab);
        AllLabelledAppend(Draws(body, chain, rank, lab), Draws(code[1..], chain, rank + Ticks(body, lab), lab), lab);
      case Sync =>
        LabelledIff(code[1..], chain, rank + 1, lab);
    }
  }

  ghost predicate AllDraw(lab: Labels) { forall u :: lab(u).Some? }

  function First(ds: seq<Draw>, u: int): Pedigree {
    if ds == [] then [] else if ds[0].update == u then ds[0].pedigree else First(ds[1..], u)
  }

  function Updates(ds: seq<Draw>): seq<int> { seq(|ds|, i requires 0 <= i < |ds| => ds[i].update) }

  lemma {:induction false} FirstIs(ds: seq<Draw>, i: nat)
    requires i < |ds| && forall j, k | 0 <= j < k < |ds| :: ds[j].update != ds[k].update
    ensures First(ds, ds[i].update) == ds[i].pedigree
  {
    if i > 0 {
      assert ds[1..][i - 1] == ds[i] && ds[0].update != ds[i].update;
      FirstIs(ds[1..], i - 1);
    }
  }

  /** If every update draws, the draws depend on nothing else in the labelling. */
  lemma {:induction false} DrawsOfAll(code: Code, chain: seq<nat>, rank: nat, lab: Labels, lab': Labels)
    requires AllDraw(lab) && AllDraw(lab')
    ensures Draws(code, chain, rank, lab) == Draws(code, chain, rank, lab') && Ticks(code, lab) == Ticks(code, lab')
  {
    if code != [] {
      match code[0]
      case Update(u) =>
        DrawsOfAll(code[1..], chain, rank + 1, lab, lab');
      case Spawn(body) =>
        DrawsOfAll(body, chain + [rank], 0, lab, lab');
        DrawsOfAll(code[1..], chain, rank + 1, lab, lab');
      case Call(body) =>
        DrawsOfAll(body, chain, rank, lab, lab');
        DrawsOfAll(code[1..], chain, rank + Ticks(body, lab), lab, lab');
      case Sync =>
        DrawsOfAll(code[1..], chain, rank + 1, lab, lab');
    }
  }

  lemma UpdatesAppend(a: seq<Draw>, b: seq<Draw>)
    ensures Updates(a + b) == Updates(a) + Updates(b)
  {
  }

  /** They are the updates in serial order. */
  lemma {:induction false} DrawsAreUpdates(code: Code, chain: seq<nat>, rank: nat, lab: Labels)
    requires AllDraw(lab)
    ensures Updates(Draws(code, chain, rank, lab)) == Serial(code)
  {
    if code != [] {
      match code[0]
      case Update(u) =>
        DrawsAreUpdates(code[1..], chain, rank + 1, lab);
        UpdatesAppend([Draw(u, chain + [rank + 1])], Draws(code[1..], chain, rank + 1, lab));
      case Spawn(body) =>
        DrawsAreUpdates(body, chain + [rank], 0, lab);
        DrawsAreUpdates(code[1..], chain, rank + 1, lab);
        UpdatesAppend(Draws(body, chain + [rank], 0, lab), Draws(code[1..], chain, rank + 1, lab));
      case Call(body) =>
        DrawsAreUpdates(body, chain, rank, lab);
        DrawsAreUpdates(code[1..], chain, rank + Ticks(body, lab), lab);
        UpdatesAppend(Draws(body, chain, rank, lab), Draws(code[1..], chain, rank + Ticks(body, lab), lab));
      case Sync =>
        DrawsAreUpdates(code[1..], chain, rank + 1, lab);
    }
  }

  function Everywhere(): Labels { _ => Some([]) }

  /** Every update draws, at the pedigree of its first place in the serial elision. */
  function SerialLabels(code: Code): Labels {
    var ds := Draws(code, [], 0, Everywhere());
    u => Some(First(ds, u))
  }

  /** This labelling is right for code whose updates are told apart. */
  lemma SerialLabelsAreRight(code: Code)
    requires forall i, j | 0 <= i < j < |Serial(code)| :: Serial(code)[i] != Serial(code)[j]
    ensures AllLabelled(Draws(code, [], 0, SerialLabels(code)), SerialLabels(code))
  {
    var ds := Draws(code, [], 0, Everywhere());
    DrawsOfAll(code, [], 0, Everywhere(), SerialLabels(code));
    DrawsAreUpdates(code, [], 0, Everywhere());
    forall i | 0 <= i < |ds|
      ensures SerialLabels(code)(ds[i].update) == Some(ds[i].pedigree)
    {
      assert forall k | 0 <= k < |ds| :: ds[k].update == Updates(ds)[k];
      FirstIs(ds, i);
    }
  }

  // ---------------------------------------------------------------------
  // Pedigree frames and the pointers to them
  // ---------------------------------------------------------------------

  /** For the proof: whose strand runs on a pedigree frame. */
  datatype Holder = OnWorker(w: Wid) | AtRest(c: Id)

  datatype Ped = Ped(chain: seq<nat>, rank: nat, holder: Holder)
  type Heap = map<Pid, Ped>

  /** A worker's extension pointer; the extension pointers kept in its stack frames,
      None before the first spawn; and whether a sync has yet to count. */
  datatype WorkerExt = WorkerExt(extension: Pid, saved: seq<Option<Pid>>, owed: bool)

  /** The same for the frames of a suspended closure. */
  datatype ClosureExt = ClosureExt(saved: seq<Option<Pid>>, owed: bool)

  /** `called` is for the proof: the pedigree frame of a called closure, and its rank in
      the serial elision when the call returns. */
  datatype Ext = Ext(
    heap: Heap,
    next: Pid,
    workers: seq<WorkerExt>,
    rest: map<Id, ClosureExt>,
    called: map<Id, (Pid, nat)>)

  function Saved(saved: seq<Option<Pid>>, i: int, default: Pid): Pid {
    if 0 <= i < |saved| && saved[i].Some? then saved[i].value else default
  }

  function Start(nworkers: nat): Ext
    requires nworkers > 0
  {
    Ext(map[0 := Ped([], 0, OnWorker(0))], 1,
        [WorkerExt(0, [Some(0)], false)] + seq(nworkers - 1, i => WorkerExt(0, [], false)), map[], map[])
  }

  /** The rank of a pedigree frame goes up by one. */
  function Ticked(heap: Heap, p: Pid): Heap {
    if p in heap then heap[p := heap[p].(rank := heap[p].rank + 1)] else heap
  }

  function Held(heap: Heap, p: Pid, holder: Holder): Heap {
    if p in heap then heap[p := heap[p].(holder := holder)] else heap
  }

  function RankOf(heap: Heap, p: Pid): nat { if p in heap then heap[p].rank else 0 }
  function ChainOf(heap: Heap, p: Pid): seq<nat> { if p in heap then heap[p].chain else [] }

  // ---------------------------------------------------------------------
  // Steps
  // ---------------------------------------------------------------------

  /** User code: a draw and a sync raise the rank; a spawn makes a pedigree frame and
      leaves the parent's in the stack frame; a return from a spawn goes back to it. */
  function ExecExt(x: Ext, s: State, w: Wid, lab: Labels): Ext
    requires Enabled(s, Exec(w)) && w < |x.workers|
  {
    var k, y := s.workers[w], x.workers[w];
    var n := |k.stack| - 1;
    var p := y.extension;
    var rest := k.stack[n].rest;
    if |y.saved| != |k.stack| then x
    else if rest == [] then
      x.(workers := x.workers[w := y.(extension := if k.stack[n].spawned then Saved(y.saved, n - 1, p) else p,
                                      saved := y.saved[..n])])
    else
    match rest[0]
    case Update(u) => x.(heap := if lab(u).Some? then Ticked(x.heap, p) else x.heap)
    case Spawn(_) =>
      var child := Ped(ChainOf(x.heap, p) + [RankOf(x.heap, p)], 0, OnWorker(w));
      x.(heap := Ticked(x.heap, p)[x.next := child], next := x.next + 1,
         workers := x.workers[w := y.(extension := x.next, saved := y.saved[n := Some(p)] + [None])])
    case Call(_) => x.(workers := x.workers[w := y.(saved := y.saved + [None])])
    case Sync => x.(heap := Ticked(x.heap, p))
  }

  /** A steal: the thief gets the stolen frame with the pointer kept in it. */
  function StealExt(x: Ext, s: State, thief: Wid, victim: Wid, head: nat, lab: Labels): Ext
    requires Enabled(s, Steal(thief, victim, head)) && thief < |x.workers| && victim < |x.workers|
  {
    var v, y := s.workers[victim], x.workers[victim];
    if |y.saved| != |v.stack| then x else
    var p := Saved(y.saved, head, y.extension);
    var final := RankOf(x.heap, p) + Ticks(v.stack[head].rest, lab);
    x.(heap := Held(x.heap, p, OnWorker(thief)),
       workers := x.workers[thief := x.workers[thief].(saved := y.saved[head..head + 1], owed := false)]
                  [victim := y.(saved := y.saved[head + 1..])],
       rest := if head == 0 then x.rest else x.rest[v.closure := ClosureExt(y.saved[..head], false)],
       called := if head == 0 then x.called else x.called[s.next := (p, final)])
  }

  /** longjmp_to_user_code: a thief loads the extension from the stolen frame. */
  function EnterExt(x: Ext, s: State, w: Wid): Ext
    requires w < |s.workers| && w < |x.workers|
  {
    var y := x.workers[w];
    if s.workers[w].phase == Entering(false)
    then x.(workers := x.workers[w := y.(extension := Saved(y.saved, 0, y.extension))])
    else x
  }

  /** Cilk_sync, with the reload of setup_for_sync. */
  function SyncExt(x: Ext, s: State, w: Wid): Ext
    requires Enabled(s, SyncStep(w)) && w < |x.workers|
  {
    var k, y := s.workers[w], x.workers[w];
    var p := Saved(y.saved, 0, y.extension);
    var explicit := k.stack[0].rest != [];
    if s.closures[k.closure].HasChildren() then
      x.(heap := Held(x.heap, p, AtRest(k.closure)),
         workers := x.workers[w := WorkerExt(y.extension, [], false)],
         rest := x.rest[k.closure := ClosureExt(y.saved, explicit)])
    else x.(workers := x.workers[w := y.(extension := p, owed := explicit)])
  }

  /** After the reductions the sync counts: __cilkrts_extend_sync. */
  function ReduceExt(x: Ext, w: Wid): Ext
    requires w < |x.workers|
  {
    var y := x.workers[w];
    x.(heap := if y.owed then Ticked(x.heap, y.extension) else x.heap,
       workers := x.workers[w := y.(owed := false)])
  }

  /** __cilkrts_leave_frame_helper: the worker goes back to the extension of the parent
      frame, which has been stolen. */
  function BeginReturnExt(x: Ext, s: State, w: Wid): Ext
    requires Enabled(s, BeginReturn(w)) && w < |x.workers|
  {
    var p, y := s.closures[s.workers[w].closure].spawnParent.value, x.workers[w];
    var saved :=
      if p in s.closures && s.closures[p].runner.Some? && s.closures[p].runner.value < |x.workers|
      then x.workers[s.closures[p].runner.value].saved
      else if p in x.rest then x.rest[p].saved else [];
    x.(workers := x.workers[w := y.(extension := Saved(saved, 0, y.extension))])
  }

  /** Closure_return; a provably good steal reloads the extension in setup_for_sync. */
  function ReturnExt(x: Ext, s: State, w: Wid): Ext
    requires Enabled(s, Return(w)) && w < |x.workers|
  {
    var c := s.workers[w].closure;
    var p := s.closures[c].spawnParent.value;
    var j := IndexOf(s.closures[p].children, c);
    var y := x.workers[w];
    if LeftMap(s, p, j) != [] || s.closures[c].rightHt != [] then x
    else if DoReturn(s, w).workers[w] == IDLE || p !in x.rest then
      x.(workers := x.workers[w := WorkerExt(y.extension, [], false)])
    else
      var q := Saved(x.rest[p].saved, 0, y.extension);
      x.(heap := Held(x.heap, q, OnWorker(w)),
         workers := x.workers[w := WorkerExt(q, x.rest[p].saved, x.rest[p].owed)])
  }

  /** __cilkrts_set_return: the worker keeps its extension. */
  function CallReturnExt(x: Ext, s: State, w: Wid): Ext
    requires Enabled(s, CallReturn(w)) && w < |x.workers|
  {
    var p := s.closures[s.workers[w].closure].callParent.value;
    if p in x.rest then x.(workers := x.workers[w := x.workers[w].(saved := x.rest[p].saved)]) else x
  }

  function Follow(x: Ext, s: State, step: Step, lab: Labels): Ext
    requires Enabled(s, step) && |x.workers| == |s.workers|
  {
    match step
    case Exec(w) => ExecExt(x, s, w, lab)
    case Steal(thief, victim, head) => StealExt(x, s, thief, victim, head, lab)
    case Enter(w) => EnterExt(x, s, w)
    case SyncStep(w) => SyncExt(x, s, w)
    case Reduce(w) => ReduceExt(x, w)
    case BeginReturn(w) => BeginReturnExt(x, s, w)
    case Return(w) => ReturnExt(x, s, w)
    case CallReturn(w) => CallReturnExt(x, s, w)
    case Finish(w) => x
  }

  ghost predicate Leads(x: Ext, s: State, steps: seq<Step>, y: Ext, t: State, lab: Labels)
    decreases |steps|
  {
    if steps == [] then x == y && s == t
    else
      && Enabled(s, steps[0]) && |x.workers| == |s.workers|
      && Leads(Follow(x, s, steps[0], lab), Apply(s, steps[0]), steps[1..], y, t, lab)
  }

  // ---------------------------------------------------------------------
  // The invariant
  // ---------------------------------------------------------------------

  /** The top frame of `stack` runs on the pedigree frame `cur` at `rank`, and every
      frame's code draws at its labels. Below a spawned frame the pointer kept in the
      parent leads to an older pedigree frame; a called frame shares its caller's.
      `who` holds the pedigree frames that have rank to come, all above `low`, and the
      bottom frame ends on the pedigree frame and the rank of `bottom`. */
  ghost predicate StackOk(h: Heap, stack: seq<Frame>, saved: seq<Option<Pid>>, cur: Pid, rank: nat,
                          who: Option<Holder>, bottom: Option<(Pid, nat)>, low: int, lab: Labels)
    decreases |stack|
  {
    && |saved| == |stack|
    && (stack == [] ||
        var n := |stack| - 1;
        && cur in h && low < cur && (who.Some? ==> h[cur].holder == who.value)
        && Labelled(stack[n].rest, h[cur].chain, rank, lab)
        && (saved[n].Some? ==> saved[n].value == cur)
        && if n == 0 then bottom.Some? ==> bottom.value == (cur, rank + Ticks(stack[n].rest, lab))
           else if stack[n].spawned then
             && saved[n - 1].Some? && saved[n - 1].value < cur && saved[n - 1].value in h
             && StackOk(h, stack[..n], saved[..n], saved[n - 1].value, h[saved[n - 1].value].rank, who, bottom, low, lab)
           else StackOk(h, stack[..n], saved[..n], cur, rank + Ticks(stack[n].rest, lab), who, bottom, low, lab))
  }

  /** No frame but the bottom one was spawned. */
  ghost predicate Uncut(stack: seq<Frame>) { forall j | 0 < j < |stack| :: !stack[j].spawned }

  /** The spawned function of the closure has nothing left to do. */
  predicate Done(k: Worker, cl: Closure) {
    |k.stack| == 1 && k.stack[0].rest == [] && !cl.unsynced && cl.spawnParent.Some?
  }

  /** A thief has yet to load the pointer. */
  function Current(k: Worker, y: WorkerExt): Pid {
    if k.phase == Entering(false) then Saved(y.saved, 0, y.extension) else y.extension
  }

  function Bottom(x: Ext, s: State, c: Id): Option<(Pid, nat)> {
    if c in s.closures && s.closures[c].callParent.Some? && c in x.called then Some(x.called[c]) else None
  }

  function Owed(owed: bool): nat { if owed then 1 else 0 }

  ghost predicate WorkerExtOk(x: Ext, s: State, w: Wid, lab: Labels)
    requires w < |s.workers| == |x.workers|
  {
    var k, y := s.workers[w], x.workers[w];
    k.phase.Stealing? ||
    (&& k.closure in s.closures && |y.saved| == |k.stack|
     && (y.owed ==> k.phase == Entering(true) || k.phase == User(true))
     && if Done(k, s.closures[k.closure]) then y.owed ==> y.extension in x.heap && x.heap[y.extension].holder == OnWorker(w)
        else
          var cur := Current(k, y);
          && k.stack != [] && cur in x.heap
          && (k.phase == Entering(false) || s.closures[k.closure].unsynced ==> y.saved[0].Some?)
          && StackOk(x.heap, k.stack, y.saved, cur, x.heap[cur].rank + Owed(y.owed), Some(OnWorker(w)),
                     Bottom(x, s, k.closure), -1, lab))
  }

  ghost predicate ClosureExtOk(x: Ext, s: State, c: Id, lab: Labels)
    requires c in s.closures
  {
    var cl := s.closures[c];
    && (cl.callParent.Some? ==> c in x.called)
    && (cl.runner.None? ==>
          && c in x.rest && cl.frames != [] && Uncut(cl.frames)
          && var y := x.rest[c];
          && |y.saved| == |cl.frames| && (cl.unsynced ==> y.saved[0].Some?)
          && if cl.callee.Some? then
               && !y.owed && cl.callee.value in x.called
               && var (p, final) := x.called[cl.callee.value];
                  StackOk(x.heap, cl.frames, y.saved, p, final, None, Bottom(x, s, c), -1, lab)
             else
               && y.saved[0].Some? && y.saved[0].value in x.heap
               && StackOk(x.heap, cl.frames, y.saved, y.saved[0].value, x.heap[y.saved[0].value].rank + Owed(y.owed),
                          Some(AtRest(c)), Bottom(x, s, c), -1, lab))
  }

  ghost predicate ExtInv(x: Ext, s: State, lab: Labels) {
    && |x.workers| == |s.workers| && (forall p | p in x.heap :: p < x.next)
    && (forall c | c in x.called :: c < s.next)
    && (forall w {:trigger WorkerExtOk(x, s, w, lab)} | 0 <= w < |s.workers| :: WorkerExtOk(x, s, w, lab))
    && (forall c {:trigger ClosureExtOk(x, s, c, lab)} | c in s.closures :: ClosureExtOk(x, s, c, lab))
  }

  // ---------------------------------------------------------------------
  // Stacks
  // ---------------------------------------------------------------------

  /** A stack keeps its pedigrees if the heap keeps the frames below `cur` that `who`
      holds, and all chains. */
  lemma {:induction false} StackKept(h: Heap, h': Heap, stack: seq<Frame>, saved: seq<Option<Pid>>, cur: Pid, rank: nat,
                                     who: Holder, bottom: Option<(Pid, nat)>, low: int, low': int, lab: Labels)
    requires StackOk(h, stack, saved, cur, rank, Some(who), bottom, low, lab) && low' <= low
    requires stack != [] ==> cur in h' && h'[cur].chain == h[cur].chain && h'[cur].holder == who
    requires forall p | p in h && low < p < cur && h[p].holder == who :: p in h' && h'[p] == h[p]
    ensures StackOk(h', stack, saved, cur, rank, Some(who), bottom, low', lab)
    decreases |stack|
  {
    var n := |stack| - 1;
    if n > 0 {
      if stack[n].spawned {
        var q := saved[n - 1].value;
        StackKept(h, h', stack[..n], saved[..n], q, h[q].rank, who, bottom, low, low', lab);
      } else {
        StackKept(h, h', stack[..n], saved[..n], cur, rank + Ticks(stack[n].rest, lab), who, bottom, low, low', lab);
      }
    }
  }

  /** An uncut stack runs on one pedigree frame, and depends on its chain alone. */
  lemma {:induction false} UncutKept(h: Heap, h': Heap, stack: seq<Frame>, saved: seq<Option<Pid>>, cur: Pid, rank: nat,
                                     who: Option<Holder>, who': Option<Holder>, bottom: Option<(Pid, nat)>,
                                     low: int, low': int, lab: Labels)
    requires Uncut(stack) && StackOk(h, stack, saved, cur, rank, who, bottom, low, lab) && low' < cur
    requires stack != [] ==> cur in h' && h'[cur].chain == h[cur].chain && (who'.Some? ==> h'[cur].holder == who'.value)
    ensures StackOk(h', stack, saved, cur, rank, who', bottom, low', lab)
    decreases |stack|
  {
    var n := |stack| - 1;
    if n > 0 {
      UncutKept(h, h', stack[..n], saved[..n], cur, rank + Ticks(stack[n].rest, lab), who, who', bottom, low, low', lab);
    }
  }

  /** An uncut stack's bottom frame runs on `cur` as well. */
  lemma {:induction false} UncutSaved(h: Heap, stack: seq<Frame>, saved: seq<Option<Pid>>, cur: Pid, rank: nat,
                                      who: Option<Holder>, bottom: Option<(Pid, nat)>, low: int, lab: Labels)
    requires Uncut(stack) && StackOk(h, stack, saved, cur, rank, who, bottom, low, lab) && stack != []
    ensures saved[0].Some? ==> saved[0].value == cur
    decreases |stack|
  {
    var n := |stack| - 1;
    if n > 0 {
      UncutSaved(h, stack[..n], saved[..n], cur, rank + Ticks(stack[n].rest, lab), who, bottom, low, lab);
    }
  }

  /** A stack can be cut below a spawned frame. */
  lemma {:induction false} StackSplit(h: Heap, stack: seq<Frame>, saved: seq<Option<Pid>>, cur: Pid, rank: nat,
                                      who: Option<Holder>, bottom: Option<(Pid, nat)>, low: int, i: nat, lab: Labels)
    requires StackOk(h, stack, saved, cur, rank, who, bottom, low, lab)
    requires 0 < i < |stack| && stack[i].spawned
    ensures saved[i - 1].Some? && saved[i - 1].value in h
    ensures var q := saved[i - 1].value;
      && low < q < cur
      && StackOk(h, stack[..i], saved[..i], q, h[q].rank, who, bottom, low, lab)
      && StackOk(h, stack[i..], saved[i..], cur, rank, who, None, q, lab)
    decreases |stack|
  {
    var n := |stack| - 1;
    if i < n {
      var p, r := if stack[n].spawned then saved[n - 1].value else cur,
                  if stack[n].spawned then h[saved[n - 1].value].rank else rank + Ticks(stack[n].rest, lab);
      StackSplit(h, stack[..n], saved[..n], p, r, who, bottom, low, i, lab);
      assert stack[..n][..i] == stack[..i] && saved[..n][..i] == saved[..i];
      assert stack[..n][i..] == stack[i..][..n - i] && saved[..n][i..] == saved[i..][..n - i];
    } else {
      assert stack[i..] == [stack[i]] && saved[i..] == [saved[i]];
    }
  }
}
