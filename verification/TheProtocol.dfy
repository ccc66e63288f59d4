/** The T, H, E protocol between one victim and any number of thieves, as
    sequentially consistent steps: each load and each store of tail, head or exc
    is a step of its own.

    Indices count from the start of the victim's shadow stack.  Every frame that
    the victim pushes gets a ticket, and `claims` records who took it.
 */
module TheProtocol {
  type Ticket = nat

  datatype Claim = ByVictim | ByThief(thief: nat)

  datatype VictimPc =
    | Running                // user code
    | Pushing                // detach: *tail is written, tail is not yet stored
    | Popped                 // leave_frame_helper: tail is stored, exc is not yet loaded
    | Slow                   // exc > tail was seen: waiting for the busy lock
    | Handling               // exception handler, with the lock and exc reset
    | Lost                   // head > tail was seen under the lock
    | Won                    // a false alarm: about to release the lock
    | Away                   // in the scheduler, without a busy closure
    | ResetHead              // setup_for_execution, after the store of head
    | ResetExc               // ... and after the store of exc
    | Ready                  // ... and after the store of tail

  datatype ThiefPc =
    | Locked                 // has the busy lock
    | Raised                 // exc is incremented
    | HasHead(h: int)        // head is loaded
    | Failed                 // head >= tail was seen
    | Passed(h: int)         // head < tail was seen
    | Done                   // about to release the lock

  datatype Lock = Free | Victim | Thief(id: nat, pc: ThiefPc)

  datatype State = State(
    slots: seq<Ticket>,
    head: int,
    tail: int,
    exc: int,
    lock: Lock,
    pc: VictimPc,
    busy: bool,
    pushed: nat,
    claims: map<Ticket, Claim>)

  function Init(limit: nat): State {
    State(seq(limit, i => 0), 0, 0, 0, Free, Running, true, 0, map[])
  }

  datatype Step =
    // The victim
    | WriteSlot | StoreTail
    | DecrementTail | LoadExc | LockForHandler | CompareHeadTail | UnlockWon
    | LeaveDeque | SuspendAtTop
    | StoreHead | StoreExc | ResetTail | SetBusy
    // Thief `j`
    | TryLock(j: nat) | GiveUp | IncrementExc | LoadHead | LoadTail | DecrementExc | TakeHead | Unlock

  predicate ThiefAt(s: State, pc: ThiefPc) { s.lock.Thief? && s.lock.pc == pc }

  predicate Enabled(s: State, step: Step) {
    match step
    case WriteSlot => s.pc == Running && 0 <= s.tail && s.tail + 1 < |s.slots|
    case StoreTail => s.pc == Pushing
    case DecrementTail => s.pc == Running
    case LoadExc => s.pc == Popped
    case LockForHandler => s.pc == Slow && s.lock == Free
    case CompareHeadTail => s.pc == Handling
    case UnlockWon => s.pc == Won
    case LeaveDeque => s.pc == Lost
    case SuspendAtTop => s.pc == Running && s.lock == Free && s.head == s.tail
    case StoreHead => s.pc == Away
    case StoreExc => s.pc == ResetHead
    case ResetTail => s.pc == ResetExc
    case SetBusy => s.pc == Ready && s.lock == Free
    case TryLock(j) => s.lock == Free
    case GiveUp => ThiefAt(s, Locked)
    case IncrementExc => ThiefAt(s, Locked) && s.busy
    case LoadHead => ThiefAt(s, Raised)
    case LoadTail => s.lock.Thief? && s.lock.pc.HasHead?
    case DecrementExc => ThiefAt(s, Failed)
    case TakeHead => s.lock.Thief? && s.lock.pc.Passed? && 0 <= s.lock.pc.h < |s.slots|
    case Unlock => ThiefAt(s, Done)
  }

  function Apply(s: State, step: Step): State
    requires Enabled(s, step)
  {
    match step
    // __cilkrts_detach
    case WriteSlot => s.(slots := s.slots[s.tail := s.pushed], pc := Pushing)
    case StoreTail => s.(tail := s.tail + 1, pushed := s.pushed + 1, pc := Running)
    // __cilkrts_leave_frame_helper
    case DecrementTail => s.(tail := s.tail - 1, pc := Popped)
    case LoadExc =>
      if s.exc > s.tail then s.(pc := Slow)
      else if 0 <= s.tail < |s.slots| then s.(pc := Running, claims := s.claims[s.slots[s.tail] := ByVictim])
      else s
    // __cilkrts_exception_handler
    case LockForHandler => s.(lock := Victim, exc := s.head, pc := Handling)
    case CompareHeadTail =>
      if s.head > s.tail then s.(pc := Lost)
      else if 0 <= s.tail < |s.slots| then s.(pc := Won, claims := s.claims[s.slots[s.tail] := ByVictim])
      else s
    case UnlockWon => s.(lock := Free, pc := Running)
    case LeaveDeque => s.(lock := Free, busy := false, pc := Away)
    // Cilk_sync with children outstanding
    case SuspendAtTop => s.(busy := false, pc := Away)
    // setup_for_execution, then do_what_it_says
    case StoreHead => s.(head := 0, pc := ResetHead)
    case StoreExc => s.(exc := 0, pc := ResetExc)
    case ResetTail => s.(tail := 0, pc := Ready)
    case SetBusy => s.(busy := true, pc := Running)
    // Closure_steal, do_dekker_on and promote_child
    case TryLock(j) => s.(lock := Thief(j, Locked))
    case GiveUp => s.(lock := Thief(s.lock.id, Done))
    case IncrementExc => s.(exc := s.exc + 1, lock := Thief(s.lock.id, Raised))
    case LoadHead => s.(lock := Thief(s.lock.id, HasHead(s.head)))
    case LoadTail => s.(lock := Thief(s.lock.id, if s.lock.pc.h >= s.tail then Failed else Passed(s.lock.pc.h)))
    case DecrementExc => s.(exc := s.exc - 1, lock := Thief(s.lock.id, Done))
    case TakeHead =>
      s.(head := s.lock.pc.h + 1, lock := Thief(s.lock.id, Done),
         claims := s.claims[s.slots[s.lock.pc.h] := ByThief(s.lock.id)])
    case Unlock => s.(lock := Free)
  }

  ghost predicate Reaches(s: State, steps: seq<Step>, t: State)
    decreases |steps|
  {
    if steps == [] then s == t
    else Enabled(s, steps[0]) && Reaches(Apply(s, steps[0]), steps[1..], t)
  }

  // ---------------------------------------------------------------------
  // The invariant
  // ---------------------------------------------------------------------

  /** The victim has decremented tail, and who gets the frame at `tail` is open. */
  predicate Contested(pc: VictimPc) { pc in {Popped, Slow, Handling, Lost} }

  predicate OffDeque(pc: VictimPc) { pc in {Away, ResetHead, ResetExc, Ready} }

  /** The unclaimed frames are those at `head` up to, but not including, `Top`. */
  function Top(s: State): int {
    if Contested(s.pc) then s.tail + 1 else s.tail
  }

  predicate Live(s: State, i: int) {
    !OffDeque(s.pc) && s.head <= i < Top(s) && 0 <= i < |s.slots|
  }

  predicate PointersOk(s: State) {
    && (s.busy <==> !OffDeque(s.pc))
    && (s.pc in {Handling, Lost, Won} <==> s.lock == Victim)
    && (s.pc == Pushing ==> 0 <= s.tail && s.tail + 1 < |s.slots|)
    && (s.busy ==> 0 <= s.head <= Top(s) && s.tail <= |s.slots| && Top(s) <= |s.slots|)
    && (s.pc == Lost ==> s.head == Top(s))
    && (s.lock.Thief? && s.lock.pc != Locked && s.lock.pc != Done ==> s.busy)
    && (s.busy ==> s.exc == if s.lock.Thief? && s.lock.pc != Locked && s.lock.pc != Done then s.head + 1 else s.head)
    && (s.lock.Thief? && s.lock.pc.HasHead? ==> s.lock.pc.h == s.head)
    && (s.lock.Thief? && s.lock.pc.Passed? ==> s.lock.pc.h == s.head && Live(s, s.head))
    && (s.pc == ResetHead || s.pc == ResetExc || s.pc == Ready ==> s.head == 0)
    && (s.pc == ResetExc || s.pc == Ready ==> s.exc == 0)
    && (s.pc == Ready ==> s.tail == 0)
  }

  ghost predicate TicketsOk(s: State) {
    && (s.pc == Pushing && 0 <= s.tail < |s.slots| ==> s.slots[s.tail] == s.pushed)
    && (forall i | Live(s, i) :: s.slots[i] < s.pushed && s.slots[i] !in s.claims)
    && (forall i, j | Live(s, i) && Live(s, j) && i != j :: s.slots[i] != s.slots[j])
    && (forall t | t in s.claims :: t < s.pushed)
    && (forall t: Ticket | t < s.pushed :: t in s.claims || exists i :: Live(s, i) && s.slots[i] == t)
  }

  ghost predicate Inv(s: State) { PointersOk(s) && TicketsOk(s) }

  predicate ThiefStep(step: Step) {
    step.TryLock? || step in {GiveUp, IncrementExc, LoadHead, LoadTail, DecrementExc, TakeHead, Unlock}
  }

  /** The victim's steps out of user code and back into it. */
  predicate AwayStep(step: Step) { step in {LeaveDeque, SuspendAtTop, StoreHead, StoreExc, ResetTail, SetBusy} }

  lemma ThiefStepKeepsPointers(s: State, step: Step)
    requires PointersOk(s) && Enabled(s, step) && ThiefStep(step)
    ensures PointersOk(Apply(s, step))
  {
  }

  lemma AwayStepKeepsPointers(s: State, step: Step)
    requires PointersOk(s) && Enabled(s, step) && AwayStep(step)
    ensures PointersOk(Apply(s, step))
  {
  }

  lemma DequeStepKeepsPointers(s: State, step: Step)
    requires PointersOk(s) && Enabled(s, step) && !ThiefStep(step) && !AwayStep(step)
    ensures PointersOk(Apply(s, step))
  {
  }

  lemma StepKeepsPointers(s: State, step: Step)
    requires PointersOk(s) && Enabled(s, step)
    ensures PointersOk(Apply(s, step))
  {
    if ThiefStep(step) {
      ThiefStepKeepsPointers(s, step);
    } else if AwayStep(step) {
      AwayStepKeepsPointers(s, step);
    } else {
      DequeStepKeepsPointers(s, step);
    }
  }

  /** A step that claims nothing and pushes nothing. */
  lemma QuietStepKeepsTickets(s: State, u: State)
    requires TicketsOk(s) && u.claims == s.claims && u.pushed == s.pushed
    requires forall i :: Live(u, i) <==> Live(s, i)
    requires forall i | Live(s, i) :: i < |u.slots| && u.slots[i] == s.slots[i]
    requires u.pc == Pushing && 0 <= u.tail < |u.slots| ==> u.slots[u.tail] == u.pushed
    ensures TicketsOk(u)
  {
    forall t: Ticket | t < u.pushed
      ensures t in u.claims || exists i :: Live(u, i) && u.slots[i] == t
    {
      if t !in s.claims {
        var i :| Live(s, i) && s.slots[i] == t;
        assert Live(u, i);
      }
    }
  }

  /** A step that claims the live frame at `k` for `who`. */
  lemma ClaimStepKeepsTickets(s: State, u: State, k: int, who: Claim)
    requires TicketsOk(s) && Live(s, k) && u.slots == s.slots && u.pushed == s.pushed
    requires u.pc == Pushing && 0 <= u.tail < |u.slots| ==> u.slots[u.tail] == u.pushed
    requires u.claims == s.claims[s.slots[k] := who]
    requires forall i :: Live(u, i) <==> Live(s, i) && i != k
    ensures TicketsOk(u)
  {
    forall t: Ticket | t < u.pushed
      ensures t in u.claims || exists i :: Live(u, i) && u.slots[i] == t
    {
      if t !in u.claims {
        var i :| Live(s, i) && s.slots[i] == t;
        assert Live(u, i);
      }
    }
  }

  lemma PushKeepsTickets(s: State)
    requires Inv(s) && Enabled(s, StoreTail)
    ensures TicketsOk(Apply(s, StoreTail))
  {
    var u := Apply(s, StoreTail);
    assert forall i :: Live(u, i) <==> Live(s, i) || i == s.tail;
    forall t: Ticket | t < u.pushed
      ensures t in u.claims || exists i :: Live(u, i) && u.slots[i] == t
    {
      if t == s.pushed {
        assert Live(u, s.tail);
      } else if t !in s.claims {
        var i :| Live(s, i) && s.slots[i] == t;
        assert Live(u, i);
      }
    }
  }

  /** The steps that claim a frame: a pop, or a thief's store of head. */
  predicate Claims(s: State, step: Step) {
    (step == LoadExc && s.exc <= s.tail) || (step == CompareHeadTail && s.head <= s.tail) || step == TakeHead
  }

  lemma ClaimKeepsTickets(s: State, step: Step)
    requires Inv(s) && Enabled(s, step) && Claims(s, step)
    ensures TicketsOk(Apply(s, step))
  {
    if step == TakeHead {
      ClaimStepKeepsTickets(s, Apply(s, step), s.head, ByThief(s.lock.id));
    } else {
      ClaimStepKeepsTickets(s, Apply(s, step), s.tail, ByVictim);
    }
  }

  lemma ThiefStepKeepsTickets(s: State, step: Step)
    requires Inv(s) && Enabled(s, step) && ThiefStep(step) && !Claims(s, step)
    ensures TicketsOk(Apply(s, step))
  {
    QuietStepKeepsTickets(s, Apply(s, step));
  }

  lemma DequeStepKeepsTickets(s: State, step: Step)
    requires Inv(s) && Enabled(s, step) && !Claims(s, step)
    requires step in {WriteSlot, DecrementTail, LoadExc, LockForHandler, CompareHeadTail, UnlockWon}
    ensures TicketsOk(Apply(s, step))
  {
    QuietStepKeepsTickets(s, Apply(s, step));
  }

  lemma AwayStepKeepsTickets(s: State, step: Step)
    requires Inv(s) && Enabled(s, step) && AwayStep(step)
    ensures TicketsOk(Apply(s, step))
  {
    QuietStepKeepsTickets(s, Apply(s, step));
  }

  lemma StepKeepsTickets(s: State, step: Step)
    requires Inv(s) && Enabled(s, step)
    ensures TicketsOk(Apply(s, step))
  {
    if step == StoreTail {
      PushKeepsTickets(s);
    } else if Claims(s, step) {
      ClaimKeepsTickets(s, step);
    } else if ThiefStep(step) {
      ThiefStepKeepsTickets(s, step);
    } else if AwayStep(step) {
      AwayStepKeepsTickets(s, step);
    } else {
      DequeStepKeepsTickets(s, step);
    }
  }

  // ---------------------------------------------------------------------
  // Results
  // ---------------------------------------------------------------------

  lemma {:induction false} RunKeepsInv(s: State, steps: seq<Step>, t: State)
    requires Inv(s) && Reaches(s, steps, t)
    ensures Inv(t)
    decreases |steps|
  {
    if steps != [] {
      StepKeepsPointers(s, steps[0]);
      StepKeepsTickets(s, steps[0]);
      RunKeepsInv(Apply(s, steps[0]), steps[1..], t);
    }
  }

  lemma ReachableInv(limit: nat, steps: seq<Step>, t: State)
    requires Reaches(Init(limit), steps, t)
    ensures Inv(t)
  {
    RunKeepsInv(Init(limit), steps, t);
  }

  /** No frame is claimed twice: once claimed, a frame keeps its claim, and each
      step adds at most one claim, of a frame that had none. */
  lemma ClaimsAreFinal(s: State, step: Step)
    requires Inv(s) && Enabled(s, step)
    ensures var u := Apply(s, step);
      && (forall t | t in s.claims :: t in u.claims && u.claims[t] == s.claims[t])
      && (forall t, t' | t in u.claims && t' in u.claims && t !in s.claims && t' !in s.claims :: t == t')
  {
    assert step == LoadExc && s.exc <= s.tail ==> Live(s, s.tail);
    assert step == CompareHeadTail && s.head <= s.tail ==> Live(s, s.tail);
    assert step == TakeHead ==> Live(s, s.head);
  }

  lemma {:induction false} ClaimsAreFinalOverRuns(s: State, steps: seq<Step>, u: State)
    requires Inv(s) && Reaches(s, steps, u)
    ensures forall t | t in s.claims :: t in u.claims && u.claims[t] == s.claims[t]
    decreases |steps|
  {
    if steps != [] {
      ClaimsAreFinal(s, steps[0]);
      StepKeepsPointers(s, steps[0]);
      StepKeepsTickets(s, steps[0]);
      ClaimsAreFinalOverRuns(Apply(s, steps[0]), steps[1..], u);
    }
  }

  /** No frame is lost: in every reachable state each pushed frame is either
      claimed or still in the deque, never both, and the deque is empty whenever
      the victim is off it. */
  lemma EveryFrameClaimedOrLive(limit: nat, steps: seq<Step>, s: State, t: Ticket)
    requires Reaches(Init(limit), steps, s) && t < s.pushed
    ensures t in s.claims <==> !exists i :: Live(s, i) && s.slots[i] == t
    ensures OffDeque(s.pc) || s.pc == Lost ==> t in s.claims
  {
    ReachableInv(limit, steps, s);
  }

  /** With the busy lock free, exc == head. */
  lemma ExcIsHeadWhenFree(limit: nat, steps: seq<Step>, s: State)
    requires Reaches(Init(limit), steps, s) && s.busy && s.lock == Free
    ensures s.exc == s.head
  {
    ReachableInv(limit, steps, s);
  }

  /** Between a thief's successful test and its store of head, no step of the
      victim touches the slot at head, claims the frame in it, or lets go of the
      deque; only that thief's TakeHead moves on, and it takes that frame. */
  lemma ReservedSlot(s: State, step: Step)
    requires Inv(s) && Enabled(s, step) && s.lock.Thief? && s.lock.pc.Passed?
    ensures var u := Apply(s, step); var h := s.lock.pc.h;
      && h == s.head && 0 <= h < |s.slots| == |u.slots| && u.slots[h] == s.slots[h] && s.slots[h] !in s.claims
      && if step == TakeHead
         then u.head == h + 1 && u.claims[s.slots[h]] == ByThief(s.lock.id)
         else u.head == h && u.lock == s.lock && s.slots[h] !in u.claims && u.busy
  {
    assert Live(s, s.head);
  }

  /** The victim loses only frames that a thief has: when the exception handler
      finds head > tail, the frame it popped was claimed by a thief or was never
      pushed on this deque. */
  lemma LostOnlyToThief(s: State, t: Ticket)
    requires Inv(s) && Enabled(s, CompareHeadTail) && s.head > s.tail && t < s.pushed
    ensures t in s.claims
  {
  }

  // ---------------------------------------------------------------------
  // Steals and pops succeed
  // ---------------------------------------------------------------------

  predicate Leads(s: State, step: Step, t: State) { Enabled(s, step) && Apply(s, step) == t }

  lemma ThreeSteps(s: State, a: Step, s1: State, b: Step, s2: State, c: Step, s3: State, rest: seq<Step>, t: State)
    requires Leads(s, a, s1) && Leads(s1, b, s2) && Leads(s2, c, s3) && Reaches(s3, rest, t)
    ensures Reaches(s, [a, b, c] + rest, t)
  {
    var steps := [a, b, c] + rest;
    assert steps[1..][1..][1..] == rest;
    assert Reaches(s2, steps[1..][1..], t);
    assert Reaches(s1, steps[1..], t);
  }

  function StealSteps(j: nat): seq<Step> { [TryLock(j), IncrementExc, LoadHead, LoadTail, TakeHead, Unlock] }

  /** A thief that meets no other step takes the frame at head, if the deque has one: each
      of its steps is enabled after the one before, and it ends with the lock released. */
  lemma StealSucceeds(s: State, j: nat) returns (t: State)
    requires Inv(s) && s.lock == Free && s.busy && s.head < s.tail
    ensures Reaches(s, StealSteps(j), t) && 0 <= s.head < |s.slots|
    ensures t == s.(head := s.head + 1, exc := s.exc + 1, claims := s.claims[s.slots[s.head] := ByThief(j)])
  {
    var s1 := s.(lock := Thief(j, Locked));
    var s2 := s1.(exc := s.exc + 1, lock := Thief(j, Raised));
    var s3 := s2.(lock := Thief(j, HasHead(s.head)));
    t := TakesWhatItSees(s3);
    ThreeSteps(s, TryLock(j), s1, IncrementExc, s2, LoadHead, s3, [LoadTail, TakeHead, Unlock], t);
    assert StealSteps(j) == [TryLock(j), IncrementExc, LoadHead] + [LoadTail, TakeHead, Unlock];
  }

  /** The second half of a steal. */
  lemma TakesWhatItSees(s: State) returns (t: State)
    requires s.lock.Thief? && s.lock.pc == HasHead(s.head) && 0 <= s.head < s.tail <= |s.slots|
    ensures Reaches(s, [LoadTail, TakeHead, Unlock], t)
    ensures t == s.(head := s.head + 1, lock := Free, claims := s.claims[s.slots[s.head] := ByThief(s.lock.id)])
  {
    var j, h := s.lock.id, s.head;
    var s1 := s.(lock := Thief(j, Passed(h)));
    var s2 := s1.(head := h + 1, lock := Thief(j, Done), claims := s.claims[s.slots[h] := ByThief(j)]);
    t := s2.(lock := Free);
    assert Reaches(t, [], t);
    ThreeSteps(s, LoadTail, s1, TakeHead, s2, Unlock, t, [], t);
    assert [LoadTail, TakeHead, Unlock] == [LoadTail, TakeHead, Unlock] + [];
  }

  /** What the thief that has the lock in `t` saw when it loaded tail in `m`: head >= tail
      if it is about to give up, and otherwise a frame at head, which is still there. */
  ghost predicate Saw(m: State, t: State) {
    && m.lock.Thief? && m.lock.pc.HasHead? && t.lock.Thief? && m.lock.id == t.lock.id
    && if t.lock.pc == Failed then m.head >= m.tail
       else
         && t.lock.pc.Passed? && m.head < m.tail && t.lock.pc.h == t.head == m.head
         && 0 <= m.head < |m.slots| == |t.slots| && t.slots[t.head] == m.slots[m.head] && t.slots[t.head] !in t.claims
  }

  predicate Tested(s: State) { s.lock.Thief? && (s.lock.pc == Failed || s.lock.pc.Passed?) }

  /** The test is decided by the load of tail alone, and no step but the thief's changes
      what follows from it. */
  lemma TestDecides(s: State, step: Step, m: State)
    requires Inv(s) && Enabled(s, step) && Tested(Apply(s, step))
    ensures if step == LoadTail then Saw(s, Apply(s, step))
            else Tested(s) && (Saw(m, s) ==> Saw(m, Apply(s, step)))
  {
    if step == LoadTail {
      assert s.head < s.tail ==> Live(s, s.head);
    } else if s.lock.Thief? && s.lock.pc.Passed? {
      ReservedSlot(s, step);
    }
  }

  /** In every interleaving, a thief goes away after its test only if there was no frame
      for it when it loaded tail, and otherwise the frame that it saw stays for it. */
  lemma {:induction false} ThiefSaw(s: State, steps: seq<Step>, t: State) returns (k: nat, m: State)
    requires Inv(s) && s.lock == Free && Reaches(s, steps, t) && Tested(t)
    ensures k < |steps| && steps[k] == LoadTail && Reaches(s, steps[..k], m) && Saw(m, t)
    decreases |steps|
  {
    var last := |steps| - 1;
    var u := BeforeLast(s, steps, t);
    RunKeepsInv(s, steps[..last], u);
    if steps[last] == LoadTail {
      k, m := last, u;
      TestDecides(u, steps[last], u);
    } else {
      TestDecides(u, steps[last], u);
      k, m := ThiefSaw(s, steps[..last], u);
      assert steps[..last][..k] == steps[..k];
      TestDecides(u, steps[last], m);
    }
  }

  /** The state before the last step. */
  lemma {:induction false} BeforeLast(s: State, steps: seq<Step>, t: State) returns (u: State)
    requires steps != [] && Reaches(s, steps, t)
    ensures Reaches(s, steps[..|steps| - 1], u) && Leads(u, steps[|steps| - 1], t)
    decreases |steps|
  {
    if |steps| == 1 {
      u := s;
      assert Reaches(Apply(s, steps[0]), steps[1..], t);
    } else {
      u := BeforeLast(Apply(s, steps[0]), steps[1..], t);
      assert steps[..|steps| - 1][1..] == steps[1..][..|steps| - 2];
    }
  }

  /** A pop does not need the lock unless a thief is after the same frame: the victim takes
      its youngest frame in two steps, whatever thief has the lock. */
  lemma PopSucceeds(s: State)
    requires Inv(s) && s.pc == Running && s.exc < s.tail
    ensures Enabled(s, DecrementTail) && Enabled(Apply(s, DecrementTail), LoadExc) && 0 < s.tail <= |s.slots|
    ensures Apply(Apply(s, DecrementTail), LoadExc) == s.(tail := s.tail - 1, claims := s.claims[s.slots[s.tail - 1] := ByVictim])
  {
  }

  /** The victim waits for the lock only if a thief has raised exc or the deque was empty,
      and then loses its frame only if head has gone past it. */
  lemma SlowPathDecides(s: State)
    requires Inv(s) && s.pc == Popped
    ensures Apply(s, LoadExc).pc == Slow ==> s.head > s.tail || (s.head == s.tail && s.lock.Thief? && s.lock.pc != Locked && s.lock.pc != Done)
    ensures Apply(s, LoadExc).pc != Slow ==> Apply(s, LoadExc).pc == Running
  {
  }

  /** Under the lock the frame goes back to the victim exactly if head has not gone past it. */
  lemma HandlerDecides(s: State)
    requires Inv(s) && s.pc == Handling
    ensures Apply(s, CompareHeadTail).pc == if s.head <= s.tail then Won else Lost
    ensures s.head <= s.tail ==> 0 <= s.tail < |s.slots| && Apply(s, CompareHeadTail).claims == s.claims[s.slots[s.tail] := ByVictim]
  {
  }

  /** Whoever has the busy lock can go on. */
  lemma LockHolderCanStep(s: State) returns (step: Step)
    requires Inv(s) && s.lock != Free
    ensures Enabled(s, step) && ThiefStep(step) == s.lock.Thief?
    ensures Apply(s, step).lock == Free || (Apply(s, step).lock.Thief? == s.lock.Thief? && Apply(s, step) != s)
  {
    match s.lock
    case Victim => step := if s.pc == Handling then CompareHeadTail else if s.pc == Won then UnlockWon else LeaveDeque;
    case Thief(_, pc) =>
      assert pc.Passed? ==> Live(s, s.head);
      step := match pc
        case Locked => GiveUp
        case Raised => LoadHead
        case HasHead(_) => LoadTail
        case Failed => DecrementExc
        case Passed(_) => TakeHead
        case Done => Unlock;
  }

  /** The victim can always go on, but where it waits for a lock that somebody has. */
  lemma VictimCanStep(s: State) returns (step: Step)
    requires Inv(s) && ((s.pc == Slow || s.pc == Ready) ==> s.lock == Free)
    ensures Enabled(s, step) && !ThiefStep(step)
  {
    step := match s.pc
      case Running => DecrementTail
      case Pushing => StoreTail
      case Popped => LoadExc
      case Slow => LockForHandler
      case Handling => CompareHeadTail
      case Lost => LeaveDeque
      case Won => UnlockWon
      case Away => StoreHead
      case ResetHead => StoreExc
      case ResetExc => ResetTail
      case Ready => SetBusy;
  }
}
