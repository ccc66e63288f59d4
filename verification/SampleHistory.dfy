/** The histories of samples over whole runs: what the workers' bits remember of the
    counts that were sampled, and the decisions taken on them. */
module SampleHistory {
  import opened Options
  import opened WorkerIndex
  import opened WorkerSleep

  /** The counts that a worker has sampled, the latest first; None for time that has
      passed without a sample. */
  type Trace = seq<Option<WorkerCounts>>

  /** The workers in each state, counted. */
  ghost function CountsNow(s: State): WorkerCounts {
    WorkerCounts(|s.workers| - |SentinelSet(s.workers)| - |OffSet(s.workers)|, |SentinelSet(s.workers)|, |OffSet(s.workers)|)
  }

  /** More than twice as many sentinels as active workers. */
  predicate TooMany(c: WorkerCounts) { 1 <= c.active && 2 * c.active < c.sentinels && 1 < c.sentinels }

  /** At most half as many, or the last one. */
  predicate TooFew(c: WorkerCounts) { 2 * c.sentinels <= c.active || c.sentinels <= 1 }

  predicate Was(tr: Trace, i: nat, many: bool) {
    i < |tr| && tr[i].Some? && if many then TooMany(tr[i].value) else TooFew(tr[i].value)
  }

  /** Of the latest `n` samples. */
  function Tally(tr: Trace, n: nat, many: bool): nat {
    if n == 0 then 0 else Tally(tr, n - 1, many) + if Was(tr, n - 1, many) then 1 else 0
  }

  /** By how much the samples with too many sentinels exceed those with too few, among the
      latest 32. */
  function Surplus(tr: Trace): int { Tally(tr, 32, true) - Tally(tr, 32, false) }

  function Nones(n: nat): Trace { seq(n, _ => None) }

  /** The traces after a step: a worker that enters the loop, that has slept for 32
      samples, that has asked for thieves, or that is no sentinel any more starts again. */
  ghost function Traced(trs: seq<Trace>, s: State, step: Step): seq<Trace>
    requires Inv(s) && Enabled(s, step) && |trs| == |s.workers|
  {
    var x, tr := s.workers[step.w], trs[step.w];
    trs[step.w :=
      match step
      case Enter(_, _) => []
      case Sample(_) => [Some(CountsNow(s))] + tr
      case Settle(_) =>
        if x.phase.scaled <= 128 then tr else if x.phase.scaled / 128 >= 32 then [] else Nones(x.phase.scaled / 128) + tr
      case GetWork(_) =>
        if x.fails < 128 then tr else
        var seen := if x.fails >= x.sampleThreshold then [Some(CountsNow(Apply(s, step)))] + tr else tr;
        if Surplus(seen) > -24 then seen else []
      case WorkDone(_, _) => if Apply(s, step).workers[step.w].fails < 128 then [] else tr
      case _ => tr]
  }

  /** The bits of a worker are those of its trace. */
  ghost predicate Remembers(x: Worker, tr: Trace) {
    && |x.inefficient| == |x.efficient| == 32
    && forall i | 0 <= i < 32 :: x.inefficient[i] == Was(tr, i, true) && x.efficient[i] == Was(tr, i, false)
  }

  ghost predicate AllRemember(s: State, trs: seq<Trace>) {
    |trs| == |s.workers| && forall w | 0 <= w < |trs| :: Remembers(s.workers[w], trs[w])
  }

  // ---------------------------------------------------------------------
  // Bits and tallies
  // ---------------------------------------------------------------------

  lemma {:induction false} PopCountSplit(h: seq<bool>, n: nat)
    requires n < |h|
    ensures PopCount(h[..n + 1]) == PopCount(h[..n]) + if h[n] then 1 else 0
  {
    if n > 0 {
      PopCountSplit(h[1..], n - 1);
      assert h[..n + 1][1..] == h[1..][..n] && h[..n][1..] == h[1..][..n - 1];
    } else {
      assert h[..1][1..] == [];
    }
  }

  lemma {:induction false} PopCountIsTally(h: seq<bool>, tr: Trace, n: nat, many: bool)
    requires n <= |h| && forall i | 0 <= i < |h| :: h[i] == Was(tr, i, many)
    ensures PopCount(h[..n]) == Tally(tr, n, many)
  {
    if n > 0 {
      PopCountIsTally(h, tr, n - 1, many);
      PopCountSplit(h, n - 1);
    }
  }

  lemma SurplusIs(x: Worker, tr: Trace)
    requires Remembers(x, tr)
    ensures PopCount(x.inefficient) - PopCount(x.efficient) == Surplus(tr)
  {
    PopCountIsTally(x.inefficient, tr, 32, true);
    PopCountIsTally(x.efficient, tr, 32, false);
    assert x.inefficient[..32] == x.inefficient && x.efficient[..32] == x.efficient;
  }

  lemma BlankRemembers(x: Worker)
    requires Blank(x)
    ensures Remembers(x, [])
  {
  }

  /** One sample more. */
  lemma SampleRemembered(x: Worker, tr: Trace, c: WorkerCounts)
    requires Remembers(x, tr)
    ensures Remembers(Observed(x, c), [Some(c)] + tr)
  {
    var now := [Some(c)] + tr;
    assert forall i | 0 < i < 32 :: Was(now, i, true) == Was(tr, i - 1, true) && Was(now, i, false) == Was(tr, i - 1, false);
  }

  /** Time without samples. */
  lemma AgeRemembered(x: Worker, tr: Trace, n: nat)
    requires Remembers(x, tr) && n < 32
    ensures Remembers(x.(inefficient := Aged(x.inefficient, n), efficient := Aged(x.efficient, n)), Nones(n) + tr)
  {
    var now := Nones(n) + tr;
    assert forall i | n <= i < 32 :: Was(now, i, true) == Was(tr, i - n, true) && Was(now, i, false) == Was(tr, i - n, false);
  }

  /** The packed count gives the counts. */
  lemma CountsAre(s: State, w: nat)
    requires Inv(s) && w < |s.workers| && !IsOff(s.workers[w])
    ensures Disengaged(s.word) < |s.workers| && Sentinels(s.word) + Disengaged(s.word) <= |s.workers|
    ensures GetWorkerCounts(s.word, |s.workers|) == CountsNow(s)
  {
    InvCounts(s, w);
  }

  // ---------------------------------------------------------------------
  // Steps
  // ---------------------------------------------------------------------

  lemma SampleStepRemembers(s: State, w: nat, tr: Trace)
    requires Inv(s) && Enabled(s, Sample(w)) && Remembers(s.workers[w], tr)
    ensures Remembers(DoSample(s, w).workers[w], [Some(CountsNow(s))] + tr)
  {
    CountsAre(s, w);
    assert WorkerOk(s.workers[w]);
    var x := Counted(s.workers[w], Sentinels(s.word));
    assert Remembers(x, tr);
    SampleRemembered(x, tr, CountsNow(s));
  }

  lemma SettleStepRemembers(s: State, w: nat, tr: Trace)
    requires Inv(s) && Enabled(s, Settle(w)) && Remembers(s.workers[w], tr)
    ensures var scaled := s.workers[w].phase.scaled;
      Remembers(DoSettle(s, w).workers[w], if scaled <= 128 then tr else if scaled / 128 >= 32 then [] else Nones(scaled / 128) + tr)
  {
    var x := s.workers[w];
    if x.phase.scaled / 128 < 32 {
      AgeRemembered(x, tr, x.phase.scaled / 128);
    }
  }

  /** What a sentinel that finds work has sampled: the counts without it. */
  ghost function Seen(s: State, w: nat, tr: Trace): Trace
    requires Inv(s) && Enabled(s, GetWork(w))
  {
    if s.workers[w].fails >= s.workers[w].sampleThreshold then [Some(CountsNow(DoGetWork(s, w)))] + tr else tr
  }

  lemma FoundCounts(s: State, w: nat)
    requires Inv(s) && Enabled(s, GetWork(w)) && s.workers[w].fails >= 128
    ensures IsSentinel(s.workers[w]) && s.word > 0 && Disengaged(s.word - 1) < |s.workers| && Sentinels(s.word - 1) + Disengaged(s.word - 1) <= |s.workers|
    ensures GetWorkerCounts(s.word - 1, |s.workers|) == CountsNow(DoGetWork(s, w))
  {
    InvCounts(s, w);
    GetWorkKeepsInv(s, w);
    var t := DoGetWork(s, w);
    InvCounts(t, w);
    NoBorrow(s, w);
  }

  lemma LastSampleRemembered(x: Worker, tr: Trace, c: WorkerCounts)
    requires WorkerOk(x) && c.sentinels >= 0 && Remembers(x, tr)
    ensures Remembers(LastSample(x, c), if x.fails >= x.sampleThreshold then [Some(c)] + tr else tr)
  {
    if x.fails >= x.sampleThreshold {
      assert Remembers(Counted(x, c.sentinels + 1), tr);
      SampleRemembered(Counted(x, c.sentinels + 1), tr, c);
    }
  }

  /** A worker that keeps its bits, or loses them. */
  lemma KeptOrBlank(x: Worker, y: Worker, tr: Trace, kept: bool)
    requires Remembers(x, tr) && if kept then y.inefficient == x.inefficient && y.efficient == x.efficient else Blank(y)
    ensures Remembers(y, if kept then tr else [])
  {
    if !kept {
      BlankRemembers(y);
    }
  }

  lemma ReengagedKeeps(x: Worker, c: WorkerCounts, self: nat)
    requires WorkerOk(x) && c.sentinels >= 0
    ensures var (y, request) := Reengaged(x, c, self);
      var last := LastSample(x, c); var surplus := PopCount(last.inefficient) - PopCount(last.efficient);
      && y.recent == last.recent >= COUNT_HISTORY && y.fails == 128 && y.sampleThreshold == 256
      && (if surplus > -24 then y.inefficient == last.inefficient && y.efficient == last.efficient else Blank(y))
      && request == if surplus > -24 then 0 else Request(0 - surplus, last.recent, self)
  {
  }

  /** What is left of the histories, and the surplus that decides it. */
  lemma ReengagedRemembers(x: Worker, tr: Trace, c: WorkerCounts, self: nat)
    requires WorkerOk(x) && c.sentinels >= 0 && Remembers(x, tr)
    ensures var (y, request) := Reengaged(x, c, self);
      var seen := if x.fails >= x.sampleThreshold then [Some(c)] + tr else tr;
      && Remembers(y, if Surplus(seen) > -24 then seen else []) && y.recent >= COUNT_HISTORY
      && request == if Surplus(seen) > -24 then 0 else Request(0 - Surplus(seen), y.recent, self)
  {
    var seen := if x.fails >= x.sampleThreshold then [Some(c)] + tr else tr;
    ReengagedKeeps(x, c, self);
    LastSampleRemembered(x, tr, c);
    SurplusIs(LastSample(x, c), seen);
    KeptOrBlank(LastSample(x, c), Reengaged(x, c, self).0, seen, Surplus(seen) > -24);
  }

  lemma GetWorkStepRemembers(s: State, w: nat, tr: Trace)
    requires Inv(s) && Enabled(s, GetWork(w)) && Remembers(s.workers[w], tr) && s.workers[w].fails >= 128
    ensures Remembers(DoGetWork(s, w).workers[w], if Surplus(Seen(s, w, tr)) > -24 then Seen(s, w, tr) else [])
  {
    assert WorkerOk(s.workers[w]);
    FoundCounts(s, w);
    ReengagedRemembers(s.workers[w], tr, CountsNow(DoGetWork(s, w)), w);
  }

  lemma WorkDoneStepRemembers(s: State, w: nat, elapsed: nat, tr: Trace)
    requires Inv(s) && Enabled(s, WorkDone(w, elapsed)) && Remembers(s.workers[w], tr)
    ensures var y := DoWorkDone(s, w, elapsed).workers[w]; Remembers(y, if y.fails < 128 then [] else tr)
  {
    assert WorkerOk(s.workers[w]);
    var y := DoWorkDone(s, w, elapsed).workers[w];
    if y.fails < 128 {
      BlankRemembers(y);
    }
  }

  lemma StepRemembers(s: State, trs: seq<Trace>, step: Step)
    requires Inv(s) && Enabled(s, step) && AllRemember(s, trs)
    ensures AllRemember(Apply(s, step), Traced(trs, s, step))
  {
    OwnTrace(s, trs, step);
    var w, t, ts := step.w, Apply(s, step), Traced(trs, s, step);
    assert forall v | 0 <= v < |trs| && v != w :: t.workers[v] == s.workers[v] && ts[v] == trs[v];
  }

  /** The worker that takes the step. */
  lemma OwnTrace(s: State, trs: seq<Trace>, step: Step)
    requires Inv(s) && Enabled(s, step) && AllRemember(s, trs)
    ensures |Apply(s, step).workers| == |s.workers| && Remembers(Apply(s, step).workers[step.w], Traced(trs, s, step)[step.w])
  {
    var w, t := step.w, Apply(s, step);
    assert Remembers(s.workers[w], trs[w]);
    match step
    case Enter(_, _) => BlankRemembers(t.workers[w]);
    case Sample(_) => SampleStepRemembers(s, w, trs[w]);
    case Settle(_) => SettleStepRemembers(s, w, trs[w]);
    case GetWork(_) => if s.workers[w].fails >= 128 { GetWorkStepRemembers(s, w, trs[w]); }
    case WorkDone(_, elapsed) => WorkDoneStepRemembers(s, w, elapsed, trs[w]);
    case _ =>
  }

  // ---------------------------------------------------------------------
  // Runs
  // ---------------------------------------------------------------------

  /** A run and the traces that it leaves. */
  ghost predicate Records(s: State, trs: seq<Trace>, steps: seq<Step>, t: State, ts: seq<Trace>)
    decreases |steps|
  {
    if steps == [] then s == t && trs == ts
    else
      && Inv(s) && Enabled(s, steps[0]) && |trs| == |s.workers|
      && Records(Apply(s, steps[0]), Traced(trs, s, steps[0]), steps[1..], t, ts)
  }

  function NoTraces(nworkers: nat): seq<Trace> { seq(nworkers, _ => []) }

  lemma {:induction false} RunRemembers(s: State, trs: seq<Trace>, steps: seq<Step>, t: State, ts: seq<Trace>)
    requires Inv(s) && AllRemember(s, trs) && Records(s, trs, steps, t, ts)
    ensures Inv(t) && AllRemember(t, ts)
    decreases |steps|
  {
    if steps != [] {
      StepRemembers(s, trs, steps[0]);
      StepKeepsInv(s, steps[0]);
      RunRemembers(Apply(s, steps[0]), Traced(trs, s, steps[0]), steps[1..], t, ts);
    }
  }

  /** Every run leaves traces. */
  lemma {:induction false} RunIsRecorded(s: State, trs: seq<Trace>, steps: seq<Step>, t: State) returns (ts: seq<Trace>)
    requires Inv(s) && AllRemember(s, trs) && Reaches(s, steps, t)
    ensures Records(s, trs, steps, t, ts)
    decreases |steps|
  {
    if steps == [] {
      ts := trs;
    } else {
      StepRemembers(s, trs, steps[0]);
      StepKeepsInv(s, steps[0]);
      ts := RunIsRecorded(Apply(s, steps[0]), Traced(trs, s, steps[0]), steps[1..], t);
    }
  }

  lemma StartRemembers(nworkers: nat)
    requires 0 < nworkers < HALF
    ensures Inv(Start(nworkers)) && AllRemember(Start(nworkers), NoTraces(nworkers))
  {
    StartInv(nworkers);
    forall w | 0 <= w < nworkers
      ensures Remembers(Start(nworkers).workers[w], [])
    {
      BlankRemembers(Start(nworkers).workers[w]);
    }
  }

  /** In every reachable state a sample makes a thief want to disengage exactly if it is
      not worker 0, there are too many sentinels now, and among the latest 32 samples those
      with too many exceed those with too few by more than 24. */
  lemma DisengageDecision(nworkers: nat, steps: seq<Step>, t: State, trs: seq<Trace>, w: nat)
    requires 0 < nworkers < HALF && Records(Start(nworkers), NoTraces(nworkers), steps, t, trs)
    requires Enabled(t, Sample(w))
    ensures Inv(t) && w < |trs|
    ensures var next := Apply(t, Sample(w)).workers[w].phase;
      && (next == Choosing <==> w != 0 && TooMany(CountsNow(t)) && Surplus([Some(CountsNow(t))] + trs[w]) > 24)
      && (next == Choosing || next == Steal)
  {
    StartRemembers(nworkers);
    RunRemembers(Start(nworkers), NoTraces(nworkers), steps, t, trs);
    CountsAre(t, w);
    SampleStepRemembers(t, w, trs[w]);
    SurplusIs(DoSample(t, w).workers[w], [Some(CountsNow(t))] + trs[w]);
  }

  /** Having looked again, it tries exactly if there still are too many. */
  lemma LookDecision(s: State, w: nat)
    requires Inv(s) && Enabled(s, Look(w))
    ensures DoLook(s, w).workers[w].phase == if TooMany(CountsNow(s)) then Trying(s.word) else Steal
  {
    CountsAre(s, w);
  }

  /** A sentinel that finds work asks for thieves on account of its history exactly if
      among the latest 32 samples those with too few sentinels exceed those with too many
      by 24 or more. */
  lemma RequestDecision(nworkers: nat, steps: seq<Step>, t: State, trs: seq<Trace>, w: nat)
    requires 0 < nworkers < HALF && Records(Start(nworkers), NoTraces(nworkers), steps, t, trs)
    requires Enabled(t, GetWork(w)) && IsSentinel(t.workers[w])
    ensures Inv(t) && w < |trs| && WorkerOk(t.workers[w])
    ensures var c, deficit := CountsNow(DoGetWork(t, w)), 0 - Surplus(Seen(t, w, trs[w]));
      && c.sentinels >= 0 && DoGetWork(t, w).workers[w].recent >= COUNT_HISTORY
      && Reengaged(t.workers[w], c, w).1 == if deficit < 24 then 0 else Request(deficit, DoGetWork(t, w).workers[w].recent, w)
  {
    StartRemembers(nworkers);
    RunRemembers(Start(nworkers), NoTraces(nworkers), steps, t, trs);
    assert WorkerOk(t.workers[w]);
    FoundCounts(t, w);
    ReengagedRemembers(t.workers[w], trs[w], CountsNow(DoGetWork(t, w)), w);
  }
}
