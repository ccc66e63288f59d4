/** The steal loop's accounting of sentinels and disengaged thieves, one step per
    access to the packed count. Elapsed times, wake-up values, the outcome of each
    steal and of each attempt on the index lock are inputs. */
module WorkerSleep {
  import opened Counting
  import opened WorkerIndex

  const SENTINEL_THRESHOLD: nat := 128
  const ATTEMPTS: nat := 4
  const HISTORY_LENGTH: nat := 32
  const COUNT_HISTORY: nat := 4
  const AS_RATIO: nat := 2
  const HISTORY_THRESHOLD: nat := 3 * HISTORY_LENGTH / 4
  const DISENGAGE_THRESHOLD: nat := HISTORY_THRESHOLD * SENTINEL_THRESHOLD
  const NAP_THRESHOLD: nat := SENTINEL_THRESHOLD * 64
  const MAX_FAILS: nat := 2 * if NAP_THRESHOLD > DISENGAGE_THRESHOLD then NAP_THRESHOLD else DISENGAGE_THRESHOLD
  const MIN_FAILS: nat := 2 * ATTEMPTS

  datatype Phase =
    | Idle                 // outside the steal loop, neither asleep nor a thief
    | Off                  // asleep outside the steal loop
    | Steal                // about to try a few victims
    | Sampling             // has failed SENTINEL_THRESHOLD more steals
    | Choosing             // wants to disengage
    | Trying(seen: nat)    // has read the packed count and found it inefficient
    | Asleep               // disengaged from the steal loop
    | Woken(scaled: nat)   // engaged again after that much time
    | Work                 // executing what it has stolen

  /** `reset` is for the proof: the whole ring has been written since the worker entered
      the loop. */
  datatype Worker = Worker(
    phase: Phase,
    fails: nat,
    sampleThreshold: nat,
    inefficient: seq<bool>,   // the latest sample first
    efficient: seq<bool>,
    counts: seq<nat>,
    tail: nat,
    recent: int,
    reset: bool)

  datatype State = State(word: nat, workers: seq<Worker>)

  datatype WorkerCounts = WorkerCounts(active: int, sentinels: int, disengaged: int)

  // ---------------------------------------------------------------------
  // Samples
  // ---------------------------------------------------------------------

  function Zeros(n: nat): seq<bool> { seq(n, _ => false) }

  function PopCount(h: seq<bool>): nat {
    if h == [] then 0 else (if h[0] then 1 else 0) + PopCount(h[1..])
  }

  /** Shifts a sample in at the top. */
  function Sampled(h: seq<bool>, sample: bool): seq<bool>
    requires |h| == HISTORY_LENGTH
  {
    [sample] + h[..HISTORY_LENGTH - 1]
  }

  function Aged(h: seq<bool>, samples: nat): seq<bool>
    requires |h| == HISTORY_LENGTH && samples < HISTORY_LENGTH
  {
    Zeros(samples) + h[..HISTORY_LENGTH - samples]
  }

  /** The three assertions on the packed count are its precondition. */
  function GetWorkerCounts(word: nat, nworkers: nat): WorkerCounts
    requires Disengaged(word) < nworkers && Sentinels(word) <= nworkers && Sentinels(word) + Disengaged(word) <= nworkers
  {
    WorkerCounts(nworkers - Disengaged(word) - Sentinels(word), Sentinels(word), Disengaged(word))
  }

  predicate Inefficient(c: WorkerCounts) {
    c.sentinels > 1 && c.active >= 1 && c.active * AS_RATIO < c.sentinels
  }

  predicate Efficient(c: WorkerCounts) {
    c.active >= c.sentinels * AS_RATIO || c.sentinels <= 1
  }

  /** The elapsed time as a number of failed steals, in 32-bit arithmetic. */
  function ScaledElapsed(elapsed: nat): nat {
    elapsed * SENTINEL_THRESHOLD % HALF / 65536 / ATTEMPTS * ATTEMPTS
  }

  /** A new entry in the ring of sentinel counts, and the running sum. */
  function Counted(w: Worker, count: nat): Worker
    requires |w.counts| == COUNT_HISTORY && w.tail < COUNT_HISTORY
  {
    w.(recent := w.recent - w.counts[w.tail] + count, counts := w.counts[w.tail := count], tail := (w.tail + 1) % COUNT_HISTORY)
  }

  function Observed(w: Worker, c: WorkerCounts): Worker
    requires |w.inefficient| == |w.efficient| == HISTORY_LENGTH
  {
    w.(inefficient := Sampled(w.inefficient, Inefficient(c)), efficient := Sampled(w.efficient, Efficient(c)))
  }

  // ---------------------------------------------------------------------
  // The invariant
  // ---------------------------------------------------------------------

  predicate IsOff(w: Worker) { w.phase.Off? || w.phase.Asleep? }

  /** In the steal loop, not working and not asleep, after many failed steals. */
  predicate IsSentinel(w: Worker) {
    w.fails >= SENTINEL_THRESHOLD
    && (w.phase.Steal? || w.phase.Sampling? || w.phase.Choosing? || w.phase.Trying? || w.phase.Woken?)
  }

  ghost function OffSet(ws: seq<Worker>): set<int> { set i | 0 <= i < |ws| && IsOff(ws[i]) }
  ghost function SentinelSet(ws: seq<Worker>): set<int> { set i | 0 <= i < |ws| && IsSentinel(ws[i]) }

  function RingSum(w: Worker): nat
    requires |w.counts| == COUNT_HISTORY
  {
    w.counts[0] + w.counts[1] + w.counts[2] + w.counts[3]
  }

  /** The running sum starts three above the sum of the ring, and stays there until the
      whole ring is written. */
  ghost predicate RingOk(w: Worker) {
    && |w.counts| == COUNT_HISTORY && w.tail < COUNT_HISTORY
    && w.counts[0] >= 1
    && if w.reset then w.recent == RingSum(w) && w.counts[1] >= 1 && w.counts[2] >= 1 && w.counts[3] >= 1
       else w.recent == RingSum(w) + 3
  }

  predicate Blank(w: Worker) { w.inefficient == Zeros(HISTORY_LENGTH) && w.efficient == Zeros(HISTORY_LENGTH) }

  ghost predicate FailsOk(w: Worker) {
    && w.fails % ATTEMPTS == 0 && w.fails < MAX_FAILS + SENTINEL_THRESHOLD
    && (w.phase.Sampling? ==> w.fails >= SENTINEL_THRESHOLD && w.fails % SENTINEL_THRESHOLD == 0)
    && (w.phase.Choosing? || w.phase.Trying? || w.phase.Asleep? || w.phase.Woken? ==> w.fails >= 2 * SENTINEL_THRESHOLD)
    && (w.phase.Work? ==> w.fails <= SENTINEL_THRESHOLD)
    && (w.phase.Woken? ==> w.phase.scaled % ATTEMPTS == 0)
    && (w.phase.Trying? ==> Sentinels(w.phase.seen) > 1)
  }

  ghost predicate HistoryOk(w: Worker) {
    && |w.inefficient| == |w.efficient| == HISTORY_LENGTH && w.sampleThreshold >= SENTINEL_THRESHOLD
    && (w.fails < SENTINEL_THRESHOLD || (w.phase.Sampling? && w.fails == SENTINEL_THRESHOLD) ==> Blank(w))
  }

  ghost predicate WorkerOk(w: Worker) { RingOk(w) && FailsOk(w) && HistoryOk(w) }

  /** Worker 0 never disengages, nor tries to. */
  predicate BossOk(w: Worker) { !IsOff(w) && !w.phase.Choosing? && !w.phase.Trying? }

  ghost predicate WordOk(s: State) {
    s.word == |OffSet(s.workers)| * HALF + |SentinelSet(s.workers)|
  }

  ghost predicate Inv(s: State) {
    && 0 < |s.workers| < HALF
    && BossOk(s.workers[0])
    && (forall i {:trigger WorkerOk(s.workers[i])} | 0 <= i < |s.workers| :: WorkerOk(s.workers[i]))
    && WordOk(s)
  }

  /** Two disjoint sets of indices, and one index that may be in neither. */
  lemma DisjointFit(a: set<int>, b: set<int>, n: nat, w: nat)
    requires a !! b && a <= Below(n) && b <= Below(n) && w < n
    ensures |a| + |b| <= n - (if w in a || w in b then 0 else 1)
    ensures w !in a ==> |a| < n
    ensures w in a ==> |a| >= 1
    ensures w in b ==> |b| >= 1
  {
    var rest := if w in a || w in b then {} else {w};
    assert |a + b + rest| == |a| + |b| + |rest|;
    SubsetSize(a + b + rest, Below(n));
    if w !in a {
      SubsetSize(a + {w}, Below(n));
    }
  }

  /** The counts never overlap: a worker that is neither leaves one place free. */
  lemma CountsFit(ws: seq<Worker>, w: nat)
    requires w < |ws|
    ensures |OffSet(ws)| + |SentinelSet(ws)| <= |ws| - (if IsOff(ws[w]) || IsSentinel(ws[w]) then 0 else 1)
    ensures IsSentinel(ws[w]) ==> |SentinelSet(ws)| >= 1
    ensures IsOff(ws[w]) ==> |OffSet(ws)| >= 1
    ensures !IsOff(ws[w]) ==> |OffSet(ws)| < |ws|
  {
    assert OffSet(ws) !! SentinelSet(ws);
    DisjointFit(OffSet(ws), SentinelSet(ws), |ws|, w);
  }

  lemma OneChanged(a: set<int>, b: set<int>, w: int)
    requires forall i | i != w :: i in a <==> i in b
    ensures |b| == |a| + (if w in b then 1 else 0) - (if w in a then 1 else 0)
  {
    assert a - {w} == b - {w} by {
      assert forall i :: i in a - {w} <==> i in b - {w};
    }
    assert a == if w in a then (a - {w}) + {w} else a - {w};
    assert b == if w in b then (b - {w}) + {w} else b - {w};
  }

  /** How the two counts follow a change of one worker. */
  lemma CountsFollow(ws: seq<Worker>, w: nat, x: Worker)
    requires w < |ws|
    ensures |OffSet(ws[w := x])| == |OffSet(ws)| + (if IsOff(x) then 1 else 0) - (if IsOff(ws[w]) then 1 else 0)
    ensures |SentinelSet(ws[w := x])| == |SentinelSet(ws)| + (if IsSentinel(x) then 1 else 0) - (if IsSentinel(ws[w]) then 1 else 0)
  {
    OneChanged(OffSet(ws), OffSet(ws[w := x]), w);
    OneChanged(SentinelSet(ws), SentinelSet(ws[w := x]), w);
  }

  // ---------------------------------------------------------------------
  // Steps
  // ---------------------------------------------------------------------

  datatype Step =
    | Enter(w: nat, wakeVal: nat)
    | Disengage(w: nat)
    | Reengage(w: nat)
    | FailSteal(w: nat)
    | Sample(w: nat)
    | Look(w: nat)
    | Try(w: nat, locked: bool)
    | Wake(w: nat, elapsed: nat)
    | Settle(w: nat)
    | GetWork(w: nat)
    | WorkDone(w: nat, elapsed: nat)
    | Leave(w: nat)

  function FreshWorker(fails: nat): Worker {
    Worker(Steal, fails, SENTINEL_THRESHOLD, Zeros(HISTORY_LENGTH), Zeros(HISTORY_LENGTH), [1, 0, 0, 0], 0, COUNT_HISTORY, false)
  }

  predicate Enabled(s: State, step: Step) {
    && step.w < |s.workers|
    && var x := s.workers[step.w];
      match step
      case Enter(_, _) => x.phase.Idle?
      case Disengage(w) => x.phase.Idle? && w != 0
      case Reengage(_) => x.phase.Off?
      case FailSteal(_) => x.phase.Steal?
      case Sample(_) => x.phase.Sampling?
      case Look(_) => x.phase.Choosing?
      case Try(_, _) => x.phase.Trying?
      case Wake(_, _) => x.phase.Asleep?
      case Settle(_) => x.phase.Woken?
      case GetWork(_) => x.phase.Steal?
      case WorkDone(_, _) => x.phase.Work?
      case Leave(_) => x.phase.Steal?
  }

  function Put(s: State, w: nat, word: nat, x: Worker): State
    requires w < |s.workers|
  {
    State(word, s.workers[w := x])
  }

  /** init_fails, with a fresh history. */
  function DoEnter(s: State, w: nat, wakeVal: nat): State
    requires w < |s.workers|
  {
    if wakeVal <= |s.workers| / 2
    then Put(s, w, FetchAdd(s.word, 1), FreshWorker(SENTINEL_THRESHOLD))
    else Put(s, w, s.word, FreshWorker(0))
  }

  /** handle_failed_steal_attempts, up to its first access. */
  function DoFailSteal(s: State, w: nat): State
    requires w < |s.workers|
  {
    var x := s.workers[w];
    var fails := x.fails + ATTEMPTS;
    if fails % SENTINEL_THRESHOLD != 0 then Put(s, w, s.word, x.(fails := fails))
    else if fails > MAX_FAILS then Put(s, w, s.word, x.(fails := MAX_FAILS))
    else Put(s, w, if fails == SENTINEL_THRESHOLD then FetchAdd(s.word, 1) else s.word, x.(phase := Sampling, fails := fails))
  }

  /** Its samples, and the wish to disengage. */
  function DoSample(s: State, w: nat): State
    requires Inv(s) && w < |s.workers| && s.workers[w].phase.Sampling?
  {
    assert WorkerOk(s.workers[w]);
    InvCounts(s, w);
    var c := GetWorkerCounts(s.word, |s.workers|);
    var x := Observed(Counted(s.workers[w], Sentinels(s.word)), c);
    if w != 0 && Inefficient(c) && PopCount(x.inefficient) as int - PopCount(x.efficient) > HISTORY_THRESHOLD
    then Put(s, w, s.word, x.(phase := Choosing))
    else Put(s, w, s.word, x.(phase := Steal))
  }

  /** One turn of maybe_disengage_thief. */
  function DoLook(s: State, w: nat): State
    requires Inv(s) && w < |s.workers| && s.workers[w].phase.Choosing?
  {
    InvCounts(s, w);
    if Inefficient(GetWorkerCounts(s.word, |s.workers|))
    then Put(s, w, s.word, s.workers[w].(phase := Trying(s.word)))
    else Put(s, w, s.word, s.workers[w].(phase := Steal))
  }

  /** try_to_disengage_thief: the lock attempt and the compare-and-exchange. */
  function DoTry(s: State, w: nat, locked: bool): State
    requires w < |s.workers| && s.workers[w].phase.Trying?
  {
    var x := s.workers[w];
    var seen := x.phase.seen;
    if locked && s.word == seen
    then Put(s, w, Pack(Disengaged(seen) + 1, Sentinels(seen) - 1), x.(phase := Asleep))
    else Put(s, w, s.word, x.(phase := Choosing))
  }

  /** What a thief that was disengaged does when it is awake again. */
  function DoSettle(s: State, w: nat): State
    requires Inv(s) && w < |s.workers| && s.workers[w].phase.Woken?
  {
    assert WorkerOk(s.workers[w]);
    var x := s.workers[w];
    var scaled := x.phase.scaled;
    var samples := scaled / SENTINEL_THRESHOLD;
    var count := Sentinels(s.word);
    var y :=
      if scaled <= SENTINEL_THRESHOLD then x
      else if samples >= HISTORY_LENGTH then
        x.(inefficient := Zeros(HISTORY_LENGTH), efficient := Zeros(HISTORY_LENGTH),
           counts := [count, count, count, count], recent := count * COUNT_HISTORY, reset := true)
      else x.(inefficient := Aged(x.inefficient, samples), efficient := Aged(x.efficient, samples));
    Put(s, w, s.word,
        y.(phase := Steal, sampleThreshold := SENTINEL_THRESHOLD,
           fails := if scaled < SENTINEL_THRESHOLD then x.fails - scaled else DISENGAGE_THRESHOLD - SENTINEL_THRESHOLD))
  }

  /** How many thieves to wake for that much efficient history. */
  function Request(effDiff: nat, recent: nat, self: nat): nat
    requires recent >= COUNT_HISTORY
  {
    var average := recent / COUNT_HISTORY;
    var remainder := effDiff % average;
    effDiff / average + (if remainder != 0 && self % remainder != 0 then 1 else 0)
  }

  /** The request shares the history's surplus among the recent sentinels: each of
      `average` sentinels asks for its part, and some of them for one more. */
  lemma RequestShares(effDiff: nat, recent: nat, self: nat) returns (share: nat, left: nat)
    requires recent >= COUNT_HISTORY
    ensures effDiff == share * (recent / 4) + left && left < recent / 4
    ensures Request(effDiff, recent, self) == if left > 0 && self % left != 0 then share + 1 else share
  {
    share, left := effDiff / (recent / 4), effDiff % (recent / 4);
  }

  /** A request of nobody is raised when the last sentinel has gone and not everyone is
      active; `pending` have been asked for already. */
  function Raised(request: nat, c: WorkerCounts, nworkers: nat, pending: nat): nat
    requires c.active >= 0
  {
    if request == 0 && c.sentinels == 0 && c.active < nworkers && pending < (c.active + 3) / 4 then (c.active + 3) / 4 - pending
    else request
  }

  /** With no sentinel left there is then a request for one thief in four active workers,
      and not for more. */
  lemma EnoughAreAsked(c: WorkerCounts, nworkers: nat, pending: nat)
    requires c.sentinels == 0 && 0 <= c.active < nworkers
    ensures var r := Raised(0, c, nworkers, pending); 4 * (pending + r) >= c.active && (r > 0 ==> 4 * (pending + r) < c.active + 4)
    ensures forall request: nat | request > 0 :: Raised(request, c, nworkers, pending) == request
  {
  }

  /** In 32-bit arithmetic without a wrap-around: whole batches of failed steals. */
  lemma ScaledElapsedIs(elapsed: nat)
    requires elapsed < 0x200_0000
    ensures var r := ScaledElapsed(elapsed); r % 4 == 0 && 512 * r <= elapsed < 512 * (r + 4)
  {
  }

  /** The sample that a sentinel takes when it has found work, unless its last one is too
      recent. */
  function LastSample(x: Worker, c: WorkerCounts): (y: Worker)
    requires WorkerOk(x) && c.sentinels >= 0
    ensures RingOk(y) && y.recent >= COUNT_HISTORY && |y.inefficient| == |y.efficient| == HISTORY_LENGTH
  {
    RingStays(x, c.sentinels + 1);
    if x.fails >= x.sampleThreshold then Observed(Counted(x, c.sentinels + 1), c) else x
  }

  /** What a sentinel that has found work records, and the number of thieves it
      asks for on account of its history. */
  function Reengaged(x: Worker, c: WorkerCounts, self: nat): (r: (Worker, nat))
    requires WorkerOk(x) && c.sentinels >= 0
    ensures r.0.phase == Work && WorkerOk(r.0)
  {
    var y := LastSample(x, c);
    var effDiff := PopCount(y.efficient) as int - PopCount(y.inefficient);
    var z := y.(phase := Work, fails := SENTINEL_THRESHOLD, sampleThreshold := 2 * SENTINEL_THRESHOLD);
    if effDiff < HISTORY_THRESHOLD then (z, 0)
    else (z.(inefficient := Zeros(HISTORY_LENGTH), efficient := Zeros(HISTORY_LENGTH)), Request(effDiff, y.recent, self))
  }

  /** maybe_reengage_workers, when a steal attempt has found work. */
  function GotWork(s: State, w: nat): (x: Worker)
    requires Inv(s) && w < |s.workers| && s.workers[w].phase.Steal? && IsSentinel(s.workers[w])
    ensures x.phase == Work && WorkerOk(x)
  {
    assert WorkerOk(s.workers[w]);
    InvCounts(s, w);
    Reengaged(s.workers[w], GetWorkerCounts(s.word - 1, |s.workers|), w).0
  }

  function DoGetWork(s: State, w: nat): State
    requires Inv(s) && w < |s.workers| && s.workers[w].phase.Steal?
  {
    var x := s.workers[w];
    if x.fails >= SENTINEL_THRESHOLD then Put(s, w, FetchAdd(s.word, -1), GotWork(s, w))
    else Put(s, w, s.word, x.(phase := Work))
  }

  /** decrease_fails_by_work and its call. */
  function DoWorkDone(s: State, w: nat, elapsed: nat): State
    requires Inv(s) && w < |s.workers| && s.workers[w].phase.Work?
  {
    assert WorkerOk(s.workers[w]);
    var x := s.workers[w];
    if x.fails <= MIN_FAILS then Put(s, w, s.word, x.(phase := Steal, fails := 0, sampleThreshold := SENTINEL_THRESHOLD)) else
    var scaled := ScaledElapsed(elapsed);
    var fails := if scaled > x.fails then 0 else x.fails - scaled;
    var y := x.(phase := Steal, fails := fails,
                sampleThreshold := if scaled > x.sampleThreshold - SENTINEL_THRESHOLD then SENTINEL_THRESHOLD else x.sampleThreshold - scaled);
    if fails >= SENTINEL_THRESHOLD then Put(s, w, FetchAdd(s.word, 1), y)
    else Put(s, w, s.word, y.(inefficient := Zeros(HISTORY_LENGTH), efficient := Zeros(HISTORY_LENGTH)))
  }

  /** reset_fails. */
  function DoLeave(s: State, w: nat): State
    requires w < |s.workers|
  {
    var x := s.workers[w];
    Put(s, w, if x.fails >= SENTINEL_THRESHOLD then FetchAdd(s.word, -1) else s.word, x.(phase := Idle))
  }

  function Apply(s: State, step: Step): State
    requires Inv(s) && Enabled(s, step)
  {
    match step
    case Enter(w, wakeVal) => DoEnter(s, w, wakeVal)
    case Disengage(w) => Put(s, w, FetchAdd(s.word, Pack(1, 0)), s.workers[w].(phase := Off))
    case Reengage(w) => Put(s, w, FetchAdd(s.word, Pack(-1, 0)), s.workers[w].(phase := Idle))
    case FailSteal(w) => DoFailSteal(s, w)
    case Sample(w) => DoSample(s, w)
    case Look(w) => DoLook(s, w)
    case Try(w, locked) => DoTry(s, w, locked)
    case Wake(w, elapsed) => Put(s, w, FetchAdd(s.word, Pack(-1, 1)), s.workers[w].(phase := Woken(ScaledElapsed(elapsed))))
    case Settle(w) => DoSettle(s, w)
    case GetWork(w) => DoGetWork(s, w)
    case WorkDone(w, elapsed) => DoWorkDone(s, w, elapsed)
    case Leave(w) => DoLeave(s, w)
  }

  // ---------------------------------------------------------------------
  // Every step keeps the invariant
  // ---------------------------------------------------------------------

  /** What the packed count says in a state that satisfies the invariant. */
  lemma InvCounts(s: State, w: nat)
    requires Inv(s) && w < |s.workers|
    ensures Disengaged(s.word) == |OffSet(s.workers)| && Sentinels(s.word) == |SentinelSet(s.workers)|
    ensures Sentinels(s.word) + Disengaged(s.word) <= |s.workers|
    ensures !IsOff(s.workers[w]) ==> Disengaged(s.word) < |s.workers|
    ensures IsSentinel(s.workers[w]) ==>
              Sentinels(s.word) >= 1 && Disengaged(s.word - 1) == Disengaged(s.word) && Sentinels(s.word - 1) == Sentinels(s.word) - 1
  {
    CountsFit(s.workers, w);
    if IsSentinel(s.workers[w]) {
    }
  }

  lemma RingStays(w: Worker, count: nat)
    requires RingOk(w) && count >= 1
    ensures RingOk(Counted(w, count)) && w.recent >= COUNT_HISTORY && Counted(w, count).recent >= COUNT_HISTORY
    ensures Counted(w, count).recent - RingSum(Counted(w, count)) == w.recent - RingSum(w) == if w.reset then 0 else 3
  {
  }

  /** After four samples none of the ring's initial content is left, and the running sum
      is still three too large. */
  lemma FourSamples(fails: nat)
    ensures var w := Counted(Counted(Counted(Counted(FreshWorker(fails), 1), 1), 1), 1);
      w.counts == [1, 1, 1, 1] && w.recent == 7 && w.tail == 0
  {
    var w := FreshWorker(fails);
    RingStays(w, 1);
    RingStays(Counted(w, 1), 1);
    assert Counted(Counted(w, 1), 1).counts == [1, 1, 0, 0];
  }

  /** A change of one worker that the packed count follows. */
  lemma PutKeepsInv(s: State, w: nat, word: nat, x: Worker)
    requires Inv(s) && w < |s.workers| && WorkerOk(x) && (w == 0 ==> BossOk(x))
    requires word == s.word
                     + ((if IsOff(x) then 1 else 0) - (if IsOff(s.workers[w]) then 1 else 0)) * HALF
                     + ((if IsSentinel(x) then 1 else 0) - (if IsSentinel(s.workers[w]) then 1 else 0))
    ensures Inv(Put(s, w, word, x))
  {
    CountsFollow(s.workers, w, x);
    var t := Put(s, w, word, x);
    forall i | 0 <= i < |t.workers|
      ensures WorkerOk(t.workers[i])
    {
      assert WorkerOk(s.workers[i]);
    }
  }

  /** The word after a change of the two counts by `dd` and `ds`. */
  function Moved(word: nat, dd: int, ds: int): int { word + dd * HALF + ds }

  /** Each atomic access changes the word as if the two counts were apart: no step
      borrows from the upper half or carries into it. */
  lemma NoBorrow(s: State, w: nat)
    requires Inv(s) && w < |s.workers|
    ensures var x := s.workers[w];
      && (IsOff(x) ==> FetchAdd(s.word, Pack(-1, 0)) == Moved(s.word, -1, 0) && FetchAdd(s.word, Pack(-1, 1)) == Moved(s.word, -1, 1))
      && (IsSentinel(x) ==> FetchAdd(s.word, -1) == Moved(s.word, 0, -1))
      && (!IsOff(x) && !IsSentinel(x) ==> FetchAdd(s.word, 1) == Moved(s.word, 0, 1) && FetchAdd(s.word, Pack(1, 0)) == Moved(s.word, 1, 0))
  {
    var x, d, n := s.workers[w], |OffSet(s.workers)|, |SentinelSet(s.workers)|;
    CountsFit(s.workers, w);
    if IsOff(x) {
      UnpackDisengaged(d, n, -1);
      UnpackReengage(d, n);
    } else if IsSentinel(x) {
      UnpackSentinels(d, n, -1);
    } else {
      UnpackDisengaged(d, n, 1);
      UnpackSentinels(d, n, 1);
    }
  }

  lemma EnterKeepsInv(s: State, w: nat, wakeVal: nat)
    requires Inv(s) && Enabled(s, Enter(w, wakeVal))
    ensures Inv(DoEnter(s, w, wakeVal))
  {
    NoBorrow(s, w);
    if wakeVal <= |s.workers| / 2 {
      PutKeepsInv(s, w, FetchAdd(s.word, 1), FreshWorker(SENTINEL_THRESHOLD));
    } else {
      PutKeepsInv(s, w, s.word, FreshWorker(0));
    }
  }

  lemma FailStealKeepsInv(s: State, w: nat)
    requires Inv(s) && Enabled(s, FailSteal(w))
    ensures Inv(DoFailSteal(s, w))
  {
    var x := s.workers[w];
    assert WorkerOk(x);
    NoBorrow(s, w);
    var fails := x.fails + ATTEMPTS;
    if fails % SENTINEL_THRESHOLD != 0 {
      PutKeepsInv(s, w, s.word, x.(fails := fails));
    } else if fails > MAX_FAILS {
      PutKeepsInv(s, w, s.word, x.(fails := MAX_FAILS));
    } else if fails == SENTINEL_THRESHOLD {
      PutKeepsInv(s, w, FetchAdd(s.word, 1), x.(phase := Sampling, fails := fails));
    } else {
      PutKeepsInv(s, w, s.word, x.(phase := Sampling, fails := fails));
    }
  }

  lemma {:induction false} ZerosCount(n: nat)
    ensures PopCount(Zeros(n)) == 0
  {
    if n == 0 {
      assert Zeros(0) == [];
    } else {
      ZerosCount(n - 1);
      assert Zeros(n)[1..] == Zeros(n - 1);
    }
  }

  /** A thief that has only just become a sentinel has no history of inefficiency,
      and so does not try to disengage. */
  lemma OneSampleIsNotEnough(h: seq<bool>, sample: bool)
    requires h == Zeros(HISTORY_LENGTH)
    ensures PopCount(Sampled(h, sample)) <= 1
  {
    ZerosCount(HISTORY_LENGTH - 1);
    assert Sampled(h, sample)[1..] == Zeros(HISTORY_LENGTH - 1);
  }

  lemma SampleKeepsInv(s: State, w: nat)
    requires Inv(s) && Enabled(s, Sample(w))
    ensures Inv(DoSample(s, w))
  {
    assert WorkerOk(s.workers[w]);
    InvCounts(s, w);
    RingStays(s.workers[w], Sentinels(s.word));
    var c := GetWorkerCounts(s.word, |s.workers|);
    var x := Observed(Counted(s.workers[w], Sentinels(s.word)), c);
    if s.workers[w].fails == SENTINEL_THRESHOLD {
      OneSampleIsNotEnough(s.workers[w].inefficient, Inefficient(c));
    }
    if w != 0 && Inefficient(c) && PopCount(x.inefficient) as int - PopCount(x.efficient) > HISTORY_THRESHOLD {
      PutKeepsInv(s, w, s.word, x.(phase := Choosing));
    } else {
      PutKeepsInv(s, w, s.word, x.(phase := Steal));
    }
  }

  lemma LookKeepsInv(s: State, w: nat)
    requires Inv(s) && Enabled(s, Look(w))
    ensures Inv(DoLook(s, w))
  {
    assert WorkerOk(s.workers[w]);
    InvCounts(s, w);
    if Inefficient(GetWorkerCounts(s.word, |s.workers|)) {
      PutKeepsInv(s, w, s.word, s.workers[w].(phase := Trying(s.word)));
    } else {
      PutKeepsInv(s, w, s.word, s.workers[w].(phase := Steal));
    }
  }

  lemma TryKeepsInv(s: State, w: nat, locked: bool)
    requires Inv(s) && Enabled(s, Try(w, locked))
    ensures Inv(DoTry(s, w, locked))
  {
    var x := s.workers[w];
    assert WorkerOk(x);
    InvCounts(s, w);
    CountsFit(s.workers, w);
    if locked && s.word == x.phase.seen {
      PutKeepsInv(s, w, Pack(Disengaged(s.word) + 1, Sentinels(s.word) - 1), x.(phase := Asleep));
    } else {
      PutKeepsInv(s, w, s.word, x.(phase := Choosing));
    }
  }

  lemma SettleKeepsInv(s: State, w: nat)
    requires Inv(s) && Enabled(s, Settle(w))
    ensures Inv(DoSettle(s, w))
  {
    var x := s.workers[w];
    assert WorkerOk(x);
    InvCounts(s, w);
    PutKeepsInv(s, w, s.word, DoSettle(s, w).workers[w]);
  }

  lemma GetWorkKeepsInv(s: State, w: nat)
    requires Inv(s) && Enabled(s, GetWork(w))
    ensures Inv(DoGetWork(s, w))
  {
    var x := s.workers[w];
    assert WorkerOk(x);
    NoBorrow(s, w);
    if x.fails >= SENTINEL_THRESHOLD {
      PutKeepsInv(s, w, FetchAdd(s.word, -1), GotWork(s, w));
    } else {
      PutKeepsInv(s, w, s.word, x.(phase := Work));
    }
  }

  lemma WorkDoneWorkerOk(s: State, w: nat, elapsed: nat)
    requires Inv(s) && Enabled(s, WorkDone(w, elapsed))
    ensures WorkerOk(DoWorkDone(s, w, elapsed).workers[w])
  {
    assert WorkerOk(s.workers[w]);
  }

  lemma WorkDoneKeepsInv(s: State, w: nat, elapsed: nat)
    requires Inv(s) && Enabled(s, WorkDone(w, elapsed))
    ensures Inv(DoWorkDone(s, w, elapsed))
  {
    var x := s.workers[w];
    assert WorkerOk(x);
    NoBorrow(s, w);
    var t := DoWorkDone(s, w, elapsed);
    WorkDoneWorkerOk(s, w, elapsed);
    assert t == Put(s, w, t.word, t.workers[w]);
    PutKeepsInv(s, w, t.word, t.workers[w]);
  }

  lemma StepKeepsInv(s: State, step: Step)
    requires Inv(s) && Enabled(s, step)
    ensures Inv(Apply(s, step))
  {
    var w := step.w;
    assert WorkerOk(s.workers[w]);
    NoBorrow(s, w);
    match step
    case Enter(_, wakeVal) => EnterKeepsInv(s, w, wakeVal);
    case Disengage(_) => PutKeepsInv(s, w, FetchAdd(s.word, Pack(1, 0)), s.workers[w].(phase := Off));
    case Reengage(_) => PutKeepsInv(s, w, FetchAdd(s.word, Pack(-1, 0)), s.workers[w].(phase := Idle));
    case FailSteal(_) => FailStealKeepsInv(s, w);
    case Sample(_) => SampleKeepsInv(s, w);
    case Look(_) => LookKeepsInv(s, w);
    case Try(_, locked) => TryKeepsInv(s, w, locked);
    case Wake(_, elapsed) => PutKeepsInv(s, w, FetchAdd(s.word, Pack(-1, 1)), s.workers[w].(phase := Woken(ScaledElapsed(elapsed))));
    case Settle(_) => SettleKeepsInv(s, w);
    case GetWork(_) => GetWorkKeepsInv(s, w);
    case WorkDone(_, elapsed) => WorkDoneKeepsInv(s, w, elapsed);
    case Leave(_) => LeaveKeepsInv(s, w);
  }

  lemma LeaveKeepsInv(s: State, w: nat)
    requires Inv(s) && Enabled(s, Leave(w))
    ensures Inv(DoLeave(s, w))
  {
    var x := s.workers[w];
    assert WorkerOk(x);
    NoBorrow(s, w);
    PutKeepsInv(s, w, DoLeave(s, w).word, x.(phase := Idle));
  }

  // ---------------------------------------------------------------------
  // Failed steals
  // ---------------------------------------------------------------------

  /** Worker `w` fails to steal `n` times in a row. */
  function Failing(s: State, w: nat, n: nat): State
    requires w < |s.workers|
    ensures |Failing(s, w, n).workers| == |s.workers|
  {
    if n == 0 then s else DoFailSteal(Failing(s, w, n - 1), w)
  }

  lemma TurnsUntilSample(fails: nat, n: nat)
    requires fails % 128 == 0 && fails < MAX_FAILS && 0 < n <= 32
    ensures (fails + 4 * n) % SENTINEL_THRESHOLD == (if n == 32 then 0 else 4 * n) && fails + 4 * n <= MAX_FAILS
    ensures n == 32 ==> (fails + 4 * n == SENTINEL_THRESHOLD <==> fails == 0)
  {
  }

  /** A thief counts four failed steals in each turn, and samples after every 32 turns; the
      first time it becomes a sentinel. */
  lemma {:induction false} SampleEvery32(s: State, w: nat, n: nat)
    requires w < |s.workers| && s.workers[w].phase.Steal? && s.workers[w].fails % 128 == 0 && s.workers[w].fails < MAX_FAILS
    requires n <= 32
    ensures var x, y := s.workers[w], Failing(s, w, n).workers[w];
      && y.fails == x.fails + 4 * n && y.phase == (if n == 32 then Sampling else Steal)
      && Failing(s, w, n).word == if n == 32 && x.fails == 0 then FetchAdd(s.word, 1) else s.word
  {
    if n > 0 {
      SampleEvery32(s, w, n - 1);
      TurnsUntilSample(s.workers[w].fails, n);
    }
  }

  /** A worker that enters the loop is a sentinel from the start exactly if the value that
      woke it is at most half the number of workers. */
  lemma EnterDecision(s: State, w: nat, wakeVal: nat)
    requires Inv(s) && Enabled(s, Enter(w, wakeVal))
    ensures var y := DoEnter(s, w, wakeVal).workers[w];
      IsSentinel(y) == (2 * wakeVal <= |s.workers|) && y.fails == if IsSentinel(y) then 128 else 0
  {
  }

  /** A try disengages the thief exactly if it has the lock and the counts are still those
      that it saw; otherwise it looks again. */
  lemma TryDecision(s: State, w: nat, locked: bool)
    requires Inv(s) && Enabled(s, Try(w, locked))
    ensures DoTry(s, w, locked).workers[w].phase == if locked && s.word == s.workers[w].phase.seen then Asleep else Choosing
  {
  }

  /** Work takes failed steals off the count, as many as its time is worth. */
  lemma WorkDecision(s: State, w: nat, elapsed: nat)
    requires Inv(s) && Enabled(s, WorkDone(w, elapsed))
    ensures var x, y := s.workers[w], DoWorkDone(s, w, elapsed).workers[w];
      && y.phase == Steal && (y.fails == 0 || y.fails + ScaledElapsed(elapsed) == x.fails)
      && (y.fails == 0 <==> x.fails <= 8 || ScaledElapsed(elapsed) >= x.fails)
  {
    assert WorkerOk(s.workers[w]);
  }

  /** A thief that has slept for a short time goes on with its count less that time, and
      otherwise with one sample less than a full history. */
  lemma SettleDecision(s: State, w: nat)
    requires Inv(s) && Enabled(s, Settle(w))
    ensures var x, y := s.workers[w], DoSettle(s, w).workers[w];
      y.phase == Steal && y.fails == if x.phase.scaled < 128 then x.fails - x.phase.scaled else 23 * 128
  {
    assert WorkerOk(s.workers[w]);
  }

  // ---------------------------------------------------------------------
  // Over whole runs
  // ---------------------------------------------------------------------

  /** `t` is reached from `s` by these steps. */
  ghost predicate Reaches(s: State, steps: seq<Step>, t: State)
    decreases |steps|
  {
    if steps == [] then s == t
    else Inv(s) && Enabled(s, steps[0]) && Reaches(Apply(s, steps[0]), steps[1..], t)
  }

  /** No thread has entered the steal loop yet. */
  function Start(nworkers: nat): State {
    State(0, seq(nworkers, _ => FreshWorker(0).(phase := Idle)))
  }

  lemma StartInv(nworkers: nat)
    requires 0 < nworkers < HALF
    ensures Inv(Start(nworkers))
  {
    var s := Start(nworkers);
    assert OffSet(s.workers) == {} && SentinelSet(s.workers) == {};
  }

  lemma {:induction false} RunKeepsInv(s: State, steps: seq<Step>, t: State)
    requires Inv(s) && Reaches(s, steps, t)
    ensures Inv(t)
    decreases |steps|
  {
    if steps != [] {
      StepKeepsInv(s, steps[0]);
      RunKeepsInv(Apply(s, steps[0]), steps[1..], t);
    }
  }

  /** Every run can be continued by every step that is enabled at its end: that
      Reaches speaks of the invariant shuts out no run. */
  lemma {:induction false} RunExtends(s: State, steps: seq<Step>, t: State, step: Step)
    requires Inv(s) && Reaches(s, steps, t) && Enabled(t, step)
    ensures Inv(t) && Reaches(s, steps + [step], Apply(t, step))
    decreases |steps|
  {
    if steps == [] {
      assert steps + [step] == [step] && [step][1..] == [];
    } else {
      StepKeepsInv(s, steps[0]);
      RunExtends(Apply(s, steps[0]), steps[1..], t, step);
      assert (steps + [step])[1..] == steps[1..] + [step];
    }
  }

  /** In every reachable state the halves of the packed word count the sentinels
      and the disengaged workers, the two never exceed the number of workers, and
      no worker can divide by a zero average of sentinels. */
  lemma CountsOverRuns(nworkers: nat, steps: seq<Step>, t: State, w: nat)
    requires 0 < nworkers < HALF && Reaches(Start(nworkers), steps, t) && w < |t.workers|
    ensures Sentinels(t.word) == |SentinelSet(t.workers)| && Disengaged(t.word) == |OffSet(t.workers)|
    ensures Sentinels(t.word) + Disengaged(t.word) <= |t.workers|
    ensures Disengaged(t.word) < |t.workers|
    ensures t.workers[w].recent / COUNT_HISTORY >= 1
    ensures |t.workers[w].counts| == COUNT_HISTORY && t.workers[w].recent - RingSum(t.workers[w]) == if t.workers[w].reset then 0 else 3
    ensures t.workers[w].fails < SENTINEL_THRESHOLD ==> PopCount(t.workers[w].inefficient) == PopCount(t.workers[w].efficient) == 0
  {
    StartInv(nworkers);
    RunKeepsInv(Start(nworkers), steps, t);
    assert WorkerOk(t.workers[w]);
    InvCounts(t, 0);
    ZerosCount(HISTORY_LENGTH);
  }
}
