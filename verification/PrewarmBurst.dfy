/** The bounded first-error burst both credential strategies prewarm through, as a
    transition system over every interleaving of its goroutines. */
module PrewarmBurst {
  import opened Options

  type Error = string

  /** prewarmConcurrencyFor: the rate cap's concurrency under a hard cap, at least 1. */
  function ConcurrencyFor(rateCap: int, hardCap: int): (c: int)
    ensures 1 <= c
    ensures c <= rateCap || c == 1
    ensures c <= hardCap || c == 1
    ensures 1 <= rateCap <= hardCap ==> c == rateCap
    ensures 1 <= hardCap <= rateCap ==> c == hardCap
  {
    var c := if rateCap > hardCap then hardCap else rateCap;
    if c < 1 then 1 else c
  }

  // -------------------------------------------------------------------------
  // States
  // -------------------------------------------------------------------------

  datatype Outcome = Pending | Ok | Failed(err: Error)

  /** Where a goroutine stands: inside acquire, bumping the progress count, waiting at
      or running the once block, then its two deferred calls. */
  datatype Phase =
    | Acquiring | Counting | Failing(err: Error) | Storing(err: Error) | Cancelling(err: Error)
    | Releasing | Leaving | Finished

  datatype Worker = Worker(idx: nat, phase: Phase, outcome: Outcome)

  datatype Once = Fresh | Running(winner: nat) | Done(winner: nat)

  /** Where the caller stands: the loop head, the select, behind the send, behind
      wg.Add, in wg.Wait, or back. */
  datatype Pc = Top | Select | Sent | Added | Waiting | Returned(result: Option<Error>)

  /** n is the number of indices, width the floored concurrency. */
  datatype Config = Config(n: nat, width: nat)

  datatype State = State(
    pc: Pc,
    i: nat,
    workers: seq<Worker>,
    sem: nat,
    wg: nat,
    once: Once,
    firstErr: Option<Error>,
    callerCancelled: bool,
    cancelled: bool
  )

  /** A non-positive n returns at once; a concurrency below 1 is floored at 1. */
  function ConfigFor(n: int, concurrency: int): Config {
    Config(if n < 0 then 0 else n, if concurrency < 1 then 1 else concurrency)
  }

  function Init(c: Config): State {
    State(if c.n == 0 then Returned(None) else Top, 0, [], 0, 0, Fresh, None, false, false)
  }

  // -------------------------------------------------------------------------
  // Steps
  // -------------------------------------------------------------------------

  datatype Step =
    | CancelCaller | Propagate
    | Continue | Break | Send | SeeDone | AddWg | Spawn | Return
    | AcquireOk(k: nat) | AcquireErr(k: nat, err: Error) | Count(k: nat)
    | EnterOnce(k: nat) | Store(k: nat) | CancelBurst(k: nat) | SkipOnce(k: nat)
    | Release(k: nat) | Leave(k: nat)

  predicate Enabled(c: Config, s: State, step: Step) {
    match step
    case CancelCaller => !s.callerCancelled
    case Propagate => s.callerCancelled && !s.cancelled
    case Continue => s.pc == Top && s.i < c.n && !s.cancelled
    case Break => s.pc == Top && (s.i >= c.n || s.cancelled)
    case Send => s.pc == Select && s.sem < c.width
    case SeeDone => s.pc == Select && s.cancelled
    case AddWg => s.pc == Sent
    case Spawn => s.pc == Added
    case Return => s.pc == Waiting && s.wg == 0
    case AcquireOk(k) => k < |s.workers| && s.workers[k].phase.Acquiring?
    case AcquireErr(k, _) => k < |s.workers| && s.workers[k].phase.Acquiring?
    case Count(k) => k < |s.workers| && s.workers[k].phase.Counting?
    case EnterOnce(k) => k < |s.workers| && s.workers[k].phase.Failing? && s.once.Fresh?
    case Store(k) => k < |s.workers| && s.workers[k].phase.Storing?
    case CancelBurst(k) => k < |s.workers| && s.workers[k].phase.Cancelling?
    case SkipOnce(k) => k < |s.workers| && s.workers[k].phase.Failing? && s.once.Done?
    case Release(k) => k < |s.workers| && s.workers[k].phase.Releasing? && s.sem > 0
    case Leave(k) => k < |s.workers| && s.workers[k].phase.Leaving? && s.wg > 0
  }

  function Move(s: State, k: nat, p: Phase): State
    requires k < |s.workers|
  {
    s.(workers := s.workers[k := s.workers[k].(phase := p)])
  }

  function End(s: State, k: nat, p: Phase, o: Outcome): State
    requires k < |s.workers|
  {
    s.(workers := s.workers[k := Worker(s.workers[k].idx, p, o)])
  }

  function Apply(c: Config, s: State, step: Step): State
    requires Enabled(c, s, step)
  {
    match step
    case CancelCaller => s.(callerCancelled := true)
    case Propagate => s.(cancelled := true)
    case Continue => s.(pc := Select)
    case Break => s.(pc := Waiting)
    case Send => s.(pc := Sent, sem := s.sem + 1)
    case SeeDone => s.(pc := Top, i := c.n + 1)
    case AddWg => s.(pc := Added, wg := s.wg + 1)
    case Spawn =>
      s.(pc := Top, i := s.i + 1, workers := s.workers + [Worker(s.i, Acquiring, Pending)])
    case Return => s.(pc := Returned(s.firstErr), cancelled := true)
    case AcquireOk(k) => End(s, k, Counting, Ok)
    case AcquireErr(k, err) => End(s, k, Failing(err), Failed(err))
    case Count(k) => Move(s, k, Releasing)
    case EnterOnce(k) => Move(s, k, Storing(s.workers[k].phase.err)).(once := Running(k))
    case Store(k) => Move(s, k, Cancelling(s.workers[k].phase.err)).(firstErr := Some(s.workers[k].phase.err))
    case CancelBurst(k) => Move(s, k, Releasing).(once := Done(k), cancelled := true)
    case SkipOnce(k) => Move(s, k, Releasing)
    case Release(k) => Move(s, k, Leaving).(sem := s.sem - 1)
    case Leave(k) => Move(s, k, Finished).(wg := s.wg - 1)
  }

  /** The state after a schedule, if every step of it could be taken. */
  function Exec(c: Config, s: State, steps: seq<Step>): Option<State>
    decreases |steps|
  {
    if steps == [] then Some(s)
    else if Enabled(c, s, steps[0]) then Exec(c, Apply(c, s, steps[0]), steps[1..])
    else None
  }

  // -------------------------------------------------------------------------
  // Counting workers
  // -------------------------------------------------------------------------

  datatype Tally = InFlight | Holding | Alive | Work

  function Weight(t: Tally, w: Worker): nat {
    match t
    case InFlight => if w.phase.Acquiring? then 1 else 0
    case Holding => if w.phase.Leaving? || w.phase.Finished? then 0 else 1
    case Alive => if w.phase.Finished? then 0 else 1
    case Work =>
      match w.phase
      case Acquiring => 7
      case Counting => 3
      case Failing(_) => 6
      case Storing(_) => 5
      case Cancelling(_) => 4
      case Releasing => 2
      case Leaving => 1
      case Finished => 0
  }

  function Total(t: Tally, ws: seq<Worker>): nat {
    if ws == [] then 0 else Total(t, ws[..|ws| - 1]) + Weight(t, ws[|ws| - 1])
  }

  lemma {:induction false} TotalUpdate(t: Tally, ws: seq<Worker>, k: nat, w: Worker)
    requires k < |ws|
    ensures Total(t, ws[k := w]) == Total(t, ws) - Weight(t, ws[k]) + Weight(t, w)
  {
    var last := |ws| - 1;
    if k == last {
      assert ws[k := w][..last] == ws[..last];
    } else {
      assert ws[k := w][..last] == ws[..last][k := w];
      TotalUpdate(t, ws[..last], k, w);
    }
  }

  lemma TotalAppend(t: Tally, ws: seq<Worker>, w: Worker)
    ensures Total(t, ws + [w]) == Total(t, ws) + Weight(t, w)
  {
    assert (ws + [w])[..|ws|] == ws;
  }

  lemma {:induction false} SomeWeight(t: Tally, ws: seq<Worker>) returns (k: nat)
    requires Total(t, ws) > 0
    ensures k < |ws| && Weight(t, ws[k]) > 0
  {
    k := |ws| - 1;
    if Weight(t, ws[k]) == 0 {
      k := SomeWeight(t, ws[..k]);
    }
  }

  lemma {:induction false} NoWeight(t: Tally, ws: seq<Worker>, k: nat)
    requires Total(t, ws) == 0 && k < |ws|
    ensures Weight(t, ws[k]) == 0
  {
    if k < |ws| - 1 {
      NoWeight(t, ws[..|ws| - 1], k);
    }
  }

  lemma {:induction false} InFlightHolds(ws: seq<Worker>)
    ensures Total(InFlight, ws) <= Total(Holding, ws)
  {
    if ws != [] {
      InFlightHolds(ws[..|ws| - 1]);
    }
  }

  // -------------------------------------------------------------------------
  // The invariant
  // -------------------------------------------------------------------------

  /** The loop has launched exactly the indices below |workers|, in order. */
  ghost predicate LoopInv(c: Config, s: State) {
    && (forall k :: 0 <= k < |s.workers| ==> s.workers[k].idx == k)
    && |s.workers| <= c.n && s.i <= c.n + 1
    && (s.i == |s.workers| || (s.i == c.n + 1 && s.cancelled && (s.pc.Top? || s.pc.Waiting? || s.pc.Returned?)))
    && (s.pc.Select? || s.pc.Sent? || s.pc.Added? ==> s.i == |s.workers| < c.n)
    && (s.pc.Waiting? || s.pc.Returned? ==> |s.workers| == c.n || s.cancelled)
    && (s.once.Done? ==> s.cancelled)
  }

  ghost predicate CountInv(c: Config, s: State) {
    && s.sem == Total(Holding, s.workers) + (if s.pc.Sent? || s.pc.Added? then 1 else 0)
    && s.sem <= c.width
    && s.wg == Total(Alive, s.workers) + (if s.pc.Added? then 1 else 0)
    && (s.pc.Returned? ==> forall k :: 0 <= k < |s.workers| ==> s.workers[k].phase.Finished?)
  }

  /** What a worker's phase says about its outcome and the once block. */
  ghost predicate WorkerInv(s: State, w: Worker, k: nat) {
    match w.phase
    case Acquiring => w.outcome == Pending
    case Counting => w.outcome == Ok
    case Failing(e) => w.outcome == Failed(e)
    case Storing(e) => w.outcome == Failed(e) && s.once == Running(k) && s.firstErr == None
    case Cancelling(e) => w.outcome == Failed(e) && s.once == Running(k) && s.firstErr == Some(e)
    case _ => w.outcome == Ok || (w.outcome.Failed? && s.once.Done?)
  }

  ghost predicate OnceInv(s: State) {
    match s.once
    case Fresh => s.firstErr == None
    case Running(w) => w < |s.workers| && (s.workers[w].phase.Storing? || s.workers[w].phase.Cancelling?)
    case Done(w) => w < |s.workers| && s.workers[w].outcome.Failed? && s.firstErr == Some(s.workers[w].outcome.err)
  }

  ghost predicate WorkersInv(s: State) {
    forall k :: 0 <= k < |s.workers| ==> WorkerInv(s, s.workers[k], k)
  }

  ghost predicate Inv(c: Config, s: State) {
    && c.width >= 1
    && LoopInv(c, s) && CountInv(c, s) && OnceInv(s) && WorkersInv(s) && CauseInv(c, s)
  }

  /** Nothing but the caller, the winner's failure or the return cancels a burst, and only
      a cancelled one stops short. */
  ghost predicate CauseInv(c: Config, s: State) {
    && (s.cancelled ==> s.callerCancelled || s.once.Done? || s.pc.Returned?)
    && (s.pc.Returned? ==> s.pc.result == s.firstErr && (|s.workers| == c.n || s.callerCancelled || s.once.Done?))
    && (s.pc.Waiting? ==> |s.workers| == c.n || s.callerCancelled || s.once.Done?)
  }

  lemma InitInv(n: int, concurrency: int)
    ensures Inv(ConfigFor(n, concurrency), Init(ConfigFor(n, concurrency)))
  {}

  /** Moving one worker changes each tally by the difference of its weights. */
  lemma TalliesMove(ws: seq<Worker>, k: nat, w: Worker)
    requires k < |ws|
    ensures Total(Holding, ws[k := w]) == Total(Holding, ws) - Weight(Holding, ws[k]) + Weight(Holding, w)
    ensures Total(Alive, ws[k := w]) == Total(Alive, ws) - Weight(Alive, ws[k]) + Weight(Alive, w)
  {
    TotalUpdate(Holding, ws, k, w);
    TotalUpdate(Alive, ws, k, w);
  }

  predicate OfWorker(step: Step) {
    || step.AcquireOk? || step.AcquireErr? || step.Count? || step.EnterOnce? || step.Store? || step.CancelBurst?
    || step.SkipOnce? || step.Release? || step.Leave?
  }

  /** A goroutine gives its slot back exactly when it leaves it. */
  lemma SlotsAfter(c: Config, s: State, step: Step)
    requires Enabled(c, s, step) && OfWorker(step)
    ensures var t := Apply(c, s, step);
      t.sem - Total(Holding, t.workers) == s.sem - Total(Holding, s.workers) && t.sem <= s.sem && t.pc == s.pc
  {
    TalliesMove(s.workers, step.k, Apply(c, s, step).workers[step.k]);
  }

  /** And its place in the wait group. */
  lemma PlacesAfter(c: Config, s: State, step: Step)
    requires Enabled(c, s, step) && OfWorker(step)
    ensures var t := Apply(c, s, step);
      t.wg - Total(Alive, t.workers) == s.wg - Total(Alive, s.workers) && t.pc == s.pc
  {
    TalliesMove(s.workers, step.k, Apply(c, s, step).workers[step.k]);
  }

  lemma CountsAfter(c: Config, s: State, step: Step)
    requires CountInv(c, s) && Enabled(c, s, step) && OfWorker(step)
    ensures CountInv(c, Apply(c, s, step))
  {
    SlotsAfter(c, s, step);
    PlacesAfter(c, s, step);
  }

  /** A worker's step moves neither the loop nor the caller. */
  lemma LoopAfter(c: Config, s: State, step: Step)
    requires LoopInv(c, s) && Enabled(c, s, step) && OfWorker(step)
    ensures LoopInv(c, Apply(c, s, step))
  {}

  lemma CauseAfter(c: Config, s: State, step: Step)
    requires CauseInv(c, s) && OnceInv(s) && WorkersInv(s) && Enabled(c, s, step) && OfWorker(step)
    requires !s.pc.Returned?
    ensures CauseInv(c, Apply(c, s, step))
  {
    assert WorkerInv(s, s.workers[step.k], step.k);
  }

  lemma CallerStepInv(c: Config, s: State, step: Step)
    requires Inv(c, s) && Enabled(c, s, step)
    requires step.CancelCaller? || step.Propagate? || step.Continue? || step.Break? || step.Send? || step.SeeDone?
          || step.AddWg?
    ensures Inv(c, Apply(c, s, step))
  {
    CallerStepLoop(c, s, step);
    assert WorkersInv(Apply(c, s, step)) by {
      assert Apply(c, s, step).once == s.once && Apply(c, s, step).firstErr == s.firstErr;
    }
  }

  lemma CallerStepLoop(c: Config, s: State, step: Step)
    requires LoopInv(c, s) && CountInv(c, s) && Enabled(c, s, step)
    requires step.CancelCaller? || step.Propagate? || step.Continue? || step.Break? || step.Send? || step.SeeDone?
          || step.AddWg?
    ensures LoopInv(c, Apply(c, s, step)) && CountInv(c, Apply(c, s, step))
  {}

  lemma ReturnInv(c: Config, s: State)
    requires Inv(c, s) && Enabled(c, s, Return)
    ensures Inv(c, Apply(c, s, Return))
  {
    forall k | 0 <= k < |s.workers|
      ensures s.workers[k].phase.Finished?
    {
      NoWeight(Alive, s.workers, k);
    }
  }

  lemma SpawnCounts(c: Config, s: State)
    requires CountInv(c, s) && Enabled(c, s, Spawn)
    ensures CountInv(c, Apply(c, s, Spawn))
  {
    var w := Worker(s.i, Acquiring, Pending);
    TotalAppend(Holding, s.workers, w);
    TotalAppend(Alive, s.workers, w);
  }

  lemma SpawnLoop(c: Config, s: State)
    requires LoopInv(c, s) && Enabled(c, s, Spawn)
    ensures LoopInv(c, Apply(c, s, Spawn))
  {}

  lemma SpawnWorkers(c: Config, s: State)
    requires Inv(c, s) && Enabled(c, s, Spawn)
    ensures OnceInv(Apply(c, s, Spawn)) && WorkersInv(Apply(c, s, Spawn))
  {}

  lemma SpawnInv(c: Config, s: State)
    requires Inv(c, s) && Enabled(c, s, Spawn)
    ensures Inv(c, Apply(c, s, Spawn))
  {
    SpawnCounts(c, s);
    SpawnLoop(c, s);
    SpawnWorkers(c, s);
  }

  predicate OfOnce(step: Step) {
    step.EnterOnce? || step.Store? || step.CancelBurst?
  }

  /** One worker replaced by one that fits, outside the once block. */
  lemma MovedWorker(s: State, t: State, k: nat)
    requires WorkersInv(s) && OnceInv(s) && k < |s.workers|
    requires |t.workers| == |s.workers| && t.workers == s.workers[k := t.workers[k]]
    requires t.once == s.once && t.firstErr == s.firstErr
    requires WorkerInv(s, t.workers[k], k) && !s.workers[k].phase.Storing? && !s.workers[k].phase.Cancelling?
    requires s.workers[k].outcome.Failed? ==> t.workers[k].outcome == s.workers[k].outcome
    ensures OnceInv(t) && WorkersInv(t)
  {
    forall j | 0 <= j < |t.workers|
      ensures WorkerInv(t, t.workers[j], j)
    {
      assert j != k ==> WorkerInv(s, s.workers[j], j);
    }
  }

  /** Outside the once block nobody touches it or the first error. */
  lemma BodyWorkers(c: Config, s: State, step: Step)
    requires WorkersInv(s) && OnceInv(s) && Enabled(c, s, step) && OfWorker(step) && !OfOnce(step)
    ensures OnceInv(Apply(c, s, step)) && WorkersInv(Apply(c, s, step))
  {
    assert WorkerInv(s, s.workers[step.k], step.k);
    MovedWorker(s, Apply(c, s, step), step.k);
  }

  /** Only the goroutine that runs the once block sets the first error. */
  lemma OnceWorkers(c: Config, s: State, step: Step)
    requires WorkersInv(s) && OnceInv(s) && Enabled(c, s, step) && OfOnce(step)
    ensures OnceInv(Apply(c, s, step)) && WorkersInv(Apply(c, s, step))
  {
    var t := Apply(c, s, step);
    forall j | 0 <= j < |t.workers|
      ensures WorkerInv(t, t.workers[j], j)
    {
      assert WorkerInv(s, s.workers[j], j) && WorkerInv(s, s.workers[step.k], step.k);
    }
  }

  lemma WorkerStepInv(c: Config, s: State, step: Step)
    requires Inv(c, s) && Enabled(c, s, step) && OfWorker(step)
    ensures Inv(c, Apply(c, s, step))
  {
    LoopAfter(c, s, step);
    CountsAfter(c, s, step);
    CauseAfter(c, s, step);
    if OfOnce(step) {
      OnceWorkers(c, s, step);
    } else {
      BodyWorkers(c, s, step);
    }
  }

  /** Every step of every goroutine keeps the invariant. */
  lemma StepInv(c: Config, s: State, step: Step)
    requires Inv(c, s) && Enabled(c, s, step)
    ensures Inv(c, Apply(c, s, step))
  {
    if OfWorker(step) {
      WorkerStepInv(c, s, step);
    } else {
      match step {
        case Spawn => SpawnInv(c, s);
        case Return => ReturnInv(c, s);
        case _ => CallerStepInv(c, s, step);
      }
    }
  }

  // -------------------------------------------------------------------------
  // Safety of every schedule
  // -------------------------------------------------------------------------

  lemma {:induction false} ExecInv(c: Config, s: State, steps: seq<Step>)
    requires Inv(c, s) && Exec(c, s, steps).Some?
    ensures Inv(c, Exec(c, s, steps).value)
    decreases |steps|
  {
    if steps != [] {
      StepInv(c, s, steps[0]);
      ExecInv(c, Apply(c, s, steps[0]), steps[1..]);
    }
  }

  function SpawnsIn(steps: seq<Step>): nat {
    if steps == [] then 0 else (if steps[0].Spawn? then 1 else 0) + SpawnsIn(steps[1..])
  }

  /** A failed acquire has been through the once block, or the caller's cancellation has
      come through. */
  predicate Stopped(steps: seq<Step>) {
    exists step :: step in steps && (step.CancelBurst? || step.Propagate?)
  }

  lemma {:induction false} StoppedIsCancelled(c: Config, s: State, steps: seq<Step>)
    requires Exec(c, s, steps).Some? && (s.cancelled || Stopped(steps))
    ensures Exec(c, s, steps).value.cancelled
    decreases |steps|
  {
    if steps != [] {
      var t := Apply(c, s, steps[0]);
      if !t.cancelled {
        var step :| step in steps && (step.CancelBurst? || step.Propagate?);
        assert step in steps[1..];
      }
      StoppedIsCancelled(c, t, steps[1..]);
    }
  }

  /** Once cancelled, the loop launches only the index it has already selected, if any. */
  lemma {:induction false} OnlyTheSelected(c: Config, s: State, steps: seq<Step>)
    requires s.cancelled && Exec(c, s, steps).Some?
    ensures SpawnsIn(steps) <= if s.pc.Select? || s.pc.Sent? || s.pc.Added? then 1 else 0
    decreases |steps|
  {
    if steps != [] {
      OnlyTheSelected(c, Apply(c, s, steps[0]), steps[1..]);
    }
  }

  lemma {:induction false} ExecConcat(c: Config, s: State, a: seq<Step>, b: seq<Step>)
    requires Exec(c, s, a + b).Some?
    ensures Exec(c, s, a).Some? && Exec(c, s, a + b) == Exec(c, Exec(c, s, a).value, b)
    decreases |a|
  {
    if a == [] {
      assert a + b == b;
    } else {
      assert (a + b)[1..] == a[1..] + b;
      ExecConcat(c, Apply(c, s, a[0]), a[1..], b);
    }
  }

  /** In every schedule: the acquires in flight stay within max(1, concurrency), the
      launched indices are 0, 1, 2, and so on below n without repeat, and from any moment
      on at which a failed acquire was through the once block, or the caller's cancellation
      had come through, at most one of them is launched. */
  lemma BurstIsBounded(n: int, concurrency: int, before: seq<Step>, later: seq<Step>)
    requires Exec(ConfigFor(n, concurrency), Init(ConfigFor(n, concurrency)), before + later).Some?
    ensures var s := Exec(ConfigFor(n, concurrency), Init(ConfigFor(n, concurrency)), before + later).value;
      && Total(InFlight, s.workers) <= (if concurrency < 1 then 1 else concurrency)
      && (forall k :: 0 <= k < |s.workers| ==> s.workers[k].idx == k < n)
    ensures Stopped(before) ==> SpawnsIn(later) <= 1
  {
    var c, steps := ConfigFor(n, concurrency), before + later;
    InitInv(n, concurrency);
    ExecInv(c, Init(c), steps);
    InFlightHolds(Exec(c, Init(c), steps).value.workers);
    ExecConcat(c, Init(c), before, later);
    if Stopped(before) {
      StoppedIsCancelled(c, Init(c), before);
      OnlyTheSelected(c, Exec(c, Init(c), before).value, later);
    }
  }

  /** How each acquire ended is what its step of the schedule says. */
  ghost predicate KeepsOutcomes(steps: seq<Step>, s: State) {
    forall k :: 0 <= k < |s.workers| ==> KeepsOutcome(steps, s.workers[k].outcome, k)
  }

  ghost predicate KeepsOutcome(steps: seq<Step>, o: Outcome, k: nat) {
    && (o.Ok? <==> AcquireOk(k) in steps)
    && (forall err :: o == Failed(err) <==> AcquireErr(k, err) in steps)
  }

  /** Every acquire step is of a worker that was launched. */
  ghost predicate OfLaunched(steps: seq<Step>, s: State) {
    && (forall k: nat :: AcquireOk(k) in steps ==> k < |s.workers|)
    && (forall k: nat, err :: AcquireErr(k, err) in steps ==> k < |s.workers|)
  }

  lemma StepKeepsOutcomes(c: Config, steps: seq<Step>, s: State, step: Step)
    requires WorkersInv(s) && KeepsOutcomes(steps, s) && OfLaunched(steps, s) && Enabled(c, s, step)
    ensures KeepsOutcomes(steps + [step], Apply(c, s, step)) && OfLaunched(steps + [step], Apply(c, s, step))
  {
    var more, t := steps + [step], Apply(c, s, step);
    assert forall x :: x in more <==> x in steps || x == step;
    forall k | 0 <= k < |t.workers|
      ensures KeepsOutcome(more, t.workers[k].outcome, k)
    {
      if k < |s.workers| {
        assert KeepsOutcome(steps, s.workers[k].outcome, k) && WorkerInv(s, s.workers[k], k);
      }
    }
  }

  lemma {:induction false} ExecKeepsOutcomes(n: int, concurrency: int, steps: seq<Step>)
    requires Exec(ConfigFor(n, concurrency), Init(ConfigFor(n, concurrency)), steps).Some?
    ensures var s := Exec(ConfigFor(n, concurrency), Init(ConfigFor(n, concurrency)), steps).value;
      KeepsOutcomes(steps, s) && OfLaunched(steps, s)
    decreases |steps|
  {
    if steps != [] {
      var c, front, step := ConfigFor(n, concurrency), steps[..|steps| - 1], steps[|steps| - 1];
      assert steps == front + [step];
      ExecConcat(c, Init(c), front, [step]);
      ExecKeepsOutcomes(n, concurrency, front);
      InitInv(n, concurrency);
      ExecInv(c, Init(c), front);
      StepKeepsOutcomes(c, front, Exec(c, Init(c), front).value, step);
    }
  }

  /** When the burst returns no goroutine is left. An error is the one the once block's
      winner got from its acquire; nil means no acquire failed, and then either all n
      succeeded or the caller cancelled. */
  lemma BurstResult(n: int, concurrency: int, steps: seq<Step>)
    requires Exec(ConfigFor(n, concurrency), Init(ConfigFor(n, concurrency)), steps).Some?
    ensures var s := Exec(ConfigFor(n, concurrency), Init(ConfigFor(n, concurrency)), steps).value;
      s.pc.Returned? ==>
        && (forall k :: 0 <= k < |s.workers| ==> s.workers[k].phase.Finished?)
        && (s.pc.result.Some? ==> s.once.Done? && AcquireErr(s.once.winner, s.pc.result.value) in steps)
        && (s.pc.result.None? ==> forall k :: 0 <= k < |s.workers| ==> AcquireOk(k) in steps)
        && (s.pc.result.None? ==> forall k: nat, err :: AcquireErr(k, err) !in steps)
        && (s.pc.result.None? ==> |s.workers| == ConfigFor(n, concurrency).n || s.callerCancelled)
  {
    var c := ConfigFor(n, concurrency);
    InitInv(n, concurrency);
    ExecInv(c, Init(c), steps);
    ExecKeepsOutcomes(n, concurrency, steps);
    var s := Exec(c, Init(c), steps).value;
    if s.pc.Returned? {
      forall k | 0 <= k < |s.workers|
        ensures KeepsOutcome(steps, s.workers[k].outcome, k)
        ensures s.pc.result.None? ==> s.workers[k].outcome.Ok? && AcquireOk(k) in steps
      {
        assert WorkerInv(s, s.workers[k], k);
      }
      if s.pc.result.None? {
        forall k: nat, err
          ensures AcquireErr(k, err) !in steps
        {
          assert k < |s.workers| ==> KeepsOutcome(steps, s.workers[k].outcome, k);
        }
      }
    }
  }

  // -------------------------------------------------------------------------
  // Progress
  // -------------------------------------------------------------------------

  function Rank(pc: Pc): nat {
    match pc
    case Top => 5
    case Select => 4
    case Sent => 3
    case Added => 2
    case Waiting => 1
    case Returned(_) => 0
  }

  /** An upper bound on the steps still possible. */
  function Remaining(c: Config, s: State): int {
    (if s.callerCancelled then 0 else 1) + (if s.cancelled then 0 else 1)
    + 20 * (c.n + 1 - s.i) + Rank(s.pc) + Total(Work, s.workers)
  }

  lemma WorkDrops(ws: seq<Worker>, k: nat, w: Worker)
    requires k < |ws| && Weight(Work, w) < Weight(Work, ws[k])
    ensures Total(Work, ws[k := w]) < Total(Work, ws)
  {
    TotalUpdate(Work, ws, k, w);
  }

  predicate IsCallerStep(step: Step) {
    step.CancelCaller? || step.Propagate? || step.Continue? || step.Break? || step.Send? || step.SeeDone?
    || step.AddWg? || step.Spawn? || step.Return?
  }

  lemma CallerStepDecreases(c: Config, s: State, step: Step)
    requires s.i <= c.n + 1 && (s.pc.Select? ==> s.i < c.n) && Enabled(c, s, step) && IsCallerStep(step)
    ensures Remaining(c, Apply(c, s, step)) < Remaining(c, s)
  {
    if step.Spawn? {
      TotalAppend(Work, s.workers, Worker(s.i, Acquiring, Pending));
    }
  }

  lemma StepDecreases(c: Config, s: State, step: Step)
    requires s.i <= c.n + 1 && (s.pc.Select? ==> s.i < c.n) && Enabled(c, s, step)
    ensures Remaining(c, Apply(c, s, step)) < Remaining(c, s)
  {
    if IsCallerStep(step) {
      CallerStepDecreases(c, s, step);
    } else {
      var k := step.k;
      WorkDrops(s.workers, k, Apply(c, s, step).workers[k]);
    }
  }

  /** No schedule is longer than Remaining: the burst cannot run forever. */
  lemma {:induction false} SchedulesAreFinite(c: Config, s: State, steps: seq<Step>)
    requires Inv(c, s) && Exec(c, s, steps).Some?
    ensures |steps| <= Remaining(c, s)
    decreases |steps|
  {
    if steps != [] {
      StepDecreases(c, s, steps[0]);
      StepInv(c, s, steps[0]);
      SchedulesAreFinite(c, Apply(c, s, steps[0]), steps[1..]);
    }
  }

  /** The steps of the burst itself; the caller's cancellation is none of them. */
  predicate IsBurstStep(step: Step) {
    !step.CancelCaller? && !step.Propagate?
  }

  /** A goroutine that is not finished can move, or the once block's winner can. */
  lemma WorkerCanMove(c: Config, s: State, k: nat) returns (step: Step)
    requires Inv(c, s) && k < |s.workers| && !s.workers[k].phase.Finished?
    ensures Enabled(c, s, step) && IsBurstStep(step)
  {
    match s.workers[k].phase {
      case Acquiring => step := AcquireOk(k);
      case Counting => step := Count(k);
      case Failing(_) =>
        match s.once {
          case Fresh => step := EnterOnce(k);
          case Running(w) => step := if s.workers[w].phase.Storing? then Store(w) else CancelBurst(w);
          case Done(_) => step := SkipOnce(k);
        }
      case Storing(_) => step := Store(k);
      case Cancelling(_) => step := CancelBurst(k);
      case Releasing =>
        step := Release(k);
        if s.sem == 0 {
          NoWeight(Holding, s.workers, k);
        }
      case Leaving =>
        step := Leave(k);
        if s.wg == 0 {
          NoWeight(Alive, s.workers, k);
        }
    }
  }

  /** Until the burst has returned, some step of its own is possible, whether or not anybody
      ever cancels it. */
  lemma NoDeadlock(c: Config, s: State) returns (step: Step)
    requires Inv(c, s) && !s.pc.Returned?
    ensures Enabled(c, s, step) && IsBurstStep(step)
  {
    match s.pc {
      case Top => step := if s.i < c.n && !s.cancelled then Continue else Break;
      case Select =>
        if s.sem < c.width {
          step := Send;
        } else {
          var k := SomeWeight(Holding, s.workers);
          step := WorkerCanMove(c, s, k);
        }
      case Sent => step := AddWg;
      case Added => step := Spawn;
      case Waiting =>
        if s.wg == 0 {
          step := Return;
        } else {
          var k := SomeWeight(Alive, s.workers);
          step := WorkerCanMove(c, s, k);
        }
    }
  }

  /** The burst has no step left to take; a cancellation may still come in. */
  ghost predicate IsAtRest(c: Config, s: State) {
    forall step :: Enabled(c, s, step) ==> !IsBurstStep(step)
  }

  /** Every schedule from the start that has come to rest has returned, after a bounded
      number of steps: if every acquire returns, so does the burst. */
  lemma BurstReturns(n: int, concurrency: int, steps: seq<Step>)
    requires Exec(ConfigFor(n, concurrency), Init(ConfigFor(n, concurrency)), steps).Some?
    requires var c := ConfigFor(n, concurrency); IsAtRest(c, Exec(c, Init(c), steps).value)
    ensures Exec(ConfigFor(n, concurrency), Init(ConfigFor(n, concurrency)), steps).value.pc.Returned?
    ensures |steps| <= 20 * ConfigFor(n, concurrency).n + 27
  {
    var c := ConfigFor(n, concurrency);
    InitInv(n, concurrency);
    ExecInv(c, Init(c), steps);
    SchedulesAreFinite(c, Init(c), steps);
    var s := Exec(c, Init(c), steps).value;
    if !s.pc.Returned? {
      var step := NoDeadlock(c, s);
      assert false;
    }
  }
}
