/** One run from start to its closed done channel, racing any number of kill requests. */
module RunLifecycle {
  import opened Options
  import Annotations

  datatype Status = Running | Completed | Killed | Failed

  /** The part of a run's execution record that changes while it runs. */
  datatype Exec = Exec(status: Status, reason: string, endedAt: Option<int>)

  type Finding = Annotations.Finding

  predicate Terminal(st: Status) {
    st != Running
  }

  // -------------------------------------------------------------------------
  // The two critical sections on the record
  // -------------------------------------------------------------------------

  function KillExec(x: Exec, reason: string): Exec {
    x.(status := Killed, reason := reason)
  }

  /** Which status a run ends with, by order of precedence. */
  function FinalExec(x: Exec, ctxCancelled: bool, err: Option<string>, end: int): Exec {
    var y := x.(endedAt := Some(end));
    if x.status == Killed then y
    else if ctxCancelled then y.(status := Killed)
    else if err.Some? then y.(status := Failed, reason := err.value)
    else y.(status := Completed)
  }

  class RunRecord {
    var exec: Exec

    /** The record a run is registered with. */
    constructor ()
      ensures exec == Exec(Running, "", None)
    {
      exec := Exec(Running, "", None);
    }

    /** The locked part of killRun: false is the conflict answer. */
    method Kill(reason: string) returns (accepted: bool)
      modifies this
      ensures accepted <==> !Terminal(old(exec).status)
      ensures exec == if accepted then KillExec(old(exec), reason) else old(exec)
    {
      if exec.status != Running {
        return false;
      }
      exec := exec.(status := Killed, reason := reason);
      return true;
    }

    /** The locked part of finalizeRun. */
    method Finalize(ctxCancelled: bool, err: Option<string>, end: int)
      modifies this
      ensures exec == FinalExec(old(exec), ctxCancelled, err, end)
      ensures Terminal(exec.status)
    {
      exec := exec.(endedAt := Some(end));
      if exec.status == Killed {
      } else if ctxCancelled {
        exec := exec.(status := Killed);
      } else if err.Some? {
        exec := exec.(status := Failed, reason := err.value);
      } else {
        exec := exec.(status := Completed);
      }
    }
  }

  // -------------------------------------------------------------------------
  // States
  // -------------------------------------------------------------------------

  /** direct: an open or worker-aggregated run, which keeps its findings only when it
      ends without an error; a closed run classifies what it has in any case. */
  datatype Config = Config(direct: bool, keepAccounts: bool, hasStore: bool)

  /** Where the goroutine of execute stands. */
  datatype Pc =
    | Starting | Working | Recording(found: seq<Finding>) | Finalizing
    | Fetching | Reporting | SavingRun(row: Exec, rows: seq<Finding>) | SavingFindings(rows: seq<Finding>)
    | TearingDown | Closing | Done

  /** Where a kill request stands. */
  datatype Phase = Checking | Refused(seen: Status) | Accepted | Guarded | Answered

  datatype Killer = Killer(reason: string, phase: Phase)

  datatype Save<T> = NotTried | Lost | Saved(value: T)

  /** boot: a bootstrap provider was built; seen: the context error finalizeRun read;
      winner: the kill request that was accepted; reported: the findings persistRun took
      for saving. */
  datatype State = State(
    pc: Pc,
    boot: bool,
    err: Option<string>,
    exec: Exec,
    findings: seq<Finding>,
    cancelled: bool,
    seen: bool,
    killers: seq<Killer>,
    winner: Option<nat>,
    reported: Option<seq<Finding>>,
    storedRun: Save<Exec>,
    storedFindings: Save<seq<Finding>>,
    teardowns: nat,
    finalizations: nat
  )

  const INIT := State(Starting, false, None, Exec(Running, "", None), [], false, false, [], None, None,
                      NotTried, NotTried, 0, 0)

  /** An empty reason in the request becomes the default one. */
  function ReasonOf(query: string): string {
    if query == "" then "operator kill" else query
  }

  // -------------------------------------------------------------------------
  // Steps
  // -------------------------------------------------------------------------

  datatype Step =
    | BootFails(why: string) | BootAbsent | BootBuilt
    | WorkEnds(problem: Option<string>, found: seq<Finding>) | Record
    | Finalize(end: int) | Fetch | Report | SaveRun(ok: bool) | SaveFindings(ok: bool) | Teardown | Close
    | KillArrives(query: string) | KillCheck(k: nat) | KillGuard(k: nat) | KillCancel(k: nat) | CancelContext
    | Annotate(key: Annotations.Key, verdict: string)

  predicate Enabled(s: State, step: Step) {
    match step
    case BootFails(_) => s.pc.Starting?
    case BootAbsent => s.pc.Starting?
    case BootBuilt => s.pc.Starting?
    case WorkEnds(_, _) => s.pc.Working?
    case Record => s.pc.Recording?
    case Finalize(_) => s.pc.Finalizing?
    case Fetch => s.pc.Fetching?
    case Report => s.pc.Reporting?
    case SaveRun(_) => s.pc.SavingRun?
    case SaveFindings(_) => s.pc.SavingFindings?
    case Teardown => s.pc.TearingDown?
    case Close => s.pc.Closing?
    case KillArrives(_) => true
    case KillCheck(k) => k < |s.killers| && s.killers[k].phase.Checking?
    case KillGuard(k) => k < |s.killers| && s.killers[k].phase.Accepted?
    case KillCancel(k) => k < |s.killers| && s.killers[k].phase.Guarded?
    case CancelContext => true
    case Annotate(_, _) => true
  }

  function Move(s: State, k: nat, p: Phase): State
    requires k < |s.killers|
  {
    s.(killers := s.killers[k := s.killers[k].(phase := p)])
  }

  function Apply(c: Config, s: State, step: Step): State
    requires Enabled(s, step)
  {
    match step
    case BootFails(why) => s.(pc := Finalizing, err := Some(why))
    case BootAbsent => s.(pc := Working)
    case BootBuilt => s.(pc := Working, boot := true)
    case WorkEnds(problem, found) =>
      s.(pc := if c.direct && problem.Some? then Finalizing else Recording(found), err := problem)
    case Record => s.(pc := Finalizing, findings := s.pc.found)
    case Finalize(end) =>
      s.(pc := Fetching, exec := FinalExec(s.exec, s.cancelled, s.err, end), seen := s.cancelled,
         finalizations := s.finalizations + 1)
    case Fetch => s.(pc := if c.hasStore then Reporting else TearingDown)
    case Report => s.(pc := SavingRun(s.exec, s.findings), reported := Some(s.findings))
    case SaveRun(ok) => s.(pc := SavingFindings(s.pc.rows), storedRun := if ok then Saved(s.pc.row) else Lost)
    case SaveFindings(ok) => s.(pc := TearingDown, storedFindings := if ok then Saved(s.pc.rows) else Lost)
    case Teardown => s.(pc := Closing, teardowns := s.teardowns + if s.boot && !c.keepAccounts then 1 else 0)
    case Close => s.(pc := Done)
    case KillArrives(query) => s.(killers := s.killers + [Killer(ReasonOf(query), Checking)])
    case KillCheck(k) =>
      if s.exec.status != Running then Move(s, k, Refused(s.exec.status))
      else Move(s, k, Accepted).(exec := KillExec(s.exec, s.killers[k].reason), winner := Some(k))
    case KillGuard(k) => Move(s, k, Guarded)
    case KillCancel(k) => Move(s, k, Answered).(cancelled := true)
    case CancelContext => s.(cancelled := true)
    case Annotate(key, verdict) => s.(findings := Annotations.Stamped(s.findings, key, verdict))
  }

  /** The state after a schedule, if every step of it could be taken. */
  function Execute(c: Config, s: State, steps: seq<Step>): Option<State>
    decreases |steps|
  {
    if steps == [] then Some(s)
    else if Enabled(s, steps[0]) then Execute(c, Apply(c, s, steps[0]), steps[1..])
    else None
  }

  // -------------------------------------------------------------------------
  // The invariant
  // -------------------------------------------------------------------------

  predicate WasAccepted(p: Phase) {
    p.Accepted? || p.Guarded? || p.Answered?
  }

  predicate BeforeFinalize(pc: Pc) {
    pc.Starting? || pc.Working? || pc.Recording? || pc.Finalizing?
  }

  /** At most one kill was accepted; until a run is finalized only that changes its status. */
  ghost predicate KillInv(s: State) {
    && (forall k :: 0 <= k < |s.killers| ==> (WasAccepted(s.killers[k].phase) <==> s.winner == Some(k)))
    && (s.winner.Some? ==> s.winner.value < |s.killers|)
    && (forall k :: 0 <= k < |s.killers| && s.killers[k].phase.Refused? ==> Terminal(s.killers[k].phase.seen))
  }

  /** The status and reason a run has to end with. */
  function Verdict(winner: Option<string>, seen: bool, err: Option<string>): (Status, string) {
    if winner.Some? then (Killed, winner.value)
    else if seen then (Killed, "")
    else if err.Some? then (Failed, err.value)
    else (Completed, "")
  }

  function WinningReason(s: State): Option<string> {
    if s.winner.Some? && s.winner.value < |s.killers| then Some(s.killers[s.winner.value].reason) else None
  }

  ghost predicate ExecInv(s: State) {
    && s.finalizations == (if BeforeFinalize(s.pc) then 0 else 1)
    && (s.exec.endedAt.None? <==> BeforeFinalize(s.pc))
    && (s.exec.status, s.exec.reason)
       == (if !BeforeFinalize(s.pc) then Verdict(WinningReason(s), s.seen, s.err)
           else if WinningReason(s).Some? then (Killed, WinningReason(s).value)
           else (Running, ""))
  }

  ghost predicate StoreInv(c: Config, s: State) {
    && (s.pc.SavingRun? ==> s.pc.row == s.exec && s.reported == Some(s.pc.rows))
    && (s.pc.SavingFindings? ==> s.reported == Some(s.pc.rows))
    && (s.storedRun.Saved? ==> s.storedRun.value == s.exec)
    && (s.storedFindings.Saved? ==> s.reported == Some(s.storedFindings.value))
    && (BeforeFinalize(s.pc) ==> s.reported.None?)
    && (s.reported.Some? ==> SameKeys(s.reported.value, s.findings))
    && (BeforeFinalize(s.pc) || s.pc.Fetching? || s.pc.Reporting? || s.pc.SavingRun? || !c.hasStore ==>
          s.storedRun.NotTried?)
    && (BeforeFinalize(s.pc) || s.pc.Fetching? || s.pc.Reporting? || s.pc.SavingRun? || s.pc.SavingFindings? ==>
          s.storedFindings.NotTried?)
    && (!c.hasStore ==> s.storedFindings.NotTried?)
    && (c.hasStore && (s.pc.SavingFindings? || AfterSave(s.pc)) ==> !s.storedRun.NotTried?)
    && (c.hasStore && AfterSave(s.pc) ==> !s.storedFindings.NotTried?)
    && (s.pc.Reporting? || s.pc.SavingRun? || s.pc.SavingFindings? ==> c.hasStore)
  }

  /** The same findings in the same order; only their verdicts may differ. */
  predicate SameKeys(a: seq<Finding>, b: seq<Finding>) {
    |a| == |b| && forall k :: 0 <= k < |a| ==> a[k].key == b[k].key
  }

  predicate AfterSave(pc: Pc) {
    pc.TearingDown? || pc.Closing? || pc.Done?
  }

  ghost predicate TeardownInv(c: Config, s: State) {
    s.teardowns == if (s.pc.Closing? || s.pc.Done?) && s.boot && !c.keepAccounts then 1 else 0
  }

  ghost predicate Inv(c: Config, s: State) {
    KillInv(s) && ExecInv(s) && StoreInv(c, s) && TeardownInv(c, s)
  }

  predicate IsKillStep(step: Step) {
    step.KillArrives? || step.KillCheck? || step.KillGuard? || step.KillCancel?
  }

  /** A kill request that moves on without being decided. */
  lemma MoveKeepsKills(s: State, k: nat, p: Phase)
    requires KillInv(s) && k < |s.killers|
    requires WasAccepted(p) == WasAccepted(s.killers[k].phase) && (p.Refused? ==> Terminal(p.seen))
    ensures KillInv(Move(s, k, p)) && WinningReason(Move(s, k, p)) == WinningReason(s)
  {}

  lemma AcceptKills(s: State, k: nat)
    requires KillInv(s) && k < |s.killers| && s.winner.None?
    ensures var t := Move(s, k, Accepted).(winner := Some(k));
      KillInv(t) && WinningReason(t) == Some(s.killers[k].reason)
  {}

  lemma KillCheckInv(c: Config, s: State, k: nat)
    requires Inv(c, s) && Enabled(s, KillCheck(k))
    ensures Inv(c, Apply(c, s, KillCheck(k)))
  {
    if s.exec.status == Running {
      AcceptKills(s, k);
    } else {
      MoveKeepsKills(s, k, Refused(s.exec.status));
    }
  }

  lemma KillArrivesInv(c: Config, s: State, query: string)
    requires Inv(c, s)
    ensures Inv(c, Apply(c, s, KillArrives(query)))
  {
    assert WinningReason(Apply(c, s, KillArrives(query))) == WinningReason(s);
  }

  lemma KillStepInv(c: Config, s: State, step: Step)
    requires Inv(c, s) && Enabled(s, step) && IsKillStep(step)
    ensures Inv(c, Apply(c, s, step))
  {
    match step {
      case KillArrives(query) => KillArrivesInv(c, s, query);
      case KillCheck(k) => KillCheckInv(c, s, k);
      case KillGuard(k) => MoveKeepsKills(s, k, Guarded);
      case KillCancel(k) => MoveKeepsKills(s, k, Answered);
    }
  }

  lemma RunStepExec(c: Config, s: State, step: Step)
    requires KillInv(s) && ExecInv(s) && Enabled(s, step) && !IsKillStep(step)
    ensures KillInv(Apply(c, s, step)) && ExecInv(Apply(c, s, step))
  {
    assert Apply(c, s, step).killers == s.killers && Apply(c, s, step).winner == s.winner;
  }

  lemma RunStepStore(c: Config, s: State, step: Step)
    requires StoreInv(c, s) && TeardownInv(c, s) && Enabled(s, step) && !IsKillStep(step)
    requires s.exec.endedAt.None? <==> BeforeFinalize(s.pc)
    ensures StoreInv(c, Apply(c, s, step)) && TeardownInv(c, Apply(c, s, step))
  {
    assert !step.Finalize? ==> Apply(c, s, step).exec == s.exec;
  }

  lemma RunStepInv(c: Config, s: State, step: Step)
    requires Inv(c, s) && Enabled(s, step) && !IsKillStep(step)
    ensures Inv(c, Apply(c, s, step))
  {
    RunStepExec(c, s, step);
    RunStepStore(c, s, step);
  }

  /** Every step of the run and of every kill request keeps the invariant. */
  lemma StepInv(c: Config, s: State, step: Step)
    requires Inv(c, s) && Enabled(s, step)
    ensures Inv(c, Apply(c, s, step))
  {
    if IsKillStep(step) {
      KillStepInv(c, s, step);
    } else {
      RunStepInv(c, s, step);
    }
  }

  lemma {:induction false} ExecuteInv(c: Config, s: State, steps: seq<Step>)
    requires Inv(c, s) && Execute(c, s, steps).Some?
    ensures Inv(c, Execute(c, s, steps).value)
    decreases |steps|
  {
    if steps != [] {
      StepInv(c, s, steps[0]);
      ExecuteInv(c, Apply(c, s, steps[0]), steps[1..]);
    }
  }

  // -------------------------------------------------------------------------
  // What every schedule does
  // -------------------------------------------------------------------------

  // -------------------------------------------------------------------------
  // What a schedule says by itself
  // -------------------------------------------------------------------------

  /** The reason texts of the kill requests, in the order they came in. */
  function Queries(steps: seq<Step>): seq<string> {
    if steps == [] then []
    else
      var before, last := Queries(steps[..|steps| - 1]), steps[|steps| - 1];
      if last.KillArrives? then before + [last.query] else before
  }

  /** The end time of the first finalize. */
  function EndOf(steps: seq<Step>): Option<int> {
    if steps == [] then None
    else
      var before, last := EndOf(steps[..|steps| - 1]), steps[|steps| - 1];
      if before.None? && last.Finalize? then Some(last.end) else before
  }

  /** The first request whose check runs before finalize does. */
  function FirstCheck(steps: seq<Step>): Option<nat> {
    if steps == [] then None
    else
      var front, last := steps[..|steps| - 1], steps[|steps| - 1];
      var before := FirstCheck(front);
      if before.None? && EndOf(front).None? && last.KillCheck? then Some(last.k) else before
  }

  /** The run's context is cancelled, by whomever, before finalize runs. */
  predicate CancelledInTime(steps: seq<Step>) {
    steps != []
    && var front, last := steps[..|steps| - 1], steps[|steps| - 1];
      CancelledInTime(front) || (EndOf(front).None? && (last.CancelContext? || last.KillCancel?))
  }

  /** The step that ended the work: a failed boot, or the engine's own return. */
  function WorkOf(steps: seq<Step>): Option<Step> {
    if steps == [] then None
    else
      var before, last := WorkOf(steps[..|steps| - 1]), steps[|steps| - 1];
      if before.None? && (last.BootFails? || last.WorkEnds?) then Some(last) else before
  }

  function WorkError(work: Option<Step>): Option<string> {
    match work
    case Some(BootFails(why)) => Some(why)
    case Some(WorkEnds(problem, _)) => problem
    case _ => None
  }

  /** The findings a run is left with: what its work found, unless it did not boot, or is
      open or worker-aggregated and ended with an error. */
  function Found(c: Config, work: Option<Step>): seq<Finding> {
    match work
    case Some(WorkEnds(problem, found)) => if c.direct && problem.Some? then [] else found
    case _ => []
  }

  /** The status and reason the schedule calls for. */
  function Outcome(steps: seq<Step>): (Status, string) {
    var queries, first := Queries(steps), FirstCheck(steps);
    if first.Some? && first.value < |queries| then
      (Killed, if queries[first.value] == "" then "operator kill" else queries[first.value])
    else if CancelledInTime(steps) then (Killed, "")
    else
      match WorkError(WorkOf(steps))
      case Some(why) => (Failed, why)
      case None => (Completed, "")
  }

  // -------------------------------------------------------------------------
  // What a state keeps of its schedule
  // -------------------------------------------------------------------------

  ghost predicate KeepsRequests(steps: seq<Step>, s: State) {
    && |s.killers| == |Queries(steps)|
    && (forall k :: 0 <= k < |s.killers| ==>
          s.killers[k].reason == if Queries(steps)[k] == "" then "operator kill" else Queries(steps)[k])
    && s.winner == FirstCheck(steps)
    && (forall k :: 0 <= k < |s.killers| && s.killers[k].phase.Answered? ==> s.cancelled)
  }

  ghost predicate KeepsEnd(steps: seq<Step>, s: State) {
    && s.exec.endedAt == EndOf(steps)
    && CancelledInTime(steps) == (if EndOf(steps).None? then s.cancelled else s.seen)
  }

  ghost predicate KeepsWork(c: Config, steps: seq<Step>, s: State) {
    && s.boot == (BootBuilt in steps)
    && (WorkOf(steps).None? <==> s.pc.Starting? || s.pc.Working?)
    && s.err == WorkError(WorkOf(steps))
    && (s.pc.Recording? ==> s.pc.found == Found(c, WorkOf(steps)))
    && SameKeys(s.findings,
                if s.pc.Starting? || s.pc.Working? || s.pc.Recording? then [] else Found(c, WorkOf(steps)))
  }

  ghost predicate KeepsSaves(steps: seq<Step>, s: State) {
    && (s.storedRun.Saved? <==> SaveRun(true) in steps)
    && (s.storedRun.Lost? <==> SaveRun(false) in steps)
    && (s.storedFindings.Saved? <==> SaveFindings(true) in steps)
    && (s.storedFindings.Lost? <==> SaveFindings(false) in steps)
  }

  ghost predicate Keeps(c: Config, steps: seq<Step>, s: State) {
    KeepsRequests(steps, s) && KeepsEnd(steps, s) && KeepsWork(c, steps, s) && KeepsSaves(steps, s)
  }

  lemma OneMoreStep(steps: seq<Step>, step: Step)
    ensures (steps + [step])[..|steps|] == steps && forall x :: x in steps + [step] <==> x in steps || x == step
  {}

  lemma CheckKeepsRequests(c: Config, steps: seq<Step>, s: State, k: nat)
    requires ExecInv(s) && KillInv(s) && KeepsRequests(steps, s) && KeepsEnd(steps, s) && Enabled(s, KillCheck(k))
    ensures KeepsRequests(steps + [KillCheck(k)], Apply(c, s, KillCheck(k)))
  {
    OneMoreStep(steps, KillCheck(k));
    assert s.exec.status == Running <==> s.winner.None? && EndOf(steps).None?;
  }

  lemma KillKeepsRequests(c: Config, steps: seq<Step>, s: State, step: Step)
    requires KeepsRequests(steps, s) && Enabled(s, step) && IsKillStep(step) && !step.KillCheck?
    ensures KeepsRequests(steps + [step], Apply(c, s, step))
  {
    OneMoreStep(steps, step);
    assert Apply(c, s, step).winner == s.winner;
  }

  lemma RunKeepsRequests(c: Config, steps: seq<Step>, s: State, step: Step)
    requires KeepsRequests(steps, s) && Enabled(s, step) && !IsKillStep(step)
    ensures KeepsRequests(steps + [step], Apply(c, s, step))
  {
    OneMoreStep(steps, step);
    var t := Apply(c, s, step);
    assert t.killers == s.killers && t.winner == s.winner && (s.cancelled ==> t.cancelled);
  }

  lemma StepKeepsRequests(c: Config, steps: seq<Step>, s: State, step: Step)
    requires Inv(c, s) && KeepsRequests(steps, s) && KeepsEnd(steps, s) && Enabled(s, step)
    ensures KeepsRequests(steps + [step], Apply(c, s, step))
  {
    if step.KillCheck? {
      CheckKeepsRequests(c, steps, s, step.k);
    } else if IsKillStep(step) {
      KillKeepsRequests(c, steps, s, step);
    } else {
      RunKeepsRequests(c, steps, s, step);
    }
  }

  lemma StepKeepsEnd(c: Config, steps: seq<Step>, s: State, step: Step)
    requires ExecInv(s) && KeepsEnd(steps, s) && Enabled(s, step)
    ensures KeepsEnd(steps + [step], Apply(c, s, step))
  {
    OneMoreStep(steps, step);
    var t := Apply(c, s, step);
    assert !step.Finalize? ==> t.exec.endedAt == s.exec.endedAt && t.seen == s.seen;
    assert !step.CancelContext? && !step.KillCancel? ==> t.cancelled == s.cancelled;
  }

  lemma StepKeepsWork(c: Config, steps: seq<Step>, s: State, step: Step)
    requires KeepsWork(c, steps, s) && Enabled(s, step)
    ensures KeepsWork(c, steps + [step], Apply(c, s, step))
  {
    OneMoreStep(steps, step);
  }

  lemma StepKeepsSaves(c: Config, steps: seq<Step>, s: State, step: Step)
    requires StoreInv(c, s) && KeepsSaves(steps, s) && Enabled(s, step)
    ensures KeepsSaves(steps + [step], Apply(c, s, step))
  {
    OneMoreStep(steps, step);
    var t := Apply(c, s, step);
    assert step.SaveRun? ==> s.storedRun.NotTried?;
    assert step.SaveFindings? ==> s.storedFindings.NotTried?;
    assert !step.SaveRun? ==> t.storedRun == s.storedRun;
    assert !step.SaveFindings? ==> t.storedFindings == s.storedFindings;
  }

  lemma {:induction false} ExecuteLast(c: Config, s: State, steps: seq<Step>, step: Step)
    requires Execute(c, s, steps + [step]).Some?
    ensures Execute(c, s, steps).Some? && Enabled(Execute(c, s, steps).value, step)
    ensures Execute(c, s, steps + [step]).value == Apply(c, Execute(c, s, steps).value, step)
    decreases |steps|
  {
    if steps != [] {
      assert (steps + [step])[1..] == steps[1..] + [step];
      ExecuteLast(c, Apply(c, s, steps[0]), steps[1..], step);
    }
  }

  /** Every state is what its schedule makes of it. */
  lemma {:induction false} ExecuteKeeps(c: Config, steps: seq<Step>)
    requires Execute(c, INIT, steps).Some?
    ensures Keeps(c, steps, Execute(c, INIT, steps).value)
    decreases |steps|
  {
    if steps != [] {
      var front, step := steps[..|steps| - 1], steps[|steps| - 1];
      assert front + [step] == steps;
      ExecuteLast(c, INIT, front, step);
      ExecuteKeeps(c, front);
      ExecuteInv(c, INIT, front);
      var s := Execute(c, INIT, front).value;
      StepKeepsRequests(c, front, s, step);
      StepKeepsEnd(c, front, s, step);
      StepKeepsWork(c, front, s, step);
      StepKeepsSaves(c, front, s, step);
    }
  }

  /** Once done is closed: the run was finalized exactly once, and its status, reason and
      end time are those its schedule calls for; the live findings are what the work found,
      in order, up to verdicts stamped meanwhile; what is stored is the final record and
      findings with the same keys, each exactly if its save went through; and the accounts
      the run provisioned were torn down once. */
  lemma DoneRunsAreSettled(c: Config, steps: seq<Step>)
    requires Execute(c, INIT, steps).Some? && Execute(c, INIT, steps).value.pc.Done?
    ensures var s := Execute(c, INIT, steps).value;
      && s.finalizations == 1 && EndOf(steps).Some?
      && s.exec == Exec(Outcome(steps).0, Outcome(steps).1, EndOf(steps))
    ensures var s := Execute(c, INIT, steps).value;
      && WorkOf(steps).Some? && SameKeys(s.findings, Found(c, WorkOf(steps)))
      && (s.storedFindings.Saved? ==> SameKeys(s.storedFindings.value, Found(c, WorkOf(steps))))
    ensures var s := Execute(c, INIT, steps).value;
      && (s.storedRun == if SaveRun(true) in steps then Saved(s.exec) else if c.hasStore then Lost else NotTried)
      && (s.storedFindings.Saved? <==> SaveFindings(true) in steps)
      && (s.storedFindings.NotTried? <==> !c.hasStore)
    ensures var s := Execute(c, INIT, steps).value;
      s.teardowns == if BootBuilt in steps && !c.keepAccounts then 1 else 0
  {
    ExecuteInv(c, INIT, steps);
    ExecuteKeeps(c, steps);
  }

  /** At any moment of any schedule at most one kill has been accepted, the first one
      checked; the run is then Killed with exactly the reason that request gave, and once it
      is answered the run's context is cancelled. Every request turned away saw a terminal
      status. */
  lemma OneKillWins(c: Config, steps: seq<Step>, k: nat)
    requires Execute(c, INIT, steps).Some? && k < |Execute(c, INIT, steps).value.killers|
    ensures var s := Execute(c, INIT, steps).value;
      WasAccepted(s.killers[k].phase) ==>
        && FirstCheck(steps) == Some(k) && |Queries(steps)| == |s.killers|
        && s.exec.status == Killed
        && s.exec.reason == (if Queries(steps)[k] == "" then "operator kill" else Queries(steps)[k])
        && (s.killers[k].phase.Answered? ==> s.cancelled)
        && forall j :: 0 <= j < |s.killers| && j != k ==> !WasAccepted(s.killers[j].phase)
    ensures var s := Execute(c, INIT, steps).value;
      s.killers[k].phase.Refused? ==> Terminal(s.killers[k].phase.seen)
  {
    ExecuteInv(c, INIT, steps);
    ExecuteKeeps(c, steps);
  }

  lemma StepKeepsTerminal(c: Config, s: State, step: Step)
    requires ExecInv(s) && Enabled(s, step) && Terminal(s.exec.status)
    ensures Apply(c, s, step).exec.status == s.exec.status && Apply(c, s, step).exec.reason == s.exec.reason
    ensures s.exec.endedAt.Some? ==> Apply(c, s, step).exec == s.exec
  {}

  lemma StepKeepsKeys(c: Config, s: State, step: Step)
    requires Enabled(s, step) && !BeforeFinalize(s.pc)
    ensures SameKeys(Apply(c, s, step).findings, s.findings)
  {}

  /** Terminal states are absorbing: whatever runs on, a terminal status and its reason
      never change; once finalized nothing of the record does, and the findings change in
      nothing but their verdicts. */
  lemma {:induction false} TerminalIsAbsorbing(c: Config, s: State, steps: seq<Step>)
    requires Inv(c, s) && Terminal(s.exec.status) && Execute(c, s, steps).Some?
    ensures var t := Execute(c, s, steps).value;
      && t.exec.status == s.exec.status && t.exec.reason == s.exec.reason
      && (s.exec.endedAt.Some? ==> t.exec == s.exec && SameKeys(t.findings, s.findings))
    decreases |steps|
  {
    if steps != [] {
      StepInv(c, s, steps[0]);
      StepKeepsTerminal(c, s, steps[0]);
      if s.exec.endedAt.Some? {
        StepKeepsKeys(c, s, steps[0]);
      }
      TerminalIsAbsorbing(c, Apply(c, s, steps[0]), steps[1..]);
    }
  }

  /** A context cancelled before finalize leaves no other status than Killed, with no
      reason of its own. */
  lemma {:induction false} CancelledRunsEndKilled(c: Config, s: State, steps: seq<Step>)
    requires Inv(c, s) && s.cancelled && BeforeFinalize(s.pc)
    requires Execute(c, s, steps).Some? && !BeforeFinalize(Execute(c, s, steps).value.pc)
    ensures var t := Execute(c, s, steps).value;
      t.exec.status == Killed && (t.winner.None? ==> t.exec.reason == "")
    decreases |steps|
  {
    var t := Apply(c, s, steps[0]);
    StepInv(c, s, steps[0]);
    if BeforeFinalize(t.pc) {
      CancelledRunsEndKilled(c, t, steps[1..]);
    } else {
      SeenStays(c, t, steps[1..]);
      ExecuteInv(c, t, steps[1..]);
    }
  }

  lemma StepKeepsSeen(c: Config, s: State, step: Step)
    requires !BeforeFinalize(s.pc) && Enabled(s, step)
    ensures Apply(c, s, step).seen == s.seen && !BeforeFinalize(Apply(c, s, step).pc)
  {}

  lemma {:induction false} SeenStays(c: Config, s: State, steps: seq<Step>)
    requires !BeforeFinalize(s.pc) && Execute(c, s, steps).Some?
    ensures Execute(c, s, steps).value.seen == s.seen && !BeforeFinalize(Execute(c, s, steps).value.pc)
    decreases |steps|
  {
    if steps != [] {
      StepKeepsSeen(c, s, steps[0]);
      SeenStays(c, Apply(c, s, steps[0]), steps[1..]);
    }
  }

  /** Nobody has tried to store the run yet. */
  predicate Unstored(c: Config, pc: Pc) {
    !c.hasStore || BeforeFinalize(pc) || pc.Fetching? || pc.Reporting? || pc.SavingRun?
  }

  /** A run that looks terminal, and so can be evicted, while nothing of it is stored: before
      it is finalized exactly if a kill was accepted, and from then on, however it ended,
      exactly until saving its row is tried; without a store always. */
  lemma TerminalButUnstored(c: Config, steps: seq<Step>)
    requires Execute(c, INIT, steps).Some?
    ensures var s := Execute(c, INIT, steps).value;
      Terminal(s.exec.status) && s.storedRun.NotTried?
      <==> if BeforeFinalize(s.pc) then s.winner.Some? else Unstored(c, s.pc)
    ensures var s := Execute(c, INIT, steps).value;
      Unstored(c, s.pc) ==> s.storedRun.NotTried? && s.storedFindings.NotTried?
  {
    ExecuteInv(c, INIT, steps);
  }

  lemma ExecuteFirst(c: Config, s: State, step: Step, rest: seq<Step>)
    requires Enabled(s, step)
    ensures Execute(c, s, [step] + rest) == Execute(c, Apply(c, s, step), rest)
  {
    assert ([step] + rest)[1..] == rest;
  }

  /** A killed run at work is such a run. */
  lemma KilledButUnstored(c: Config) returns (steps: seq<Step>)
    ensures Execute(c, INIT, steps).Some?
    ensures var s := Execute(c, INIT, steps).value;
      s.pc.Working? && s.exec.status == Killed && s.storedRun.NotTried? && s.storedFindings.NotTried?
  {
    var s1 := Apply(c, INIT, BootAbsent);
    var s2 := Apply(c, s1, KillArrives("stop"));
    steps := [BootAbsent] + ([KillArrives("stop")] + ([KillCheck(0)] + []));
    ExecuteFirst(c, s2, KillCheck(0), []);
    ExecuteFirst(c, s1, KillArrives("stop"), [KillCheck(0)] + []);
    ExecuteFirst(c, INIT, BootAbsent, [KillArrives("stop")] + ([KillCheck(0)] + []));
  }

  /** So is one that completed and that nobody killed, while its metrics are fetched. */
  lemma CompletedButUnstored(c: Config) returns (steps: seq<Step>)
    ensures Execute(c, INIT, steps).Some?
    ensures var s := Execute(c, INIT, steps).value;
      && s.pc.Fetching? && s.exec.status == Completed && s.killers == []
      && s.storedRun.NotTried? && s.storedFindings.NotTried?
  {
    var s1 := Apply(c, INIT, BootAbsent);
    var s2 := Apply(c, s1, WorkEnds(None, []));
    var s3 := Apply(c, s2, Record);
    steps := [BootAbsent] + ([WorkEnds(None, [])] + ([Record] + ([Finalize(0)] + [])));
    ExecuteFirst(c, s3, Finalize(0), []);
    ExecuteFirst(c, s2, Record, [Finalize(0)] + []);
    ExecuteFirst(c, s1, WorkEnds(None, []), [Record] + ([Finalize(0)] + []));
    ExecuteFirst(c, INIT, BootAbsent, [WorkEnds(None, [])] + ([Record] + ([Finalize(0)] + [])));
  }

  // -------------------------------------------------------------------------
  // Every run comes to its end
  // -------------------------------------------------------------------------

  function Rank(pc: Pc): nat {
    match pc
    case Starting => 10
    case Working => 9
    case Recording(_) => 8
    case Finalizing => 7
    case Fetching => 6
    case Reporting => 5
    case SavingRun(_, _) => 4
    case SavingFindings(_) => 3
    case TearingDown => 2
    case Closing => 1
    case Done => 0
  }

  predicate IsRunStep(step: Step) {
    !IsKillStep(step) && !step.CancelContext? && !step.Annotate?
  }

  function RunSteps(steps: seq<Step>): nat {
    if steps == [] then 0 else (if IsRunStep(steps[0]) then 1 else 0) + RunSteps(steps[1..])
  }

  lemma StepLowersRank(c: Config, s: State, step: Step)
    requires Enabled(s, step)
    ensures Rank(Apply(c, s, step).pc) + (if IsRunStep(step) then 1 else 0) <= Rank(s.pc)
  {}

  /** Kill requests never hold the run up: each step of its own brings it closer to done,
      so however many requests come in, at most ten of those are left to take. */
  lemma {:induction false} RunStepsAreBounded(c: Config, s: State, steps: seq<Step>)
    requires Execute(c, s, steps).Some?
    ensures RunSteps(steps) + Rank(Execute(c, s, steps).value.pc) <= Rank(s.pc)
    decreases |steps|
  {
    if steps != [] {
      StepLowersRank(c, s, steps[0]);
      RunStepsAreBounded(c, Apply(c, s, steps[0]), steps[1..]);
    }
  }

  /** Until done is closed some step of the run itself can be taken. */
  lemma RunIsNeverBlocked(s: State) returns (step: Step)
    requires !s.pc.Done?
    ensures IsRunStep(step) && Enabled(s, step)
  {
    match s.pc {
      case Starting => step := BootAbsent;
      case Working => step := WorkEnds(None, []);
      case Recording(_) => step := Record;
      case Finalizing => step := Finalize(0);
      case Fetching => step := Fetch;
      case Reporting => step := Report;
      case SavingRun(_, _) => step := SaveRun(true);
      case SavingFindings(_) => step := SaveFindings(true);
      case TearingDown => step := Teardown;
      case Closing => step := Close;
    }
  }

  /** Whatever the run is doing, a kill request can come in, one that is under way can take
      its next step, the context can be cancelled and a finding annotated. */
  lemma KillsAreNeverBlocked(s: State, k: nat, query: string, key: Annotations.Key, verdict: string)
    requires k < |s.killers|
    ensures Enabled(s, KillArrives(query)) && Enabled(s, CancelContext) && Enabled(s, Annotate(key, verdict))
    ensures s.killers[k].phase.Refused? || s.killers[k].phase.Answered?
         || Enabled(s, KillCheck(k)) || Enabled(s, KillGuard(k)) || Enabled(s, KillCancel(k))
  {}
}
