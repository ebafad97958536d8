/** Replaying a finding's session in isolation and classifying its root cause. */
module RootCause {
  import opened Options

  type Id = string

  datatype Category = Threshold | Contract | Availability | Mutation

  /** failed: the step ended in a transport error. */
  datatype StepResult = StepResult(node: Id, failed: bool, statusCode: int, latencyMs: real)

  datatype ReplayStep = ReplayStep(node: Id, statusCode: int, latencyMs: real, matched: bool)

  datatype Attempt = Attempt(reproduced: bool, steps: seq<ReplayStep>)

  datatype RootCauseClass = Functional | LoadDependent | Flaky

  // -------------------------------------------------------------------------
  // The signal of a finding
  // -------------------------------------------------------------------------

  datatype Signal = ServerError(api: Id) | Unavailable(api: Id) | ErrorRate | SlowerThan(gate: real)

  /** findingSignal: None for a finding that cannot be replayed. */
  function FindingSignal(category: Category, ref: string, gate: real): Option<Signal> {
    match category
    case Contract => Some(ServerError(ref))
    case Availability => Some(Unavailable(ref))
    case Threshold =>
      if ref == "error-rate" then Some(ErrorRate)
      else if ref == "p95-latency" then Some(SlowerThan(gate))
      else None
    case Mutation => None
  }

  predicate Matches(signal: Signal, r: StepResult) {
    match signal
    case ServerError(api) => r.node == api && !r.failed && r.statusCode >= 500
    case Unavailable(api) => r.node == api && (r.failed || r.statusCode >= 500)
    case ErrorRate => r.failed || r.statusCode >= 400
    case SlowerThan(gate) => gate > 0.0 && !r.failed && r.latencyMs > gate
  }

  /** Some request of the replayed session carried the signal. */
  ghost predicate Shows(signal: Signal, results: seq<StepResult>) {
    exists k :: 0 <= k < |results| && Matches(signal, results[k])
  }

  /** Which answers of a session decide on a finding: for a contract finding a 5xx answer of
      its own node, and no transport error; for an availability finding one of either; for
      the error rate any transport error or 4xx or 5xx answer of any node; for the latency
      any answer slower than a positive gate. Nothing else can be replayed. */
  lemma AnswersThatDecide(ref: string, gate: real, results: seq<StepResult>)
    ensures Shows(FindingSignal(Contract, ref, gate).value, results) <==>
      exists k :: 0 <= k < |results| && results[k].node == ref && !results[k].failed && 500 <= results[k].statusCode
    ensures Shows(FindingSignal(Availability, ref, gate).value, results) <==>
      exists k :: 0 <= k < |results| && results[k].node == ref && (results[k].failed || 500 <= results[k].statusCode)
    ensures Shows(FindingSignal(Threshold, "error-rate", gate).value, results) <==>
      exists k :: 0 <= k < |results| && (results[k].failed || 400 <= results[k].statusCode)
    ensures Shows(FindingSignal(Threshold, "p95-latency", gate).value, results) <==>
      gate > 0.0 && exists k :: 0 <= k < |results| && !results[k].failed && results[k].latencyMs > gate
    ensures FindingSignal(Mutation, ref, gate).None?
    ensures FindingSignal(Threshold, ref, gate).Some? <==> ref == "error-rate" || ref == "p95-latency"
  {
    assert "error-rate"[0] != "p95-latency"[0];
    ShowsAtNode(ref, results);
  }

  lemma ShowsAtNode(ref: string, results: seq<StepResult>)
    ensures Shows(ServerError(ref), results) <==>
      exists k :: 0 <= k < |results| && results[k].node == ref && !results[k].failed && 500 <= results[k].statusCode
    ensures Shows(Unavailable(ref), results) <==>
      exists k :: 0 <= k < |results| && results[k].node == ref && (results[k].failed || 500 <= results[k].statusCode)
  {
    forall k | 0 <= k < |results|
      ensures Matches(ServerError(ref), results[k]) <==>
        results[k].node == ref && !results[k].failed && 500 <= results[k].statusCode
      ensures Matches(Unavailable(ref), results[k]) <==>
        results[k].node == ref && (results[k].failed || 500 <= results[k].statusCode)
    {}
  }

  // -------------------------------------------------------------------------
  // Attempts
  // -------------------------------------------------------------------------

  function Seen(signal: Signal, r: StepResult): ReplayStep {
    ReplayStep(r.node, r.statusCode, r.latencyMs, Matches(signal, r))
  }

  /** buildAttempt */
  method BuildAttempt(results: seq<StepResult>, signal: Signal) returns (at: Attempt)
    ensures at.reproduced <==> Shows(signal, results)
    ensures |at.steps| == |results| && forall k :: 0 <= k < |results| ==> at.steps[k] == Seen(signal, results[k])
  {
    var reproduced := false;
    var steps: seq<ReplayStep> := [];
    for i := 0 to |results|
      invariant reproduced <==> exists k :: 0 <= k < i && Matches(signal, results[k])
      invariant |steps| == i && forall k :: 0 <= k < i ==> steps[k] == Seen(signal, results[k])
    {
      var r := results[i];
      var st := ReplayStep(r.node, r.statusCode, r.latencyMs, Matches(signal, r));
      if st.matched {
        reproduced := true;
      }
      steps := steps + [st];
    }
    return Attempt(reproduced, steps);
  }

  /** How many replays show the signal. */
  ghost function ShowCount(signal: Signal, replays: seq<seq<StepResult>>): (n: nat)
    ensures n <= |replays|
  {
    if replays == [] then 0
    else ShowCount(signal, replays[..|replays| - 1]) + if Shows(signal, replays[|replays| - 1]) then 1 else 0
  }

  lemma {:induction false} CountAllOrNone(signal: Signal, replays: seq<seq<StepResult>>)
    ensures ShowCount(signal, replays) == |replays| <==> forall k :: 0 <= k < |replays| ==> Shows(signal, replays[k])
    ensures ShowCount(signal, replays) == 0 <==> forall k :: 0 <= k < |replays| ==> !Shows(signal, replays[k])
    decreases |replays|
  {
    if replays != [] {
      var init := replays[..|replays| - 1];
      CountAllOrNone(signal, init);
      assert forall k :: 0 <= k < |init| ==> init[k] == replays[k];
    }
  }

  /** rootCauseClass: the count of all attempts is looked at before the count of none. */
  function ClassOf(reproduced: nat, attempts: nat): RootCauseClass {
    if reproduced == attempts then Functional
    else if reproduced == 0 then LoadDependent
    else Flaky
  }

  // -------------------------------------------------------------------------
  // The replay loop of ReproduceFinding
  // -------------------------------------------------------------------------

  const DEFAULT_REPRODUCE_ATTEMPTS := 3
  const MAX_REPRODUCE_ATTEMPTS := 20

  datatype Outcome = Ran(results: seq<StepResult>) | Aborted(why: string)

  datatype Reproduction = Refused(why: string)
                        | Reproduction(attempts: seq<Attempt>, reproduced: nat, verdict: RootCauseClass)

  function AttemptsFor(requested: int): (n: int)
    ensures n == requested || (requested == 0 && n == 3)
    ensures requested == 0 ==> n == 3
  {
    if requested == 0 then DEFAULT_REPRODUCE_ATTEMPTS else requested
  }

  /** The replays up to n, if none of them was aborted. */
  predicate AllRan(replay: nat -> Outcome, n: nat) {
    forall k :: 0 <= k < n ==> replay(k).Ran?
  }

  function Results(replay: nat -> Outcome, n: nat): seq<seq<StepResult>>
    requires AllRan(replay, n)
  {
    if n == 0 then [] else Results(replay, n - 1) + [replay(n - 1).results]
  }

  lemma {:induction false} ResultsAt(replay: nat -> Outcome, n: nat)
    requires AllRan(replay, n)
    ensures |Results(replay, n)| == n && forall k :: 0 <= k < n ==> Results(replay, n)[k] == replay(k).results
  {
    if n > 0 {
      ResultsAt(replay, n - 1);
    }
  }

  /** The verdict on a finding is functional exactly when every replay shows its signal, load
      dependent exactly when none does, and flaky otherwise; a bad count, a finding without
      a signal and an aborted replay yield no verdict. gate is the latency threshold. */
  method Reproduce(requested: int, category: Category, ref: string, gate: real, replay: nat -> Outcome)
    returns (r: Reproduction)
    ensures var n := AttemptsFor(requested);
      r.Reproduction? <==>
        1 <= n <= 20 && FindingSignal(category, ref, gate).Some? && AllRan(replay, n)
    ensures r.Reproduction? ==>
      IsReproduction(r, FindingSignal(category, ref, gate).value, replay, AttemptsFor(requested))
  {
    var n := requested;
    if n == 0 {
      n := DEFAULT_REPRODUCE_ATTEMPTS;
    }
    if n < 1 || n > MAX_REPRODUCE_ATTEMPTS {
      return Refused("attempts out of range");
    }
    var signal := FindingSignal(category, ref, gate);
    if signal.None? {
      return Refused("no replay signal");
    }
    var attempts, reproduced, aborted := Replay(n, signal.value, replay);
    if aborted.Some? {
      return Refused(aborted.value);
    }
    VerdictOf(signal.value, replay, n);
    r := Reproduction(attempts, reproduced, ClassOf(reproduced, n));
  }

  /** Attempt for attempt what the n replays show, their tally, and the verdict on it. */
  ghost predicate IsReproduction(r: Reproduction, signal: Signal, replay: nat -> Outcome, n: nat)
    requires r.Reproduction? && AllRan(replay, n)
  {
    && |r.attempts| == n && r.reproduced == ShowCount(signal, Results(replay, n))
    && (forall k :: 0 <= k < n ==> (r.attempts[k].reproduced <==> Shows(signal, replay(k).results)))
    && (r.verdict == Functional <==> AllShow(signal, replay, n))
    && (r.verdict == LoadDependent <==> NoneShows(signal, replay, n))
  }

  ghost predicate AllShow(signal: Signal, replay: nat -> Outcome, n: nat)
    requires AllRan(replay, n)
  {
    forall k :: 0 <= k < n ==> Shows(signal, replay(k).results)
  }

  ghost predicate NoneShows(signal: Signal, replay: nat -> Outcome, n: nat)
    requires AllRan(replay, n)
  {
    forall k :: 0 <= k < n ==> !Shows(signal, replay(k).results)
  }

  /** The class of the tally, in terms of the replays. */
  lemma VerdictOf(signal: Signal, replay: nat -> Outcome, n: nat)
    requires n > 0 && AllRan(replay, n)
    ensures var verdict := ClassOf(ShowCount(signal, Results(replay, n)), n);
      && (verdict == Functional <==> AllShow(signal, replay, n))
      && (verdict == LoadDependent <==> NoneShows(signal, replay, n))
  {
    var rs := Results(replay, n);
    ResultsAt(replay, n);
    CountAllOrNone(signal, rs);
    assert forall k :: 0 <= k < n ==> rs[k] == replay(k).results;
  }

  /** Where the node of a finding is only ever met by transport errors, the verdict on a
      contract finding is load dependent and on an availability finding functional. */
  lemma TransportErrorsAlone(ref: string, gate: real, replay: nat -> Outcome, n: nat)
    requires AllRan(replay, n)
    requires forall k :: 0 <= k < n ==> ref in Nodes(replay(k).results)
    requires forall k, r :: 0 <= k < n && r in replay(k).results ==> r.failed
    ensures NoneShows(FindingSignal(Contract, ref, gate).value, replay, n)
    ensures AllShow(FindingSignal(Availability, ref, gate).value, replay, n)
  {
    forall k | 0 <= k < n
      ensures !Shows(ServerError(ref), replay(k).results) && Shows(Unavailable(ref), replay(k).results)
    {
      var i :| 0 <= i < |replay(k).results| && replay(k).results[i].node == ref;
      assert replay(k).results[i] in replay(k).results;
      ShowsAtNode(ref, replay(k).results);
    }
  }

  function Nodes(results: seq<StepResult>): set<Id> {
    set r | r in results :: r.node
  }

  /** The loop: the attempts one by one, until one is aborted. */
  method Replay(n: nat, signal: Signal, replay: nat -> Outcome)
    returns (attempts: seq<Attempt>, reproduced: nat, aborted: Option<string>)
    ensures aborted.None? <==> AllRan(replay, n)
    ensures aborted.None? ==> reproduced == ShowCount(signal, Results(replay, n)) && |attempts| == n
    ensures aborted.None? ==>
      forall k :: 0 <= k < n ==> (attempts[k].reproduced <==> Shows(signal, replay(k).results))
  {
    attempts, reproduced, aborted := [], 0, None;
    for i := 0 to n
      invariant AllRan(replay, i) && aborted.None?
      invariant |attempts| == i && reproduced == ShowCount(signal, Results(replay, i))
      invariant forall k :: 0 <= k < i ==> (attempts[k].reproduced <==> Shows(signal, replay(k).results))
    {
      var outcome := replay(i);
      if outcome.Aborted? {
        return attempts, reproduced, Some(outcome.why);
      }
      var at := BuildAttempt(outcome.results, signal);
      attempts := attempts + [at];
      CountOneMore(signal, Results(replay, i), outcome.results);
      if at.reproduced {
        reproduced := reproduced + 1;
      }
    }
  }

  lemma CountOneMore(signal: Signal, replays: seq<seq<StepResult>>, results: seq<StepResult>)
    ensures ShowCount(signal, replays + [results])
         == ShowCount(signal, replays) + if Shows(signal, results) then 1 else 0
  {
    assert (replays + [results])[..|replays|] == replays;
  }
}
