/** Concurrent mid-run refreshes of one credential: a single flight per key, and a holder
    that every caller sets on its own after it. */
module RefreshFlight {
  import opened Options

  // -------------------------------------------------------------------------
  // States. Credentials are numbered in the order the identity provider issued them;
  // number 0 is the one the holder was seeded with.
  // -------------------------------------------------------------------------

  /** result and closed: the fields of a refreshCall; lead: the session that made it. */
  datatype Call = Call(result: Option<nat>, closed: bool, lead: nat)

  /** Where a session stands in its refresh closure. A None result is a failed exchange. */
  datatype Phase =
    | Idle
    | Waiting(call: nat)
    | Peeking(call: nat) | Exchanging(call: nat, presented: nat) | Storing(call: nat, minted: nat)
    | Publishing(call: nat, result: Option<nat>) | Closing(call: nat, result: Option<nat>)
    | Delivering(call: nat, result: Option<nat>)
    | Done(call: nat, result: Option<nat>)

  /** leader: the session whose exchange is in flight; presented: the credentials the
      successful exchanges presented. */
  datatype State = State(
    issued: nat,
    cache: nat,
    holder: nat,
    inflight: Option<nat>,
    leader: Option<nat>,
    calls: seq<Call>,
    sessions: seq<Phase>,
    presented: seq<nat>
  )

  const INIT := State(0, 0, 0, None, None, [], [], [])

  datatype Step =
    | Arrive | Enter(i: nat)
    | Peek(i: nat) | Exchange(i: nat, ok: bool) | Store(i: nat) | Publish(i: nat) | CloseDone(i: nat)
    | Wake(i: nat) | Deliver(i: nat)

  predicate Enabled(s: State, step: Step) {
    match step
    case Arrive => true
    case Enter(i) => i < |s.sessions| && s.sessions[i].Idle? && (s.inflight.Some? ==> s.inflight.value < |s.calls|)
    case Peek(i) => i < |s.sessions| && s.sessions[i].Peeking?
    case Exchange(i, _) => i < |s.sessions| && s.sessions[i].Exchanging?
    case Store(i) => i < |s.sessions| && s.sessions[i].Storing?
    case Publish(i) => i < |s.sessions| && s.sessions[i].Publishing? && s.sessions[i].call < |s.calls|
    case CloseDone(i) => i < |s.sessions| && s.sessions[i].Closing? && s.sessions[i].call < |s.calls|
    case Wake(i) =>
      i < |s.sessions| && s.sessions[i].Waiting? && s.sessions[i].call < |s.calls| && s.calls[s.sessions[i].call].closed
    case Deliver(i) => i < |s.sessions| && s.sessions[i].Delivering?
  }

  function Go(s: State, i: nat, p: Phase): State
    requires i < |s.sessions|
  {
    s.(sessions := s.sessions[i := p])
  }

  function Apply(s: State, step: Step): State
    requires Enabled(s, step)
  {
    match step
    case Arrive => s.(sessions := s.sessions + [Idle])
    case Enter(i) =>
      if s.inflight.Some? then Go(s, i, Waiting(s.inflight.value))
      else Go(s, i, Peeking(|s.calls|)).(calls := s.calls + [Call(None, false, i)], inflight := Some(|s.calls|),
                                         leader := Some(i))
    case Peek(i) => Go(s, i, Exchanging(s.sessions[i].call, s.cache))
    case Exchange(i, ok) =>
      var c, q := s.sessions[i].call, s.sessions[i].presented;
      if ok then Go(s, i, Storing(c, s.issued + 1)).(issued := s.issued + 1, presented := s.presented + [q])
      else Go(s, i, Publishing(c, None))
    case Store(i) =>
      var v := s.sessions[i].minted;
      Go(s, i, Publishing(s.sessions[i].call, Some(v))).(cache := v)
    case Publish(i) =>
      var c, r := s.sessions[i].call, s.sessions[i].result;
      Go(s, i, Closing(c, r)).(calls := s.calls[c := s.calls[c].(result := r)], inflight := None, leader := None)
    case CloseDone(i) =>
      var c := s.sessions[i].call;
      Go(s, i, Delivering(c, s.sessions[i].result)).(calls := s.calls[c := s.calls[c].(closed := true)])
    case Wake(i) => Go(s, i, Delivering(s.sessions[i].call, s.calls[s.sessions[i].call].result))
    case Deliver(i) =>
      var r := s.sessions[i].result;
      Go(s, i, Done(s.sessions[i].call, r)).(holder := if r.Some? then r.value else s.holder)
  }

  /** The state after a schedule, if every step of it could be taken. */
  function Execute(s: State, steps: seq<Step>): Option<State>
    decreases |steps|
  {
    if steps == [] then Some(s)
    else if Enabled(s, steps[0]) then Execute(Apply(s, steps[0]), steps[1..])
    else None
  }

  // -------------------------------------------------------------------------
  // The invariant
  // -------------------------------------------------------------------------

  predicate Leading(p: Phase) {
    p.Peeking? || p.Exchanging? || p.Storing? || p.Publishing?
  }

  /** What a session's phase says about the cache, the calls and the flight. */
  ghost predicate PhaseInv(s: State, p: Phase) {
    match p
    case Idle => true
    case Waiting(c) => c < |s.calls|
    case Peeking(c) => s.inflight == Some(c) && s.issued == s.cache
    case Exchanging(c, q) => s.inflight == Some(c) && s.issued == s.cache == q
    case Storing(c, v) => s.inflight == Some(c) && s.issued == v == s.cache + 1
    case Publishing(c, r) => s.inflight == Some(c) && s.issued == s.cache && (r.Some? ==> r.value == s.cache)
    case Closing(c, r) => c < |s.calls| && s.calls[c].result == r && s.inflight != Some(c)
    case Delivering(c, r) => c < |s.calls| && s.calls[c].closed && s.calls[c].result == r
    case Done(c, r) => c < |s.calls| && s.calls[c].closed && s.calls[c].result == r
  }

  ghost predicate SessionsInv(s: State) {
    && (forall i :: 0 <= i < |s.sessions| ==> (Leading(s.sessions[i]) <==> s.leader == Some(i)))
    && (forall i :: 0 <= i < |s.sessions| ==> PhaseInv(s, s.sessions[i]))
    && (s.leader.Some? ==> s.leader.value < |s.sessions|)
  }

  ghost predicate CallsInv(s: State) {
    && (forall c :: 0 <= c < |s.calls| && s.calls[c].result.Some? ==> s.calls[c].result.value <= s.cache)
    && (forall c :: 0 <= c < |s.calls| && s.calls[c].closed ==> s.inflight != Some(c))
    && (s.inflight.Some? <==> s.leader.Some?)
    && (s.inflight.Some? ==> s.inflight.value < |s.calls| && s.calls[s.inflight.value].result.None?)
    && (s.inflight.Some? ==> s.leader == Some(s.calls[s.inflight.value].lead))
    && (forall c :: 0 <= c < |s.calls| && !s.calls[c].closed && s.inflight != Some(c) ==>
          s.calls[c].lead < |s.sessions| && s.sessions[s.calls[c].lead] == Closing(c, s.calls[c].result))
  }

  ghost predicate TokensInv(s: State) {
    && s.holder <= s.cache <= s.issued
    && (s.leader.None? ==> s.issued == s.cache)
    && |s.presented| == s.issued
    && (forall k :: 0 <= k < |s.presented| ==> s.presented[k] == k)
  }

  ghost predicate Inv(s: State) {
    SessionsInv(s) && CallsInv(s) && TokensInv(s)
  }

  lemma ArriveInv(s: State)
    requires Inv(s)
    ensures Inv(Apply(s, Arrive))
  {}

  lemma EnterInv(s: State, i: nat)
    requires Inv(s) && Enabled(s, Enter(i))
    ensures Inv(Apply(s, Enter(i)))
  {
    if s.inflight.None? {
      TakeOffInv(s, i);
    }
  }

  lemma TakeOffInv(s: State, i: nat)
    requires Inv(s) && Enabled(s, Enter(i)) && s.inflight.None?
    ensures Inv(Apply(s, Enter(i)))
  {
    var t := Apply(s, Enter(i));
    forall j | 0 <= j < |t.sessions|
      ensures PhaseInv(t, t.sessions[j])
    {
      if j != i {
        assert PhaseInv(s, s.sessions[j]) && !Leading(s.sessions[j]);
      }
    }
  }

  lemma PeekInv(s: State, i: nat)
    requires Inv(s) && Enabled(s, Peek(i))
    ensures Inv(Apply(s, Peek(i)))
  {}

  lemma ExchangeInv(s: State, i: nat, ok: bool)
    requires Inv(s) && Enabled(s, Exchange(i, ok))
    ensures Inv(Apply(s, Exchange(i, ok)))
  {
    assert s.leader == Some(i) && PhaseInv(s, s.sessions[i]);
  }

  lemma StoreInv(s: State, i: nat)
    requires Inv(s) && Enabled(s, Store(i))
    ensures Inv(Apply(s, Store(i)))
  {
    assert s.leader == Some(i) && PhaseInv(s, s.sessions[i]);
  }

  lemma PublishInv(s: State, i: nat)
    requires Inv(s) && Enabled(s, Publish(i))
    ensures Inv(Apply(s, Publish(i)))
  {
    assert s.leader == Some(i) && PhaseInv(s, s.sessions[i]);
    var t := Apply(s, Publish(i));
    forall j | 0 <= j < |t.sessions|
      ensures PhaseInv(t, t.sessions[j])
    {
      assert PhaseInv(s, s.sessions[j]);
      assert j != i ==> !Leading(s.sessions[j]);
    }
  }

  lemma CloseDoneInv(s: State, i: nat)
    requires Inv(s) && Enabled(s, CloseDone(i))
    ensures Inv(Apply(s, CloseDone(i)))
  {
    assert PhaseInv(s, s.sessions[i]);
    var t := Apply(s, CloseDone(i));
    forall j | 0 <= j < |t.sessions|
      ensures PhaseInv(t, t.sessions[j])
    {
      assert PhaseInv(s, s.sessions[j]);
    }
  }

  lemma WakeInv(s: State, i: nat)
    requires Inv(s) && Enabled(s, Wake(i))
    ensures Inv(Apply(s, Wake(i)))
  {}

  lemma DeliverInv(s: State, i: nat)
    requires Inv(s) && Enabled(s, Deliver(i))
    ensures Inv(Apply(s, Deliver(i)))
  {
    assert PhaseInv(s, s.sessions[i]);
  }

  lemma StepInv(s: State, step: Step)
    requires Inv(s) && Enabled(s, step)
    ensures Inv(Apply(s, step))
  {
    match step {
      case Arrive => ArriveInv(s);
      case Enter(i) => EnterInv(s, i);
      case Peek(i) => PeekInv(s, i);
      case Exchange(i, ok) => ExchangeInv(s, i, ok);
      case Store(i) => StoreInv(s, i);
      case Publish(i) => PublishInv(s, i);
      case CloseDone(i) => CloseDoneInv(s, i);
      case Wake(i) => WakeInv(s, i);
      case Deliver(i) => DeliverInv(s, i);
    }
  }

  lemma {:induction false} ExecuteInv(s: State, steps: seq<Step>)
    requires Inv(s) && Execute(s, steps).Some?
    ensures Inv(Execute(s, steps).value)
    decreases |steps|
  {
    if steps != [] {
      StepInv(s, steps[0]);
      ExecuteInv(Apply(s, steps[0]), steps[1..]);
    }
  }

  // -------------------------------------------------------------------------
  // What every schedule does
  // -------------------------------------------------------------------------

  /** At most one exchange is in flight, and the k-th successful one presented exactly the
      credential the one before it was answered with: no refresh token is spent twice. */
  lemma OneExchangeAtATime(steps: seq<Step>, i: nat, j: nat)
    requires Execute(INIT, steps).Some?
    ensures var s := Execute(INIT, steps).value;
      && (i < |s.sessions| && j < |s.sessions| && Leading(s.sessions[i]) && Leading(s.sessions[j]) ==> i == j)
      && |s.presented| == s.issued && (i < |s.presented| ==> s.presented[i] == i)
      && (i < |s.sessions| && s.sessions[i].Exchanging? ==> s.sessions[i].presented == s.issued)
  {
    ExecuteInv(INIT, steps);
    var s := Execute(INIT, steps).value;
    if i < |s.sessions| {
      assert PhaseInv(s, s.sessions[i]);
    }
  }

  /** Sessions that were served by the same flight return the same result. */
  lemma OneFlightOneResult(steps: seq<Step>, i: nat, j: nat)
    requires Execute(INIT, steps).Some?
    requires var s := Execute(INIT, steps).value;
      i < |s.sessions| && j < |s.sessions| && s.sessions[i].Done? && s.sessions[j].Done?
      && s.sessions[i].call == s.sessions[j].call
    ensures var s := Execute(INIT, steps).value; s.sessions[i].result == s.sessions[j].result
  {
    ExecuteInv(INIT, steps);
    var s := Execute(INIT, steps).value;
    assert PhaseInv(s, s.sessions[i]) && PhaseInv(s, s.sessions[j]);
  }

  // -------------------------------------------------------------------------
  // When the holder ends with the latest credential
  // -------------------------------------------------------------------------

  /** What a session is going to set the holder to, if anything. */
  function Cargo(s: State, p: Phase): Option<nat> {
    match p
    case Publishing(_, r) => r
    case Closing(_, r) => r
    case Delivering(_, r) => r
    case Waiting(c) => if c < |s.calls| then s.calls[c].result else None
    case _ => None
  }

  /** No session has a credential it has not handed to the holder yet. */
  ghost predicate AllDelivered(s: State) {
    forall i :: 0 <= i < |s.sessions| ==> Cargo(s, s.sessions[i]).None?
  }

  /** The guard: a new flight takes off only when everything before it is delivered. */
  ghost predicate Guarded(s: State, step: Step) {
    step.Enter? && s.inflight.None? ==> AllDelivered(s)
  }

  ghost predicate GuardedSchedule(s: State, steps: seq<Step>)
    requires Execute(s, steps).Some?
    decreases |steps|
  {
    steps == [] || (Guarded(s, steps[0]) && GuardedSchedule(Apply(s, steps[0]), steps[1..]))
  }

  /** A session that has left the store behind with the latest credential. */
  predicate IsCourier(s: State, p: Phase) {
    (p.Publishing? || p.Closing? || p.Delivering?) && p.result == Some(s.cache)
  }

  /** Under the guard no session carries an outdated credential, a flight shares the air
      with no earlier cargo, and the latest credential is with the holder or on its way. */
  ghost predicate FreshInv(s: State) {
    && (forall i :: 0 <= i < |s.sessions| ==> Cargo(s, s.sessions[i]) in {None, Some(s.cache)})
    && (s.inflight.Some? ==>
          forall i :: 0 <= i < |s.sessions| && Cargo(s, s.sessions[i]).Some? ==> s.sessions[i].Publishing?)
    && (s.holder == s.cache || exists i :: 0 <= i < |s.sessions| && IsCourier(s, s.sessions[i]))
  }

  /** A step of one session that leaves cache, holder and calls alone. */
  lemma MoveKeepsFresh(s: State, t: State, i: nat)
    requires Inv(s) && FreshInv(s) && i < |s.sessions|
    requires |t.sessions| == |s.sessions| && t.sessions == s.sessions[i := t.sessions[i]]
    requires t.cache == s.cache && t.holder == s.holder && t.calls == s.calls && t.inflight == s.inflight
    requires Cargo(t, t.sessions[i]) == Cargo(s, s.sessions[i])
    requires s.inflight.Some? && Cargo(s, s.sessions[i]).Some? ==> t.sessions[i].Publishing?
    requires IsCourier(s, s.sessions[i]) ==> IsCourier(t, t.sessions[i])
    ensures FreshInv(t)
  {
    forall j | 0 <= j < |t.sessions|
      ensures Cargo(t, t.sessions[j]) == Cargo(s, s.sessions[j])
    {
    }
    if s.holder != s.cache {
      var j :| 0 <= j < |s.sessions| && IsCourier(s, s.sessions[j]);
      assert IsCourier(t, t.sessions[j]);
    }
  }

  lemma EnterFresh(s: State, i: nat)
    requires Inv(s) && FreshInv(s) && Enabled(s, Enter(i)) && Guarded(s, Enter(i))
    ensures FreshInv(Apply(s, Enter(i)))
  {
    var t := Apply(s, Enter(i));
    if s.inflight.Some? {
      MoveKeepsFresh(s, t, i);
    } else {
      forall j | 0 <= j < |t.sessions|
        ensures Cargo(t, t.sessions[j]).None?
      {
        assert j != i ==> t.sessions[j] == s.sessions[j] && Cargo(s, s.sessions[j]).None? && PhaseInv(s, s.sessions[j]);
      }
      DeliveredIsFresh(s);
    }
  }

  lemma DeliveredIsFresh(s: State)
    requires FreshInv(s) && AllDelivered(s)
    ensures s.holder == s.cache
  {
    forall i | 0 <= i < |s.sessions|
      ensures !IsCourier(s, s.sessions[i])
    {
      assert Cargo(s, s.sessions[i]).None?;
    }
  }

  lemma StoreFresh(s: State, i: nat)
    requires Inv(s) && FreshInv(s) && Enabled(s, Store(i))
    ensures FreshInv(Apply(s, Store(i)))
  {
    var t := Apply(s, Store(i));
    assert s.leader == Some(i) && PhaseInv(s, s.sessions[i]);
    forall j | 0 <= j < |t.sessions| && j != i
      ensures Cargo(t, t.sessions[j]).None?
    {
      assert !Leading(s.sessions[j]);
      assert Cargo(s, s.sessions[j]).None?;
    }
    assert IsCourier(t, t.sessions[i]);
  }

  lemma PublishFresh(s: State, i: nat)
    requires Inv(s) && FreshInv(s) && Enabled(s, Publish(i))
    ensures FreshInv(Apply(s, Publish(i)))
  {
    var t := Apply(s, Publish(i));
    assert s.leader == Some(i) && PhaseInv(s, s.sessions[i]);
    forall j | 0 <= j < |t.sessions|
      ensures Cargo(t, t.sessions[j]) in {None, Some(t.cache)}
    {
      assert Cargo(s, s.sessions[j]) in {None, Some(s.cache)};
    }
    if s.holder != s.cache {
      var j :| 0 <= j < |s.sessions| && IsCourier(s, s.sessions[j]);
      assert IsCourier(t, t.sessions[j]);
    }
  }

  lemma CloseDoneFresh(s: State, i: nat)
    requires Inv(s) && FreshInv(s) && Enabled(s, CloseDone(i))
    ensures FreshInv(Apply(s, CloseDone(i)))
  {
    var t := Apply(s, CloseDone(i));
    assert PhaseInv(s, s.sessions[i]);
    forall j | 0 <= j < |t.sessions|
      ensures Cargo(t, t.sessions[j]) == Cargo(s, s.sessions[j])
      ensures IsCourier(s, s.sessions[j]) ==> IsCourier(t, t.sessions[j])
    {
    }
    if s.holder != s.cache {
      var j :| 0 <= j < |s.sessions| && IsCourier(s, s.sessions[j]);
      assert IsCourier(t, t.sessions[j]);
    }
  }

  lemma DeliverFresh(s: State, i: nat)
    requires Inv(s) && FreshInv(s) && Enabled(s, Deliver(i))
    ensures FreshInv(Apply(s, Deliver(i)))
  {
    var t := Apply(s, Deliver(i));
    assert Cargo(s, s.sessions[i]) in {None, Some(s.cache)};
    forall j | 0 <= j < |t.sessions| && j != i
      ensures Cargo(t, t.sessions[j]) == Cargo(s, s.sessions[j])
    {
    }
    if s.sessions[i].result.None? && s.holder != s.cache {
      var j :| 0 <= j < |s.sessions| && IsCourier(s, s.sessions[j]);
      assert j != i && IsCourier(t, t.sessions[j]);
    }
  }

  lemma ArriveFresh(s: State)
    requires FreshInv(s)
    ensures FreshInv(Apply(s, Arrive))
  {
    var t := Apply(s, Arrive);
    if s.holder != s.cache {
      var j :| 0 <= j < |s.sessions| && IsCourier(s, s.sessions[j]);
      assert IsCourier(t, t.sessions[j]);
    }
  }

  lemma StepFresh(s: State, step: Step)
    requires Inv(s) && FreshInv(s) && Enabled(s, step) && Guarded(s, step)
    ensures FreshInv(Apply(s, step))
  {
    var t := Apply(s, step);
    match step {
      case Arrive => ArriveFresh(s);
      case Enter(i) => EnterFresh(s, i);
      case Peek(i) => MoveKeepsFresh(s, t, i);
      case Exchange(i, _) => MoveKeepsFresh(s, t, i);
      case Store(i) => StoreFresh(s, i);
      case Publish(i) => PublishFresh(s, i);
      case CloseDone(i) => CloseDoneFresh(s, i);
      case Wake(i) =>
        assert PhaseInv(s, s.sessions[i]);
        MoveKeepsFresh(s, t, i);
      case Deliver(i) => DeliverFresh(s, i);
    }
  }

  lemma {:induction false} ExecuteFresh(s: State, steps: seq<Step>)
    requires Inv(s) && FreshInv(s) && Execute(s, steps).Some? && GuardedSchedule(s, steps)
    ensures FreshInv(Execute(s, steps).value)
    decreases |steps|
  {
    if steps != [] {
      StepInv(s, steps[0]);
      StepFresh(s, steps[0]);
      ExecuteFresh(Apply(s, steps[0]), steps[1..]);
    }
  }

  /** If every flight takes off only after all earlier results were delivered, then
      whenever nobody is refreshing the holder has the latest credential. */
  lemma GuardedHolderIsLatest(steps: seq<Step>)
    requires Execute(INIT, steps).Some? && GuardedSchedule(INIT, steps)
    requires forall i :: 0 <= i < |Execute(INIT, steps).value.sessions| ==>
      Execute(INIT, steps).value.sessions[i].Idle? || Execute(INIT, steps).value.sessions[i].Done?
    ensures var s := Execute(INIT, steps).value; s.holder == s.cache == s.issued
  {
    ExecuteInv(INIT, steps);
    ExecuteFresh(INIT, steps);
    var s := Execute(INIT, steps).value;
    forall i | 0 <= i < |s.sessions|
      ensures !Leading(s.sessions[i]) && Cargo(s, s.sessions[i]).None?
    {
    }
    DeliveredIsFresh(s);
  }

  // -------------------------------------------------------------------------
  // Without the guard the holder can be left behind
  // -------------------------------------------------------------------------

  lemma ExecuteFirst(s: State, step: Step, rest: seq<Step>)
    requires Enabled(s, step)
    ensures Execute(s, [step] + rest) == Execute(Apply(s, step), rest)
  {
    assert ([step] + rest)[1..] == rest;
  }

  lemma {:induction false} ExecuteConcat(s: State, a: seq<Step>, b: seq<Step>)
    requires Execute(s, a).Some?
    ensures Execute(s, a + b) == Execute(Execute(s, a).value, b)
    decreases |a|
  {
    if a == [] {
      assert a + b == b;
    } else {
      assert (a + b)[1..] == a[1..] + b;
      ExecuteConcat(Apply(s, a[0]), a[1..], b);
    }
  }

  /** A whole flight of session u, alone in the air. */
  function Flight(u: nat): seq<Step> {
    [Enter(u)] + AfterEnter(u)
  }

  function AfterEnter(u: nat): seq<Step> {
    [Peek(u)] + ([Exchange(u, true)] + ([Store(u)] + ([Publish(u)] + ([CloseDone(u)] + ([Deliver(u)] + [])))))
  }

  function Landed(s: State, u: nat): State
    requires u < |s.sessions|
  {
    var v := s.cache + 1;
    State(v, v, v, None, None, s.calls + [Call(Some(v), true, u)], s.sessions[u := Done(|s.calls|, Some(v))],
          s.presented + [s.cache])
  }

  lemma {:induction false} FlightLands(s: State, u: nat)
    requires Inv(s) && s.inflight.None? && Enabled(s, Enter(u))
    ensures Execute(s, Flight(u)) == Some(Landed(s, u))
  {
    var s1 := Apply(s, Enter(u));
    var s2 := Apply(s1, Peek(u));
    var s3 := Apply(s2, Exchange(u, true));
    var s4 := Apply(s3, Store(u));
    var s5 := Apply(s4, Publish(u));
    var s6 := Apply(s5, CloseDone(u));
    var s7 := Apply(s6, Deliver(u));
    assert s7 == Landed(s, u) by {
      assert s7.calls == s.calls + [Call(Some(s.cache + 1), true, u)];
      assert s7.sessions == s.sessions[u := Done(|s.calls|, Some(s.cache + 1))];
    }
    var t6 := [Deliver(u)] + [];
    var t5 := [CloseDone(u)] + t6;
    var t4 := [Publish(u)] + t5;
    var t3 := [Store(u)] + t4;
    var t2 := [Exchange(u, true)] + t3;
    ExecuteFirst(s6, Deliver(u), []);
    ExecuteFirst(s5, CloseDone(u), t6);
    ExecuteFirst(s4, Publish(u), t5);
    ExecuteFirst(s3, Store(u), t4);
    ExecuteFirst(s2, Exchange(u, true), t3);
    ExecuteFirst(s1, Peek(u), t2);
    ExecuteFirst(s, Enter(u), [Peek(u)] + t2);
  }

  /** No session carries anything in f that it did not carry in s. */
  ghost predicate NothingNew(s: State, f: State) {
    && |f.sessions| == |s.sessions|
    && forall i :: 0 <= i < |s.sessions| ==>
         Cargo(f, f.sessions[i]).None? || Cargo(f, f.sessions[i]) == Cargo(s, s.sessions[i])
  }

  lemma NothingNewTwice(s: State, t: State, f: State)
    requires NothingNew(s, t) && NothingNew(t, f)
    ensures NothingNew(s, f)
  {}

  /** Moving a result along adds none. */
  lemma HomeStep(s: State, step: Step)
    requires Inv(s) && Enabled(s, step) && (step.CloseDone? || step.Wake? || step.Deliver?)
    ensures NothingNew(s, Apply(s, step))
  {}

  /** The steps that bring session t's result to the holder. */
  lemma {:induction false} BringHome(s: State, t: nat) returns (steps: seq<Step>)
    requires Inv(s) && s.inflight.None? && t < |s.sessions| && Cargo(s, s.sessions[t]).Some?
    ensures Execute(s, steps).Some?
    ensures var f := Execute(s, steps).value;
      && f.holder == Cargo(s, s.sessions[t]).value && f.cache == s.cache
      && NothingNew(s, f)
    decreases if s.sessions[t].Waiting? then 2 else if s.sessions[t].Closing? then 1 else 0
  {
    assert PhaseInv(s, s.sessions[t]);
    var step := NextHome(s, t);
    var s1 := Apply(s, step);
    StepInv(s, step);
    HomeStep(s, step);
    if step.Deliver? {
      steps := [step] + [];
      ExecuteFirst(s, step, []);
    } else if step == Wake(t) || step == CloseDone(t) {
      var rest := BringHome(s1, t);
      steps := [step] + rest;
      ExecuteFirst(s, step, rest);
      NothingNewTwice(s, s1, Execute(s, steps).value);
    } else {
      var s2 := Apply(s1, Wake(t));
      StepInv(s1, Wake(t));
      HomeStep(s1, Wake(t));
      var rest := BringHome(s2, t);
      ExecuteFirst(s1, Wake(t), rest);
      ExecuteFirst(s, step, [Wake(t)] + rest);
      steps := [step] + ([Wake(t)] + rest);
      NothingNewTwice(s1, s2, Execute(s, steps).value);
      NothingNewTwice(s, s1, Execute(s, steps).value);
    }
  }

  function NextHome(s: State, t: nat): (step: Step)
    requires Inv(s) && s.inflight.None? && t < |s.sessions| && Cargo(s, s.sessions[t]).Some?
    ensures Enabled(s, step)
  {
    match s.sessions[t]
    case Waiting(c) => if s.calls[c].closed then Wake(t) else CloseDone(s.calls[c].lead)
    case Closing(_, _) => CloseDone(t)
    case _ => Deliver(t)
  }

  /** Wherever the guard is about to be broken, a stale holder is within reach: let the new
      flight run to its end first and an earlier result arrive after it. The holder then has
      an outdated credential, and no session is going to replace it with the latest one. */
  lemma BrokenGuardCanGoStale(s: State, u: nat) returns (steps: seq<Step>)
    requires Inv(s) && Enabled(s, Enter(u)) && !Guarded(s, Enter(u))
    ensures Execute(s, [Enter(u)] + steps).Some?
    ensures var f := Execute(s, [Enter(u)] + steps).value;
      f.holder < f.cache && forall i :: 0 <= i < |f.sessions| ==> Cargo(f, f.sessions[i]) != Some(f.cache)
  {
    var t :| 0 <= t < |s.sessions| && Cargo(s, s.sessions[t]).Some?;
    FlightLands(s, u);
    ExecuteInv(s, Flight(u));
    LandedCargo(s, u);
    var rest := BringHome(Landed(s, u), t);
    ExecuteConcat(s, Flight(u), rest);
    steps := AfterEnter(u) + rest;
    Regroup(Enter(u), AfterEnter(u), rest);
  }

  lemma Regroup(step: Step, a: seq<Step>, b: seq<Step>)
    ensures ([step] + a) + b == [step] + (a + b)
  {}

  /** What was on its way when the flight took off is still on its way, and outdated. */
  lemma LandedCargo(s: State, u: nat)
    requires Inv(s) && s.inflight.None? && u < |s.sessions| && s.sessions[u].Idle?
    ensures var f := Landed(s, u);
      forall i :: 0 <= i < |s.sessions| ==> Cargo(f, f.sessions[i]) == Cargo(s, s.sessions[i]) != Some(f.cache)
    ensures forall i :: 0 <= i < |s.sessions| && Cargo(s, s.sessions[i]).Some? ==>
      Cargo(s, s.sessions[i]).value <= s.cache
  {
    var f := Landed(s, u);
    forall i | 0 <= i < |s.sessions|
      ensures Cargo(f, f.sessions[i]) == Cargo(s, s.sessions[i])
      ensures Cargo(s, s.sessions[i]).Some? ==> Cargo(s, s.sessions[i]).value <= s.cache
    {
      assert PhaseInv(s, s.sessions[i]);
      assert !Leading(s.sessions[i]);
    }
  }

  // -------------------------------------------------------------------------
  // Nobody waits for ever
  // -------------------------------------------------------------------------

  /** Whoever has entered its refresh and is not through can go on, or the session it waits
      for can. */
  lemma FlightGoesOn(s: State, i: nat) returns (step: Step)
    requires Inv(s) && i < |s.sessions| && !s.sessions[i].Idle? && !s.sessions[i].Done?
    ensures Enabled(s, step) && !step.Arrive? && !step.Enter?
  {
    assert PhaseInv(s, s.sessions[i]);
    match s.sessions[i] {
      case Waiting(c) =>
        if s.calls[c].closed {
          step := Wake(i);
        } else if s.inflight == Some(c) {
          assert Leading(s.sessions[s.leader.value]);
          step := LeaderStep(s, s.leader.value);
        } else {
          step := CloseDone(s.calls[c].lead);
        }
      case Closing(_, _) => step := CloseDone(i);
      case Delivering(_, _) => step := Deliver(i);
      case _ => step := LeaderStep(s, i);
    }
  }

  lemma LeaderStep(s: State, i: nat) returns (step: Step)
    requires Inv(s) && i < |s.sessions| && Leading(s.sessions[i])
    ensures Enabled(s, step) && !step.Arrive? && !step.Enter?
  {
    assert PhaseInv(s, s.sessions[i]);
    match s.sessions[i] {
      case Peeking(_) => step := Peek(i);
      case Exchanging(_, _) => step := Exchange(i, true);
      case Storing(_, _) => step := Store(i);
      case Publishing(_, _) => step := Publish(i);
    }
  }

  /** The steps a session has still to take in its refresh. */
  function Ahead(p: Phase): nat {
    match p
    case Idle => 7
    case Peeking(_) => 6
    case Exchanging(_, _) => 5
    case Storing(_, _) => 4
    case Publishing(_, _) => 3
    case Closing(_, _) => 2
    case Waiting(_) => 2
    case Delivering(_, _) => 1
    case Done(_, _) => 0
  }

  function AheadOf(ps: seq<Phase>): nat {
    if ps == [] then 0 else AheadOf(ps[..|ps| - 1]) + Ahead(ps[|ps| - 1])
  }

  lemma {:induction false} AheadUpdate(ps: seq<Phase>, i: nat, p: Phase)
    requires i < |ps|
    ensures AheadOf(ps[i := p]) == AheadOf(ps) - Ahead(ps[i]) + Ahead(p)
  {
    var last := |ps| - 1;
    if i == last {
      assert ps[i := p][..last] == ps[..last];
    } else {
      assert ps[i := p][..last] == ps[..last][i := p];
      AheadUpdate(ps[..last], i, p);
    }
  }

  function Arrivals(steps: seq<Step>): nat {
    if steps == [] then 0 else (if steps[0].Arrive? then 1 else 0) + Arrivals(steps[1..])
  }

  lemma StepGoesAhead(s: State, step: Step)
    requires Enabled(s, step)
    ensures step.Arrive? ==> AheadOf(Apply(s, step).sessions) == AheadOf(s.sessions) + 7
    ensures !step.Arrive? ==> AheadOf(Apply(s, step).sessions) < AheadOf(s.sessions)
    ensures |Apply(s, step).sessions| == |s.sessions| + if step.Arrive? then 1 else 0
  {
    if step.Arrive? {
      assert (s.sessions + [Idle])[..|s.sessions|] == s.sessions;
    } else {
      AheadUpdate(s.sessions, step.i, Apply(s, step).sessions[step.i]);
    }
  }

  /** Every arrival is a session, and all of them together take at most seven steps each. */
  lemma {:induction false} RefreshesAreBounded(s: State, steps: seq<Step>)
    requires Execute(s, steps).Some?
    ensures |Execute(s, steps).value.sessions| == |s.sessions| + Arrivals(steps)
    ensures |steps| + AheadOf(Execute(s, steps).value.sessions) <= AheadOf(s.sessions) + 8 * Arrivals(steps)
    decreases |steps|
  {
    if steps != [] {
      StepGoesAhead(s, steps[0]);
      RefreshesAreBounded(Apply(s, steps[0]), steps[1..]);
    }
  }
}
