/** Stamping root-cause verdicts on a run's findings, concurrently with each other and with
    the run's own persisting. */
module Annotations {
  import opened Options

  /** A finding is identified by its category and evidence reference. */
  datatype Key = Key(category: string, ref: string)

  datatype Finding = Finding(key: Key, verdict: string)

  /** What both loops of annotateRootCause do to a list. */
  function Stamped(fs: seq<Finding>, key: Key, verdict: string): seq<Finding> {
    seq(|fs|, i requires 0 <= i < |fs| => if fs[i].key == key then fs[i].(verdict := verdict) else fs[i])
  }

  predicate Mentions(fs: seq<Finding>, key: Key) {
    exists i :: 0 <= i < |fs| && fs[i].key == key
  }

  /** The in-place loop: every finding with the key, and whether there was one. */
  method StampInPlace(fs: array<Finding>, key: Key, verdict: string) returns (changed: bool)
    modifies fs
    ensures fs[..] == Stamped(old(fs[..]), key, verdict)
    ensures changed <==> Mentions(old(fs[..]), key)
  {
    changed := false;
    for i := 0 to fs.Length
      invariant forall j :: 0 <= j < i ==>
        fs[j] == if old(fs[j]).key == key then old(fs[j]).(verdict := verdict) else old(fs[j])
      invariant forall j :: i <= j < fs.Length ==> fs[j] == old(fs[j])
      invariant changed <==> exists j :: 0 <= j < i && old(fs[..])[j].key == key
    {
      if fs[i].key == key {
        fs[i] := fs[i].(verdict := verdict);
        changed := true;
      }
    }
  }

  // -------------------------------------------------------------------------
  // States
  // -------------------------------------------------------------------------

  /** Where a call of annotateRootCause stands; the annotation lock is held in Holding and
      Loaded. */
  datatype Phase = Called | LiveDone | Holding | Loaded(list: seq<Finding>) | Finished

  datatype Annotator = Annotator(key: Key, verdict: string, phase: Phase)

  /** Where persistRun stands: the report not taken, taken, the findings saved or lost. */
  datatype Persist = Before | Reported(list: seq<Finding>) | Saved | Lost

  /** live: the run's findings in memory; cached: the run is still in the registry. The sets
      name the calls whose verdict is on the live copy, in the persisted report, and in the
      store, and those that read the store after the run was persisted; failed are those a
      store error stopped. */
  datatype State = State(
    live: seq<Finding>,
    cached: bool,
    store: seq<Finding>,
    persist: Persist,
    lock: Option<nat>,
    calls: seq<Annotator>,
    onLive: set<nat>,
    inReport: set<nat>,
    inStore: set<nat>,
    late: set<nat>,
    failed: set<nat>
  )

  /** A run has just recorded its findings; nothing of it is stored yet. */
  function Init(found: seq<Finding>): State {
    State(found, true, [], Before, None, [], {}, {}, {}, {}, {})
  }

  datatype Step =
    | TakeReport | SaveReport(ok: bool) | Evict
    | Call(key: Key, verdict: string)
    | StampLive(i: nat) | Lock(i: nat) | Load(i: nat, ok: bool) | Save(i: nat, ok: bool)

  predicate Enabled(s: State, step: Step) {
    match step
    case TakeReport => s.persist.Before?
    case SaveReport(_) => s.persist.Reported?
    case Evict => s.cached
    case Call(key, _) => forall i :: 0 <= i < |s.calls| ==> s.calls[i].key != key
    case StampLive(i) => i < |s.calls| && s.calls[i].phase.Called?
    case Lock(i) => i < |s.calls| && s.calls[i].phase.LiveDone? && s.lock.None?
    case Load(i, _) => i < |s.calls| && s.calls[i].phase.Holding?
    case Save(i, _) => i < |s.calls| && s.calls[i].phase.Loaded?
  }

  function Go(s: State, i: nat, p: Phase): State
    requires i < |s.calls|
  {
    s.(calls := s.calls[i := s.calls[i].(phase := p)])
  }

  function Apply(s: State, step: Step): State
    requires Enabled(s, step)
  {
    match step
    case TakeReport => s.(persist := Reported(s.live), inReport := s.onLive)
    case SaveReport(ok) =>
      if ok then s.(persist := Saved, store := s.persist.list, inStore := s.inReport) else s.(persist := Lost)
    case Evict => s.(cached := false)
    case Call(key, verdict) => s.(calls := s.calls + [Annotator(key, verdict, Called)])
    case StampLive(i) =>
      var t := Go(s, i, LiveDone);
      if s.cached then t.(live := Stamped(s.live, s.calls[i].key, s.calls[i].verdict), onLive := s.onLive + {i}) else t
    case Lock(i) => Go(s, i, Holding).(lock := Some(i))
    case Load(i, ok) =>
      if !ok then Go(s, i, Finished).(lock := None, failed := s.failed + {i})
      else
        var late := if s.persist.Saved? then s.late + {i} else s.late;
        if !Mentions(s.store, s.calls[i].key) then Go(s, i, Finished).(lock := None, late := late)
        else Go(s, i, Loaded(Stamped(s.store, s.calls[i].key, s.calls[i].verdict))).(late := late)
    case Save(i, ok) =>
      var t := Go(s, i, Finished).(lock := None);
      if ok then t.(store := s.calls[i].phase.list, inStore := s.inStore + {i}) else t.(failed := s.failed + {i})
  }

  /** The state after a schedule, if every step of it could be taken. */
  function Execute(s: State, steps: seq<Step>): Option<State>
    decreases |steps|
  {
    if steps == [] then Some(s)
    else if Enabled(s, steps[0]) then Execute(Apply(s, steps[0]), steps[1..])
    else None
  }

  // -------------------------------------------------------------------------
  // What a list shows
  // -------------------------------------------------------------------------

  /** fs is `found` in its order, with exactly the verdicts of the calls in `who` on it. */
  ghost predicate Shows(fs: seq<Finding>, found: seq<Finding>, calls: seq<Annotator>, who: set<nat>) {
    && |fs| == |found|
    && (forall i :: i in who ==> i < |calls|)
    && forall k :: 0 <= k < |found| ==> ShowsAt(fs[k], found[k], calls, who)
  }

  ghost predicate ShowsAt(f: Finding, original: Finding, calls: seq<Annotator>, who: set<nat>)
    requires forall i :: i in who ==> i < |calls|
  {
    && f.key == original.key
    && (forall i :: i in who && calls[i].key == f.key ==> f.verdict == calls[i].verdict)
    && ((forall i :: i in who ==> calls[i].key != f.key) ==> f.verdict == original.verdict)
  }

  ghost predicate DistinctKeys(calls: seq<Annotator>) {
    forall i, j :: 0 <= i < j < |calls| ==> calls[i].key != calls[j].key
  }

  /** Stamping one more call's verdict shows one more. */
  lemma StampShows(fs: seq<Finding>, found: seq<Finding>, calls: seq<Annotator>, who: set<nat>, i: nat)
    requires Shows(fs, found, calls, who) && DistinctKeys(calls) && i < |calls|
    ensures Shows(Stamped(fs, calls[i].key, calls[i].verdict), found, calls, who + {i})
  {
    var gs := Stamped(fs, calls[i].key, calls[i].verdict);
    forall k | 0 <= k < |found|
      ensures ShowsAt(gs[k], found[k], calls, who + {i})
    {
      assert ShowsAt(fs[k], found[k], calls, who);
      StampShowsAt(fs[k], found[k], calls, who, i);
    }
  }

  lemma StampShowsAt(f: Finding, original: Finding, calls: seq<Annotator>, who: set<nat>, i: nat)
    requires i < |calls| && DistinctKeys(calls) && forall j :: j in who ==> j < |calls|
    requires ShowsAt(f, original, calls, who)
    ensures ShowsAt(if f.key == calls[i].key then f.(verdict := calls[i].verdict) else f, original, calls, who + {i})
  {
    if f.key == calls[i].key {
      forall j | j in who + {i} && calls[j].key == f.key
        ensures calls[j].verdict == calls[i].verdict
      {
        assert j == i;
      }
      assert i in who + {i};
    } else {
      assert (forall j :: j in who + {i} ==> calls[j].key != f.key) ==> forall j :: j in who ==> calls[j].key != f.key;
    }
  }

  /** Only keys and verdicts of calls matter to what a list shows. */
  lemma ShowsAnyPhase(fs: seq<Finding>, found: seq<Finding>, calls: seq<Annotator>, calls': seq<Annotator>,
                      who: set<nat>)
    requires Shows(fs, found, calls, who) && |calls| <= |calls'|
    requires forall i :: 0 <= i < |calls| ==> calls'[i].key == calls[i].key && calls'[i].verdict == calls[i].verdict
    ensures Shows(fs, found, calls', who)
  {
    forall k | 0 <= k < |found|
      ensures ShowsAt(fs[k], found[k], calls', who)
    {
      assert ShowsAt(fs[k], found[k], calls, who);
    }
  }

  // -------------------------------------------------------------------------
  // The invariant
  // -------------------------------------------------------------------------

  predicate Locked(p: Phase) {
    p.Holding? || p.Loaded?
  }

  ghost predicate LockInv(s: State) {
    && DistinctKeys(s.calls)
    && (forall i :: 0 <= i < |s.calls| ==> (Locked(s.calls[i].phase) <==> s.lock == Some(i)))
    && (s.lock.Some? ==> s.lock.value < |s.calls|)
  }

  ghost predicate ListsInv(found: seq<Finding>, s: State) {
    && Shows(s.live, found, s.calls, s.onLive)
    && (s.persist.Reported? ==> Shows(s.persist.list, found, s.calls, s.inReport))
    && (if s.persist.Saved? then Shows(s.store, found, s.calls, s.inStore)
          else s.store == [] && s.inStore == {} && s.late == {})
  }

  /** What the lock holder loaded is still what the store has, plus its own verdict. */
  ghost predicate LoadedInv(s: State) {
    forall i :: 0 <= i < |s.calls| && s.calls[i].phase.Loaded? ==>
      s.persist.Saved? && i in s.late && s.calls[i].phase.list == Stamped(s.store, s.calls[i].key, s.calls[i].verdict)
  }

  /** The call is back, no store call failed it, and it had something to stamp. */
  ghost predicate Stamps(found: seq<Finding>, s: State, i: nat)
    requires i < |s.calls|
  {
    s.calls[i].phase.Finished? && i !in s.failed && Mentions(found, s.calls[i].key)
  }

  /** Which calls are where. */
  ghost predicate SetsInv(found: seq<Finding>, s: State) {
    && (forall i :: i in s.late || i in s.failed ==> i < |s.calls|)
    && (s.persist.Before? ==> s.inReport == {})
    && (s.persist.Saved? ==> s.inReport <= s.inStore && s.inStore - s.inReport <= s.late)
    && (forall i :: 0 <= i < |s.calls| && i in s.late && Stamps(found, s, i) ==> i in s.inStore)
    && (s.cached ==> forall i :: 0 <= i < |s.calls| && !s.calls[i].phase.Called? ==> i in s.onLive)
  }

  ghost predicate Inv(found: seq<Finding>, s: State) {
    LockInv(s) && ListsInv(found, s) && LoadedInv(s) && SetsInv(found, s)
  }

  // -------------------------------------------------------------------------
  // Every step keeps it
  // -------------------------------------------------------------------------

  lemma InitInv(found: seq<Finding>)
    ensures Inv(found, Init(found))
  {
    forall k | 0 <= k < |found|
      ensures ShowsAt(found[k], found[k], [], {})
    {
    }
  }

  lemma GoKeepsLists(found: seq<Finding>, s: State, i: nat, p: Phase)
    requires LockInv(s) && ListsInv(found, s) && i < |s.calls|
    ensures DistinctKeys(Go(s, i, p).calls) && ListsInv(found, Go(s, i, p))
  {
    var t := Go(s, i, p);
    ShowsAnyPhase(s.live, found, s.calls, t.calls, s.onLive);
    if s.persist.Reported? {
      ShowsAnyPhase(s.persist.list, found, s.calls, t.calls, s.inReport);
    }
    if s.persist.Saved? {
      ShowsAnyPhase(s.store, found, s.calls, t.calls, s.inStore);
    }
  }

  lemma PersistInv(found: seq<Finding>, s: State, step: Step)
    requires Inv(found, s) && Enabled(s, step) && (step.TakeReport? || step.SaveReport? || step.Evict?)
    ensures Inv(found, Apply(s, step))
  {}

  lemma CallInv(found: seq<Finding>, s: State, key: Key, verdict: string)
    requires Inv(found, s) && Enabled(s, Call(key, verdict))
    ensures Inv(found, Apply(s, Call(key, verdict)))
  {
    var t := Apply(s, Call(key, verdict));
    ShowsAnyPhase(s.live, found, s.calls, t.calls, s.onLive);
    if s.persist.Reported? {
      ShowsAnyPhase(s.persist.list, found, s.calls, t.calls, s.inReport);
    }
    if s.persist.Saved? {
      ShowsAnyPhase(s.store, found, s.calls, t.calls, s.inStore);
    }
  }

  lemma StampLiveInv(found: seq<Finding>, s: State, i: nat)
    requires Inv(found, s) && Enabled(s, StampLive(i))
    ensures Inv(found, Apply(s, StampLive(i)))
  {
    GoKeepsLists(found, s, i, LiveDone);
    StampShows(s.live, found, Go(s, i, LiveDone).calls, s.onLive, i);
  }

  lemma LockKeepsInv(found: seq<Finding>, s: State, i: nat)
    requires Inv(found, s) && Enabled(s, Lock(i))
    ensures Inv(found, Apply(s, Lock(i)))
  {
    GoKeepsLists(found, s, i, Holding);
  }

  lemma StoreMentions(found: seq<Finding>, s: State, key: Key)
    requires ListsInv(found, s) && s.persist.Saved?
    ensures Mentions(s.store, key) <==> Mentions(found, key)
  {
    assert forall k :: 0 <= k < |found| ==> ShowsAt(s.store[k], found[k], s.calls, s.inStore);
    if k :| 0 <= k < |found| && found[k].key == key {
      assert s.store[k].key == key;
    }
  }

  lemma LoadInv(found: seq<Finding>, s: State, i: nat, ok: bool)
    requires Inv(found, s) && Enabled(s, Load(i, ok))
    ensures Inv(found, Apply(s, Load(i, ok)))
  {
    GoKeepsLists(found, s, i, Apply(s, Load(i, ok)).calls[i].phase);
    if s.persist.Saved? {
      StoreMentions(found, s, s.calls[i].key);
    }
    LoadKeepsLock(s, i, ok);
  }

  /** A call that found something to stamp keeps the lock; every other one gives it back. */
  lemma LoadKeepsLock(s: State, i: nat, ok: bool)
    requires LockInv(s) && LoadedInv(s) && Enabled(s, Load(i, ok)) && (!s.persist.Saved? ==> s.store == [])
    ensures LockInv(Apply(s, Load(i, ok))) && LoadedInv(Apply(s, Load(i, ok)))
  {}

  lemma SaveInv(found: seq<Finding>, s: State, i: nat, ok: bool)
    requires Inv(found, s) && Enabled(s, Save(i, ok))
    ensures Inv(found, Apply(s, Save(i, ok)))
  {
    GoKeepsLists(found, s, i, Finished);
    StampShows(s.store, found, Go(s, i, Finished).calls, s.inStore, i);
  }

  lemma StepInv(found: seq<Finding>, s: State, step: Step)
    requires Inv(found, s) && Enabled(s, step)
    ensures Inv(found, Apply(s, step))
  {
    match step {
      case Call(key, verdict) => CallInv(found, s, key, verdict);
      case StampLive(i) => StampLiveInv(found, s, i);
      case Lock(i) => LockKeepsInv(found, s, i);
      case Load(i, ok) => LoadInv(found, s, i, ok);
      case Save(i, ok) => SaveInv(found, s, i, ok);
      case _ => PersistInv(found, s, step);
    }
  }

  lemma {:induction false} ExecuteInv(found: seq<Finding>, s: State, steps: seq<Step>)
    requires Inv(found, s) && Execute(s, steps).Some?
    ensures Inv(found, Execute(s, steps).value)
    decreases |steps|
  {
    if steps != [] {
      StepInv(found, s, steps[0]);
      ExecuteInv(found, Apply(s, steps[0]), steps[1..]);
    }
  }

  // -------------------------------------------------------------------------
  // What every schedule does
  // -------------------------------------------------------------------------

  // -------------------------------------------------------------------------
  // What a schedule says by itself
  // -------------------------------------------------------------------------

  /** The calls made: finding and verdict, in the order they came in. */
  function CallsIn(steps: seq<Step>): seq<Finding> {
    if steps == [] then []
    else (if steps[0].Call? then [Finding(steps[0].key, steps[0].verdict)] else []) + CallsIn(steps[1..])
  }

  /** Call i stamps the live copy before the report is taken and the run evicted. */
  predicate StampedInTime(steps: seq<Step>, i: nat) {
    steps != [] && steps[0] != TakeReport && steps[0] != Evict
    && (steps[0] == StampLive(i) || StampedInTime(steps[1..], i))
  }

  /** Call i reads the store after the report was saved. */
  predicate ReadInTime(steps: seq<Step>, i: nat) {
    steps != [] && if steps[0] == SaveReport(true) then Load(i, true) in steps[1..] else ReadInTime(steps[1..], i)
  }

  /** A store error stops call i. */
  predicate StoreFails(steps: seq<Step>, i: nat) {
    Load(i, false) in steps || Save(i, false) in steps
  }

  lemma InRest(steps: seq<Step>, step: Step)
    requires steps != []
    ensures step in steps <==> step == steps[0] || step in steps[1..]
  {}

  lemma {:induction false} CallsAreMade(s: State, steps: seq<Step>)
    requires Execute(s, steps).Some?
    ensures var t := Execute(s, steps).value;
      && |t.calls| == |s.calls| + |CallsIn(steps)|
      && (forall i :: 0 <= i < |s.calls| ==>
            t.calls[i].key == s.calls[i].key && t.calls[i].verdict == s.calls[i].verdict)
      && (forall i :: 0 <= i < |CallsIn(steps)| ==>
            Finding(t.calls[|s.calls| + i].key, t.calls[|s.calls| + i].verdict) == CallsIn(steps)[i])
    decreases |steps|
  {
    if steps != [] {
      CallsAreMade(Apply(s, steps[0]), steps[1..]);
    }
  }

  lemma {:induction false} PersistIs(s: State, steps: seq<Step>)
    requires Execute(s, steps).Some?
    ensures var t := Execute(s, steps).value;
      && (t.persist.Saved? <==> s.persist.Saved? || SaveReport(true) in steps)
      && (t.cached <==> s.cached && Evict !in steps)
    decreases |steps|
  {
    if steps != [] {
      InRest(steps, SaveReport(true));
      InRest(steps, Evict);
      PersistIs(Apply(s, steps[0]), steps[1..]);
    }
  }

  lemma {:induction false} ReportStays(s: State, steps: seq<Step>)
    requires Execute(s, steps).Some? && !s.persist.Before?
    ensures Execute(s, steps).value.inReport == s.inReport && !Execute(s, steps).value.persist.Before?
    decreases |steps|
  {
    if steps != [] {
      ReportStays(Apply(s, steps[0]), steps[1..]);
    }
  }

  lemma {:induction false} ReportIs(s: State, steps: seq<Step>, i: nat)
    requires Execute(s, steps).Some? && s.persist.Before? && !Execute(s, steps).value.persist.Before?
    ensures i in Execute(s, steps).value.inReport <==> i in s.onLive || (s.cached && StampedInTime(steps, i))
    decreases |steps|
  {
    if steps != [] {
      var t := Apply(s, steps[0]);
      if steps[0].TakeReport? {
        ReportStays(t, steps[1..]);
      } else {
        ReportIs(t, steps[1..], i);
      }
    }
  }

  lemma {:induction false} LateIs(s: State, steps: seq<Step>, i: nat)
    requires Execute(s, steps).Some?
    ensures i in Execute(s, steps).value.late
       <==> i in s.late || (if s.persist.Saved? then Load(i, true) in steps else ReadInTime(steps, i))
    decreases |steps|
  {
    if steps != [] {
      InRest(steps, Load(i, true));
      LateIs(Apply(s, steps[0]), steps[1..], i);
    }
  }

  lemma {:induction false} FailedIs(s: State, steps: seq<Step>, i: nat)
    requires Execute(s, steps).Some?
    ensures i in Execute(s, steps).value.failed <==> i in s.failed || StoreFails(steps, i)
    decreases |steps|
  {
    if steps != [] {
      InRest(steps, Load(i, false));
      InRest(steps, Save(i, false));
      FailedIs(Apply(s, steps[0]), steps[1..], i);
    }
  }

  /** The stored list has the run's findings in their order; and a verdict that changes one
      is on it exactly when its call stamped the live copy before the report was taken, or
      read the store after the report was saved. */
  lemma VerdictIsStoredIff(found: seq<Finding>, steps: seq<Step>, k: nat, i: nat)
    requires Execute(Init(found), steps).Some? && SaveReport(true) in steps
    requires k < |found| && i < |CallsIn(steps)| && i < |Execute(Init(found), steps).value.calls|
    requires Execute(Init(found), steps).value.calls[i].phase.Finished? && !StoreFails(steps, i)
    requires CallsIn(steps)[i].key == found[k].key && CallsIn(steps)[i].verdict != found[k].verdict
    ensures var s := Execute(Init(found), steps).value;
      && |s.store| == |found| && s.store[k].key == found[k].key
      && (s.store[k].verdict == CallsIn(steps)[i].verdict <==> StampedInTime(steps, i) || ReadInTime(steps, i))
  {
    InitInv(found);
    ExecuteInv(found, Init(found), steps);
    CallsAreMade(Init(found), steps);
    PersistIs(Init(found), steps);
    ReportIs(Init(found), steps, i);
    LateIs(Init(found), steps, i);
    FailedIs(Init(found), steps, i);
    StoredIff(found, Execute(Init(found), steps).value, k, i);
  }

  lemma StoredIff(found: seq<Finding>, s: State, k: nat, i: nat)
    requires Inv(found, s) && s.persist.Saved? && k < |found| && i < |s.calls|
    requires s.calls[i].phase.Finished? && s.calls[i].key == found[k].key && s.calls[i].verdict != found[k].verdict
    requires i !in s.failed
    ensures |s.store| == |found| && s.store[k].key == found[k].key
    ensures s.store[k].verdict == s.calls[i].verdict <==> i in s.inReport || i in s.late
  {
    assert ShowsAt(s.store[k], found[k], s.calls, s.inStore);
    assert Mentions(found, s.calls[i].key);
    if i !in s.inStore {
      OnlyCallFor(s.calls, s.inStore, i);
    }
  }

  /** With distinct keys, no other call is about the same finding. */
  lemma OnlyCallFor(calls: seq<Annotator>, who: set<nat>, i: nat)
    requires DistinctKeys(calls) && i < |calls| && i !in who && forall j :: j in who ==> j < |calls|
    ensures forall j :: j in who ==> calls[j].key != calls[i].key
  {
    forall j | j in who
      ensures calls[j].key != calls[i].key
    {
      assert j < i || i < j;
    }
  }

  /** Calls that start once the run is persisted all read the store after that. */
  ghost predicate AfterInv(s: State) {
    && s.persist.Saved?
    && (forall i :: 0 <= i < |s.calls| && s.calls[i].phase.Finished? && i !in s.failed ==> i in s.late)
    && (s.cached ==> forall i :: i in s.late ==> i in s.onLive)
  }

  lemma StepAfter(found: seq<Finding>, s: State, step: Step)
    requires Inv(found, s) && AfterInv(s) && Enabled(s, step)
    ensures AfterInv(Apply(s, step))
  {}

  lemma {:induction false} ExecuteAfter(found: seq<Finding>, s: State, steps: seq<Step>)
    requires Inv(found, s) && AfterInv(s) && Execute(s, steps).Some?
    ensures AfterInv(Execute(s, steps).value)
    decreases |steps|
  {
    if steps != [] {
      StepInv(found, s, steps[0]);
      StepAfter(found, s, steps[0]);
      ExecuteAfter(found, Apply(s, steps[0]), steps[1..]);
    }
  }

  /** Any number of concurrent calls, on distinct findings of a run already persisted, lose
      nothing: when they are all back and no store call failed, each finding a call names has
      that call's verdict, every other one has its own, and a cached live copy agrees. */
  lemma NoUpdateIsLost(found: seq<Finding>, s: State, steps: seq<Step>)
    requires Inv(found, s) && s.persist.Saved? && s.calls == [] && Execute(s, steps).Some?
    requires s.failed == {} && forall i: nat :: !StoreFails(steps, i)
    requires var t := Execute(s, steps).value; forall i :: 0 <= i < |t.calls| ==> t.calls[i].phase.Finished?
    ensures var t := Execute(s, steps).value;
      |t.store| == |found| && forall k :: 0 <= k < |found| ==> Settled(t.store[k], found[k], CallsIn(steps))
    ensures var t := Execute(s, steps).value; s.cached && Evict !in steps ==> t.live == t.store
  {
    ExecuteInv(found, s, steps);
    ExecuteAfter(found, s, steps);
    CallsAreMade(s, steps);
    PersistIs(s, steps);
    var t := Execute(s, steps).value;
    forall i | i in t.failed
      ensures false
    {
      FailedIs(s, steps, i);
    }
    AllSettled(found, t);
    assert Verdicts(t.calls) == CallsIn(steps);
  }

  /** What the calls are about, whatever their phase. */
  function Verdicts(calls: seq<Annotator>): seq<Finding> {
    seq(|calls|, i requires 0 <= i < |calls| => Finding(calls[i].key, calls[i].verdict))
  }

  lemma AllSettled(found: seq<Finding>, t: State)
    requires Inv(found, t) && AfterInv(t) && t.failed == {}
    requires forall i :: 0 <= i < |t.calls| ==> t.calls[i].phase.Finished?
    ensures |t.store| == |found| && forall k :: 0 <= k < |found| ==> Settled(t.store[k], found[k], Verdicts(t.calls))
    ensures t.cached ==> t.live == t.store
  {
    forall k | 0 <= k < |found|
      ensures Settled(t.store[k], found[k], Verdicts(t.calls))
      ensures t.cached ==> t.live[k] == t.store[k]
    {
      assert ShowsAt(t.store[k], found[k], t.calls, t.inStore);
      assert ShowsAt(t.live[k], found[k], t.calls, t.onLive);
      if i :| 0 <= i < |t.calls| && t.calls[i].key == found[k].key {
        assert Mentions(found, t.calls[i].key) && i in t.late && i in t.inStore;
        assert Verdicts(t.calls)[i].key == found[k].key;
        SettledBy(t.calls, i);
      }
    }
  }

  /** The finding has the verdict of every call about it, and is as it was if there is none. */
  ghost predicate Settled(f: Finding, original: Finding, calls: seq<Finding>) {
    && f.key == original.key
    && (forall i :: 0 <= i < |calls| && calls[i].key == f.key ==> f.verdict == calls[i].verdict)
    && ((forall i :: 0 <= i < |calls| ==> calls[i].key != f.key) ==> f == original)
  }

  lemma SettledBy(calls: seq<Annotator>, i: nat)
    requires DistinctKeys(calls) && i < |calls|
    ensures forall j :: 0 <= j < |calls| && calls[j].key == calls[i].key ==> j == i
  {}

  /** A call in between is lost to the store for good, though the live copy shows it: the
      report was taken without it, and the store it read had nothing to stamp yet. */
  lemma AnnotatingWhilePersistingIsLost(f: Finding, verdict: string) returns (steps: seq<Step>)
    requires verdict != f.verdict
    ensures Execute(Init([f]), steps).Some?
    ensures var s := Execute(Init([f]), steps).value;
      && s.persist.Saved? && s.calls == [Annotator(f.key, verdict, Finished)] && s.failed == {}
      && s.store == [f] && s.live == [Finding(f.key, verdict)]
  {
    var s0 := Init([f]);
    var s1 := Apply(s0, TakeReport);
    var s2 := Apply(s1, Call(f.key, verdict));
    var s3 := Apply(s2, StampLive(0));
    var s4 := Apply(s3, Lock(0));
    var s5 := Apply(s4, Load(0, true));
    var s6 := Apply(s5, SaveReport(true));
    var t5 := [SaveReport(true)] + [];
    var t4 := [Load(0, true)] + t5;
    var t3 := [Lock(0)] + t4;
    var t2 := [StampLive(0)] + t3;
    var t1 := [Call(f.key, verdict)] + t2;
    steps := [TakeReport] + t1;
    ExecuteFirst(s5, SaveReport(true), []);
    ExecuteFirst(s4, Load(0, true), t5);
    ExecuteFirst(s3, Lock(0), t4);
    ExecuteFirst(s2, StampLive(0), t3);
    ExecuteFirst(s1, Call(f.key, verdict), t2);
    ExecuteFirst(s0, TakeReport, t1);
    assert s6.live == [Finding(f.key, verdict)] && s6.calls == [Annotator(f.key, verdict, Finished)];
  }

  lemma ExecuteFirst(s: State, step: Step, rest: seq<Step>)
    requires Enabled(s, step)
    ensures Execute(s, [step] + rest) == Execute(Apply(s, step), rest)
  {
    assert ([step] + rest)[1..] == rest;
  }
}
