/** The in-memory registry of runs: bounded retention, oldest terminal runs evicted first. */
module RunRegistry {
  import opened JsText
  import opened Options

  type Id = string

  // -------------------------------------------------------------------------
  // Ids
  // -------------------------------------------------------------------------

  datatype Kind = Experiment | Run

  function Prefix(kind: Kind): string {
    match kind case Experiment => "exp" case Run => "run"
  }

  function IdOf(kind: Kind, n: nat): Id {
    Prefix(kind) + "-" + Decimal(n)
  }

  /** Ids never collide, neither within a kind nor across the two. */
  lemma IdsAreDistinct(a: Kind, m: nat, b: Kind, n: nat)
    requires IdOf(a, m) == IdOf(b, n)
    ensures a == b && m == n
  {
    var s, t := IdOf(a, m), IdOf(b, n);
    assert s[0] == Prefix(a)[0] && t[0] == Prefix(b)[0];
    assert s[4..] == Decimal(m) && t[4..] == Decimal(n);
    DecimalInjective(m, n);
  }

  // -------------------------------------------------------------------------
  // One sweep over the insertion order
  // -------------------------------------------------------------------------

  function Members(order: seq<Id>): set<Id> {
    set id | id in order
  }

  lemma MembersOf(order: seq<Id>)
    requires order != []
    ensures Members(order) == Members(order[1..]) + {order[0]}
  {}

  predicate Distinct(order: seq<Id>) {
    order == [] || (order[0] !in order[1..] && Distinct(order[1..]))
  }

  /** order with the ids of a set left out. */
  function Without(order: seq<Id>, gone: set<Id>): seq<Id> {
    if order == [] then []
    else if order[0] in gone then Without(order[1..], gone)
    else [order[0]] + Without(order[1..], gone)
  }

  datatype Swept = Swept(order: seq<Id>, gone: set<Id>)

  /** What the loop of enforceRunCapLocked does to the rest of the order while `runs` are
      still held; `terminal` are the runs that show a terminal status when it checks them. */
  function Sweep(order: seq<Id>, runs: set<Id>, cap: int, terminal: set<Id>): Swept {
    if order == [] then Swept([], {})
    else if order[0] !in runs then Sweep(order[1..], runs, cap, terminal)
    else if |runs| > cap && order[0] in terminal then
      var rest := Sweep(order[1..], runs - {order[0]}, cap, terminal);
      Swept(rest.order, rest.gone + {order[0]})
    else
      var rest := Sweep(order[1..], runs, cap, terminal);
      Swept([order[0]] + rest.order, rest.gone)
  }

  lemma {:induction false} NoSweepAtCap(order: seq<Id>, runs: set<Id>, cap: int, terminal: set<Id>)
    requires |runs| <= cap
    ensures Sweep(order, runs, cap, terminal).gone == {}
  {
    if order != [] {
      NoSweepAtCap(order[1..], runs, cap, terminal);
    }
  }

  lemma {:induction false} WithoutFresh(order: seq<Id>, gone: set<Id>, id: Id)
    requires id !in order
    ensures Without(order, gone + {id}) == Without(order, gone)
  {
    if order != [] {
      assert order[0] in order;
      WithoutFresh(order[1..], gone, id);
    }
  }

  /** Only terminal runs go, and the others keep their order. */
  lemma {:induction false} SweepSelects(order: seq<Id>, runs: set<Id>, cap: int, terminal: set<Id>)
    requires Distinct(order) && Members(order) <= runs
    ensures var r := Sweep(order, runs, cap, terminal);
      r.gone <= Members(order) && r.gone <= terminal && r.order == Without(order, r.gone)
  {
    if order != [] {
      var id, rest := order[0], order[1..];
      MembersOf(order);
      if |runs| > cap && id in terminal {
        SweepSelects(rest, runs - {id}, cap, terminal);
        WithoutFresh(rest, Sweep(rest, runs - {id}, cap, terminal).gone, id);
      } else {
        SweepSelects(rest, runs, cap, terminal);
      }
    }
  }

  lemma AlsoGone(runs: set<Id>, gone: set<Id>, id: Id)
    requires id in runs
    ensures runs - {id} - gone == runs - (gone + {id}) && |runs - {id}| == |runs| - 1
    ensures runs - {id} - {} == runs - {id}
  {}

  /** The sweep stops at the cap, and not before unless no terminal run is left. */
  lemma {:induction false} SweepStops(order: seq<Id>, runs: set<Id>, cap: int, terminal: set<Id>)
    requires Distinct(order) && Members(order) <= runs
    ensures var gone := Sweep(order, runs, cap, terminal).gone;
      && (|runs - gone| >= cap || gone == {})
      && (|runs - gone| <= cap || Members(order) * terminal <= gone)
  {
    if order != [] {
      var id, rest := order[0], order[1..];
      MembersOf(order);
      if |runs| > cap && id in terminal {
        SweepStops(rest, runs - {id}, cap, terminal);
        AlsoGone(runs, Sweep(rest, runs - {id}, cap, terminal).gone, id);
      } else if |runs| <= cap {
        NoSweepAtCap(order, runs, cap, terminal);
        assert runs - {} == runs;
      } else {
        SweepStops(rest, runs, cap, terminal);
      }
    }
  }

  /** A terminal run that stays is younger than every run that goes. */
  lemma {:induction false} OldestGoFirst(order: seq<Id>, runs: set<Id>, cap: int, terminal: set<Id>, i: nat, j: nat)
    requires Distinct(order) && Members(order) <= runs && i < j < |order|
    requires order[i] in terminal && order[j] in Sweep(order, runs, cap, terminal).gone
    ensures order[i] in Sweep(order, runs, cap, terminal).gone
  {
    var id, rest := order[0], order[1..];
    assert id in order && Members(order) == Members(rest) + {id};
    assert rest[j - 1] == order[j];
    if |runs| <= cap {
      NoSweepAtCap(order, runs, cap, terminal);
    } else if i > 0 {
      assert rest[i - 1] == order[i] && order[j] in rest;
      OldestGoFirst(rest, if id in terminal then runs - {id} else runs, cap, terminal, i - 1, j - 1);
    }
  }

  /** What a cap enforcement removes. A cap of 0 or less, or one not exceeded, removes nothing. */
  function Evicted(order: seq<Id>, runs: set<Id>, cap: int, terminal: set<Id>): set<Id> {
    if cap <= 0 || |runs| <= cap then {} else Sweep(order, runs, cap, terminal).gone
  }

  lemma EvictedFacts(order: seq<Id>, runs: set<Id>, cap: int, terminal: set<Id>)
    requires Distinct(order) && Members(order) == runs
    ensures Evicted(order, runs, cap, terminal) <= runs && Evicted(order, runs, cap, terminal) <= terminal
  {
    SweepSelects(order, runs, cap, terminal);
  }

  /** What a positive cap guarantees: as many runs as exceed it go, the oldest terminal ones
      first, unless the terminal ones do not suffice; a run that is not terminal never goes. */
  lemma RetentionIsBounded(order: seq<Id>, runs: set<Id>, cap: int, terminal: set<Id>)
    requires Distinct(order) && Members(order) == runs && cap > 0
    ensures var gone := Evicted(order, runs, cap, terminal);
      && gone <= runs && gone <= terminal
      && |runs - gone| == (if |runs| <= cap then |runs|
                           else if |runs - terminal| >= cap then |runs - terminal| else cap)
    ensures forall i, j :: 0 <= i < j < |order| && order[i] in terminal
                           && order[j] in Evicted(order, runs, cap, terminal)
                           ==> order[i] in Evicted(order, runs, cap, terminal)
  {
    var gone := Evicted(order, runs, cap, terminal);
    if |runs| > cap {
      SweepSelects(order, runs, cap, terminal);
      EvictionSize(order, runs, cap, terminal);
      forall i, j | 0 <= i < j < |order| && order[i] in terminal && order[j] in gone
        ensures order[i] in gone
      {
        OldestGoFirst(order, runs, cap, terminal, i, j);
      }
    } else {
      assert runs - gone == runs;
    }
  }

  lemma EvictionSize(order: seq<Id>, runs: set<Id>, cap: int, terminal: set<Id>)
    requires Distinct(order) && Members(order) == runs && |runs| > cap > 0
    ensures var left := runs - Sweep(order, runs, cap, terminal).gone;
      |left| == if |runs - terminal| >= cap then |runs - terminal| else cap
  {
    SweepSelects(order, runs, cap, terminal);
    SweepStops(order, runs, cap, terminal);
    var left := runs - Sweep(order, runs, cap, terminal).gone;
    SubsetSize(runs - terminal, left);
    if |left| > cap {
      assert left == runs - terminal;
    }
    if Sweep(order, runs, cap, terminal).gone == {} {
      assert left == runs;
    }
  }

  lemma SubsetSize(a: set<Id>, b: set<Id>)
    requires a <= b
    ensures |a| <= |b|
  {
    assert b == a + (b - a);
  }

  // -------------------------------------------------------------------------
  // The registry
  // -------------------------------------------------------------------------

  type Spec = string

  datatype RunState = RunState(experiment: Id)

  class Registry {
    var runs: map<Id, RunState>
    var specs: map<Id, Spec>
    var runOrder: seq<Id>
    var counter: nat

    /** The order lists exactly the held runs, each once. */
    ghost predicate Valid()
      reads this
    {
      Distinct(runOrder) && Members(runOrder) == runs.Keys
    }

    constructor ()
      ensures Valid() && runs == map[] && specs == map[] && counter == 0
    {
      runs, specs, runOrder, counter := map[], map[], [], 0;
    }

    /** nextID */
    method NextID(kind: Kind) returns (id: Id)
      modifies this`counter
      ensures counter == old(counter) + 1 && id == IdOf(kind, counter)
    {
      counter := counter + 1;
      id := Prefix(kind) + "-" + Decimal(counter);
    }

    /** registerRunLocked */
    method RegisterRunLocked(id: Id, rs: RunState)
      modifies this`runs, this`runOrder
      ensures runs == old(runs)[id := rs] && runOrder == old(runOrder) + [id]
      ensures old(Valid()) && id !in old(runs) ==> Valid()
    {
      runs := runs[id := rs];
      runOrder := runOrder + [id];
      AppendDistinct(old(runOrder), id);
    }

    /** The loop of enforceRunCapLocked. It drops order entries of runs that are gone already,
        and the specs stored under the ids of the runs it evicts. */
    method SweepRuns(cap: int, terminal: set<Id>)
      modifies this`runs, this`specs, this`runOrder
      ensures var swept := Sweep(old(runOrder), old(runs).Keys, cap, terminal);
        runs == old(runs) - swept.gone && specs == old(specs) - swept.gone && runOrder == swept.order
    {
      var kept: seq<Id> := [];
      var order := runOrder;
      ghost var end := LoopFrom(order, 0, cap, terminal, runs, specs, kept);
      LoopIsSweep(order, 0, cap, terminal, runs, specs, kept);
      assert order[0..] == order;
      for k := 0 to |order|
        invariant end == LoopFrom(order, k, cap, terminal, runs, specs, kept)
      {
        var id := order[k];
        if id !in runs {
          continue;
        }
        if |runs| > cap && id in terminal {
          runs := runs - {id};
          specs := specs - {id};
          continue;
        }
        kept := kept + [id];
      }
      runOrder := kept;
    }

    /** enforceRunCapLocked */
    method EnforceRunCapLocked(cap: int, terminal: set<Id>)
      modifies this`runs, this`specs, this`runOrder
      ensures var gone := Evicted(old(runOrder), old(runs).Keys, cap, terminal);
        runs == old(runs) - gone && specs == old(specs) - gone
      ensures runOrder == if cap <= 0 || |old(runs)| <= cap then old(runOrder)
                          else Sweep(old(runOrder), old(runs).Keys, cap, terminal).order
      ensures old(Valid()) ==> Valid() && runOrder == Without(old(runOrder), old(runs).Keys - runs.Keys)
    {
      SameSize(runs);
      if Distinct(runOrder) && Members(runOrder) == runs.Keys {
        SweepIsValid(runOrder, runs.Keys, cap, terminal);
      }
      if cap <= 0 || |runs| <= cap {
        return;
      }
      SweepRuns(cap, terminal);
    }
  }

  datatype Held = Held(runs: map<Id, RunState>, specs: map<Id, Spec>, order: seq<Id>)

  /** The loop from position k on, as a function of what it has built. */
  function LoopFrom(order: seq<Id>, k: nat, cap: int, terminal: set<Id>, runs: map<Id, RunState>, specs: map<Id, Spec>,
                    kept: seq<Id>): Held
    requires k <= |order|
    decreases |order| - k
  {
    if k == |order| then Held(runs, specs, kept)
    else if order[k] !in runs then LoopFrom(order, k + 1, cap, terminal, runs, specs, kept)
    else if |runs| > cap && order[k] in terminal then
      LoopFrom(order, k + 1, cap, terminal, runs - {order[k]}, specs - {order[k]}, kept)
    else LoopFrom(order, k + 1, cap, terminal, runs, specs, kept + [order[k]])
  }

  lemma DropTwice<T>(m: map<Id, T>, id: Id, gone: set<Id>)
    ensures m - {id} - gone == m - (gone + {id})
    ensures (m - {id}).Keys == m.Keys - {id}
  {}

  /** The loop does what the sweep over ids says, to the runs, the specs and the order. */
  lemma {:induction false} LoopIsSweep(order: seq<Id>, k: nat, cap: int, terminal: set<Id>, runs: map<Id, RunState>,
                                       specs: map<Id, Spec>, kept: seq<Id>)
    requires k <= |order|
    ensures var swept := Sweep(order[k..], runs.Keys, cap, terminal);
      LoopFrom(order, k, cap, terminal, runs, specs, kept)
      == Held(runs - swept.gone, specs - swept.gone, kept + swept.order)
    decreases |order| - k
  {
    if k == |order| {
      assert order[k..] == [] && runs - {} == runs && specs - {} == specs && kept + [] == kept;
    } else {
      var id := order[k];
      assert order[k..][0] == id && order[k..][1..] == order[k + 1..];
      SameSize(runs);
      if id !in runs {
        LoopIsSweep(order, k + 1, cap, terminal, runs, specs, kept);
      } else if |runs| > cap && id in terminal {
        LoopIsSweep(order, k + 1, cap, terminal, runs - {id}, specs - {id}, kept);
        var gone := Sweep(order[k + 1..], runs.Keys - {id}, cap, terminal).gone;
        DropTwice(runs, id, gone);
        DropTwice(specs, id, gone);
      } else {
        LoopIsSweep(order, k + 1, cap, terminal, runs, specs, kept + [id]);
        var left := Sweep(order[k + 1..], runs.Keys, cap, terminal).order;
        assert kept + [id] + left == kept + ([id] + left);
      }
    }
  }

  /** An enforcement on a valid registry leaves a valid one. */
  lemma SweepIsValid(order: seq<Id>, runs: set<Id>, cap: int, terminal: set<Id>)
    requires Distinct(order) && Members(order) == runs
    ensures var gone := Evicted(order, runs, cap, terminal);
      && Distinct(Without(order, gone)) && Members(Without(order, gone)) == runs - gone
      && runs - (runs - gone) == gone
      && (cap <= 0 || |runs| <= cap ==> Without(order, gone) == order)
      && (cap > 0 && |runs| > cap ==> Without(order, gone) == Sweep(order, runs, cap, terminal).order)
  {
    SweepSelects(order, runs, cap, terminal);
    var gone := Evicted(order, runs, cap, terminal);
    SweptIsValid(order, gone);
  }

  lemma SameSize<R>(m: map<Id, R>)
    ensures |m| == |m.Keys|
  {}

  lemma {:induction false} AppendDistinct(order: seq<Id>, id: Id)
    ensures Distinct(order) && id !in order ==> Distinct(order + [id])
    ensures Members(order + [id]) == Members(order) + {id}
  {
    if order != [] && Distinct(order) && id !in order {
      assert (order + [id])[1..] == order[1..] + [id];
      assert order[0] in order;
      AppendDistinct(order[1..], id);
    }
  }

  lemma {:induction false} SweptIsValid(order: seq<Id>, gone: set<Id>)
    ensures Members(Without(order, gone)) == Members(order) - gone
    ensures Distinct(order) ==> Distinct(Without(order, gone))
    ensures gone == {} ==> Without(order, gone) == order
  {
    if order != [] {
      var rest := Without(order[1..], gone);
      SweptIsValid(order[1..], gone);
      MembersOf(order);
      if order[0] !in gone {
        var all := [order[0]] + rest;
        assert all[1..] == rest;
        MembersOf(all);
        assert order[0] in rest ==> order[0] in Members(rest);
      }
    }
  }

  // -------------------------------------------------------------------------
  // Every trace of the server's use of the registry
  // -------------------------------------------------------------------------

  const MAX_RETAINED_RUNS := 1000

  /** exps and runIds are the numbers handed out and not stored yet; log lists every run ever
      registered, evicted and finished are those gone and those seen terminal, created is
      every spec ever stored. */
  datatype State = State(
    counter: nat,
    exps: set<nat>,
    runIds: set<nat>,
    runs: set<Id>,
    order: seq<Id>,
    specs: map<Id, string>,
    log: seq<Id>,
    evicted: set<Id>,
    finished: set<Id>,
    created: map<Id, string>
  )

  const INIT := State(0, {}, {}, {}, [], map[], [], {}, {}, map[])

  /** Ids are drawn outside the lock; storing a spec, and registering a run together with the
      cap enforcement, are each one locked section. */
  datatype Step =
    | Draw(kind: Kind) | StoreSpec(n: nat, spec: string)
    | StartRun(n: nat, terminal: set<Id>) | Finish(id: Id)

  predicate Enabled(s: State, step: Step) {
    match step
    case Draw(_) => true
    case StoreSpec(n, _) => n in s.exps
    case StartRun(n, terminal) => n in s.runIds && s.finished <= terminal
    case Finish(id) => id in s.log
  }

  function Apply(s: State, step: Step): State
    requires Enabled(s, step)
  {
    match step
    case Draw(kind) =>
      var n := s.counter + 1;
      if kind == Run then s.(counter := n, runIds := s.runIds + {n}) else s.(counter := n, exps := s.exps + {n})
    case StoreSpec(n, spec) =>
      var id := IdOf(Experiment, n);
      s.(exps := s.exps - {n}, specs := s.specs[id := spec], created := s.created[id := spec])
    case StartRun(n, terminal) =>
      var id := IdOf(Run, n);
      var order, runs := s.order + [id], s.runs + {id};
      var gone := Evicted(order, runs, MAX_RETAINED_RUNS, terminal);
      s.(runIds := s.runIds - {n}, runs := runs - gone, order := Without(order, gone), specs := s.specs - gone,
         log := s.log + [id], evicted := s.evicted + gone, finished := terminal)
    case Finish(id) => s.(finished := s.finished + {id})
  }

  function Execute(s: State, steps: seq<Step>): Option<State>
    decreases |steps|
  {
    if steps == [] then Some(s)
    else if Enabled(s, steps[0]) then Execute(Apply(s, steps[0]), steps[1..])
    else None
  }

  predicate Issued(s: State, kind: Kind, id: Id) {
    exists n :: 1 <= n <= s.counter && n !in (if kind == Run then s.runIds else s.exps) && id == IdOf(kind, n)
  }

  ghost predicate NumbersInv(s: State) {
    && (forall n :: n in s.runIds ==> 1 <= n <= s.counter)
    && (forall n :: n in s.exps ==> 1 <= n <= s.counter)
    && (forall id :: id in Members(s.log) ==> Issued(s, Run, id))
    && (forall id :: id in s.created ==> Issued(s, Experiment, id))
  }

  ghost predicate OrderInv(s: State) {
    && Distinct(s.log) && s.evicted <= Members(s.log) && s.evicted <= s.finished
    && s.order == Without(s.log, s.evicted)
    && s.runs == Members(s.log) - s.evicted
  }

  ghost predicate Inv(s: State) {
    NumbersInv(s) && OrderInv(s) && s.specs == s.created
  }

  lemma DrawInv(s: State, kind: Kind)
    requires Inv(s)
    ensures Inv(Apply(s, Draw(kind)))
  {
    var t := Apply(s, Draw(kind));
    forall k: Kind, id | Issued(s, k, id)
      ensures Issued(t, k, id)
    {
      var n :| 1 <= n <= s.counter && n !in (if k == Run then s.runIds else s.exps) && id == IdOf(k, n);
      assert n <= t.counter && n != t.counter;
    }
  }

  lemma StoreSpecInv(s: State, n: nat, spec: string)
    requires Inv(s) && Enabled(s, StoreSpec(n, spec))
    ensures Inv(Apply(s, StoreSpec(n, spec)))
  {
    var t := Apply(s, StoreSpec(n, spec));
    forall k: Kind, id | Issued(s, k, id)
      ensures Issued(t, k, id)
    {
      var m :| 1 <= m <= s.counter && m !in (if k == Run then s.runIds else s.exps) && id == IdOf(k, m);
      assert m <= t.counter;
    }
    assert Issued(t, Experiment, IdOf(Experiment, n));
  }

  lemma FreshRun(s: State, n: nat)
    requires NumbersInv(s) && n in s.runIds
    ensures IdOf(Run, n) !in s.log
  {
    if IdOf(Run, n) in Members(s.log) {
      var m :| 1 <= m <= s.counter && m !in s.runIds && IdOf(Run, n) == IdOf(Run, m);
      IdsAreDistinct(Run, n, Run, m);
    }
  }

  lemma {:induction false} WithoutAppend(order: seq<Id>, gone: set<Id>, id: Id)
    requires id !in gone
    ensures Without(order + [id], gone) == Without(order, gone) + [id]
  {
    if order == [] {
      assert [] + [id] == [id];
    } else {
      assert (order + [id])[1..] == order[1..] + [id];
      WithoutAppend(order[1..], gone, id);
    }
  }

  lemma {:induction false} WithoutTwice(order: seq<Id>, a: set<Id>, b: set<Id>)
    ensures Without(Without(order, a), b) == Without(order, a + b)
  {
    if order != [] {
      WithoutTwice(order[1..], a, b);
    }
  }

  /** What the locked section of StartRun hands to the cap enforcement. */
  lemma Registered(s: State, n: nat)
    requires Inv(s) && n in s.runIds
    ensures var id := IdOf(Run, n);
      && id !in s.log && Distinct(s.log + [id]) && Members(s.log + [id]) == Members(s.log) + {id}
      && s.order + [id] == Without(s.log + [id], s.evicted)
      && Distinct(s.order + [id]) && Members(s.order + [id]) == s.runs + {id}
  {
    var id := IdOf(Run, n);
    FreshRun(s, n);
    AppendDistinct(s.log, id);
    WithoutAppend(s.log, s.evicted, id);
    SweptIsValid(s.log + [id], s.evicted);
  }

  lemma OrderAfter(log: seq<Id>, evicted: set<Id>, gone: set<Id>)
    requires evicted <= Members(log) && gone <= Members(log) - evicted
    ensures Without(Without(log, evicted), gone) == Without(log, evicted + gone)
    ensures Members(log) - evicted - gone == Members(log) - (evicted + gone) && evicted + gone <= Members(log)
  {
    WithoutTwice(log, evicted, gone);
  }

  lemma StartRunOrder(s: State, n: nat, terminal: set<Id>)
    requires Inv(s) && Enabled(s, StartRun(n, terminal))
    ensures OrderInv(Apply(s, StartRun(n, terminal)))
    ensures Evicted(s.order + [IdOf(Run, n)], s.runs + {IdOf(Run, n)}, MAX_RETAINED_RUNS, terminal)
         <= Members(s.log + [IdOf(Run, n)])
  {
    var id := IdOf(Run, n);
    var order, runs := s.order + [id], s.runs + {id};
    Registered(s, n);
    EvictedFacts(order, runs, MAX_RETAINED_RUNS, terminal);
    OrderAfter(s.log + [id], s.evicted, Evicted(order, runs, MAX_RETAINED_RUNS, terminal));
  }

  lemma StartRunNumbers(s: State, n: nat, terminal: set<Id>)
    requires NumbersInv(s) && Enabled(s, StartRun(n, terminal))
    ensures NumbersInv(Apply(s, StartRun(n, terminal)))
  {
    var t, id := Apply(s, StartRun(n, terminal)), IdOf(Run, n);
    forall k: Kind, x | Issued(s, k, x)
      ensures Issued(t, k, x)
    {
      var m :| 1 <= m <= s.counter && m !in (if k == Run then s.runIds else s.exps) && x == IdOf(k, m);
      assert m <= t.counter;
    }
    assert Issued(t, Run, id);
    assert Members(t.log) == Members(s.log) + {id};
  }

  /** No run was ever registered under the id of a spec. */
  lemma SpecsAreNoRuns(s: State)
    requires NumbersInv(s)
    ensures s.created.Keys !! Members(s.log)
  {
    forall x | x in s.created
      ensures x !in Members(s.log)
    {
      if x in Members(s.log) {
        var a :| 1 <= a <= s.counter && a !in s.runIds && x == IdOf(Run, a);
        var b :| 1 <= b <= s.counter && b !in s.exps && x == IdOf(Experiment, b);
        IdsAreDistinct(Run, a, Experiment, b);
      }
    }
  }

  lemma NothingToDelete(specs: map<Id, string>, gone: set<Id>)
    requires specs.Keys !! gone
    ensures specs - gone == specs
  {}

  lemma StartRunInv(s: State, n: nat, terminal: set<Id>)
    requires Inv(s) && Enabled(s, StartRun(n, terminal))
    ensures Inv(Apply(s, StartRun(n, terminal)))
  {
    var t, id := Apply(s, StartRun(n, terminal)), IdOf(Run, n);
    StartRunOrder(s, n, terminal);
    StartRunNumbers(s, n, terminal);
    SpecsAreNoRuns(t);
    NothingToDelete(s.specs, Evicted(s.order + [id], s.runs + {id}, MAX_RETAINED_RUNS, terminal));
  }

  lemma StepInv(s: State, step: Step)
    requires Inv(s) && Enabled(s, step)
    ensures Inv(Apply(s, step))
  {
    match step {
      case Draw(kind) => DrawInv(s, kind);
      case StoreSpec(n, spec) => StoreSpecInv(s, n, spec);
      case StartRun(n, terminal) => StartRunInv(s, n, terminal);
      case Finish(id) =>
        forall k: Kind, x | Issued(s, k, x)
          ensures Issued(Apply(s, step), k, x)
        {
        }
    }
  }

  lemma {:induction false} ExecuteInv(s: State, steps: seq<Step>)
    requires Inv(s) && Execute(s, steps).Some?
    ensures Inv(Execute(s, steps).value)
    decreases |steps|
  {
    if steps != [] {
      StepInv(s, steps[0]);
      ExecuteInv(Apply(s, steps[0]), steps[1..]);
    }
  }

  // -------------------------------------------------------------------------
  // What a trace says by itself
  // -------------------------------------------------------------------------

  /** The kinds drawn: the n-th one has number n. */
  function Draws(steps: seq<Step>): seq<Kind> {
    if steps == [] then []
    else
      var before, last := Draws(steps[..|steps| - 1]), steps[|steps| - 1];
      if last.Draw? then before + [last.kind] else before
  }

  /** The runs started, in order. */
  function Started(steps: seq<Step>): seq<Id> {
    if steps == [] then []
    else
      var before, last := Started(steps[..|steps| - 1]), steps[|steps| - 1];
      if last.StartRun? then before + [IdOf(Run, last.n)] else before
  }

  /** The specs stored. */
  function Stored(steps: seq<Step>): map<Id, string> {
    if steps == [] then map[]
    else
      var before, last := Stored(steps[..|steps| - 1]), steps[|steps| - 1];
      if last.StoreSpec? then before[IdOf(Experiment, last.n) := last.spec] else before
  }

  /** The runs that finished or were met as terminal. */
  function SeenTerminal(steps: seq<Step>): set<Id> {
    if steps == [] then {}
    else
      var before, last := SeenTerminal(steps[..|steps| - 1]), steps[|steps| - 1];
      if last.StartRun? then before + last.terminal else if last.Finish? then before + {last.id} else before
  }

  predicate UsedUp(steps: seq<Step>, kind: Kind, n: nat) {
    exists i :: 0 <= i < |steps| && Uses(steps[i], kind, n)
  }

  /** The step stores something under the number. */
  predicate Uses(step: Step, kind: Kind, n: nat) {
    match step
    case StartRun(m, _) => kind == Run && m == n
    case StoreSpec(m, _) => kind == Experiment && m == n
    case _ => false
  }

  /** The number was drawn for that kind and nothing is stored under it yet. */
  predicate Pending(steps: seq<Step>, kind: Kind, n: nat) {
    1 <= n <= |Draws(steps)| && Draws(steps)[n - 1] == kind && !UsedUp(steps, kind, n)
  }

  ghost predicate Keeps(steps: seq<Step>, s: State) {
    && s.log == Started(steps) && s.created == Stored(steps) && s.finished == SeenTerminal(steps)
    && s.counter == |Draws(steps)|
    && (forall n :: n in s.runIds <==> Pending(steps, Run, n))
    && (forall n :: n in s.exps <==> Pending(steps, Experiment, n))
  }

  lemma OneMoreStep(steps: seq<Step>, step: Step)
    ensures (steps + [step])[..|steps|] == steps
    ensures forall kind, n :: UsedUp(steps + [step], kind, n) <==> UsedUp(steps, kind, n) || Uses(step, kind, n)
  {
    var more := steps + [step];
    forall kind, n
      ensures UsedUp(more, kind, n) <==> UsedUp(steps, kind, n) || Uses(step, kind, n)
    {
      if UsedUp(steps, kind, n) {
        var i :| 0 <= i < |steps| && Uses(steps[i], kind, n);
        assert Uses(more[i], kind, n);
      }
      if Uses(step, kind, n) {
        assert Uses(more[|steps|], kind, n);
      }
    }
  }

  /** A number not drawn yet has nothing stored under it. */
  lemma {:induction false} UsedWasDrawn(steps: seq<Step>, kind: Kind, n: nat)
    requires Execute(INIT, steps).Some? && UsedUp(steps, kind, n)
    ensures n <= |Draws(steps)|
    decreases |steps|
  {
    var front, step := steps[..|steps| - 1], steps[|steps| - 1];
    assert front + [step] == steps;
    OneMoreStep(front, step);
    ExecuteLast(INIT, front, step);
    assert |Draws(front)| <= |Draws(front + [step])|;
    if UsedUp(front, kind, n) {
      UsedWasDrawn(front, kind, n);
    } else {
      assert Uses(step, kind, n);
      ExecuteKeeps(front);
      assert Pending(front, kind, n);
    }
  }

  lemma {:induction false} ExecuteLast(s: State, steps: seq<Step>, step: Step)
    requires Execute(s, steps + [step]).Some?
    ensures Execute(s, steps).Some? && Enabled(Execute(s, steps).value, step)
    ensures Execute(s, steps + [step]).value == Apply(Execute(s, steps).value, step)
    decreases |steps|
  {
    if steps != [] {
      assert (steps + [step])[1..] == steps[1..] + [step];
      ExecuteLast(Apply(s, steps[0]), steps[1..], step);
    }
  }

  lemma DrawKeeps(steps: seq<Step>, s: State, kind: Kind)
    requires Keeps(steps, s) && forall k: Kind, n: nat :: UsedUp(steps, k, n) ==> n <= |Draws(steps)|
    ensures Keeps(steps + [Draw(kind)], Apply(s, Draw(kind)))
  {
    var more, t := steps + [Draw(kind)], Apply(s, Draw(kind));
    OneMoreStep(steps, Draw(kind));
    forall n
      ensures n in t.runIds <==> Pending(more, Run, n)
      ensures n in t.exps <==> Pending(more, Experiment, n)
    {
      assert n in s.runIds <==> Pending(steps, Run, n);
      assert n in s.exps <==> Pending(steps, Experiment, n);
    }
  }

  lemma OtherStepKeeps(steps: seq<Step>, s: State, step: Step)
    requires Keeps(steps, s) && Enabled(s, step) && !step.Draw?
    ensures Keeps(steps + [step], Apply(s, step))
  {
    var more, t := steps + [step], Apply(s, step);
    OneMoreStep(steps, step);
    forall n
      ensures n in t.runIds <==> Pending(more, Run, n)
      ensures n in t.exps <==> Pending(more, Experiment, n)
    {
      assert n in s.runIds <==> Pending(steps, Run, n);
      assert n in s.exps <==> Pending(steps, Experiment, n);
    }
  }

  /** Every state is what its trace makes of it. */
  lemma {:induction false} ExecuteKeeps(steps: seq<Step>)
    requires Execute(INIT, steps).Some?
    ensures Keeps(steps, Execute(INIT, steps).value)
    decreases |steps|
  {
    if steps != [] {
      var front, step := steps[..|steps| - 1], steps[|steps| - 1];
      assert front + [step] == steps;
      ExecuteLast(INIT, front, step);
      ExecuteKeeps(front);
      if step.Draw? {
        forall k: Kind, n: nat | UsedUp(front, k, n)
          ensures n <= |Draws(front)|
        {
          UsedWasDrawn(front, k, n);
        }
        DrawKeeps(front, Execute(INIT, front).value, step.kind);
      } else {
        OtherStepKeeps(front, Execute(INIT, front).value, step);
      }
    }
  }

  /** A run can be started exactly under a number drawn for one and not used yet. */
  lemma NumbersAreUsedOnce(steps: seq<Step>, n: nat, terminal: set<Id>)
    requires Execute(INIT, steps).Some?
    ensures Enabled(Execute(INIT, steps).value, StartRun(n, terminal))
       <==> Pending(steps, Run, n) && SeenTerminal(steps) <= terminal
  {
    ExecuteKeeps(steps);
  }

  /** In every trace the order lists exactly the held runs, once each and in the order they
      were started, and a started run that is not held any more was seen terminal. */
  lemma OrderIsInsertionOrder(steps: seq<Step>)
    requires Execute(INIT, steps).Some?
    ensures var s := Execute(INIT, steps).value;
      && Distinct(s.order) && Members(s.order) == s.runs
      && s.order == Without(Started(steps), Members(Started(steps)) - s.runs)
      && Members(Started(steps)) - s.runs <= SeenTerminal(steps)
  {
    ExecuteInv(INIT, steps);
    ExecuteKeeps(steps);
    var s := Execute(INIT, steps).value;
    SweptIsValid(s.log, s.evicted);
    assert Members(s.log) - s.runs == s.evicted;
  }

  lemma OnlyTerminalGo(runs: set<Id>, gone: set<Id>, terminal: set<Id>)
    requires gone <= terminal
    ensures (runs - gone) - terminal == runs - terminal && runs - terminal <= runs - gone
  {}

  /** Starting a run leaves at most the cap, unless more than that were not terminal when
      they were checked; those all stay. */
  lemma StartingRespectsTheCap(steps: seq<Step>, n: nat, terminal: set<Id>)
    requires Execute(INIT, steps).Some? && Enabled(Execute(INIT, steps).value, StartRun(n, terminal))
    ensures var s := Execute(INIT, steps).value;
      var t := Apply(s, StartRun(n, terminal));
      && |t.runs| <= (if |t.runs - terminal| >= MAX_RETAINED_RUNS then |t.runs - terminal| else MAX_RETAINED_RUNS)
      && s.runs - terminal <= t.runs
  {
    ExecuteInv(INIT, steps);
    var s := Execute(INIT, steps).value;
    var id := IdOf(Run, n);
    var order, runs := s.order + [id], s.runs + {id};
    Registered(s, n);
    RetentionIsBounded(order, runs, MAX_RETAINED_RUNS, terminal);
    OnlyTerminalGo(runs, Evicted(order, runs, MAX_RETAINED_RUNS, terminal), terminal);
  }

  /** Eviction never removes a spec: specs are stored under experiment ids, and the delete
      uses the run's id, which is never one. */
  lemma SpecsAreNeverEvicted(steps: seq<Step>)
    requires Execute(INIT, steps).Some?
    ensures Execute(INIT, steps).value.specs == Stored(steps)
  {
    ExecuteInv(INIT, steps);
    ExecuteKeeps(steps);
  }
}
