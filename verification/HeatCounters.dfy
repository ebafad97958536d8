/** Per-edge traffic counters: lock-free recorders, a streaming reader, and the run's
    status, as a transition system over every interleaving. */
module HeatCounters {
  import opened Options

  datatype Edge = Edge(from: string, to: string)

  // -------------------------------------------------------------------------
  // The slot table
  // -------------------------------------------------------------------------

  function Key(from: string, to: string): string {
    from + ">" + to
  }

  datatype Table = Table(idx: map<string, nat>, slots: seq<Edge>)

  /** Keys and slots name each other. */
  ghost predicate ValidTable(t: Table) {
    && (forall k :: k in t.idx ==> t.idx[k] < |t.slots| && Key(t.slots[t.idx[k]].from, t.slots[t.idx[k]].to) == k)
    && (forall j :: 0 <= j < |t.slots| ==> Key(t.slots[j].from, t.slots[j].to) in t.idx)
    && (forall j :: 0 <= j < |t.slots| ==> t.idx[Key(t.slots[j].from, t.slots[j].to)] == j)
  }

  /** The transitions a graph can produce: an entry into each node, and its edges. */
  ghost predicate IsTransition(nodes: seq<string>, edges: seq<Edge>, e: Edge) {
    (e.from == "" && e.to in nodes) || e in edges
  }

  method AddSlot(t: Table, e: Edge) returns (t': Table)
    requires ValidTable(t)
    ensures ValidTable(t') && t.slots <= t'.slots && |t'.slots| <= |t.slots| + 1
    ensures forall k :: k in t.idx ==> k in t'.idx
    ensures Key(e.from, e.to) in t'.idx
    ensures forall j :: |t.slots| <= j < |t'.slots| ==> t'.slots[j] == e
  {
    var k := Key(e.from, e.to);
    if k in t.idx {
      return t;
    }
    t' := Table(t.idx[k := |t.slots|], t.slots + [e]);
  }

  /** newHeatAgg: one slot per distinct key, nodes first; every transition has a slot and
      every slot is a transition. */
  method NewHeatAgg(nodes: seq<string>, edges: seq<Edge>) returns (t: Table)
    ensures ValidTable(t)
    ensures forall e :: IsTransition(nodes, edges, e) ==> Key(e.from, e.to) in t.idx
    ensures forall j :: 0 <= j < |t.slots| ==> IsTransition(nodes, edges, t.slots[j])
  {
    t := Table(map[], []);
    for i := 0 to |nodes|
      invariant ValidTable(t)
      invariant forall k :: 0 <= k < i ==> Key("", nodes[k]) in t.idx
      invariant forall j :: 0 <= j < |t.slots| ==> IsTransition(nodes, edges, t.slots[j])
    {
      t := AddSlot(t, Edge("", nodes[i]));
    }
    for i := 0 to |edges|
      invariant ValidTable(t)
      invariant forall k :: 0 <= k < |nodes| ==> Key("", nodes[k]) in t.idx
      invariant forall k :: 0 <= k < i ==> Key(edges[k].from, edges[k].to) in t.idx
      invariant forall j :: 0 <= j < |t.slots| ==> IsTransition(nodes, edges, t.slots[j])
    {
      t := AddSlot(t, edges[i]);
    }
    forall e | IsTransition(nodes, edges, e)
      ensures Key(e.from, e.to) in t.idx
    {
      if e in edges {
        var k :| 0 <= k < |edges| && edges[k] == e;
      } else {
        var k :| 0 <= k < |nodes| && nodes[k] == e.to;
      }
    }
  }

  /** With source ids free of '>', a key names one edge. */
  lemma KeyInjective(a: Edge, b: Edge)
    requires '>' !in a.from && '>' !in b.from && Key(a.from, a.to) == Key(b.from, b.to)
    ensures a == b
  {
    var s := Key(a.from, a.to);
    assert s[|a.from|] == '>' && s[|b.from|] == '>';
    forall i | 0 <= i < |a.from|
      ensures s[i] != '>'
    {
      assert s[i] == a.from[i];
    }
    forall i | 0 <= i < |b.from|
      ensures s[i] != '>'
    {
      assert s[i] == b.from[i];
    }
    assert a.from == s[..|a.from|] && b.from == s[..|b.from|];
    assert a.to == s[|a.from| + 1..] && b.to == s[|b.from| + 1..];
  }

  /** Otherwise two edges can share a counter. */
  lemma KeysCanCollide()
    ensures Edge("a>b", "c") != Edge("a", "b>c") && Key("a>b", "c") == Key("a", "b>c")
  {
    assert Key("a>b", "c") == "a>b>c" == Key("a", "b>c");
    assert |"a>b"| != |"a"|;
  }

  // -------------------------------------------------------------------------
  // Recorders, run and reader
  // -------------------------------------------------------------------------

  /** A recorder: before its request add, between its two adds, or through. */
  datatype Phase = Fresh | Half | Through

  datatype Recorder = Recorder(edge: Edge, ok: bool, phase: Phase)

  datatype Status = Running | Completed | Failed | Killed

  /** The reader is idle, about to load a slot's request count, holding it while about to
      load its error count, or gone after a done frame. after: the run was finalized when
      its status was read; torn: the slots a request was added to between the two loads. */
  datatype Reader =
    | Idle
    | Loading(seen: Status, after: bool, torn: set<nat>, reqs: seq<nat>, errs: seq<nat>)
    | Halfway(seen: Status, after: bool, torn: set<nat>, reqs: seq<nat>, errs: seq<nat>, req: nat)
    | Gone

  datatype Frame = Frame(seen: Status, after: bool, torn: set<nat>, reqs: seq<nat>, errs: seq<nat>)

  datatype State = State(
    req: seq<nat>, err: seq<nat>, recorders: seq<Recorder>,
    status: Status, finalized: bool, reader: Reader, frames: seq<Frame>)

  function Init(t: Table): State {
    State(seq(|t.slots|, _ => 0), seq(|t.slots|, _ => 0), [], Running, false, Idle, [])
  }

  datatype Step =
    | Begin(edge: Edge, ok: bool) | AddReq(i: nat) | AddErr(i: nat)
    | Kill | Finalize(ok: bool)
    | ReadStatus | LoadReq | LoadErr | Emit

  /** The slot an edge is counted in; -1 for an unknown transition. */
  function SlotOf(t: Table, e: Edge): int {
    if Key(e.from, e.to) in t.idx then t.idx[Key(e.from, e.to)] else -1
  }

  /** The run is finalized once its sessions, and so their recorders, are through. */
  ghost predicate Enabled(t: Table, s: State, step: Step) {
    match step
    case Begin(_, _) => !s.finalized
    case AddReq(i) => i < |s.recorders| && s.recorders[i].phase.Fresh?
    case AddErr(i) => i < |s.recorders| && s.recorders[i].phase.Half?
    case Kill => s.status.Running?
    case Finalize(_) => !s.finalized && forall i :: 0 <= i < |s.recorders| ==> s.recorders[i].phase.Through?
    case ReadStatus => s.reader.Idle?
    case LoadReq => s.reader.Loading? && |s.reader.reqs| < |t.slots|
    case LoadErr => s.reader.Halfway?
    case Emit => s.reader.Loading? && |s.reader.reqs| == |t.slots|
  }

  function Bump(counts: seq<nat>, j: int): seq<nat> {
    if 0 <= j < |counts| then counts[j := counts[j] + 1] else counts
  }

  function At(counts: seq<nat>, j: nat): nat {
    if j < |counts| then counts[j] else 0
  }

  /** A request added to slot j while the reader is between that slot's two loads. */
  function Torn(r: Reader, j: int): Reader {
    if r.Halfway? && |r.reqs| == j then r.(torn := r.torn + {|r.reqs|}) else r
  }

  function Apply(t: Table, s: State, step: Step): State
    requires Enabled(t, s, step)
  {
    match step
    case Begin(edge, ok) => s.(recorders := s.recorders + [Recorder(edge, ok, Fresh)])
    case AddReq(i) =>
      var r := s.recorders[i];
      var j := SlotOf(t, r.edge);
      s.(req := Bump(s.req, j), recorders := s.recorders[i := r.(phase := if j < 0 || r.ok then Through else Half)],
         reader := Torn(s.reader, j))
    case AddErr(i) =>
      var r := s.recorders[i];
      s.(err := Bump(s.err, SlotOf(t, r.edge)), recorders := s.recorders[i := r.(phase := Through)])
    case Kill => s.(status := Killed)
    case Finalize(ok) =>
      s.(finalized := true, status := if s.status.Killed? then Killed else if ok then Completed else Failed)
    case ReadStatus => s.(reader := Loading(s.status, s.finalized, {}, [], []))
    case LoadReq =>
      var rd := s.reader;
      var n := At(s.req, |rd.reqs|);
      s.(reader := if n == 0 then Loading(rd.seen, rd.after, rd.torn, rd.reqs + [0], rd.errs + [0])
                   else Halfway(rd.seen, rd.after, rd.torn, rd.reqs, rd.errs, n))
    case LoadErr =>
      var rd := s.reader;
      s.(reader := Loading(rd.seen, rd.after, rd.torn, rd.reqs + [rd.req], rd.errs + [At(s.err, |rd.errs|)]))
    case Emit =>
      var rd := s.reader;
      s.(frames := s.frames + [Frame(rd.seen, rd.after, rd.torn, rd.reqs, rd.errs)],
         reader := if rd.seen.Running? then Idle else Gone)
  }

  // -------------------------------------------------------------------------
  // Counting recorders
  // -------------------------------------------------------------------------

  /** All recorders, those whose request add happened, those whose error add happened,
      and the failed ones. */
  datatype Tally = Events | Requested | Erred | Failures

  function Weight(t: Table, y: Tally, r: Recorder, j: nat): nat {
    if SlotOf(t, r.edge) != j then 0
    else match y
      case Events => 1
      case Requested => if r.phase.Fresh? then 0 else 1
      case Erred => if r.ok || !r.phase.Through? then 0 else 1
      case Failures => if r.ok then 0 else 1
  }

  function Total(t: Table, y: Tally, rs: seq<Recorder>, j: nat): nat {
    if rs == [] then 0 else Total(t, y, rs[..|rs| - 1], j) + Weight(t, y, rs[|rs| - 1], j)
  }

  lemma {:induction false} TotalUpdate(t: Table, y: Tally, rs: seq<Recorder>, i: nat, r: Recorder, j: nat)
    requires i < |rs|
    ensures Total(t, y, rs[i := r], j) == Total(t, y, rs, j) - Weight(t, y, rs[i], j) + Weight(t, y, r, j)
  {
    var last := |rs| - 1;
    if i == last {
      assert rs[i := r][..last] == rs[..last];
    } else {
      assert rs[i := r][..last] == rs[..last][i := r];
      TotalUpdate(t, y, rs[..last], i, r, j);
    }
  }

  lemma TotalAppend(t: Table, y: Tally, rs: seq<Recorder>, r: Recorder, j: nat)
    ensures Total(t, y, rs + [r], j) == Total(t, y, rs, j) + Weight(t, y, r, j)
  {
    assert (rs + [r])[..|rs|] == rs;
  }

  lemma {:induction false} ErredAreRequested(t: Table, rs: seq<Recorder>, j: nat)
    ensures Total(t, Erred, rs, j) <= Total(t, Requested, rs, j)
  {
    if rs != [] {
      ErredAreRequested(t, rs[..|rs| - 1], j);
    }
  }

  lemma {:induction false} ThroughAreCounted(t: Table, rs: seq<Recorder>, j: nat)
    requires forall i :: 0 <= i < |rs| ==> rs[i].phase.Through?
    ensures Total(t, Requested, rs, j) == Total(t, Events, rs, j)
    ensures Total(t, Erred, rs, j) == Total(t, Failures, rs, j)
  {
    if rs != [] {
      ThroughAreCounted(t, rs[..|rs| - 1], j);
    }
  }

  // -------------------------------------------------------------------------
  // The invariants
  // -------------------------------------------------------------------------

  /** Memory holds, per slot, exactly the adds that have happened. */
  ghost predicate MemoryInv(t: Table, s: State) {
    && |s.req| == |s.err| == |t.slots|
    && (forall j :: 0 <= j < |t.slots| ==> s.req[j] == Total(t, Requested, s.recorders, j))
    && (forall j :: 0 <= j < |t.slots| ==> s.err[j] == Total(t, Erred, s.recorders, j))
  }

  lemma InitMemory(t: Table)
    ensures MemoryInv(t, Init(t))
  {}

  lemma AddReqMemory(t: Table, s: State, i: nat)
    requires MemoryInv(t, s) && Enabled(t, s, AddReq(i))
    ensures MemoryInv(t, Apply(t, s, AddReq(i)))
  {
    var s' := Apply(t, s, AddReq(i));
    forall j | 0 <= j < |t.slots|
      ensures s'.req[j] == Total(t, Requested, s'.recorders, j) && s'.err[j] == Total(t, Erred, s'.recorders, j)
    {
      TotalUpdate(t, Requested, s.recorders, i, s'.recorders[i], j);
      TotalUpdate(t, Erred, s.recorders, i, s'.recorders[i], j);
    }
  }

  lemma AddErrMemory(t: Table, s: State, i: nat)
    requires MemoryInv(t, s) && Enabled(t, s, AddErr(i)) && !s.recorders[i].ok
    ensures MemoryInv(t, Apply(t, s, AddErr(i)))
  {
    var s' := Apply(t, s, AddErr(i));
    forall j | 0 <= j < |t.slots|
      ensures s'.req[j] == Total(t, Requested, s'.recorders, j) && s'.err[j] == Total(t, Erred, s'.recorders, j)
    {
      TotalUpdate(t, Requested, s.recorders, i, s'.recorders[i], j);
      TotalUpdate(t, Erred, s.recorders, i, s'.recorders[i], j);
    }
  }

  /** A recorder waiting to add its error is a failed one with a slot. */
  ghost predicate HalfInv(s: State) {
    forall i :: 0 <= i < |s.recorders| ==> s.recorders[i].phase.Half? ==> !s.recorders[i].ok
  }

  /** The status is Completed or Failed only once finalized, and from then on no
      recorder is at work. */
  ghost predicate StatusInv(s: State) {
    && (s.status.Completed? || s.status.Failed? ==> s.finalized)
    && (s.finalized ==> !s.status.Running? && forall i :: 0 <= i < |s.recorders| ==> s.recorders[i].phase.Through?)
  }

  ghost predicate Below(a: seq<nat>, b: seq<nat>) {
    |a| <= |b| && forall j :: 0 <= j < |a| ==> a[j] <= b[j]
  }

  /** What the reader has loaded never exceeds memory, and never falls behind the last
      frame. */
  ghost predicate LoadInv(t: Table, s: State, reqs: seq<nat>, errs: seq<nat>) {
    && |reqs| == |errs| <= |t.slots|
    && Below(reqs, s.req) && Below(errs, s.err)
    && (s.frames != [] ==> forall j :: 0 <= j < |reqs| ==>
          At(LastFrame(s).reqs, j) <= reqs[j] && At(LastFrame(s).errs, j) <= errs[j])
  }

  ghost function LastFrame(s: State): (f: Frame)
    requires s.frames != []
  {
    s.frames[|s.frames| - 1]
  }

  /** A completed or failed run was finalized when it was seen to be, and what is loaded
      after that is what memory holds for good. */
  ghost predicate SeenInv(s: State, seen: Status, after: bool, reqs: seq<nat>, errs: seq<nat>) {
    && (seen.Completed? || seen.Failed? ==> after)
    && (after ==> s.finalized && reqs <= s.req && errs <= s.err)
  }

  /** Errors exceed requests in no slot that was not torn. */
  ghost predicate Tidy(torn: set<nat>, reqs: seq<nat>, errs: seq<nat>) {
    |reqs| == |errs| && forall j :: 0 <= j < |reqs| && j !in torn ==> errs[j] <= reqs[j]
  }

  ghost predicate TidyInv(s: State) {
    && (forall f :: 0 <= f < |s.frames| ==> Tidy(s.frames[f].torn, s.frames[f].reqs, s.frames[f].errs))
    && match s.reader
       case Loading(_, _, torn, reqs, errs) => Tidy(torn, reqs, errs)
       case Halfway(_, _, torn, reqs, errs, req) =>
         Tidy(torn, reqs, errs) && (|reqs| !in torn ==> req == At(s.req, |reqs|))
       case _ => true
  }

  ghost predicate FrameSeen(s: State, f: Frame) {
    SeenInv(s, f.seen, f.after, f.reqs, f.errs)
  }

  ghost predicate FramesInv(t: Table, s: State) {
    && (forall f :: 0 <= f < |s.frames| ==> |s.frames[f].reqs| == |s.frames[f].errs| == |t.slots|)
    && (forall f :: 0 <= f < |s.frames| ==> FrameSeen(s, s.frames[f]))
    && (s.frames != [] ==> Below(LastFrame(s).reqs, s.req) && Below(LastFrame(s).errs, s.err))
    && (forall f, g :: 0 <= f < g < |s.frames| ==>
          Below(s.frames[f].reqs, s.frames[g].reqs) && Below(s.frames[f].errs, s.frames[g].errs))
  }

  ghost predicate ReaderInv(t: Table, s: State) {
    match s.reader
    case Loading(seen, after, _, reqs, errs) => LoadInv(t, s, reqs, errs) && SeenInv(s, seen, after, reqs, errs)
    case Halfway(seen, after, _, reqs, errs, req) =>
      && LoadInv(t, s, reqs, errs) && SeenInv(s, seen, after, reqs, errs)
      && |reqs| < |t.slots| && req <= At(s.req, |reqs|)
      && (s.frames != [] ==> At(LastFrame(s).reqs, |reqs|) <= req)
      && (after ==> req == At(s.req, |reqs|))
    case _ => true
  }

  ghost predicate Inv(t: Table, s: State) {
    MemoryInv(t, s) && HalfInv(s) && StatusInv(s) && FramesInv(t, s) && ReaderInv(t, s) && TidyInv(s)
  }

  lemma ErrorsWithinRequests(t: Table, s: State, j: nat)
    requires MemoryInv(t, s) && j < |t.slots|
    ensures s.err[j] <= s.req[j]
  {
    ErredAreRequested(t, s.recorders, j);
  }

  /** Memory only grows, and not at all once the run is finalized. */
  lemma MemoryGrows(t: Table, s: State, step: Step)
    requires MemoryInv(t, s) && StatusInv(s) && Enabled(t, s, step)
    ensures Below(s.req, Apply(t, s, step).req) && Below(s.err, Apply(t, s, step).err)
    ensures s.finalized ==>
      Apply(t, s, step).finalized && Apply(t, s, step).req == s.req && Apply(t, s, step).err == s.err
  {}

  lemma RecorderStepInv(t: Table, s: State, step: Step)
    requires Inv(t, s) && Enabled(t, s, step) && (step.Begin? || step.AddReq? || step.AddErr?)
    ensures MemoryInv(t, Apply(t, s, step)) && HalfInv(Apply(t, s, step)) && StatusInv(Apply(t, s, step))
  {
    match step {
      case Begin(edge, ok) =>
        forall j | 0 <= j < |t.slots|
          ensures Total(t, Requested, Apply(t, s, step).recorders, j) == Total(t, Requested, s.recorders, j)
          ensures Total(t, Erred, Apply(t, s, step).recorders, j) == Total(t, Erred, s.recorders, j)
        {
          TotalAppend(t, Requested, s.recorders, Recorder(edge, ok, Fresh), j);
          TotalAppend(t, Erred, s.recorders, Recorder(edge, ok, Fresh), j);
        }
      case AddReq(i) => AddReqMemory(t, s, i);
      case AddErr(i) => AddErrMemory(t, s, i);
    }
  }

  /** The two readers have loaded the same. */
  predicate SameLoads(a: Reader, b: Reader) {
    match a
    case Loading(_, _, _, _, _) => b == a
    case Halfway(seen, after, torn, reqs, errs, req) =>
      b.Halfway? && torn <= b.torn && b == Halfway(seen, after, b.torn, reqs, errs, req)
    case _ => b == a
  }

  /** A step of a recorder or of the run leaves frames and reader sound. */
  lemma WritersKeepFrames(t: Table, s: State, s': State)
    requires Inv(t, s) && MemoryInv(t, s') && s'.frames == s.frames && SameLoads(s.reader, s'.reader)
    requires Below(s.req, s'.req) && Below(s.err, s'.err)
    requires s.finalized ==> s'.finalized && s'.req == s.req && s'.err == s.err
    ensures FramesInv(t, s') && ReaderInv(t, s')
  {}

  /** Recorders tear what they change, and nothing else. */
  lemma RecordersKeepTidy(t: Table, s: State, step: Step)
    requires MemoryInv(t, s) && TidyInv(s) && Enabled(t, s, step) && (step.Begin? || step.AddReq? || step.AddErr?)
    ensures TidyInv(Apply(t, s, step)) && SameLoads(s.reader, Apply(t, s, step).reader)
  {}

  /** Up to the second load, an untouched slot still has the requests that were loaded. */
  lemma ReaderKeepsTidy(t: Table, s: State, step: Step)
    requires Inv(t, s) && Enabled(t, s, step)
    requires step.ReadStatus? || step.LoadReq? || step.LoadErr? || step.Emit?
    ensures TidyInv(Apply(t, s, step))
  {
    if step.LoadErr? {
      ErrorsWithinRequests(t, s, |s.reader.reqs|);
    }
  }

  lemma LoadReqInv(t: Table, s: State)
    requires Inv(t, s) && Enabled(t, s, LoadReq)
    ensures ReaderInv(t, Apply(t, s, LoadReq))
  {
    var j := |s.reader.reqs|;
    ErrorsWithinRequests(t, s, j);
    if s.req[j] == 0 {
      assert s.err[j] == 0;
    }
  }

  lemma LoadErrInv(t: Table, s: State)
    requires Inv(t, s) && Enabled(t, s, LoadErr)
    ensures ReaderInv(t, Apply(t, s, LoadErr))
  {}

  lemma EmitInv(t: Table, s: State)
    requires Inv(t, s) && Enabled(t, s, Emit)
    ensures FramesInv(t, Apply(t, s, Emit)) && ReaderInv(t, Apply(t, s, Emit))
  {
    var s' := Apply(t, s, Emit);
    forall f, g | 0 <= f < g < |s'.frames|
      ensures Below(s'.frames[f].reqs, s'.frames[g].reqs) && Below(s'.frames[f].errs, s'.frames[g].errs)
    {
      if g == |s.frames| {
        assert s'.frames[g].reqs == s.reader.reqs && s'.frames[g].errs == s.reader.errs;
        if f < g - 1 {
          assert Below(s.frames[f].reqs, s.frames[g - 1].reqs) && Below(s.frames[f].errs, s.frames[g - 1].errs);
        }
      }
    }
  }

  lemma ReadingInv(t: Table, s: State, step: Step)
    requires Inv(t, s) && Enabled(t, s, step)
    requires step.ReadStatus? || step.LoadReq? || step.LoadErr? || step.Emit?
    ensures Inv(t, Apply(t, s, step))
  {
    ReaderKeepsTidy(t, s, step);
    match step {
      case LoadReq => LoadReqInv(t, s);
      case LoadErr => LoadErrInv(t, s);
      case Emit => EmitInv(t, s);
      case _ =>
    }
  }

  lemma RecordingInv(t: Table, s: State, step: Step)
    requires Inv(t, s) && Enabled(t, s, step) && (step.Begin? || step.AddReq? || step.AddErr?)
    ensures Inv(t, Apply(t, s, step))
  {
    MemoryGrows(t, s, step);
    RecorderStepInv(t, s, step);
    RecordersKeepTidy(t, s, step);
    WritersKeepFrames(t, s, Apply(t, s, step));
  }

  lemma StopInv(t: Table, s: State, step: Step)
    requires Inv(t, s) && Enabled(t, s, step) && (step.Kill? || step.Finalize?)
    ensures Inv(t, Apply(t, s, step))
  {
    MemoryGrows(t, s, step);
    WritersKeepFrames(t, s, Apply(t, s, step));
  }

  /** Every step of every goroutine keeps the invariant. */
  lemma StepInv(t: Table, s: State, step: Step)
    requires Inv(t, s) && Enabled(t, s, step)
    ensures Inv(t, Apply(t, s, step))
  {
    if step.Kill? || step.Finalize? {
      StopInv(t, s, step);
    } else if step.Begin? || step.AddReq? || step.AddErr? {
      RecordingInv(t, s, step);
    } else {
      ReadingInv(t, s, step);
    }
  }

  // -------------------------------------------------------------------------
  // Every schedule
  // -------------------------------------------------------------------------

  /** The state after a schedule, if every step of it could be taken. */
  ghost function Exec(t: Table, s: State, steps: seq<Step>): Option<State>
    decreases |steps|
  {
    if steps == [] then Some(s)
    else if Enabled(t, s, steps[0]) then Exec(t, Apply(t, s, steps[0]), steps[1..])
    else None
  }

  lemma {:induction false} ExecInv(t: Table, s: State, steps: seq<Step>)
    requires Inv(t, s) && Exec(t, s, steps).Some?
    ensures Inv(t, Exec(t, s, steps).value)
    decreases |steps|
  {
    if steps != [] {
      StepInv(t, s, steps[0]);
      ExecInv(t, Apply(t, s, steps[0]), steps[1..]);
    }
  }

  /** Each torn slot has more requests by now than were loaded from it. */
  ghost predicate Behind(s: State, torn: set<nat>, reqs: seq<nat>) {
    forall j :: j in torn ==> j < |reqs| && reqs[j] < At(s.req, j)
  }

  ghost predicate TornInv(s: State) {
    && (forall f :: 0 <= f < |s.frames| ==> Behind(s, s.frames[f].torn, s.frames[f].reqs))
    && match s.reader
       case Loading(_, _, torn, reqs, _) => Behind(s, torn, reqs)
       case Halfway(_, _, torn, reqs, _, req) => Behind(s, torn, reqs + [req])
       case _ => true
  }

  lemma BehindGrows(s: State, s': State, torn: set<nat>, reqs: seq<nat>)
    requires Behind(s, torn, reqs) && Below(s.req, s'.req)
    ensures Behind(s', torn, reqs)
  {}

  /** Slots are torn by a request added between their two loads. */
  lemma AddReqTears(t: Table, s: State, i: nat)
    requires Inv(t, s) && TornInv(s) && Enabled(t, s, AddReq(i)) && s.reader.Halfway?
    ensures var r := Apply(t, s, AddReq(i)).reader; Behind(Apply(t, s, AddReq(i)), r.torn, r.reqs + [r.req])
  {
    MemoryGrows(t, s, AddReq(i));
    BehindGrows(s, Apply(t, s, AddReq(i)), s.reader.torn, s.reader.reqs + [s.reader.req]);
  }

  lemma StepTorn(t: Table, s: State, step: Step)
    requires Inv(t, s) && TornInv(s) && Enabled(t, s, step)
    ensures TornInv(Apply(t, s, step))
  {
    var s' := Apply(t, s, step);
    MemoryGrows(t, s, step);
    forall f | 0 <= f < |s'.frames|
      ensures Behind(s', s'.frames[f].torn, s'.frames[f].reqs)
    {
      if f < |s.frames| {
        BehindGrows(s, s', s.frames[f].torn, s.frames[f].reqs);
      }
    }
    if s.reader.Halfway? {
      if step.AddReq? {
        AddReqTears(t, s, step.i);
      }
      BehindGrows(s, s', s.reader.torn, s.reader.reqs + [s.reader.req]);
    } else if s.reader.Loading? {
      BehindGrows(s, s', s.reader.torn, s.reader.reqs);
    }
  }

  lemma {:induction false} ExecTorn(t: Table, s: State, steps: seq<Step>)
    requires Inv(t, s) && TornInv(s) && Exec(t, s, steps).Some?
    ensures TornInv(Exec(t, s, steps).value)
    decreases |steps|
  {
    if steps != [] {
      StepInv(t, s, steps[0]);
      StepTorn(t, s, steps[0]);
      ExecTorn(t, Apply(t, s, steps[0]), steps[1..]);
    }
  }

  /** The events of a schedule, in the order they began. */
  function Begun(steps: seq<Step>): seq<(Edge, bool)> {
    if steps == [] then []
    else (if steps[0].Begin? then [(steps[0].edge, steps[0].ok)] else []) + Begun(steps[1..])
  }

  function Recorded(rs: seq<Recorder>): seq<(Edge, bool)> {
    seq(|rs|, i requires 0 <= i < |rs| => (rs[i].edge, rs[i].ok))
  }

  lemma StepRecords(t: Table, s: State, step: Step)
    requires Enabled(t, s, step)
    ensures Recorded(Apply(t, s, step).recorders)
         == Recorded(s.recorders) + if step.Begin? then [(step.edge, step.ok)] else []
  {}

  lemma {:induction false} ExecRecords(t: Table, s: State, steps: seq<Step>)
    requires Exec(t, s, steps).Some?
    ensures Recorded(Exec(t, s, steps).value.recorders) == Recorded(s.recorders) + Begun(steps)
    decreases |steps|
  {
    if steps == [] {
      assert Recorded(s.recorders) + [] == Recorded(s.recorders);
    } else {
      var own := if steps[0].Begin? then [(steps[0].edge, steps[0].ok)] else [];
      StepRecords(t, s, steps[0]);
      ExecRecords(t, Apply(t, s, steps[0]), steps[1..]);
      assert Recorded(s.recorders) + own + Begun(steps[1..]) == Recorded(s.recorders) + (own + Begun(steps[1..]));
    }
  }

  /** Per slot: as many as recorded. */
  ghost predicate Complete(t: Table, rs: seq<Recorder>, reqs: seq<nat>, errs: seq<nat>) {
    && |reqs| == |errs| == |t.slots|
    && forall j :: 0 <= j < |t.slots| ==> reqs[j] == Total(t, Events, rs, j) && errs[j] == Total(t, Failures, rs, j)
  }

  lemma MemoryIsComplete(t: Table, s: State)
    requires MemoryInv(t, s) && forall i :: 0 <= i < |s.recorders| ==> s.recorders[i].phase.Through?
    ensures Complete(t, s.recorders, s.req, s.err)
  {
    forall j | 0 <= j < |t.slots|
      ensures s.req[j] == Total(t, Events, s.recorders, j) && s.err[j] == Total(t, Failures, s.recorders, j)
    {
      ThroughAreCounted(t, s.recorders, j);
    }
  }

  /** In every schedule: no slot holds more errors than requests, counts never fall from
      one frame to a later one, and once all recorders are through memory holds exactly
      what was recorded. So does every frame whose status was read after finalize, whatever
      the status; a completed or failed one was. And a frame shows more errors than requests
      only in slots that were torn, and so had fewer requests loaded than there came to be.
      What was recorded are the events of the schedule. */
  lemma CountersAreFaithful(t: Table, steps: seq<Step>)
    requires Exec(t, Init(t), steps).Some?
    ensures var s := Exec(t, Init(t), steps).value;
      && |s.req| == |s.err| && (forall j :: 0 <= j < |s.req| ==> s.err[j] <= s.req[j])
      && (forall f, g :: 0 <= f < g < |s.frames| ==>
            Below(s.frames[f].reqs, s.frames[g].reqs) && Below(s.frames[f].errs, s.frames[g].errs))
      && ((forall i :: 0 <= i < |s.recorders| ==> s.recorders[i].phase.Through?) ==>
            Complete(t, s.recorders, s.req, s.err))
      && (forall f :: 0 <= f < |s.frames| && (s.frames[f].seen.Completed? || s.frames[f].seen.Failed?) ==>
            s.frames[f].after)
      && (forall f :: 0 <= f < |s.frames| && s.frames[f].after ==>
            Complete(t, s.recorders, s.frames[f].reqs, s.frames[f].errs))
      && (forall f :: 0 <= f < |s.frames| ==> Tidy(s.frames[f].torn, s.frames[f].reqs, s.frames[f].errs))
      && (forall f :: 0 <= f < |s.frames| ==> Behind(s, s.frames[f].torn, s.frames[f].reqs))
      && Recorded(s.recorders) == Begun(steps)
  {
    InitMemory(t);
    ExecInv(t, Init(t), steps);
    ExecTorn(t, Init(t), steps);
    ExecRecords(t, Init(t), steps);
    assert [] + Begun(steps) == Begun(steps);
    var s := Exec(t, Init(t), steps).value;
    forall j | 0 <= j < |s.req|
      ensures s.err[j] <= s.req[j]
    {
      ErrorsWithinRequests(t, s, j);
    }
    if forall i :: 0 <= i < |s.recorders| ==> s.recorders[i].phase.Through? {
      MemoryIsComplete(t, s);
    }
    forall f | 0 <= f < |s.frames| && s.frames[f].after
      ensures Complete(t, s.recorders, s.frames[f].reqs, s.frames[f].errs)
    {
      assert FrameSeen(s, s.frames[f]);
      MemoryIsComplete(t, s);
      assert s.frames[f].reqs == s.req && s.frames[f].errs == s.err;
    }
  }

  ghost function EdgeCount(rs: seq<Recorder>, e: Edge, failedOnly: bool): nat {
    if rs == [] then 0
    else
      var r := rs[|rs| - 1];
      EdgeCount(rs[..|rs| - 1], e, failedOnly) + if r.edge == e && !(failedOnly && r.ok) then 1 else 0
  }

  /** With source ids free of '>', a slot's totals are those of its own edge. */
  lemma {:induction false} SlotCountsItsEdge(t: Table, rs: seq<Recorder>, j: nat)
    requires ValidTable(t) && j < |t.slots| && '>' !in t.slots[j].from
    requires forall i :: 0 <= i < |rs| ==> '>' !in rs[i].edge.from
    ensures Total(t, Events, rs, j) == EdgeCount(rs, t.slots[j], false)
    ensures Total(t, Failures, rs, j) == EdgeCount(rs, t.slots[j], true)
  {
    if rs != [] {
      var r := rs[|rs| - 1];
      SlotCountsItsEdge(t, rs[..|rs| - 1], j);
      if SlotOf(t, r.edge) == j {
        KeyInjective(r.edge, t.slots[j]);
      }
    }
  }

  /** No other edge that was recorded has the key of e. */
  ghost predicate NoCollision(rs: seq<Recorder>, e: Edge) {
    forall i :: 0 <= i < |rs| && Key(rs[i].edge.from, rs[i].edge.to) == Key(e.from, e.to) ==> rs[i].edge == e
  }

  /** For any ids at all, a slot counts its own edge and nothing else exactly when no other
      recorded edge has its key. */
  lemma {:induction false} SlotIsExactIff(t: Table, rs: seq<Recorder>, j: nat)
    requires ValidTable(t) && j < |t.slots|
    ensures EdgeCount(rs, t.slots[j], false) <= Total(t, Events, rs, j)
    ensures EdgeCount(rs, t.slots[j], false) == Total(t, Events, rs, j) <==> NoCollision(rs, t.slots[j])
  {
    if rs != [] {
      var init, r := rs[..|rs| - 1], rs[|rs| - 1];
      SlotIsExactIff(t, init, j);
      assert SlotOf(t, r.edge) == j <==> Key(r.edge.from, r.edge.to) == Key(t.slots[j].from, t.slots[j].to);
      assert NoCollision(rs, t.slots[j]) <==>
        NoCollision(init, t.slots[j]) && (SlotOf(t, r.edge) == j ==> r.edge == t.slots[j])
      by {
        assert rs == init + [r];
        NoCollisionGrows(init, r, t.slots[j]);
      }
    }
  }

  lemma NoCollisionGrows(rs: seq<Recorder>, r: Recorder, e: Edge)
    ensures NoCollision(rs + [r], e)
       <==> NoCollision(rs, e) && (Key(r.edge.from, r.edge.to) == Key(e.from, e.to) ==> r.edge == e)
  {
    var longer := rs + [r];
    assert longer[|rs|] == r;
    if NoCollision(longer, e) {
      forall i | 0 <= i < |rs| && Key(rs[i].edge.from, rs[i].edge.to) == Key(e.from, e.to)
        ensures rs[i].edge == e
      {
        assert longer[i] == rs[i];
      }
    }
  }

  // -------------------------------------------------------------------------
  // What is not promised
  // -------------------------------------------------------------------------

  lemma ExecFirst(t: Table, s: State, step: Step, rest: seq<Step>)
    requires Enabled(t, s, step)
    ensures Exec(t, s, [step] + rest) == Exec(t, Apply(t, s, step), rest)
  {
    assert ([step] + rest)[1..] == rest;
  }

  function OneSlot(e: Edge): Table {
    Table(map[Key(e.from, e.to) := 0], [e])
  }

  /** The last frame of a killed run can miss a request that is counted after it. */
  lemma KilledFrameCanMissEvents(e: Edge) returns (steps: seq<Step>)
    ensures var t := OneSlot(e);
      Exec(t, Init(t), steps).Some?
      && Exec(t, Init(t), steps).value.reader.Gone?
      && Exec(t, Init(t), steps).value.frames == [Frame(Killed, false, {}, [0], [0])]
      && Exec(t, Init(t), steps).value.req == [1]
  {
    var t := OneSlot(e);
    var s0 := Init(t);
    var s1 := Apply(t, s0, Begin(e, true));
    var s2 := Apply(t, s1, Kill);
    var s3 := Apply(t, s2, ReadStatus);
    var s4 := Apply(t, s3, LoadReq);
    assert s4.reader == Loading(Killed, false, {}, [0], [0]);
    var s5 := Apply(t, s4, Emit);
    var s6 := Apply(t, s5, AddReq(0));
    assert s6.req == [1] && s6.frames == [Frame(Killed, false, {}, [0], [0])] && s6.reader.Gone?;
    ExecFirst(t, s5, AddReq(0), []);
    ExecFirst(t, s4, Emit, [AddReq(0)] + []);
    ExecFirst(t, s3, LoadReq, [Emit] + ([AddReq(0)] + []));
    ExecFirst(t, s2, ReadStatus, [LoadReq] + ([Emit] + ([AddReq(0)] + [])));
    ExecFirst(t, s1, Kill, [ReadStatus] + ([LoadReq] + ([Emit] + ([AddReq(0)] + []))));
    steps := [Begin(e, true)] + ([Kill] + ([ReadStatus] + ([LoadReq] + ([Emit] + ([AddReq(0)] + [])))));
    ExecFirst(t, s0, Begin(e, true), [Kill] + ([ReadStatus] + ([LoadReq] + ([Emit] + ([AddReq(0)] + [])))));
  }

  /** One frame can show more errors than requests: they are two separate loads. */
  lemma FrameCanShowMoreErrors(e: Edge) returns (steps: seq<Step>)
    ensures var t := OneSlot(e);
      Exec(t, Init(t), steps).Some? && Exec(t, Init(t), steps).value.frames == [Frame(Running, false, {0}, [1], [2])]
  {
    var t := OneSlot(e);
    var s0 := Init(t);
    var s1 := Apply(t, s0, Begin(e, false));
    var s2 := Apply(t, s1, AddReq(0));
    var s3 := Apply(t, s2, AddErr(0));
    var s4 := Apply(t, s3, ReadStatus);
    var s5 := Apply(t, s4, LoadReq);
    assert s5.reader == Halfway(Running, false, {}, [], [], 1) && s5.req == [1] && s5.err == [1];
    var tail := SecondError(e, t, s5);
    steps := [Begin(e, false)] + ([AddReq(0)] + ([AddErr(0)] + ([ReadStatus] + ([LoadReq] + tail))));
    ExecFirst(t, s4, LoadReq, tail);
    ExecFirst(t, s3, ReadStatus, [LoadReq] + tail);
    ExecFirst(t, s2, AddErr(0), [ReadStatus] + ([LoadReq] + tail));
    ExecFirst(t, s1, AddReq(0), [AddErr(0)] + ([ReadStatus] + ([LoadReq] + tail)));
    ExecFirst(t, s0, Begin(e, false), [AddReq(0)] + ([AddErr(0)] + ([ReadStatus] + ([LoadReq] + tail))));
  }

  /** A second failed request counted between the two loads of a frame. */
  lemma SecondError(e: Edge, t: Table, s: State) returns (steps: seq<Step>)
    requires t == OneSlot(e) && s.reader == Halfway(Running, false, {}, [], [], 1) && s.req == [1] && s.err == [1]
    requires !s.finalized && s.frames == []
    ensures Exec(t, s, steps).Some? && Exec(t, s, steps).value.frames == [Frame(Running, false, {0}, [1], [2])]
  {
    var i := |s.recorders|;
    var s1 := Apply(t, s, Begin(e, false));
    var s2 := Apply(t, s1, AddReq(i));
    var s3 := Apply(t, s2, AddErr(i));
    var s4 := Apply(t, s3, LoadErr);
    assert s4.reader == Loading(Running, false, {0}, [1], [2]);
    steps := [Begin(e, false)] + ([AddReq(i)] + ([AddErr(i)] + ([LoadErr] + ([Emit] + []))));
    ExecFirst(t, s4, Emit, []);
    ExecFirst(t, s3, LoadErr, [Emit] + []);
    ExecFirst(t, s2, AddErr(i), [LoadErr] + ([Emit] + []));
    ExecFirst(t, s1, AddReq(i), [AddErr(i)] + ([LoadErr] + ([Emit] + [])));
    ExecFirst(t, s, Begin(e, false), [AddReq(i)] + ([AddErr(i)] + ([LoadErr] + ([Emit] + []))));
  }

  // -------------------------------------------------------------------------
  // When it fails
  // -------------------------------------------------------------------------

  lemma {:induction false} ExecConcat(t: Table, s: State, a: seq<Step>, b: seq<Step>)
    requires Exec(t, s, a).Some?
    ensures Exec(t, s, a + b) == Exec(t, Exec(t, s, a).value, b)
    decreases |a|
  {
    if a == [] {
      assert a + b == b;
    } else {
      assert (a + b)[1..] == a[1..] + b;
      ExecConcat(t, Apply(t, s, a[0]), a[1..], b);
    }
  }

  /** Only the reader moved, and it has loaded every slot: those it had, and the rest from
      the request counts as they are. */
  ghost predicate LoadedAll(t: Table, s: State, u: State) {
    && s.reader.Loading? && u.reader.Loading? && u == s.(reader := u.reader)
    && u.reader.seen == s.reader.seen && u.reader.after == s.reader.after
    && s.reader.reqs <= u.reader.reqs && s.reader.errs <= u.reader.errs && |u.reader.reqs| == |t.slots|
    && forall j :: |s.reader.reqs| <= j < |t.slots| ==> u.reader.reqs[j] == At(s.req, j)
  }

  /** Left alone, the reader loads slot after slot. */
  lemma {:induction false} LoadRest(t: Table, s: State) returns (steps: seq<Step>)
    requires s.reader.Loading? && |s.reader.reqs| == |s.reader.errs| <= |t.slots|
    ensures Exec(t, s, steps).Some? && LoadedAll(t, s, Exec(t, s, steps).value)
    decreases |t.slots| - |s.reader.reqs|
  {
    if |s.reader.reqs| == |t.slots| {
      steps := [];
    } else {
      var s1 := Apply(t, s, LoadReq);
      if s1.reader.Loading? {
        var rest := LoadRest(t, s1);
        steps := [LoadReq] + rest;
        ExecFirst(t, s, LoadReq, rest);
      } else {
        var s2 := Apply(t, s1, LoadErr);
        var rest := LoadRest(t, s2);
        steps := [LoadReq] + ([LoadErr] + rest);
        ExecFirst(t, s1, LoadErr, rest);
        ExecFirst(t, s, LoadReq, [LoadErr] + rest);
      }
    }
  }

  /** The reader finishes its frame. */
  lemma FinishFrame(t: Table, s: State) returns (steps: seq<Step>)
    requires s.reader.Loading? && |s.reader.reqs| == |s.reader.errs| <= |t.slots|
    ensures Exec(t, s, steps).Some?
    ensures var u := Exec(t, s, steps).value;
      && |u.frames| == |s.frames| + 1 && u == s.(frames := u.frames, reader := u.reader)
      && u.reader == (if s.reader.seen.Running? then Idle else Gone)
      && LastFrame(u).seen == s.reader.seen && LastFrame(u).after == s.reader.after
      && s.reader.reqs <= LastFrame(u).reqs && s.reader.errs <= LastFrame(u).errs
      && |LastFrame(u).reqs| == |t.slots|
      && forall j :: |s.reader.reqs| <= j < |t.slots| ==> LastFrame(u).reqs[j] == At(s.req, j)
  {
    var loads := LoadRest(t, s);
    var u := Exec(t, s, loads).value;
    ExecConcat(t, s, loads, [Emit] + []);
    ExecFirst(t, u, Emit, []);
    steps := loads + ([Emit] + []);
  }

  /** Whenever the reader of a killed run looks at its status before finalize, the frame it
      then ends with can lack a request that was already on its way. */
  lemma EarlyKilledFrameCanMiss(t: Table, s: State) returns (steps: seq<Step>)
    requires Inv(t, s) && ValidTable(t) && |t.slots| > 0
    requires s.reader.Idle? && s.status.Killed? && !s.finalized
    ensures Exec(t, s, steps).Some?
    ensures var u := Exec(t, s, steps).value;
      && |u.frames| == |s.frames| + 1 && u.reader.Gone? && LastFrame(u).seen.Killed?
      && |LastFrame(u).reqs| == |t.slots| && LastFrame(u).reqs[0] < Total(t, Events, u.recorders, 0)
  {
    var e := t.slots[0];
    var s1 := Apply(t, s, Begin(e, true));
    var s2 := Apply(t, s1, ReadStatus);
    var rest := FinishFrame(t, s2);
    var u := Exec(t, s2, rest).value;
    steps := [Begin(e, true)] + ([ReadStatus] + rest);
    ExecFirst(t, s1, ReadStatus, rest);
    ExecFirst(t, s, Begin(e, true), [ReadStatus] + rest);
    RequestedAreEvents(t, s.recorders, 0);
    TotalAppend(t, Events, s.recorders, Recorder(e, true, Fresh), 0);
    assert u.recorders == s.recorders + [Recorder(e, true, Fresh)];
    assert Total(t, Events, u.recorders, 0) > s.req[0];
    assert LastFrame(u).reqs[0] == s.req[0];
  }

  lemma {:induction false} RequestedAreEvents(t: Table, rs: seq<Recorder>, j: nat)
    ensures Total(t, Requested, rs, j) <= Total(t, Events, rs, j)
  {
    if rs != [] {
      RequestedAreEvents(t, rs[..|rs| - 1], j);
    }
  }

  /** n more failed requests on slot j, while the reader stands between two loads. */
  lemma {:induction false} FailSomeMore(t: Table, s: State, j: nat, n: nat) returns (steps: seq<Step>)
    requires ValidTable(t) && j < |t.slots| && |s.err| == |s.req| == |t.slots|
    requires s.reader.Halfway? && !s.finalized
    ensures Exec(t, s, steps).Some?
    ensures var u := Exec(t, s, steps).value;
      && |u.err| == |u.req| == |t.slots| && u.err[j] == s.err[j] + n
      && SameLoads(s.reader, u.reader) && u.frames == s.frames
    decreases n
  {
    if n == 0 {
      steps := [];
    } else {
      var e, i := t.slots[j], |s.recorders|;
      var s1 := Apply(t, s, Begin(e, false));
      var s2 := Apply(t, s1, AddReq(i));
      var s3 := Apply(t, s2, AddErr(i));
      assert s3.err == s.err[j := s.err[j] + 1] && SameLoads(s.reader, s3.reader);
      var rest := FailSomeMore(t, s3, j, n - 1);
      steps := [Begin(e, false)] + ([AddReq(i)] + ([AddErr(i)] + rest));
      ExecFirst(t, s2, AddErr(i), rest);
      ExecFirst(t, s1, AddReq(i), [AddErr(i)] + rest);
      ExecFirst(t, s, Begin(e, false), [AddReq(i)] + ([AddErr(i)] + rest));
    }
  }

  /** Whenever the reader stands between the two loads of a slot of a run that goes on, the
      frame can come to show more errors than requests in it. */
  lemma HalfwayFrameCanTear(t: Table, s: State) returns (steps: seq<Step>)
    requires Inv(t, s) && ValidTable(t) && s.reader.Halfway? && !s.finalized
    ensures Exec(t, s, steps).Some?
    ensures var u := Exec(t, s, steps).value;
      var j := |s.reader.reqs|;
      && |u.frames| == |s.frames| + 1 && j < |LastFrame(u).reqs| && j < |LastFrame(u).errs|
      && LastFrame(u).errs[j] > LastFrame(u).reqs[j]
  {
    var j := |s.reader.reqs|;
    var flood := FailSomeMore(t, s, j, s.reader.req + 1);
    var s1 := Exec(t, s, flood).value;
    var s2 := Apply(t, s1, LoadErr);
    assert s2.reader.reqs[j] == s.reader.req && s2.reader.errs[j] == s1.err[j];
    var rest := FinishFrame(t, s2);
    steps := flood + ([LoadErr] + rest);
    ExecConcat(t, s, flood, [LoadErr] + rest);
    ExecFirst(t, s1, LoadErr, rest);
  }
}
