/** Compiling a signup (or teardown) step list into a walkable graph, and what a walk of it does. */
module SignupCompiler {
  import opened ScenarioWalker

  datatype SignupStep = SignupStep(id: Id, verb: string, path: string, headers: map<string, string>,
                                   body: string, extract: map<string, string>, dependsOn: Id, weight: real)

  datatype Template = Template(id: Id, verb: string, path: string, headers: map<string, string>,
                               payload: string, extract: map<string, string>)

  datatype Compiled = Compiled(graph: Graph, templates: map<Id, Template>)

  predicate ValidStep(st: SignupStep) {
    st.id != "" && st.verb != "" && st.path != ""
  }

  function TemplateId(id: Id): Id {
    id + "__tmpl"
  }

  function TemplateOf(st: SignupStep): Template {
    Template(TemplateId(st.id), st.verb, st.path, st.headers, st.body, st.extract)
  }

  function Ids(steps: seq<SignupStep>): seq<Id> {
    seq(|steps|, i requires 0 <= i < |steps| => steps[i].id)
  }

  predicate DistinctIds(steps: seq<SignupStep>) {
    forall i, j :: 0 <= i < j < |steps| ==> steps[i].id != steps[j].id
  }

  predicate AllValid(steps: seq<SignupStep>) {
    forall i :: 0 <= i < |steps| ==> steps[i].id != "" && steps[i].verb != "" && steps[i].path != ""
  }

  predicate DependencyIn(st: SignupStep, ids: set<Id>) {
    st.dependsOn == "" || st.dependsOn in ids
  }

  predicate DependenciesKnown(steps: seq<SignupStep>) {
    var ids := Visited(Ids(steps));
    forall i :: 0 <= i < |steps| ==> DependencyIn(steps[i], ids)
  }

  /** The weight of the last step is never used. */
  predicate WeightsUsable(steps: seq<SignupStep>) {
    forall i :: 0 <= i < |steps| - 1 ==> steps[i].weight >= 0.0
  }

  /** What makes a step list compile. */
  predicate Compilable(steps: seq<SignupStep>) {
    steps != [] && AllValid(steps) && DistinctIds(steps) && DependenciesKnown(steps) && WeightsUsable(steps)
  }

  // -------------------------------------------------------------------------
  // The compiled graph, as a function of the steps
  // -------------------------------------------------------------------------

  /** The transition between two consecutive steps; weight 0 means the default 1. */
  function ChainEdge(a: SignupStep, b: SignupStep): Edge {
    Edge(a.id, b.id, if a.weight == 0.0 then 1.0 else a.weight, b.dependsOn == a.id)
  }

  /** The transitions between the first m steps. */
  function Chain(steps: seq<SignupStep>, m: nat): seq<Edge>
    requires m <= |steps|
  {
    if m < 2 then [] else Chain(steps, m - 1) + [ChainEdge(steps[m - 2], steps[m - 1])]
  }

  /** A dependency on anything but the step right before becomes an edge of its own. */
  predicate NeedsEdge(steps: seq<SignupStep>, i: nat)
    requires i < |steps|
  {
    steps[i].dependsOn != "" && !(i > 0 && steps[i - 1].id == steps[i].dependsOn)
  }

  function Precondition(st: SignupStep): Edge {
    Edge(st.dependsOn, st.id, 0.0, true)
  }

  function Extras(steps: seq<SignupStep>, m: nat): seq<Edge>
    requires m <= |steps|
  {
    if m == 0 then []
    else Extras(steps, m - 1) + if NeedsEdge(steps, m - 1) then [Precondition(steps[m - 1])] else []
  }

  function GraphOf(steps: seq<SignupStep>): Graph {
    Graph(Ids(steps), Chain(steps, |steps|) + Extras(steps, |steps|))
  }

  lemma {:induction false} ChainAt(steps: seq<SignupStep>, m: nat)
    requires m <= |steps|
    ensures |Chain(steps, m)| == if m == 0 then 0 else m - 1
    ensures forall i :: 0 <= i < m - 1 ==> Chain(steps, m)[i] == ChainEdge(steps[i], steps[i + 1])
  {
    if m >= 2 {
      ChainAt(steps, m - 1);
    }
  }

  lemma {:induction false} ExtrasMembers(steps: seq<SignupStep>, m: nat, e: Edge)
    requires m <= |steps| && e in Extras(steps, m)
    ensures exists i :: 0 <= i < m && NeedsEdge(steps, i) && e == Precondition(steps[i])
  {
    if e in Extras(steps, m - 1) {
      ExtrasMembers(steps, m - 1, e);
    } else {
      assert NeedsEdge(steps, m - 1) && e == Precondition(steps[m - 1]);
    }
  }

  // -------------------------------------------------------------------------
  // compileSignupSteps
  // -------------------------------------------------------------------------

  lemma TemplateIdInjective(a: Id, b: Id)
    ensures TemplateId(a) == TemplateId(b) ==> a == b
  {
    if TemplateId(a) == TemplateId(b) {
      assert a == TemplateId(a)[..|TemplateId(a)| - 6] && b == TemplateId(b)[..|TemplateId(b)| - 6];
    }
  }

  /** The step's template holds, field by field, what the step sends and captures. */
  predicate HasTemplate(st: SignupStep, templates: map<Id, Template>) {
    var id := st.id + "__tmpl";
    && id in templates
    && var t := templates[id];
       && t.id == id && t.verb == st.verb && t.path == st.path && t.headers == st.headers
       && t.payload == st.body && t.extract == st.extract
  }

  predicate TemplatesOf(steps: seq<SignupStep>, templates: map<Id, Template>) {
    && |templates| == |steps|
    && (forall i :: 0 <= i < |steps| ==> HasTemplate(steps[i], templates))
  }

  lemma AddTemplate(steps: seq<SignupStep>, i: nat, templates: map<Id, Template>)
    requires i < |steps| && TemplatesOf(steps[..i], templates)
    requires TemplateId(steps[i].id) !in templates
    ensures TemplatesOf(steps[..i + 1], templates[TemplateId(steps[i].id) := TemplateOf(steps[i])])
  {
    var more := templates[TemplateId(steps[i].id) := TemplateOf(steps[i])];
    assert more.Keys == templates.Keys + {TemplateId(steps[i].id)};
    assert |more| == |more.Keys| && |templates| == |templates.Keys|;
    var longer := steps[..i + 1];
    forall k | 0 <= k < |longer|
      ensures HasTemplate(longer[k], more)
    {
      if k < i {
        assert HasTemplate(steps[..i][k], templates);
      }
    }
  }

  lemma IdsGrow(steps: seq<SignupStep>, i: nat)
    requires i < |steps|
    ensures Ids(steps[..i + 1]) == Ids(steps[..i]) + [steps[i].id]
  {}

  lemma SeenBefore(steps: seq<SignupStep>, i: nat)
    requires i < |steps| && DistinctIds(steps[..i])
    ensures steps[i].id in Visited(Ids(steps[..i])) ==> !DistinctIds(steps)
    ensures steps[i].id !in Visited(Ids(steps[..i])) ==> DistinctIds(steps[..i + 1])
  {
    var ids := Ids(steps[..i]);
    if steps[i].id in Visited(ids) {
      var k :| 0 <= k < i && ids[k] == steps[i].id;
      assert steps[k].id == steps[i].id;
    } else {
      forall k | 0 <= k < i
        ensures steps[k].id != steps[i].id
      {
        assert ids[k] == steps[k].id;
      }
      var longer := steps[..i + 1];
      forall k, l | 0 <= k < l < |longer|
        ensures longer[k].id != longer[l].id
      {
        if l < i {
          assert steps[..i][k].id != steps[..i][l].id;
        }
      }
    }
  }

  /** What the first pass has built after these steps. */
  ghost predicate FirstPass(steps: seq<SignupStep>, nodes: seq<Id>, templates: map<Id, Template>, seen: set<Id>) {
    && AllValid(steps) && DistinctIds(steps)
    && nodes == Ids(steps) && seen == Visited(nodes)
    && TemplatesOf(steps, templates)
    && forall t :: t in templates ==> exists id :: id in seen && t == TemplateId(id)
  }

  lemma FirstPassStarts(steps: seq<SignupStep>)
    ensures FirstPass(steps[..0], [], map[], {})
  {}

  lemma AllValidStep(steps: seq<SignupStep>, i: nat)
    requires i < |steps| && AllValid(steps[..i]) && ValidStep(steps[i])
    ensures AllValid(steps[..i + 1])
  {
    var longer := steps[..i + 1];
    forall k | 0 <= k < |longer|
      ensures ValidStep(longer[k])
    {
      if k < i {
        assert steps[..i][k] == longer[k];
      }
    }
  }

  lemma FirstPassStep(steps: seq<SignupStep>, i: nat, nodes: seq<Id>, templates: map<Id, Template>,
                      seen: set<Id>)
    requires i < |steps| && FirstPass(steps[..i], nodes, templates, seen)
    requires ValidStep(steps[i]) && steps[i].id !in seen
    ensures var st := steps[i];
      FirstPass(steps[..i + 1], nodes + [st.id], templates[TemplateId(st.id) := TemplateOf(st)], seen + {st.id})
  {
    var st := steps[i];
    SeenBefore(steps, i);
    AllValidStep(steps, i);
    IdsGrow(steps, i);
    VisitedGrows(nodes, st.id);
    if TemplateId(st.id) in templates {
      var id :| id in seen && TemplateId(st.id) == TemplateId(id);
      TemplateIdInjective(id, st.id);
    }
    AddTemplate(steps, i, templates);
  }

  /** The first pass: one node and one template per step. */
  method CompileNodes(steps: seq<SignupStep>)
    returns (r: Result<(seq<Id>, map<Id, Template>, set<Id>)>)
    ensures r.Ok? <==> AllValid(steps) && DistinctIds(steps)
    ensures r.Ok? ==> r.value.0 == Ids(steps) && TemplatesOf(steps, r.value.1) && r.value.2 == Visited(Ids(steps))
  {
    var templates: map<Id, Template> := map[];
    var nodes: seq<Id> := [];
    var seen: set<Id> := {};
    FirstPassStarts(steps);
    for i := 0 to |steps|
      invariant FirstPass(steps[..i], nodes, templates, seen)
    {
      var st := steps[i];
      if !ValidStep(st) {
        return Err(InvalidStep);
      }
      SeenBefore(steps, i);
      if st.id in seen {
        return Err(DuplicateStep);
      }
      FirstPassStep(steps, i, nodes, templates, seen);
      seen := seen + {st.id};
      templates := templates[TemplateId(st.id) := TemplateOf(st)];
      nodes := nodes + [st.id];
    }
    assert steps[..|steps|] == steps;
    return Ok((nodes, templates, seen));
  }

  /** The second pass: a transition between consecutive steps. */
  method ChainEdges(steps: seq<SignupStep>) returns (edges: seq<Edge>)
    requires steps != []
    ensures edges == Chain(steps, |steps|)
  {
    edges := [];
    for i := 0 to |steps| - 1
      invariant edges == Chain(steps, i + 1)
    {
      var from, to := steps[i], steps[i + 1];
      var weight := from.weight;
      if weight == 0.0 {
        weight := 1.0;
      }
      edges := edges + [Edge(from.id, to.id, weight, to.dependsOn == from.id)];
    }
  }

  /** The third pass: preconditions that are not on the step right before. */
  method ExtraEdges(steps: seq<SignupStep>, seen: set<Id>) returns (r: Result<seq<Edge>>)
    requires seen == Visited(Ids(steps))
    ensures r.Ok? <==> DependenciesKnown(steps)
    ensures r.Ok? ==> r.value == Extras(steps, |steps|)
  {
    var edges: seq<Edge> := [];
    for i := 0 to |steps|
      invariant edges == Extras(steps, i)
      invariant forall k :: 0 <= k < i ==> DependencyIn(steps[k], seen)
    {
      var st := steps[i];
      if st.dependsOn == "" {
        continue;
      }
      if st.dependsOn !in seen {
        return Err(UnknownDependency);
      }
      if i > 0 && steps[i - 1].id == st.dependsOn {
        continue;
      }
      edges := edges + [Edge(st.dependsOn, st.id, 0.0, true)];
    }
    return Ok(edges);
  }

  /** A negative weight on any step but the last spoils the graph. */
  lemma BadWeightSpoilsGraph(steps: seq<SignupStep>, i: nat)
    requires i < |steps| - 1 && steps[i].weight < 0.0
    ensures !ValidGraph(GraphOf(steps))
  {
    ChainAt(steps, |steps|);
    assert GraphOf(steps).edges[i] == ChainEdge(steps[i], steps[i + 1]);
  }

  lemma ChainEdgesAreValid(steps: seq<SignupStep>, k: nat)
    requires WeightsUsable(steps) && k < |steps| - 1
    ensures var e := ChainEdge(steps[k], steps[k + 1]);
      e.from in Ids(steps) && e.to in Ids(steps) && e.weight > 0.0
  {
    assert Ids(steps)[k] == steps[k].id && Ids(steps)[k + 1] == steps[k + 1].id;
  }

  lemma {:induction false} ExtraEdgesAreValid(steps: seq<SignupStep>, e: Edge)
    requires DependenciesKnown(steps) && e in Extras(steps, |steps|)
    ensures e.from in Ids(steps) && e.to in Ids(steps) && e.weight == 0.0
  {
    ExtrasMembers(steps, |steps|, e);
    var i :| 0 <= i < |steps| && NeedsEdge(steps, i) && e == Precondition(steps[i]);
    assert Ids(steps)[i] == steps[i].id;
  }

  lemma CompilableGraphIsValid(steps: seq<SignupStep>)
    requires Compilable(steps)
    ensures ValidGraph(GraphOf(steps))
  {
    var g, chain := GraphOf(steps), Chain(steps, |steps|);
    ChainAt(steps, |steps|);
    forall k | 0 <= k < |g.edges|
      ensures g.edges[k].from in g.nodes && g.edges[k].to in g.nodes && g.edges[k].weight >= 0.0
    {
      if k < |chain| {
        ChainEdgesAreValid(steps, k);
      } else {
        assert g.edges[k] in Extras(steps, |steps|);
        ExtraEdgesAreValid(steps, g.edges[k]);
      }
    }
  }

  /** Compiling succeeds exactly on the compilable lists, and then yields their graph. */
  method CompileSignupSteps(steps: seq<SignupStep>) returns (r: Result<Compiled>)
    ensures r.Ok? <==> Compilable(steps)
    ensures r.Ok? ==> r.value.graph == GraphOf(steps) && TemplatesOf(steps, r.value.templates)
    ensures r.Ok? ==> ValidGraph(r.value.graph)
  {
    if |steps| == 0 {
      return Err(NoSteps);
    }
    var pass := CompileNodes(steps);
    if pass.Err? {
      return Err(pass.error);
    }
    var edges := ChainEdges(steps);
    var extras := ExtraEdges(steps, pass.value.2);
    if extras.Err? {
      return Err(extras.error);
    }
    var graph := Graph(pass.value.0, edges + extras.value);
    if !ValidGraph(graph) {
      if WeightsUsable(steps) {
        CompilableGraphIsValid(steps);
      }
      return Err(InvalidGraph);
    }
    forall i | 0 <= i < |steps| - 1
      ensures steps[i].weight >= 0.0
    {
      if steps[i].weight < 0.0 {
        BadWeightSpoilsGraph(steps, i);
      }
    }
    return Ok(Compiled(graph, pass.value.1));
  }

  // -------------------------------------------------------------------------
  // The dependency edges are exactly the declared dependencies
  // -------------------------------------------------------------------------

  lemma {:induction false} DepPredsOfSum(a: seq<Edge>, b: seq<Edge>, n: Id)
    ensures DepPreds(a + b, n) == DepPreds(a, n) + DepPreds(b, n)
  {
    if b == [] {
      assert a + b == a;
    } else {
      var init := b[..|b| - 1];
      DepPredsOfSum(a, init, n);
      assert (a + b)[..|a + b| - 1] == a + init;
    }
  }

  lemma DepPredsSnoc(edges: seq<Edge>, e: Edge, n: Id)
    ensures DepPreds(edges + [e], n) == DepPreds(edges, n) + if e.dependency && e.to == n then [e.from] else []
  {
    assert (edges + [e])[..|edges|] == edges;
  }

  function Declared(st: SignupStep): seq<Id> {
    if st.dependsOn == "" then [] else [st.dependsOn]
  }

  lemma {:induction false} ChainDeps(steps: seq<SignupStep>, m: nat, i: nat)
    requires DistinctIds(steps) && AllValid(steps) && m <= |steps| && i < |steps|
    ensures DepPreds(Chain(steps, m), steps[i].id)
         == if i < m && !NeedsEdge(steps, i) then Declared(steps[i]) else []
  {
    if m >= 2 {
      ChainDeps(steps, m - 1, i);
      var e := ChainEdge(steps[m - 2], steps[m - 1]);
      DepPredsSnoc(Chain(steps, m - 1), e, steps[i].id);
      SameId(steps, i, m - 1);
    }
  }

  lemma ExtraStep(steps: seq<SignupStep>, m: nat, n: Id)
    requires 0 < m <= |steps|
    ensures DepPreds(Extras(steps, m), n) == DepPreds(Extras(steps, m - 1), n)
         + if NeedsEdge(steps, m - 1) && steps[m - 1].id == n then Declared(steps[m - 1]) else []
  {
    if NeedsEdge(steps, m - 1) {
      DepPredsSnoc(Extras(steps, m - 1), Precondition(steps[m - 1]), n);
    } else {
      assert Extras(steps, m) == Extras(steps, m - 1);
    }
  }

  lemma SameId(steps: seq<SignupStep>, i: nat, j: nat)
    requires DistinctIds(steps) && i < |steps| && j < |steps|
    ensures steps[i].id == steps[j].id <==> i == j
  {}

  lemma {:induction false} ExtraDeps(steps: seq<SignupStep>, m: nat, i: nat)
    requires DistinctIds(steps) && m <= |steps| && i < |steps|
    ensures DepPreds(Extras(steps, m), steps[i].id)
         == if i < m && NeedsEdge(steps, i) then Declared(steps[i]) else []
  {
    if m > 0 {
      ExtraDeps(steps, m - 1, i);
      ExtraStep(steps, m, steps[i].id);
      SameId(steps, i, m - 1);
    }
  }

  /** A step with a dependency has exactly one dependency edge into it, from the step it
      names; a step without one has none. */
  lemma DependencyEdgesAreDeclared(steps: seq<SignupStep>, i: nat)
    requires Compilable(steps) && i < |steps|
    ensures DepPreds(GraphOf(steps).edges, steps[i].id) == Declared(steps[i])
  {
    DepPredsOfSum(Chain(steps, |steps|), Extras(steps, |steps|), steps[i].id);
    ChainDeps(steps, |steps|, i);
    ExtraDeps(steps, |steps|, i);
  }

  lemma EnterWhenDependencySeen(steps: seq<SignupStep>, i: nat, visited: set<Id>)
    requires Compilable(steps) && i < |steps|
    ensures CanEnter(GraphOf(steps), steps[i].id, visited) <==> DependencyIn(steps[i], visited)
  {
    DependencyEdgesAreDeclared(steps, i);
    CanEnterByPreds(GraphOf(steps), steps[i].id, visited);
    if steps[i].dependsOn != "" {
      assert DepPreds(GraphOf(steps).edges, steps[i].id)[0] == steps[i].dependsOn;
    }
  }

  // -------------------------------------------------------------------------
  // The positive edges are exactly the chain
  // -------------------------------------------------------------------------

  ghost predicate Follows(steps: seq<SignupStep>, a: Id, b: Id) {
    exists i :: 0 <= i < |steps| - 1 && steps[i].id == a && steps[i + 1].id == b
  }

  /** A positive edge leads from a to b exactly when the step b comes right after the step a. */
  lemma PositiveEdgesAreTheChain(steps: seq<SignupStep>, a: Id, b: Id)
    requires Compilable(steps)
    ensures (exists e :: e in GraphOf(steps).edges && e.from == a && e.to == b && e.weight > 0.0) <==>
      Follows(steps, a, b)
  {
    var g, chain := GraphOf(steps), Chain(steps, |steps|);
    ChainAt(steps, |steps|);
    if e :| e in g.edges && e.from == a && e.to == b && e.weight > 0.0 {
      var i :| 0 <= i < |g.edges| && g.edges[i] == e;
      if i < |chain| {
        assert e == ChainEdge(steps[i], steps[i + 1]);
        assert steps[i].id == a && steps[i + 1].id == b;
      } else {
        assert e in Extras(steps, |steps|);
        ExtraEdgesAreValid(steps, e);
      }
    }
    if Follows(steps, a, b) {
      var i :| 0 <= i < |steps| - 1 && steps[i].id == a && steps[i + 1].id == b;
      ChainEdgesAreValid(steps, i);
      assert g.edges[i] == chain[i] == ChainEdge(steps[i], steps[i + 1]);
    }
  }

  /** The i-th edge joins steps i and i + 1 with the weight given, or 1 for none, and depends
      exactly if the later step names the earlier one. */
  lemma ChainEdgeAt(steps: seq<SignupStep>, i: nat)
    requires i < |steps| - 1
    ensures i < |GraphOf(steps).edges|
    ensures var e := GraphOf(steps).edges[i];
      && e.from == steps[i].id && e.to == steps[i + 1].id
      && (steps[i].weight != 0.0 ==> e.weight == steps[i].weight) && (steps[i].weight == 0.0 ==> e.weight == 1.0)
      && (e.dependency <==> steps[i + 1].dependsOn == steps[i].id)
  {
    ChainAt(steps, |steps|);
    assert GraphOf(steps).edges[i] == Chain(steps, |steps|)[i] == ChainEdge(steps[i], steps[i + 1]);
  }

  lemma FollowsOnce(steps: seq<SignupStep>, i: nat, b: Id)
    requires DistinctIds(steps) && i < |steps|
    ensures Follows(steps, steps[i].id, b) <==> i + 1 < |steps| && b == steps[i + 1].id
  {
    if Follows(steps, steps[i].id, b) {
      var k :| 0 <= k < |steps| - 1 && steps[k].id == steps[i].id && steps[k + 1].id == b;
      SameId(steps, k, i);
    }
  }

  /** Taking an edge needs a positive edge and an entry. */
  lemma TakeByFollowing(steps: seq<SignupStep>, a: Id, b: Id, visited: set<Id>)
    requires Compilable(steps)
    ensures CanTake(GraphOf(steps), a, b, visited) <==> Follows(steps, a, b) && CanEnter(GraphOf(steps), b, visited)
  {
    PositiveEdgesAreTheChain(steps, a, b);
  }

  lemma TakeOnlyTheNext(steps: seq<SignupStep>, i: nat, b: Id, visited: set<Id>)
    requires Compilable(steps) && i < |steps|
    ensures CanTake(GraphOf(steps), steps[i].id, b, visited) <==>
      i + 1 < |steps| && b == steps[i + 1].id && DependencyIn(steps[i + 1], visited)
  {
    TakeByFollowing(steps, steps[i].id, b, visited);
    FollowsOnce(steps, i, b);
    if i + 1 < |steps| && b == steps[i + 1].id {
      EnterWhenDependencySeen(steps, i + 1, visited);
    }
  }

  // -------------------------------------------------------------------------
  // Which walks the compiled graph has
  // -------------------------------------------------------------------------

  /** Step i depends on nothing, or on a step among steps[s..i]. */
  predicate Ready(steps: seq<SignupStep>, s: nat, i: nat)
    requires s <= i < |steps|
  {
    DependencyIn(steps[i], Visited(Ids(steps)[s..i]))
  }

  /** Where a journey from step s has to stop: at the first step that is not ready. */
  function Stop(steps: seq<SignupStep>, s: nat, i: nat): (k: nat)
    requires s <= i <= |steps|
    ensures i <= k <= |steps|
    ensures forall j :: i <= j < k ==> Ready(steps, s, j)
    ensures k < |steps| ==> !Ready(steps, s, k)
    decreases |steps| - i
  {
    if i == |steps| || !Ready(steps, s, i) then i else Stop(steps, s, i + 1)
  }

  predicate Along(steps: seq<SignupStep>, s: nat, path: seq<Id>) {
    s + |path| <= |steps| && path == Ids(steps)[s..s + |path|]
  }

  /** Every walk from a step follows the steps in order, without ever passing a step that
      is not ready. */
  lemma {:induction false} WalksFollowTheSteps(steps: seq<SignupStep>, s: nat, path: seq<Id>)
    requires Compilable(steps) && s < |steps|
    requires IsWalk(GraphOf(steps), path) && path[0] == steps[s].id
    ensures s + |path| <= Stop(steps, s, s) && Along(steps, s, path)
    decreases |path|
  {
    var n := |path|;
    if n == 1 {
      FirstStep(steps, s, path);
    } else {
      var init, b := path[..n - 1], path[n - 1];
      ShorterWalk(GraphOf(steps), path);
      assert init[0] == path[0] && path == init + [b];
      WalksFollowTheSteps(steps, s, init);
      OneStepFurther(steps, s, init, b);
    }
  }

  lemma FirstStep(steps: seq<SignupStep>, s: nat, path: seq<Id>)
    requires Compilable(steps) && s < |steps| && |path| == 1
    requires IsWalk(GraphOf(steps), path) && path[0] == steps[s].id
    ensures s + 1 <= Stop(steps, s, s) && Along(steps, s, path)
  {
    EnterWhenDependencySeen(steps, s, {});
    assert Ready(steps, s, s);
    assert path == Ids(steps)[s..s + 1];
  }

  lemma AlongGrows(steps: seq<SignupStep>, s: nat, path: seq<Id>, b: Id)
    requires Along(steps, s, path) && s + |path| < |steps| && b == Ids(steps)[s + |path|]
    ensures Along(steps, s, path + [b])
  {
    NextSlice(Ids(steps), s, s + |path|);
  }

  lemma StopIsNotReady(steps: seq<SignupStep>, s: nat, m: nat)
    requires s <= m < |steps| && m <= Stop(steps, s, s) && Ready(steps, s, m)
    ensures m < Stop(steps, s, s)
  {}

  lemma OneStepFurther(steps: seq<SignupStep>, s: nat, path: seq<Id>, b: Id)
    requires Compilable(steps) && path != []
    requires s < |steps| && s + |path| <= Stop(steps, s, s) && Along(steps, s, path)
    requires CanTake(GraphOf(steps), path[|path| - 1], b, Visited(path))
    ensures s + |path| < Stop(steps, s, s) && Along(steps, s, path + [b])
  {
    NextIsForced(steps, s, path, b);
    StopIsNotReady(steps, s, s + |path|);
    AlongGrows(steps, s, path, b);
  }

  /** After steps[s..m] the one thing to take is step m, provided it is ready. */
  lemma NextIsForced(steps: seq<SignupStep>, s: nat, path: seq<Id>, b: Id)
    requires Compilable(steps) && path != [] && Along(steps, s, path)
    ensures var m := s + |path|;
      CanTake(GraphOf(steps), path[|path| - 1], b, Visited(path)) <==>
        m < |steps| && b == Ids(steps)[m] && Ready(steps, s, m)
  {
    var last := s + |path| - 1;
    assert path[|path| - 1] == Ids(steps)[last];
    TakeOnlyTheNext(steps, last, b, Visited(path));
  }

  lemma NextSlice(ids: seq<Id>, s: nat, m: nat)
    requires s <= m < |ids|
    ensures ids[s..m + 1] == ids[s..m] + [ids[m]]
  {}

  lemma ShorterWalk(g: Graph, path: seq<Id>)
    requires IsWalk(g, path) && |path| > 1
    ensures var init := path[..|path| - 1];
      IsWalk(g, init) && CanTake(g, init[|init| - 1], path[|path| - 1], Visited(init))
  {
    var init := path[..|path| - 1];
    assert CanTake(g, path[|path| - 2], path[|path| - 1], Visited(init));
    forall i, j | 0 <= i && j == i + 1 && j < |init|
      ensures CanTake(g, init[i], init[j], Visited(init[..j]))
    {
      assert init[..j] == path[..j];
      assert CanTake(g, path[i], path[j], Visited(path[..j]));
    }
  }

  /** A walk that cannot go on has visited exactly the steps up to the stop. */
  lemma StuckWalksReachTheStop(steps: seq<SignupStep>, s: nat, path: seq<Id>)
    requires Compilable(steps) && s < |steps|
    requires IsWalk(GraphOf(steps), path) && path[0] == steps[s].id
    requires IsStuck(GraphOf(steps), path[|path| - 1], Visited(path))
    ensures path == Ids(steps)[s..Stop(steps, s, s)]
  {
    WalksFollowTheSteps(steps, s, path);
    if s + |path| < Stop(steps, s, s) {
      NotStuckBeforeTheStop(steps, s, path);
    }
  }

  lemma NotStuckBeforeTheStop(steps: seq<SignupStep>, s: nat, path: seq<Id>)
    requires Compilable(steps) && path != [] && Along(steps, s, path) && s + |path| < Stop(steps, s, s)
    ensures !IsStuck(GraphOf(steps), path[|path| - 1], Visited(path))
  {
    var m := s + |path|;
    assert Ready(steps, s, m);
    NextIsForced(steps, s, path, Ids(steps)[m]);
  }

  ghost predicate DependsOnlyBackwards(steps: seq<SignupStep>) {
    forall i :: 0 <= i < |steps| ==> Ready(steps, 0, i)
  }

  /** A walk from wherever that leaves no step out. */
  ghost predicate VisitsAll(steps: seq<SignupStep>, path: seq<Id>) {
    IsWalk(GraphOf(steps), path) && forall i :: 0 <= i < |steps| ==> steps[i].id in path
  }

  /** As long as the steps are ready, the first m of them are a walk. */
  lemma {:induction false} ReadyStepsAreAWalk(steps: seq<SignupStep>, m: nat)
    requires Compilable(steps) && 0 < m <= |steps| && forall i :: 0 <= i < m ==> Ready(steps, 0, i)
    ensures IsWalk(GraphOf(steps), Ids(steps)[0..m])
  {
    var g, ids := GraphOf(steps), Ids(steps);
    if m == 1 {
      EnterWhenDependencySeen(steps, 0, {});
      assert Ready(steps, 0, 0) && ids[0..1] == [steps[0].id] && g.nodes[0] == steps[0].id;
      StartWalk(g, steps[0].id);
    } else {
      var path := ids[0..m - 1];
      ReadyStepsAreAWalk(steps, m - 1);
      assert Along(steps, 0, path) && Ready(steps, 0, m - 1);
      NextIsForced(steps, 0, path, ids[m - 1]);
      ExtendWalk(g, path, ids[m - 1]);
      NextSlice(ids, 0, m - 1);
    }
  }

  lemma AlongAt(steps: seq<SignupStep>, s: nat, path: seq<Id>, k: nat)
    requires Along(steps, s, path) && k < |path|
    ensures path[k] == steps[s + k].id
  {}

  lemma IsAmong(steps: seq<SignupStep>, s: nat, path: seq<Id>, k: nat)
    requires DistinctIds(steps) && Along(steps, s, path) && k < |steps| && steps[k].id in path
    ensures s <= k < s + |path|
  {
    var i :| 0 <= i < |path| && path[i] == steps[k].id;
    AlongAt(steps, s, path, i);
    SameId(steps, s + i, k);
  }

  /** A walk that visits all steps is all of them in order. */
  lemma VisitingAllIsInOrder(steps: seq<SignupStep>, path: seq<Id>)
    requires Compilable(steps) && VisitsAll(steps, path)
    ensures path == Ids(steps) && DependsOnlyBackwards(steps)
  {
    var n := |steps| - 1;
    var s :| 0 <= s < |steps| && Ids(steps)[s] == path[0];
    WalksFollowTheSteps(steps, s, path);
    IsAmong(steps, s, path, 0);
    IsAmong(steps, s, path, n);
    assert Ids(steps)[0..|steps|] == Ids(steps);
  }

  /** Some walk of the compiled graph visits every step exactly when every dependency names
      an earlier step. */
  lemma VisitsAllIffBackwards(steps: seq<SignupStep>)
    requires Compilable(steps)
    ensures (exists path :: VisitsAll(steps, path)) <==> DependsOnlyBackwards(steps)
  {
    if path :| VisitsAll(steps, path) {
      VisitingAllIsInOrder(steps, path);
    }
    if DependsOnlyBackwards(steps) {
      var n, ids := |steps|, Ids(steps);
      ReadyStepsAreAWalk(steps, n);
      assert ids[0..n] == ids;
      forall i | 0 <= i < n
        ensures steps[i].id in ids
      {
        assert ids[i] == steps[i].id;
      }
      assert VisitsAll(steps, ids);
    }
  }

  // -------------------------------------------------------------------------
  // compileSignupFlow, and the walk every provisioned user takes
  // -------------------------------------------------------------------------

  datatype SignupFlow = SignupFlow(steps: seq<SignupStep>, start: Id, token: string, subject: string)

  datatype CompiledFlow = CompiledFlow(graph: Graph, templates: map<Id, Template>, start: Id, maxSteps: nat,
                                       tokenVar: string, subjectVar: string)

  function StartOf(flow: SignupFlow): Id
    requires flow.steps != []
  {
    if flow.start == "" then flow.steps[0].id else flow.start
  }

  method CompileSignupFlow(flow: SignupFlow) returns (r: Result<CompiledFlow>)
    ensures r.Ok? <==> Compilable(flow.steps)
    ensures r.Ok? ==> r.value.graph == GraphOf(flow.steps) && ValidGraph(r.value.graph)
    ensures r.Ok? ==> TemplatesOf(flow.steps, r.value.templates)
    ensures r.Ok? ==> r.value.start == StartOf(flow) && r.value.maxSteps == |flow.steps|
    ensures r.Ok? ==> r.value.start == flow.start || (flow.start == "" && r.value.start == flow.steps[0].id)
    ensures r.Ok? ==> r.value.tokenVar == flow.token && r.value.subjectVar == flow.subject
  {
    var compiled := CompileSignupSteps(flow.steps);
    if compiled.Err? {
      return Err(compiled.error);
    }
    var start := flow.start;
    if start == "" && |flow.steps| > 0 {
      start := flow.steps[0].id;
    }
    return Ok(CompiledFlow(compiled.value.graph, compiled.value.templates, start, |flow.steps|, flow.token,
                           flow.subject));
  }

  /** Walking a compiled flow: whatever the random draws, the journey is the steps from the
      start up to the first one whose dependency has not been visited, and it fails when
      that is the start itself or the start is no step. */
  method WalkCompiled(flow: SignupFlow, draws: nat -> real) returns (r: Result<seq<Id>>)
    requires Compilable(flow.steps) && forall i :: 0.0 <= draws(i) < 1.0
    ensures StartOf(flow) !in Ids(flow.steps) ==> r == Err(UnknownStart)
    ensures forall s :: 0 <= s < |flow.steps| && StartOf(flow) == Ids(flow.steps)[s] ==>
      r == JourneyFrom(flow.steps, s)
    ensures StartOf(flow) == flow.steps[0].id ==>
      (r == Ok(Ids(flow.steps)) <==> DependsOnlyBackwards(flow.steps))
  {
    var compiled := CompileSignupFlow(flow);
    var walker := new Walker(compiled.value.graph, draws);
    r := walker.Walk(compiled.value.start, compiled.value.maxSteps);
    forall s | 0 <= s < |flow.steps| && StartOf(flow) == Ids(flow.steps)[s]
      ensures r == JourneyFrom(flow.steps, s)
    {
      EnterWhenDependencySeen(flow.steps, s, {});
      if flow.steps[s].dependsOn == "" {
        DrawnWalkIsTheSlice(flow.steps, s, walker.draws, 0, r.value);
      }
    }
    if StartOf(flow) == flow.steps[0].id {
      assert Ids(flow.steps)[0] == flow.steps[0].id && r == JourneyFrom(flow.steps, 0);
      WholeJourney(flow.steps);
    }
  }

  /** The journey from the first step is all of the steps exactly when every dependency names
      an earlier one. */
  lemma WholeJourney(steps: seq<SignupStep>)
    requires Compilable(steps)
    ensures JourneyFrom(steps, 0) == Ok(Ids(steps)) <==> DependsOnlyBackwards(steps)
  {
    var stop, n := Stop(steps, 0, 0), |steps|;
    assert |Ids(steps)[0..stop]| == stop;
    if stop == n {
      assert Ids(steps)[0..n] == Ids(steps);
      assert Ready(steps, 0, 0);
    }
    if DependsOnlyBackwards(steps) {
      assert Ready(steps, 0, 0);
    }
  }

  /** The journey of a flow that starts at step s. */
  function JourneyFrom(steps: seq<SignupStep>, s: nat): Result<seq<Id>>
    requires s < |steps|
  {
    if steps[s].dependsOn != "" then Err(UnmetDependency) else Ok(Ids(steps)[s..Stop(steps, s, s)])
  }

  lemma DrawnWalkIsTheSlice(steps: seq<SignupStep>, s: nat, draws: nat -> real, t: nat, path: seq<Id>)
    requires Compilable(steps) && s < |steps| && IsWalk(GraphOf(steps), path)
    requires IsDrawnWalk(GraphOf(steps), steps[s].id, |steps|, draws, t, path)
    ensures path == Ids(steps)[s..Stop(steps, s, s)]
  {
    LongWalksAreStuck(steps, s, path);
  }

  /** As many transitions as there are steps are always enough. */
  lemma LongWalksAreStuck(steps: seq<SignupStep>, s: nat, path: seq<Id>)
    requires Compilable(steps) && s < |steps|
    requires IsWalk(GraphOf(steps), path) && path[0] == steps[s].id
    requires |path| <= |steps| ==> IsStuck(GraphOf(steps), path[|path| - 1], Visited(path))
    ensures path == Ids(steps)[s..Stop(steps, s, s)]
  {
    WalksFollowTheSteps(steps, s, path);
    StuckWalksReachTheStop(steps, s, path);
  }
}
