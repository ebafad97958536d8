/** Walking a scenario graph: transitions by weight, dependencies as preconditions. */
module ScenarioWalker {
  import opened Options

  type Id = string

  datatype Edge = Edge(from: Id, to: Id, weight: real, dependency: bool)

  datatype Graph = Graph(nodes: seq<Id>, edges: seq<Edge>)

  datatype Result<T> = Ok(value: T) | Err(error: Failure)

  datatype Failure =
    | InvalidGraph | NegativeSteps | UnknownStart | UnmetDependency
    | NoSteps | InvalidStep | DuplicateStep | UnknownDependency

  /** ScenarioGraph.Validate */
  predicate ValidGraph(g: Graph) {
    && g.nodes != []
    && (forall i :: 0 <= i < |g.nodes| ==> g.nodes[i] != "")
    && (forall i, j :: 0 <= i < j < |g.nodes| ==> g.nodes[i] != g.nodes[j])
    && (forall i :: 0 <= i < |g.edges| ==>
          g.edges[i].from in g.nodes && g.edges[i].to in g.nodes && g.edges[i].weight >= 0.0)
  }

  // -------------------------------------------------------------------------
  // What a walk may do
  // -------------------------------------------------------------------------

  /** Every dependency predecessor of n has been visited. */
  ghost predicate CanEnter(g: Graph, n: Id, visited: set<Id>) {
    forall e :: e in g.edges && e.dependency && e.to == n ==> e.from in visited
  }

  /** Some positive edge leads from a to b, and b may be entered. */
  ghost predicate CanTake(g: Graph, a: Id, b: Id, visited: set<Id>) {
    (exists e :: e in g.edges && e.from == a && e.to == b && e.weight > 0.0) && CanEnter(g, b, visited)
  }

  ghost predicate Takeable(g: Graph, a: Id, e: Edge, visited: set<Id>) {
    e in g.edges && e.from == a && e.weight > 0.0 && CanEnter(g, e.to, visited)
  }

  function Visited(path: seq<Id>): set<Id> {
    set n | n in path
  }

  ghost predicate IsWalk(g: Graph, path: seq<Id>) {
    && path != [] && path[0] in g.nodes && CanEnter(g, path[0], {})
    && forall i, j :: 0 <= i && j == i + 1 && j < |path| ==> CanTake(g, path[i], path[j], Visited(path[..j]))
  }

  /** Nothing can be taken from a. */
  ghost predicate IsStuck(g: Graph, a: Id, visited: set<Id>) {
    forall b :: !CanTake(g, a, b, visited)
  }

  /** No walk of any kind enters a node before every node it depends on. */
  lemma DependenciesAreNeverSkipped(g: Graph, path: seq<Id>, i: nat, e: Edge)
    requires IsWalk(g, path) && i < |path|
    requires e in g.edges && e.dependency && e.to == path[i]
    ensures e.from in path[..i]
  {
    if i > 0 {
      assert CanTake(g, path[i - 1], path[i], Visited(path[..i]));
    }
  }

  lemma VisitedGrows(path: seq<Id>, b: Id)
    ensures Visited(path + [b]) == Visited(path) + {b}
  {}

  lemma ExtendWalk(g: Graph, path: seq<Id>, b: Id)
    requires IsWalk(g, path) && CanTake(g, path[|path| - 1], b, Visited(path))
    ensures IsWalk(g, path + [b])
  {
    var longer := path + [b];
    forall i, j | 0 <= i && j == i + 1 && j < |longer|
      ensures CanTake(g, longer[i], longer[j], Visited(longer[..j]))
    {
      assert longer[..j] == path[..j];
      if j == |path| {
        assert path[..j] == path;
      }
    }
  }

  lemma StartWalk(g: Graph, start: Id)
    requires start in g.nodes && CanEnter(g, start, {})
    ensures IsWalk(g, [start]) && Visited([start]) == {start}
  {}

  lemma TakeableTarget(g: Graph, a: Id, e: Edge, visited: set<Id>)
    requires ValidGraph(g) && Takeable(g, a, e, visited)
    ensures CanTake(g, a, e.to, visited) && e.to in g.nodes
  {}

  /** The edges among out that can be taken, in order. */
  ghost function Offered(g: Graph, a: Id, visited: set<Id>, out: seq<Edge>): seq<Edge> {
    if out == [] then []
    else
      var rest := Offered(g, a, visited, out[..|out| - 1]);
      var e := out[|out| - 1];
      if Takeable(g, a, e, visited) then rest + [e] else rest
  }

  lemma {:induction false} OfferedMembers(g: Graph, a: Id, visited: set<Id>, out: seq<Edge>, e: Edge)
    ensures e in Offered(g, a, visited, out) <==> e in out && Takeable(g, a, e, visited)
    decreases |out|
  {
    if out != [] {
      OfferedMembers(g, a, visited, out[..|out| - 1], e);
      assert out == out[..|out| - 1] + [out[|out| - 1]];
    }
  }

  lemma {:induction false} OfferedWeight(g: Graph, a: Id, visited: set<Id>, out: seq<Edge>)
    ensures var edges := Offered(g, a, visited, out);
      TotalWeight(edges) >= 0.0 && (edges != [] ==> TotalWeight(edges) > 0.0)
    decreases |out|
  {
    if out != [] {
      var rest := Offered(g, a, visited, out[..|out| - 1]);
      OfferedWeight(g, a, visited, out[..|out| - 1]);
      assert (rest + [out[|out| - 1]])[..|rest|] == rest;
    }
  }

  /** Of the edges out of a, exactly those that can be taken are offered. */
  lemma OfferedIsTakeable(g: Graph, a: Id, visited: set<Id>)
    ensures var edges := Offered(g, a, visited, Outgoing(g.edges, a));
      && (forall e :: e in edges <==> Takeable(g, a, e, visited))
      && (edges != [] ==> TotalWeight(edges) > 0.0) && (edges == [] ==> IsStuck(g, a, visited))
  {
    var edges := Offered(g, a, visited, Outgoing(g.edges, a));
    forall e
      ensures e in edges <==> Takeable(g, a, e, visited)
    {
      OfferedMembers(g, a, visited, Outgoing(g.edges, a), e);
      OutgoingMembers(g.edges, a, e);
    }
    OfferedWeight(g, a, visited, Outgoing(g.edges, a));
    if edges == [] {
      NothingTakeable(g, a, visited);
    }
  }

  lemma NothingTakeable(g: Graph, a: Id, visited: set<Id>)
    requires forall e :: !Takeable(g, a, e, visited)
    ensures IsStuck(g, a, visited)
  {
    forall b
      ensures !CanTake(g, a, b, visited)
    {
      if e :| CanTake(g, a, b, visited) && e in g.edges && e.from == a && e.to == b && e.weight > 0.0 {
        assert Takeable(g, a, e, visited);
      }
    }
  }

  // -------------------------------------------------------------------------
  // Which transition a draw takes
  // -------------------------------------------------------------------------

  /** What the takeable edges among the first m of the graph weigh together; even: each of
      them counts the same. */
  ghost function Stretch(g: Graph, a: Id, visited: set<Id>, even: bool, m: nat): real
    requires m <= |g.edges|
  {
    if m == 0 then 0.0
    else
      var e := g.edges[m - 1];
      Stretch(g, a, visited, even, m - 1)
      + if !Takeable(g, a, e, visited) then 0.0 else if even then 1.0 else e.weight
  }

  /** The draw, scaled to the whole, falls between low and high. */
  predicate Holds(low: real, draw: real, whole: real, high: real) {
    low <= draw * whole < high
  }

  ghost predicate PicksEdge(g: Graph, a: Id, visited: set<Id>, even: bool, draw: real, j: nat) {
    && j < |g.edges| && Takeable(g, a, g.edges[j], visited)
    && Holds(Stretch(g, a, visited, even, j), draw, Stretch(g, a, visited, even, |g.edges|),
             Stretch(g, a, visited, even, j + 1))
  }

  /** From a the draw leads to b: laid end to end in graph order, in proportion to their
      weights or evenly, the takeable edge whose stretch holds the draw ends in b. */
  ghost predicate Picks(g: Graph, a: Id, visited: set<Id>, even: bool, draw: real, b: Id) {
    exists j: nat :: PicksEdge(g, a, visited, even, draw, j) && g.edges[j].to == b
  }

  lemma {:induction false} StretchGrows(g: Graph, a: Id, visited: set<Id>, even: bool, i: nat, j: nat)
    requires i <= j <= |g.edges|
    ensures Stretch(g, a, visited, even, i) <= Stretch(g, a, visited, even, j)
  {
    if i < j {
      StretchGrows(g, a, visited, even, i, j - 1);
    }
  }

  /** A draw picks one edge at most. */
  lemma PickIsUnique(g: Graph, a: Id, visited: set<Id>, even: bool, draw: real, b: Id, c: Id)
    requires Picks(g, a, visited, even, draw, b) && Picks(g, a, visited, even, draw, c)
    ensures b == c
  {
    var i: nat :| PicksEdge(g, a, visited, even, draw, i) && g.edges[i].to == b;
    var j: nat :| PicksEdge(g, a, visited, even, draw, j) && g.edges[j].to == c;
    if i < j {
      StretchGrows(g, a, visited, even, i + 1, j);
    } else if j < i {
      StretchGrows(g, a, visited, even, j + 1, i);
    }
  }

  lemma PickedIsTakeable(g: Graph, a: Id, visited: set<Id>, even: bool, draw: real, b: Id)
    requires Picks(g, a, visited, even, draw, b)
    ensures CanTake(g, a, b, visited)
  {
    var j: nat :| PicksEdge(g, a, visited, even, draw, j) && g.edges[j].to == b;
    assert Takeable(g, a, g.edges[j], visited);
  }

  /** The takeable edges out of a among the first m of the graph. */
  ghost function Permitted(g: Graph, a: Id, visited: set<Id>, m: nat): seq<Edge>
    requires m <= |g.edges|
  {
    if m == 0 then []
    else
      var e := g.edges[m - 1];
      Permitted(g, a, visited, m - 1) + if Takeable(g, a, e, visited) then [e] else []
  }

  lemma {:induction false} OfferedIsPermitted(g: Graph, a: Id, visited: set<Id>, m: nat)
    requires m <= |g.edges|
    ensures Offered(g, a, visited, Outgoing(g.edges[..m], a)) == Permitted(g, a, visited, m)
  {
    if m > 0 {
      OfferedIsPermitted(g, a, visited, m - 1);
      IndexGrows(g.edges, m - 1, a);
      var out, e := Outgoing(g.edges[..m - 1], a), g.edges[m - 1];
      assert (out + [e])[..|out|] == out;
      assert out + [] == out;
    }
  }

  lemma TotalStep(edges: seq<Edge>, e: Edge)
    ensures TotalWeight(edges + [e]) == TotalWeight(edges) + e.weight
  {
    assert (edges + [e])[..|edges|] == edges;
  }

  lemma {:induction false} StretchIsTotal(g: Graph, a: Id, visited: set<Id>, m: nat)
    requires m <= |g.edges|
    ensures Stretch(g, a, visited, false, m) == TotalWeight(Permitted(g, a, visited, m))
    ensures Stretch(g, a, visited, true, m) == |Permitted(g, a, visited, m)| as real
  {
    if m > 0 {
      StretchIsTotal(g, a, visited, m - 1);
      var edges, e := Permitted(g, a, visited, m - 1), g.edges[m - 1];
      if Takeable(g, a, e, visited) {
        TotalStep(edges, e);
      } else {
        assert edges + [] == edges;
      }
    }
  }

  /** The k-th permitted edge sits behind the first k in the graph. */
  lemma {:induction false} PermittedAt(g: Graph, a: Id, visited: set<Id>, m: nat, k: nat) returns (j: nat)
    requires m <= |g.edges| && k < |Permitted(g, a, visited, m)|
    ensures j < m && Takeable(g, a, g.edges[j], visited) && Permitted(g, a, visited, m)[k] == g.edges[j]
    ensures Permitted(g, a, visited, j) == Permitted(g, a, visited, m)[..k]
    ensures Permitted(g, a, visited, j + 1) == Permitted(g, a, visited, m)[..k + 1]
  {
    if k < |Permitted(g, a, visited, m - 1)| {
      j := PermittedAt(g, a, visited, m - 1, k);
    } else {
      j := m - 1;
    }
  }

  lemma WeightedPicks(g: Graph, a: Id, visited: set<Id>, draw: real, k: nat)
    requires var edges := Permitted(g, a, visited, |g.edges|);
      k < |edges| && Holds(TotalWeight(edges[..k]), draw, TotalWeight(edges), TotalWeight(edges[..k + 1]))
    ensures Picks(g, a, visited, false, draw, Permitted(g, a, visited, |g.edges|)[k].to)
  {
    var j := PermittedAt(g, a, visited, |g.edges|, k);
    StretchIsTotal(g, a, visited, j);
    StretchIsTotal(g, a, visited, j + 1);
    StretchIsTotal(g, a, visited, |g.edges|);
    assert PicksEdge(g, a, visited, false, draw, j);
  }

  lemma EvenPicks(g: Graph, a: Id, visited: set<Id>, draw: real, k: nat)
    requires var n := |Permitted(g, a, visited, |g.edges|)|;
      k < n && Holds(k as real, draw, n as real, (k + 1) as real)
    ensures Picks(g, a, visited, true, draw, Permitted(g, a, visited, |g.edges|)[k].to)
  {
    var j := PermittedAt(g, a, visited, |g.edges|, k);
    StretchIsTotal(g, a, visited, j);
    StretchIsTotal(g, a, visited, j + 1);
    StretchIsTotal(g, a, visited, |g.edges|);
    assert PicksEdge(g, a, visited, true, draw, j);
  }

  // -------------------------------------------------------------------------
  // Walks that follow their draws
  // -------------------------------------------------------------------------

  /** Transition i of the path is the one draw t + i leads to by weight. */
  ghost predicate FollowsDraws(g: Graph, path: seq<Id>, draws: nat -> real, t: nat) {
    forall i, j :: 0 <= i && j == i + 1 && j < |path| ==>
      Picks(g, path[i], Visited(path[..j]), false, draws(t + i), path[j])
  }

  /** The walk the draws from the t-th on make: it ends where nothing can be taken, or after
      maxSteps transitions. */
  ghost predicate IsDrawnWalk(g: Graph, start: Id, maxSteps: nat, draws: nat -> real, t: nat, path: seq<Id>) {
    && path != [] && path[0] == start && |path| <= maxSteps + 1
    && FollowsDraws(g, path, draws, t)
    && (|path| <= maxSteps ==> IsStuck(g, path[|path| - 1], Visited(path)))
  }

  lemma FollowOn(g: Graph, path: seq<Id>, b: Id, draws: nat -> real, t: nat)
    requires path != [] && FollowsDraws(g, path, draws, t)
    requires Picks(g, path[|path| - 1], Visited(path), false, draws(t + |path| - 1), b)
    ensures FollowsDraws(g, path + [b], draws, t)
  {
    var longer := path + [b];
    forall i, j | 0 <= i && j == i + 1 && j < |longer|
      ensures Picks(g, longer[i], Visited(longer[..j]), false, draws(t + i), longer[j])
    {
      assert longer[..j] == path[..j];
      if j == |path| {
        assert path[..j] == path;
      }
    }
  }

  lemma {:induction false} DrawnWalksAgree(g: Graph, a: seq<Id>, b: seq<Id>, draws: nat -> real, t: nat, n: nat)
    requires FollowsDraws(g, a, draws, t) && FollowsDraws(g, b, draws, t)
    requires 0 < n <= |a| && n <= |b| && a[0] == b[0]
    ensures a[..n] == b[..n]
  {
    if n > 1 {
      DrawnWalksAgree(g, a, b, draws, t, n - 1);
      assert a[n - 2] == a[..n - 1][n - 2] && b[n - 2] == b[..n - 1][n - 2];
      PickIsUnique(g, a[n - 2], Visited(a[..n - 1]), false, draws(t + (n - 2)), a[n - 1], b[n - 1]);
      assert a[..n] == a[..n - 1] + [a[n - 1]] && b[..n] == b[..n - 1] + [b[n - 1]];
    }
  }

  lemma DrawnWalkIsLongest(g: Graph, start: Id, maxSteps: nat, draws: nat -> real, t: nat, a: seq<Id>, b: seq<Id>)
    requires IsDrawnWalk(g, start, maxSteps, draws, t, a) && IsDrawnWalk(g, start, maxSteps, draws, t, b)
    ensures |b| <= |a|
  {
    var n := |a|;
    if n < |b| {
      DrawnWalksAgree(g, a, b, draws, t, n);
      assert a[..n] == a && a[n - 1] == b[..n][n - 1];
      PickedIsTakeable(g, b[n - 1], Visited(b[..n]), false, draws(t + (n - 1)), b[n]);
      assert false;
    }
  }

  /** The draws make one walk. */
  lemma DrawnWalkIsUnique(g: Graph, start: Id, maxSteps: nat, draws: nat -> real, t: nat, a: seq<Id>, b: seq<Id>)
    requires IsDrawnWalk(g, start, maxSteps, draws, t, a) && IsDrawnWalk(g, start, maxSteps, draws, t, b)
    ensures a == b
  {
    DrawnWalkIsLongest(g, start, maxSteps, draws, t, a, b);
    DrawnWalkIsLongest(g, start, maxSteps, draws, t, b, a);
    DrawnWalksAgree(g, a, b, draws, t, |a|);
    assert a[..|a|] == a && b[..|b|] == b;
  }

  // -------------------------------------------------------------------------
  // Walks that deviate
  // -------------------------------------------------------------------------

  datatype Policy = Policy(rate: real, abandon: bool, explore: bool)

  /** What a user does next, and the draw it is picked with: a transition by weight, one
      picked evenly, or leaving, which takes no draw of its own. */
  datatype Move = Weighted(at: nat) | Explored(at: nat) | Left(at: nat)

  /** From the t-th draw on: no draw decides at a rate of 0; otherwise one decides whether
      to deviate, and a second one between leaving and exploring if both are allowed. */
  function Decide(p: Policy, draws: nat -> real, t: nat): Move {
    if p.rate <= 0.0 then Weighted(t)
    else if draws(t) >= p.rate || (!p.abandon && !p.explore) then Weighted(t + 1)
    else if !p.explore then Left(t + 1)
    else if !p.abandon then Explored(t + 1)
    else if draws(t + 1) < 0.5 then Left(t + 2)
    else Explored(t + 2)
  }

  /** Who leaves, who explores, and how many draws that takes. */
  lemma DecisionIs(p: Policy, draws: nat -> real, t: nat)
    ensures var m, deviates := Decide(p, draws, t), p.rate > 0.0 && draws(t) < p.rate;
      && (m.Left? <==> deviates && p.abandon && (p.explore ==> draws(t + 1) < 0.5))
      && (m.Explored? <==> deviates && p.explore && (p.abandon ==> draws(t + 1) >= 0.5))
      && m.at - t == (if p.rate <= 0.0 then 0 else if deviates && p.abandon && p.explore then 2 else 1)
  {}

  /** The draws taken before transition i is decided. */
  function TurnAt(p: Policy, draws: nat -> real, t: nat, i: nat): nat {
    if i == 0 then t else Decide(p, draws, TurnAt(p, draws, t, i - 1)).at + 1
  }

  ghost predicate PicksMove(g: Graph, a: Id, visited: set<Id>, m: Move, draws: nat -> real, b: Id) {
    !m.Left? && Picks(g, a, visited, m.Explored?, draws(m.at), b)
  }

  ghost predicate FollowsPolicy(g: Graph, path: seq<Id>, p: Policy, draws: nat -> real, t: nat) {
    forall i, j :: 0 <= i && j == i + 1 && j < |path| ==>
      PicksMove(g, path[i], Visited(path[..j]), Decide(p, draws, TurnAt(p, draws, t, i)), draws, path[j])
  }

  /** The walk the policy makes of the draws from the t-th on: it ends where nothing can be
      taken, where the user leaves, or after maxSteps transitions. */
  ghost predicate IsPolicyWalk(g: Graph, start: Id, maxSteps: nat, p: Policy, draws: nat -> real, t: nat,
                               path: seq<Id>) {
    && path != [] && path[0] == start && |path| <= maxSteps + 1
    && FollowsPolicy(g, path, p, draws, t)
    && (|path| <= maxSteps ==>
          IsStuck(g, path[|path| - 1], Visited(path)) || Decide(p, draws, TurnAt(p, draws, t, |path| - 1)).Left?)
  }

  /** Where such a walk leaves the generator: a user who leaves has decided to. */
  ghost function TakenBy(g: Graph, maxSteps: nat, p: Policy, draws: nat -> real, t: nat, path: seq<Id>): nat
    requires path != []
  {
    var turn := TurnAt(p, draws, t, |path| - 1);
    if |path| <= maxSteps && !IsStuck(g, path[|path| - 1], Visited(path)) then Decide(p, draws, turn).at else turn
  }

  lemma FollowPolicyOn(g: Graph, path: seq<Id>, b: Id, p: Policy, draws: nat -> real, t: nat)
    requires path != [] && FollowsPolicy(g, path, p, draws, t)
    requires PicksMove(g, path[|path| - 1], Visited(path), Decide(p, draws, TurnAt(p, draws, t, |path| - 1)), draws, b)
    ensures FollowsPolicy(g, path + [b], p, draws, t)
  {
    var longer := path + [b];
    forall i, j | 0 <= i && j == i + 1 && j < |longer|
      ensures PicksMove(g, longer[i], Visited(longer[..j]), Decide(p, draws, TurnAt(p, draws, t, i)), draws, longer[j])
    {
      assert longer[..j] == path[..j];
      if j == |path| {
        assert path[..j] == path;
      }
    }
  }

  lemma {:induction false} TurnsAtRateZero(p: Policy, draws: nat -> real, t: nat, i: nat)
    requires p.rate <= 0.0
    ensures TurnAt(p, draws, t, i) == t + i
  {
    if i > 0 {
      TurnsAtRateZero(p, draws, t, i - 1);
    }
  }

  lemma RateZeroFollowsDraws(g: Graph, path: seq<Id>, p: Policy, draws: nat -> real, t: nat)
    requires p.rate <= 0.0 && FollowsPolicy(g, path, p, draws, t)
    ensures FollowsDraws(g, path, draws, t)
  {
    forall i, j | 0 <= i && j == i + 1 && j < |path|
      ensures Picks(g, path[i], Visited(path[..j]), false, draws(t + i), path[j])
    {
      TurnsAtRateZero(p, draws, t, i);
      assert PicksMove(g, path[i], Visited(path[..j]), Decide(p, draws, TurnAt(p, draws, t, i)), draws, path[j]);
    }
  }

  /** At a rate of 0 a user who may deviate makes the very walk of one who may not, and takes
      the same draws. */
  lemma RateZeroIsTheWalk(g: Graph, start: Id, maxSteps: nat, p: Policy, draws: nat -> real, t: nat,
                          path: seq<Id>, walk: seq<Id>)
    requires p.rate <= 0.0 && IsPolicyWalk(g, start, maxSteps, p, draws, t, path)
    requires IsDrawnWalk(g, start, maxSteps, draws, t, walk)
    ensures path == walk && TakenBy(g, maxSteps, p, draws, t, path) == t + |walk| - 1
  {
    TurnsAtRateZero(p, draws, t, |path| - 1);
    RateZeroFollowsDraws(g, path, p, draws, t);
    DrawnWalkIsUnique(g, start, maxSteps, draws, t, path, walk);
  }

  lemma {:induction false} TurnsAtFullRate(p: Policy, draws: nat -> real, t: nat, i: nat)
    requires p.rate >= 1.0 && !p.abandon && p.explore && forall k :: draws(k) < 1.0
    ensures TurnAt(p, draws, t, i) == t + 2 * i
  {
    if i > 0 {
      TurnsAtFullRate(p, draws, t, i - 1);
    }
  }

  /** At a rate of 1 a user who may only leave does so at once, and one who may only explore
      takes every transition evenly, on every second draw. */
  lemma FullRateAlwaysDeviates(g: Graph, start: Id, maxSteps: nat, p: Policy, draws: nat -> real, t: nat,
                               path: seq<Id>)
    requires p.rate >= 1.0 && (forall k :: draws(k) < 1.0) && IsPolicyWalk(g, start, maxSteps, p, draws, t, path)
    ensures p.abandon && !p.explore ==> path == [start]
    ensures !p.abandon && p.explore ==>
      forall i, j :: 0 <= i && j == i + 1 && j < |path| ==>
        Picks(g, path[i], Visited(path[..j]), true, draws(t + 2 * i + 1), path[j])
  {
    if p.abandon && !p.explore {
      assert |path| > 1 ==>
        PicksMove(g, path[0], Visited(path[..1]), Decide(p, draws, TurnAt(p, draws, t, 0)), draws, path[1]);
      assert path == [path[0]];
    }
    if !p.abandon && p.explore {
      forall i, j | 0 <= i && j == i + 1 && j < |path|
        ensures Picks(g, path[i], Visited(path[..j]), true, draws(t + 2 * i + 1), path[j])
      {
        TurnsAtFullRate(p, draws, t, i);
        assert PicksMove(g, path[i], Visited(path[..j]), Decide(p, draws, TurnAt(p, draws, t, i)), draws, path[j]);
      }
    }
  }

  /** A transition that can be taken keeps a walk a walk. */
  lemma TakeTransition(g: Graph, path: seq<Id>, b: Id)
    requires ValidGraph(g) && IsWalk(g, path) && CanTake(g, path[|path| - 1], b, Visited(path))
    ensures IsWalk(g, path + [b]) && Visited(path + [b]) == Visited(path) + {b} && b in g.nodes
  {
    ExtendWalk(g, path, b);
    VisitedGrows(path, b);
  }

  /** A walk under way. */
  ghost predicate OnDrawnWalk(g: Graph, draws: nat -> real, t: nat, path: seq<Id>) {
    IsWalk(g, path) && FollowsDraws(g, path, draws, t) && path[|path| - 1] in g.nodes
  }

  lemma DrawnWalkGoesOn(g: Graph, draws: nat -> real, t: nat, path: seq<Id>, cur: Id, visited: set<Id>, b: Id)
    requires ValidGraph(g) && OnDrawnWalk(g, draws, t, path)
    requires cur == path[|path| - 1] && visited == Visited(path)
    requires Picks(g, cur, visited, false, draws(t + |path| - 1), b)
    ensures OnDrawnWalk(g, draws, t, path + [b]) && visited + {b} == Visited(path + [b])
  {
    PickedIsTakeable(g, cur, visited, false, draws(t + |path| - 1), b);
    TakeTransition(g, path, b);
    FollowOn(g, path, b, draws, t);
  }

  ghost predicate OnPolicyWalk(g: Graph, p: Policy, draws: nat -> real, t: nat, path: seq<Id>) {
    IsWalk(g, path) && FollowsPolicy(g, path, p, draws, t) && path[|path| - 1] in g.nodes
  }

  lemma PolicyWalkGoesOn(g: Graph, p: Policy, draws: nat -> real, t: nat, path: seq<Id>, cur: Id, visited: set<Id>,
                         turn: nat, b: Id)
    requires ValidGraph(g) && OnPolicyWalk(g, p, draws, t, path)
    requires cur == path[|path| - 1] && visited == Visited(path) && turn == TurnAt(p, draws, t, |path| - 1)
    requires PicksMove(g, cur, visited, Decide(p, draws, turn), draws, b)
    ensures OnPolicyWalk(g, p, draws, t, path + [b]) && visited + {b} == Visited(path + [b])
    ensures TurnAt(p, draws, t, |path|) == Decide(p, draws, turn).at + 1
  {
    var m := Decide(p, draws, turn);
    PickedIsTakeable(g, cur, visited, m.Explored?, draws(m.at), b);
    TakeTransition(g, path, b);
    FollowPolicyOn(g, path, b, p, draws, t);
  }

  lemma PolicyWalkEnds(g: Graph, start: Id, maxSteps: nat, p: Policy, draws: nat -> real, t: nat, path: seq<Id>,
                       cur: Id, visited: set<Id>, turn: nat, taken: nat)
    requires OnPolicyWalk(g, p, draws, t, path) && path[0] == start && |path| <= maxSteps + 1
    requires cur == path[|path| - 1] && visited == Visited(path) && turn == TurnAt(p, draws, t, |path| - 1)
    requires
      if |path| > maxSteps || IsStuck(g, cur, visited) then taken == turn
      else Decide(p, draws, turn) == Left(taken)
    ensures IsPolicyWalk(g, start, maxSteps, p, draws, t, path)
    ensures TakenBy(g, maxSteps, p, draws, t, path) == taken
  {}

  // -------------------------------------------------------------------------
  // The walker
  // -------------------------------------------------------------------------

  function Outgoing(edges: seq<Edge>, n: Id): seq<Edge> {
    if edges == [] then []
    else
      var rest := Outgoing(edges[..|edges| - 1], n);
      var e := edges[|edges| - 1];
      if e.from == n then rest + [e] else rest
  }

  function DepPreds(edges: seq<Edge>, n: Id): seq<Id> {
    if edges == [] then []
    else
      var rest := DepPreds(edges[..|edges| - 1], n);
      var e := edges[|edges| - 1];
      if e.dependency && e.to == n then rest + [e.from] else rest
  }

  lemma {:induction false} OutgoingMembers(edges: seq<Edge>, n: Id, e: Edge)
    ensures e in Outgoing(edges, n) <==> e in edges && e.from == n
  {
    if edges != [] {
      OutgoingMembers(edges[..|edges| - 1], n, e);
      assert edges == edges[..|edges| - 1] + [edges[|edges| - 1]];
    }
  }

  lemma {:induction false} DepPredsMembers(edges: seq<Edge>, n: Id, p: Id)
    ensures p in DepPreds(edges, n) <==> exists e :: e in edges && e.dependency && e.to == n && e.from == p
  {
    if edges != [] {
      var init, last := edges[..|edges| - 1], edges[|edges| - 1];
      DepPredsMembers(init, n, p);
      assert edges == init + [last];
      assert last in edges;
    }
  }

  lemma CanEnterByPreds(g: Graph, n: Id, visited: set<Id>)
    ensures CanEnter(g, n, visited) <==> forall i :: 0 <= i < |DepPreds(g.edges, n)| ==>
      DepPreds(g.edges, n)[i] in visited
  {
    var ps := DepPreds(g.edges, n);
    if CanEnter(g, n, visited) {
      forall i | 0 <= i < |ps|
        ensures ps[i] in visited
      {
        DepPredsMembers(g.edges, n, ps[i]);
      }
    }
    if forall i :: 0 <= i < |ps| ==> ps[i] in visited {
      forall e | e in g.edges && e.dependency && e.to == n
        ensures e.from in visited
      {
        DepPredsMembers(g.edges, n, e.from);
      }
    }
  }

  function TotalWeight(edges: seq<Edge>): real {
    if edges == [] then 0.0 else TotalWeight(edges[..|edges| - 1]) + edges[|edges| - 1].weight
  }

  /** weightedPick: the edge whose stretch of the summed weights holds the draw. */
  method WeightedPick(edges: seq<Edge>, total: real, draw: real) returns (k: nat)
    requires edges != [] && total == TotalWeight(edges) && 0.0 <= draw < 1.0
    requires total > 0.0
    ensures k < |edges| && Holds(TotalWeight(edges[..k]), draw, total, TotalWeight(edges[..k + 1]))
  {
    var r := draw * total;
    DrawBelowTotal(draw, total, r);
    assert edges[..|edges|] == edges;
    var acc := 0.0;
    k := 0;
    while k < |edges|
      invariant k <= |edges| && acc == TotalWeight(edges[..k]) <= r
    {
      assert edges[..k + 1][..k] == edges[..k];
      acc := acc + edges[k].weight;
      if r < acc {
        return;
      }
      k := k + 1;
    }
    assert false;
  }

  lemma DrawBelowTotal(draw: real, total: real, r: real)
    requires 0.0 <= draw < 1.0 && total > 0.0 && r == draw * total
    ensures 0.0 <= r && r < total
  {
    assert r >= 0.0;
    assert (1.0 - draw) * total > 0.0;
    assert (1.0 - draw) * total == total - r;
  }

  lemma IndexGrows(edges: seq<Edge>, i: nat, n: Id)
    requires i < |edges|
    ensures Outgoing(edges[..i + 1], n) == Outgoing(edges[..i], n) + if edges[i].from == n then [edges[i]] else []
    ensures DepPreds(edges[..i + 1], n)
         == DepPreds(edges[..i], n) + if edges[i].dependency && edges[i].to == n then [edges[i].from] else []
  {
    assert edges[..i + 1][..i] == edges[..i];
  }

  ghost predicate Indexed(edges: seq<Edge>, known: set<Id>, out: map<Id, seq<Edge>>, preds: map<Id, seq<Id>>) {
    && out.Keys == known && preds.Keys == known
    && (forall n :: n in known ==> out[n] == Outgoing(edges, n))
    && (forall n :: n in known ==> preds[n] == DepPreds(edges, n))
  }

  lemma IndexStep(edges: seq<Edge>, i: nat, known: set<Id>, out: map<Id, seq<Edge>>, preds: map<Id, seq<Id>>)
    requires i < |edges| && Indexed(edges[..i], known, out, preds)
    requires edges[i].from in known && edges[i].to in known
    ensures var e := edges[i];
      Indexed(edges[..i + 1], known, out[e.from := out[e.from] + [e]],
              if e.dependency then preds[e.to := preds[e.to] + [e.from]] else preds)
  {
    forall n | n in known
      ensures Outgoing(edges[..i + 1], n) == Outgoing(edges[..i], n) + if edges[i].from == n then [edges[i]] else []
      ensures DepPreds(edges[..i + 1], n)
           == DepPreds(edges[..i], n) + if edges[i].dependency && edges[i].to == n then [edges[i].from] else []
    {
      IndexGrows(edges, i, n);
    }
  }

  /** The maps a walker is built with: outgoing edges and dependency predecessors. */
  method IndexEdges(edges: seq<Edge>, known: set<Id>) returns (out: map<Id, seq<Edge>>, preds: map<Id, seq<Id>>)
    requires forall i :: 0 <= i < |edges| ==> edges[i].from in known && edges[i].to in known
    ensures Indexed(edges, known, out, preds)
  {
    out := map n | n in known :: [];
    preds := map n | n in known :: [];
    for i := 0 to |edges|
      invariant Indexed(edges[..i], known, out, preds)
    {
      var e := edges[i];
      IndexStep(edges, i, known, out, preds);
      out := out[e.from := out[e.from] + [e]];
      if e.dependency {
        preds := preds[e.to := preds[e.to] + [e.from]];
      }
    }
    assert edges[..|edges|] == edges;
  }

  class Walker {
    ghost const graph: Graph
    const nodes: set<Id>
    const outgoing: map<Id, seq<Edge>>
    const depPreds: map<Id, seq<Id>>
    /** The seeded generator: its draws, and how many were taken. */
    const draws: nat -> real
    var taken: nat

    ghost predicate Valid() {
      && ValidGraph(graph)
      && nodes == Visited(graph.nodes)
      && Indexed(graph.edges, nodes, outgoing, depPreds)
      && (forall i :: 0.0 <= draws(i) < 1.0)
    }

    /** NewWalker, on a graph that validates. */
    constructor (g: Graph, draws: nat -> real)
      requires ValidGraph(g) && forall i :: 0.0 <= draws(i) < 1.0
      ensures Valid() && graph == g && this.draws == draws && taken == 0
    {
      var known := Visited(g.nodes);
      var out, preds := IndexEdges(g.edges, known);
      graph, nodes, outgoing, depPreds := g, known, out, preds;
      this.draws, taken := draws, 0;
    }

    /** canEnter */
    method Enterable(n: Id, visited: set<Id>) returns (r: bool)
      requires Valid() && n in nodes
      ensures r == CanEnter(graph, n, visited)
    {
      CanEnterByPreds(graph, n, visited);
      var preds := depPreds[n];
      for i := 0 to |preds|
        invariant forall j :: 0 <= j < i ==> preds[j] in visited
      {
        if preds[i] !in visited {
          return false;
        }
      }
      return true;
    }

    /** eligible: the positive outgoing edges whose target may be entered. */
    method Eligible(cur: Id, visited: set<Id>) returns (edges: seq<Edge>, total: real)
      requires Valid() && cur in nodes
      ensures total == TotalWeight(edges) && (edges != [] ==> total > 0.0)
      ensures forall e :: e in edges <==> Takeable(graph, cur, e, visited)
      ensures edges == Permitted(graph, cur, visited, |graph.edges|)
      ensures edges == [] ==> IsStuck(graph, cur, visited)
    {
      edges, total := [], 0.0;
      var out := outgoing[cur];
      for i := 0 to |out|
        invariant edges == Offered(graph, cur, visited, out[..i]) && total == TotalWeight(edges)
      {
        var e := out[i];
        assert out[..i + 1][..i] == out[..i];
        OutgoingMembers(graph.edges, cur, e);
        if e.weight <= 0.0 {
          continue;
        }
        var enter := Enterable(e.to, visited);
        if enter {
          assert (edges + [e])[..|edges|] == edges;
          edges := edges + [e];
          total := total + e.weight;
        }
      }
      assert out[..|out|] == out && graph.edges[..|graph.edges|] == graph.edges;
      OfferedIsPermitted(graph, cur, visited, |graph.edges|);
      OfferedIsTakeable(graph, cur, visited);
    }

    /** One turn of Walk: the next node by weight, if anything can be taken. */
    method NextByWeight(cur: Id, visited: set<Id>) returns (next: Option<Id>)
      requires Valid() && cur in nodes
      modifies this`taken
      ensures next.None? ==> IsStuck(graph, cur, visited) && taken == old(taken)
      ensures next.Some? ==> Picks(graph, cur, visited, false, draws(old(taken)), next.value) && taken == old(taken) + 1
    {
      var edges, total := Eligible(cur, visited);
      if |edges| == 0 || total <= 0.0 {
        return None;
      }
      var k := WeightedPick(edges, total, draws(taken));
      WeightedPicks(graph, cur, visited, draws(taken), k);
      taken := taken + 1;
      return Some(edges[k].to);
    }

    /** Walk: the walk of at most maxSteps transitions that the draws make from the start, one
        draw a transition. */
    method Walk(start: Id, maxSteps: int) returns (r: Result<seq<Id>>)
      requires Valid()
      modifies this`taken
      ensures maxSteps < 0 ==> r == Err(NegativeSteps)
      ensures maxSteps >= 0 && start !in graph.nodes ==> r == Err(UnknownStart)
      ensures maxSteps >= 0 && start in graph.nodes && !CanEnter(graph, start, {}) ==> r == Err(UnmetDependency)
      ensures maxSteps >= 0 && start in graph.nodes && CanEnter(graph, start, {}) ==> r.Ok?
      ensures r.Ok? ==> IsWalk(graph, r.value) && IsDrawnWalk(graph, start, maxSteps, draws, old(taken), r.value)
      ensures taken == old(taken) + if r.Ok? then |r.value| - 1 else 0
    {
      if maxSteps < 0 {
        return Err(NegativeSteps);
      }
      if start !in nodes {
        return Err(UnknownStart);
      }
      var enter := Enterable(start, {});
      if !enter {
        return Err(UnmetDependency);
      }
      StartWalk(graph, start);
      var path, visited, cur := [start], {start}, start;
      var step := 0;
      while step < maxSteps
        invariant 0 <= step <= maxSteps && |path| == step + 1 && path[0] == start
        invariant OnDrawnWalk(graph, draws, old(taken), path) && taken == old(taken) + step
        invariant cur == path[step] && visited == Visited(path)
        decreases maxSteps - step
      {
        var next := NextByWeight(cur, visited);
        if next.None? {
          return Ok(path);
        }
        DrawnWalkGoesOn(graph, draws, old(taken), path, cur, visited, next.value);
        cur := next.value;
        path, visited := path + [cur], visited + {cur};
        step := step + 1;
      }
      return Ok(path);
    }

    /** The draws that decide whether the user deviates, and how. */
    method DecideMove(p: Policy) returns (m: Move)
      modifies this`taken
      ensures m == Decide(p, draws, old(taken)) && taken == m.at
    {
      var at, explore := taken, false;
      if p.rate > 0.0 {
        var deviate := draws(at) < p.rate;
        at := at + 1;
        if deviate {
          var leave := p.abandon;
          if p.abandon && p.explore {
            leave := draws(at) < 0.5;
            at := at + 1;
          }
          if leave {
            taken := at;
            return Left(at);
          }
          explore := p.explore;
        }
      }
      taken := at;
      return if explore then Explored(at) else Weighted(at);
    }

    /** One turn of WalkWithDeviation: what the user does, and the next node unless it leaves. */
    method NextByPolicy(cur: Id, visited: set<Id>, p: Policy) returns (stuck: bool, m: Move, next: Option<Id>)
      requires Valid() && cur in nodes
      modifies this`taken
      ensures stuck <==> IsStuck(graph, cur, visited)
      ensures stuck ==> next.None? && taken == old(taken)
      ensures !stuck ==> m == Decide(p, draws, old(taken)) && next.Some? == !m.Left?
      ensures !stuck ==> taken == if m.Left? then m.at else m.at + 1
      ensures next.Some? ==> PicksMove(graph, cur, visited, m, draws, next.value)
    {
      var edges, total := Eligible(cur, visited);
      if |edges| == 0 || total <= 0.0 {
        return true, Left(taken), None;
      }
      TakeableTarget(graph, cur, edges[0], visited);
      m := DecideMove(p);
      if m.Left? {
        return false, m, None;
      }
      var k: nat;
      if m.Explored? {
        k := UniformPick(|edges|, draws(taken));
        EvenPicks(graph, cur, visited, draws(taken), k);
      } else {
        k := WeightedPick(edges, total, draws(taken));
        WeightedPicks(graph, cur, visited, draws(taken), k);
      }
      taken := taken + 1;
      return false, m, Some(edges[k].to);
    }

    /** WalkWithDeviation: deviating changes which permitted transition is taken, or ends
        the journey; it never takes one that is not permitted. */
    method WalkWithDeviation(start: Id, maxSteps: int, p: Policy) returns (r: Result<seq<Id>>)
      requires Valid()
      modifies this`taken
      ensures r.Ok? <==> maxSteps >= 0 && start in graph.nodes && CanEnter(graph, start, {})
      ensures r.Ok? ==> IsWalk(graph, r.value) && IsPolicyWalk(graph, start, maxSteps, p, draws, old(taken), r.value)
      ensures taken == if r.Ok? then TakenBy(graph, maxSteps, p, draws, old(taken), r.value) else old(taken)
    {
      if maxSteps < 0 {
        return Err(NegativeSteps);
      }
      if start !in nodes {
        return Err(UnknownStart);
      }
      var enter := Enterable(start, {});
      if !enter {
        return Err(UnmetDependency);
      }
      StartWalk(graph, start);
      var path, visited, cur := [start], {start}, start;
      var step := 0;
      while step < maxSteps
        invariant 0 <= step <= maxSteps && |path| == step + 1 && path[0] == start
        invariant OnPolicyWalk(graph, p, draws, old(taken), path) && taken == TurnAt(p, draws, old(taken), step)
        invariant cur == path[step] && visited == Visited(path)
        decreases maxSteps - step
      {
        ghost var turn := taken;
        var stuck, m, next := NextByPolicy(cur, visited, p);
        if next.None? {
          PolicyWalkEnds(graph, start, maxSteps, p, draws, old(taken), path, cur, visited, turn, taken);
          return Ok(path);
        }
        PolicyWalkGoesOn(graph, p, draws, old(taken), path, cur, visited, turn, next.value);
        cur := next.value;
        path, visited := path + [cur], visited + {cur};
        step := step + 1;
      }
      PolicyWalkEnds(graph, start, maxSteps, p, draws, old(taken), path, cur, visited, taken, taken);
      return Ok(path);
    }
  }

  /** rng.Intn */
  method UniformPick(n: nat, draw: real) returns (k: nat)
    requires n > 0 && 0.0 <= draw < 1.0
    ensures k < n && Holds(k as real, draw, n as real, (k + 1) as real)
  {
    var r := draw * n as real;
    DrawBelowTotal(draw, n as real, r);
    k := r.Floor;
  }
}
