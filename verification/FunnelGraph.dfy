/** The funnel view of a scenario graph: breadth-first depths, edge kinds and the
    layered layout drawn from them. */
module FunnelGraph {
  type Id = string

  datatype Edge = Edge(from: Id, to: Id)

  datatype EdgeKind = Forward | Back | Terminal

  function NodeSet(ids: seq<Id>): set<Id> {
    set id | id in ids
  }

  function EdgeSet(edges: seq<Edge>): set<Edge> {
    set e | e in edges
  }

  // -------------------------------------------------------------------------
  // Walks and shortest distances: the reference the search is compared with
  // -------------------------------------------------------------------------

  /** An edge counts only when both of its ends are declared nodes. */
  ghost predicate Linked(known: set<Id>, links: set<Edge>, a: Id, b: Id) {
    Edge(a, b) in links && a in known && b in known
  }

  ghost predicate IsWalk(known: set<Id>, links: set<Edge>, p: seq<Id>) {
    if |p| <= 1 then |p| == 1 && p[0] in known
    else IsWalk(known, links, p[..|p| - 1]) && Linked(known, links, p[|p| - 2], p[|p| - 1])
  }

  ghost predicate WalkBetween(known: set<Id>, links: set<Edge>, p: seq<Id>, a: Id, b: Id) {
    IsWalk(known, links, p) && p[0] == a && p[|p| - 1] == b
  }

  /** `depth` holds exactly the nodes some walk from `start` reaches, each with the
      number of edges of a shortest such walk. */
  ghost predicate ShortestDepths(known: set<Id>, links: set<Edge>, start: Id, depth: map<Id, nat>) {
    && (forall v, p :: WalkBetween(known, links, p, start, v) ==> v in depth && depth[v] <= |p| - 1)
    && (forall v :: v in depth ==> exists p :: WalkBetween(known, links, p, start, v) && |p| == depth[v] + 1)
  }

  lemma {:induction false} WalkStartsDeclared(known: set<Id>, links: set<Edge>, p: seq<Id>)
    requires IsWalk(known, links, p)
    ensures p[0] in known
  {
    if |p| > 1 {
      WalkStartsDeclared(known, links, p[..|p| - 1]);
    }
  }

  lemma NothingReachable(known: set<Id>, links: set<Edge>, start: Id)
    requires start !in known
    ensures ShortestDepths(known, links, start, map[])
  {
    forall v, p | WalkBetween(known, links, p, start, v)
      ensures false
    {
      WalkStartsDeclared(known, links, p);
    }
  }

  lemma ExtendWalk(known: set<Id>, links: set<Edge>, p: seq<Id>, a: Id, b: Id, c: Id)
    requires WalkBetween(known, links, p, a, b) && Linked(known, links, b, c)
    ensures WalkBetween(known, links, p + [c], a, c)
  {
    assert (p + [c])[..|p|] == p;
  }

  /** Two maps that both meet the reference are the same map. The reference reads the
      nodes and edges as sets, so the order and repetition in which they are listed
      cannot change the answer. */
  lemma ShortestDepthsUnique(known: set<Id>, links: set<Edge>, start: Id, depth: map<Id, nat>, depth': map<Id, nat>)
    requires ShortestDepths(known, links, start, depth)
    requires ShortestDepths(known, links, start, depth')
    ensures depth == depth'
  {
    forall v | v in depth
      ensures v in depth' && depth'[v] <= depth[v]
    {
      var p :| WalkBetween(known, links, p, start, v) && |p| == depth[v] + 1;
    }
    forall v | v in depth'
      ensures v in depth && depth[v] <= depth'[v]
    {
      var p :| WalkBetween(known, links, p, start, v) && |p| == depth'[v] + 1;
    }
  }

  // -------------------------------------------------------------------------
  // The queue search
  // -------------------------------------------------------------------------

  /** The declared successors of `id`, in the order their edges are listed. */
  function Successors(known: set<Id>, edges: seq<Edge>, id: Id): seq<Id> {
    if edges == [] then []
    else
      var rest := Successors(known, edges[..|edges| - 1], id);
      var e := edges[|edges| - 1];
      if e.from in known && e.to in known && e.from == id then rest + [e.to] else rest
  }

  lemma {:induction false} SuccessorsAreEdges(known: set<Id>, edges: seq<Edge>, id: Id, b: Id)
    ensures b in Successors(known, edges, id) <==> Edge(id, b) in edges && id in known && b in known
  {
    if edges != [] {
      SuccessorsAreEdges(known, edges[..|edges| - 1], id, b);
      assert edges == edges[..|edges| - 1] + [edges[|edges| - 1]];
    }
  }

  lemma SuccessorsAreLinked(ids: seq<Id>, edges: seq<Edge>, id: Id)
    ensures forall b :: b in Successors(NodeSet(ids), edges, id) <==> Linked(NodeSet(ids), EdgeSet(edges), id, b)
  {
    forall b
      ensures b in Successors(NodeSet(ids), edges, id) <==> Linked(NodeSet(ids), EdgeSet(edges), id, b)
    {
      SuccessorsAreEdges(NodeSet(ids), edges, id, b);
    }
  }

  method Adjacency(ids: seq<Id>, edges: seq<Edge>, known: set<Id>) returns (adj: map<Id, seq<Id>>)
    requires known == set id | id in ids
    ensures adj.Keys == known
    ensures forall id :: id in known ==> adj[id] == Successors(known, edges, id)
  {
    adj := map[];
    for k := 0 to |ids|
      invariant adj.Keys == set id | id in ids[..k]
      invariant forall id :: id in adj ==> adj[id] == []
    {
      assert ids[..k + 1] == ids[..k] + [ids[k]];
      adj := adj[ids[k] := []];
    }
    assert ids[..|ids|] == ids;
    for j := 0 to |edges|
      invariant adj.Keys == known
      invariant forall id :: id in known ==> adj[id] == Successors(known, edges[..j], id)
    {
      var e := edges[j];
      assert edges[..j + 1][..j] == edges[..j];
      if e.from in known && e.to in known {
        adj := adj[e.from := adj[e.from] + [e.to]];
      }
    }
    assert edges[..|edges|] == edges;
  }

  /** What the search knows between two steps: the queue lists exactly the nodes
      of `depth`, the start first. */
  ghost predicate Discovered(known: set<Id>, start: Id, depth: map<Id, nat>, queue: seq<Id>) {
    && |queue| > 0 && queue[0] == start
    && (forall v :: v in depth <==> v in queue)
    && (forall k :: 0 <= k < |queue| ==> queue[k] in known)
    && start in depth && depth[start] == 0
  }

  /** The queue is ordered by depth: from the scan position on, depth `d` up to the
      boundary `m` and depth `d + 1` behind it. */
  ghost predicate Layered(depth: map<Id, nat>, queue: seq<Id>, i: nat, m: nat, d: nat) {
    && i <= m <= |queue|
    && (forall k :: 0 <= k < |queue| ==> queue[k] in depth)
    && (forall k :: 0 <= k < i ==> depth[queue[k]] <= d)
    && (forall k :: i <= k < m ==> depth[queue[k]] == d)
    && (forall k :: m <= k < |queue| ==> depth[queue[k]] == d + 1)
  }

  /** Every discovered node but the start was discovered across an edge from a node
      one step shallower. */
  ghost predicate Rooted(links: set<Edge>, start: Id, depth: map<Id, nat>, parent: map<Id, Id>) {
    && parent.Keys == depth.Keys - {start}
    && forall v {:trigger parent[v]} :: v in parent ==>
      parent[v] in depth && Edge(parent[v], v) in links && depth[v] == depth[parent[v]] + 1
  }

  /** Every successor of `u` is known and at most one step deeper. */
  ghost predicate Relaxed(known: set<Id>, links: set<Edge>, depth: map<Id, nat>, u: Id) {
    u in depth && forall b :: Linked(known, links, u, b) ==> b in depth && depth[b] <= depth[u] + 1
  }

  lemma RelaxedStays(known: set<Id>, links: set<Edge>, depth: map<Id, nat>, queue: seq<Id>,
                     depth': map<Id, nat>, queue': seq<Id>, i: nat)
    requires i < |queue| && queue <= queue'
    requires forall k :: 0 <= k < i ==> Relaxed(known, links, depth, queue[k])
    requires forall v :: v in depth ==> v in depth' && depth'[v] == depth[v]
    requires Relaxed(known, links, depth', queue[i])
    ensures forall k :: 0 <= k <= i ==> Relaxed(known, links, depth', queue'[k])
  {}

  lemma DiscoverNext(known: set<Id>, start: Id, depth: map<Id, nat>, queue: seq<Id>, i: nat, m: nat, d: nat, next: Id)
    requires Discovered(known, start, depth, queue) && Layered(depth, queue, i, m, d)
    requires next in known && next !in depth
    ensures Discovered(known, start, depth[next := d + 1], queue + [next])
    ensures Layered(depth[next := d + 1], queue + [next], i, m, d)
  {
    var queue' := queue + [next];
    assert forall v :: v in queue' <==> v in queue || v == next;
  }

  lemma RootNext(links: set<Edge>, start: Id, depth: map<Id, nat>, parent: map<Id, Id>, cur: Id, next: Id)
    requires Rooted(links, start, depth, parent) && start in depth
    requires cur in depth && next !in depth && Edge(cur, next) in links
    ensures Rooted(links, start, depth[next := depth[cur] + 1], parent[next := cur])
  {}

  /** Once all its successors are discovered, the node at the scan position is relaxed. */
  lemma NowRelaxed(known: set<Id>, links: set<Edge>, start: Id, successors: seq<Id>, depth: map<Id, nat>,
                   queue: seq<Id>, i: nat, m: nat, d: nat)
    requires Discovered(known, start, depth, queue) && i < m && Layered(depth, queue, i, m, d)
    requires forall b :: b in successors <==> Linked(known, links, queue[i], b)
    requires forall k :: 0 <= k < |successors| ==> successors[k] in depth
    ensures Relaxed(known, links, depth, queue[i])
  {
    forall b | Linked(known, links, queue[i], b)
      ensures b in depth && depth[b] <= d + 1
    {
      assert b in successors && b in queue;
    }
  }

  lemma FewerLeft(known: set<Id>, depth0: map<Id, nat>, depth: map<Id, nat>, next: Id, d: nat)
    requires next in known && next !in depth
    requires forall v :: v in depth0 ==> v in depth
    ensures known - depth[next := d].Keys < known - depth0.Keys
  {
    assert next in known - depth0.Keys && next !in known - depth[next := d].Keys;
  }

  /** Following parents back to the start gives a walk of the recorded length. */
  lemma {:induction false} RootedWalk(known: set<Id>, links: set<Edge>, start: Id, depth: map<Id, nat>,
                                      parent: map<Id, Id>, v: Id)
    returns (p: seq<Id>)
    requires start in depth && depth[start] == 0 && depth.Keys <= known
    requires Rooted(links, start, depth, parent)
    requires v in depth
    ensures WalkBetween(known, links, p, start, v) && |p| == depth[v] + 1
    decreases depth[v]
  {
    if v == start {
      p := [start];
    } else {
      var u := parent[v];
      var q := RootedWalk(known, links, start, depth, parent, u);
      ExtendWalk(known, links, q, start, u, v);
      p := q + [v];
    }
  }

  /** When every discovered node is relaxed, no walk beats the recorded depths. */
  lemma {:induction false} WalksAreNoShorter(known: set<Id>, links: set<Edge>, start: Id, depth: map<Id, nat>,
                                             p: seq<Id>, v: Id)
    requires start in depth && depth[start] == 0
    requires forall u :: u in depth ==> Relaxed(known, links, depth, u)
    requires WalkBetween(known, links, p, start, v)
    ensures v in depth && depth[v] <= |p| - 1
  {
    if |p| > 1 {
      var q := p[..|p| - 1];
      WalksAreNoShorter(known, links, start, depth, q, q[|q| - 1]);
    }
  }

  lemma SearchIsExact(known: set<Id>, links: set<Edge>, start: Id, depth: map<Id, nat>, queue: seq<Id>,
                      parent: map<Id, Id>)
    requires Discovered(known, start, depth, queue)
    requires Rooted(links, start, depth, parent)
    requires forall k :: 0 <= k < |queue| ==> Relaxed(known, links, depth, queue[k])
    ensures ShortestDepths(known, links, start, depth)
  {
    assert depth.Keys <= known;
    forall v | v in depth
      ensures exists p :: WalkBetween(known, links, p, start, v) && |p| == depth[v] + 1
    {
      var p := RootedWalk(known, links, start, depth, parent, v);
    }
    forall v, p | WalkBetween(known, links, p, start, v)
      ensures v in depth && depth[v] <= |p| - 1
    {
      WalksAreNoShorter(known, links, start, depth, p, v);
    }
  }

  /** The body of the queue scan: discover the unseen successors of one node. */
  method ScanSuccessors(ghost known: set<Id>, ghost links: set<Edge>, ghost start: Id, successors: seq<Id>,
                        depth0: map<Id, nat>, queue0: seq<Id>, ghost parent0: map<Id, Id>, i: nat, ghost m: nat)
    returns (depth: map<Id, nat>, queue: seq<Id>, ghost parent: map<Id, Id>)
    requires Discovered(known, start, depth0, queue0) && Rooted(links, start, depth0, parent0)
    requires i < m && i < |queue0| && forall k :: 0 <= k < i ==> Relaxed(known, links, depth0, queue0[k])
    requires Layered(depth0, queue0, i, m, depth0[queue0[i]])
    requires forall b :: b in successors <==> Linked(known, links, queue0[i], b)
    ensures queue0 <= queue && Discovered(known, start, depth, queue) && Rooted(links, start, depth, parent)
    ensures Layered(depth, queue, i, m, depth0[queue0[i]])
    ensures forall k :: 0 <= k <= i ==> Relaxed(known, links, depth, queue[k])
    ensures queue == queue0 || known - depth.Keys < known - depth0.Keys
  {
    depth, queue, parent := depth0, queue0, parent0;
    var cur := queue0[i];
    var d := depth0[cur];
    for j := 0 to |successors|
      invariant queue0 <= queue && Discovered(known, start, depth, queue) && Rooted(links, start, depth, parent)
      invariant forall v :: v in depth0 ==> v in depth && depth[v] == depth0[v]
      invariant Layered(depth, queue, i, m, d)
      invariant forall k :: 0 <= k < j ==> successors[k] in depth
      invariant queue == queue0 || known - depth.Keys < known - depth0.Keys
    {
      var next := successors[j];
      if next !in depth {
        assert Linked(known, links, cur, next);
        DiscoverNext(known, start, depth, queue, i, m, d, next);
        FewerLeft(known, depth0, depth, next, d + 1);
        RootNext(links, start, depth, parent, cur, next);
        depth, queue, parent := depth[next := d + 1], queue + [next], parent[next := cur];
      }
    }
    NowRelaxed(known, links, start, successors, depth, queue, i, m, d);
    RelaxedStays(known, links, depth0, queue0, depth, queue, i);
  }

  /** The queue is scanned by index while it grows at its end. */
  method ScanQueue(ghost known: set<Id>, ghost links: set<Edge>, adj: map<Id, seq<Id>>, start: Id)
    returns (depth: map<Id, nat>)
    requires start in known && adj.Keys == known
    requires forall a, b :: a in known ==> (b in adj[a] <==> Linked(known, links, a, b))
    ensures ShortestDepths(known, links, start, depth)
  {
    var pending := [start];
    depth := map[start := 0];
    ghost var parent: map<Id, Id> := map[];
    ghost var m: nat, d: nat := 1, 0;
    var i := 0;
    while i < |pending|
      invariant 0 <= i <= |pending|
      invariant Discovered(known, start, depth, pending) && Rooted(links, start, depth, parent)
      invariant forall k :: 0 <= k < i ==> Relaxed(known, links, depth, pending[k])
      invariant Layered(depth, pending, i, m, d)
      decreases known - depth.Keys, |pending| - i
    {
      if i == m {
        m, d := |pending|, d + 1;
      }
      depth, pending, parent := ScanSuccessors(known, links, start, adj[pending[i]], depth, pending, parent, i, m);
      i := i + 1;
    }
    SearchIsExact(known, links, start, depth, pending, parent);
  }

  /** graphDepths */
  method GraphDepths(ids: seq<Id>, edges: seq<Edge>, start: Id) returns (depth: map<Id, nat>)
    ensures ShortestDepths(NodeSet(ids), EdgeSet(edges), start, depth)
  {
    var known := NodeSet(ids);
    ghost var links := EdgeSet(edges);
    var adj := Adjacency(ids, edges, known);
    if start !in known {
      NothingReachable(known, links, start);
      return map[];
    }
    forall a | a in known
      ensures forall b :: b in adj[a] <==> Linked(known, links, a, b)
    {
      SuccessorsAreLinked(ids, edges, a);
    }
    depth := ScanQueue(known, links, adj, start);
  }
}
