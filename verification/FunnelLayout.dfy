/** Edge kinds and the layered layout, both read off the breadth-first depths. */
module FunnelLayout {
  import opened FunnelGraph

  const COL_GAP: int := 200
  const ROW_GAP: int := 110

  datatype Point = Point(x: int, y: int)

  // -------------------------------------------------------------------------
  // Edge kinds
  // -------------------------------------------------------------------------

  /** classifyEdge: terminal wins, then a known non-descending pair is a loop back. */
  function ClassifyEdge(from: Id, to: Id, terminals: set<Id>, depth: map<Id, nat>): EdgeKind {
    if to in terminals then Terminal
    else if from in depth && to in depth && depth[to] <= depth[from] then Back
    else Forward
  }

  lemma EdgeRaisesAtMostOne(known: set<Id>, links: set<Edge>, start: Id, depth: map<Id, nat>, a: Id, b: Id)
    requires ShortestDepths(known, links, start, depth)
    requires a in depth && Linked(known, links, a, b)
    ensures b in depth && depth[b] <= depth[a] + 1
  {
    var p :| WalkBetween(known, links, p, start, a) && |p| == depth[a] + 1;
    ExtendWalk(known, links, p, start, a, b);
  }

  /** A graph edge out of a reachable node is forward exactly when its target is no
      terminal and lies one column further right. */
  lemma ForwardRaisesByOne(known: set<Id>, links: set<Edge>, start: Id, depth: map<Id, nat>, terminals: set<Id>,
                           a: Id, b: Id)
    requires ShortestDepths(known, links, start, depth)
    requires a in depth && Linked(known, links, a, b)
    ensures ClassifyEdge(a, b, terminals, depth) == Forward
       <==> b !in terminals && b in depth && depth[b] == depth[a] + 1
  {
    EdgeRaisesAtMostOne(known, links, start, depth, a, b);
  }

  /** Such an edge is terminal exactly when it enters a terminal, and otherwise back exactly
      when its target can be reached in no more steps than its source. */
  lemma BackNeverDeepens(known: set<Id>, links: set<Edge>, start: Id, depth: map<Id, nat>, terminals: set<Id>,
                         a: Id, b: Id)
    requires ShortestDepths(known, links, start, depth)
    requires a in depth && Linked(known, links, a, b)
    ensures ClassifyEdge(a, b, terminals, depth) == Terminal <==> b in terminals
    ensures ClassifyEdge(a, b, terminals, depth) == Back
       <==> b !in terminals && exists p :: WalkBetween(known, links, p, start, b) && |p| <= depth[a] + 1
  {
    EdgeRaisesAtMostOne(known, links, start, depth, a, b);
    var p :| WalkBetween(known, links, p, start, b) && |p| == depth[b] + 1;
  }

  ghost predicate AllForward(p: seq<Id>, terminals: set<Id>, depth: map<Id, nat>) {
    forall i, j :: 0 <= i && j == i + 1 && j < |p| ==> ClassifyEdge(p[i], p[j], terminals, depth) == Forward
  }

  lemma {:induction false} WalkStep(known: set<Id>, links: set<Edge>, p: seq<Id>, i: nat)
    requires IsWalk(known, links, p) && i + 1 < |p|
    ensures Linked(known, links, p[i], p[i + 1])
  {
    if i + 2 < |p| {
      WalkStep(known, links, p[..|p| - 1], i);
    }
  }

  /** Depth measures any all-forward walk: its k-th node is k columns further. */
  lemma {:induction false} ForwardWalkMeasuresDepth(known: set<Id>, links: set<Edge>, start: Id, depth: map<Id, nat>,
                                                    terminals: set<Id>, p: seq<Id>, k: nat)
    requires ShortestDepths(known, links, start, depth)
    requires IsWalk(known, links, p) && p[0] in depth && AllForward(p, terminals, depth) && k < |p|
    ensures p[k] in depth && depth[p[k]] == depth[p[0]] + k
  {
    if k > 0 {
      ForwardWalkMeasuresDepth(known, links, start, depth, terminals, p, k - 1);
      WalkStep(known, links, p, k - 1);
      ForwardRaisesByOne(known, links, start, depth, terminals, p[k - 1], p[k]);
    }
  }

  lemma {:induction false} ReachableAlongWalk(known: set<Id>, links: set<Edge>, start: Id, depth: map<Id, nat>,
                                              p: seq<Id>, i: nat, k: nat)
    requires ShortestDepths(known, links, start, depth)
    requires IsWalk(known, links, p) && i <= k < |p| && p[i] in depth
    ensures p[k] in depth
  {
    if i < k {
      ReachableAlongWalk(known, links, start, depth, p, i, k - 1);
      WalkStep(known, links, p, k - 1);
      EdgeRaisesAtMostOne(known, links, start, depth, p[k - 1], p[k]);
    }
  }

  /** A directed cycle consists of forward edges only exactly when it is unreachable
      and visits no terminal; so every cycle through a reachable node contains a back
      or terminal edge. */
  lemma CycleIsForwardIffUnreachable(known: set<Id>, links: set<Edge>, start: Id, depth: map<Id, nat>,
                                     terminals: set<Id>, p: seq<Id>)
    requires ShortestDepths(known, links, start, depth)
    requires IsWalk(known, links, p) && |p| >= 2 && p[0] == p[|p| - 1]
    ensures AllForward(p, terminals, depth) <==> p[0] !in depth && forall v :: v in p ==> v !in terminals
  {
    if p[0] in depth {
      if AllForward(p, terminals, depth) {
        ForwardWalkMeasuresDepth(known, links, start, depth, terminals, p, |p| - 1);
        assert false;
      }
    } else {
      forall k | 0 <= k < |p|
        ensures p[k] !in depth
      {
        if p[k] in depth {
          ReachableAlongWalk(known, links, start, depth, p, k, |p| - 1);
        }
      }
      if AllForward(p, terminals, depth) {
        forall v | v in p
          ensures v !in terminals
        {
          var k :| 0 <= k < |p| && p[k] == v;
          var j := if k == 0 then |p| - 1 else k;
          assert ClassifyEdge(p[j - 1], p[j], terminals, depth) == Forward;
        }
      }
    }
  }

  // -------------------------------------------------------------------------
  // Layout
  // -------------------------------------------------------------------------

  /** The depth of a node, or -1 when the search did not reach it. */
  function Level(depth: map<Id, nat>, id: Id): int {
    if id in depth then depth[id] else -1
  }

  /** The nodes of one level, in input order. */
  function Bucket(ids: seq<Id>, depth: map<Id, nat>, level: int): seq<Id> {
    if ids == [] then []
    else
      var rest := Bucket(ids[..|ids| - 1], depth, level);
      var id := ids[|ids| - 1];
      if Level(depth, id) == level then rest + [id] else rest
  }

  lemma {:induction false} BucketMembers(ids: seq<Id>, depth: map<Id, nat>, level: int, id: Id)
    ensures id in Bucket(ids, depth, level) <==> id in ids && Level(depth, id) == level
  {
    if ids != [] {
      BucketMembers(ids[..|ids| - 1], depth, level, id);
      assert ids == ids[..|ids| - 1] + [ids[|ids| - 1]];
    }
  }

  ghost predicate Distinct(s: seq<Id>) {
    forall i, j :: 0 <= i < j < |s| ==> s[i] != s[j]
  }

  lemma {:induction false} BucketDistinct(ids: seq<Id>, depth: map<Id, nat>, level: int)
    requires Distinct(ids)
    ensures Distinct(Bucket(ids, depth, level))
  {
    if ids != [] {
      BucketDistinct(ids[..|ids| - 1], depth, level);
      BucketMembers(ids[..|ids| - 1], depth, level, ids[|ids| - 1]);
    }
  }

  /** Reachable depths have no gap: every column up to the deepest is occupied. */
  lemma {:induction false} DepthsAreContiguous(known: set<Id>, links: set<Edge>, start: Id, depth: map<Id, nat>,
                                               v: Id, c: nat)
    returns (u: Id)
    requires ShortestDepths(known, links, start, depth)
    requires v in depth && c <= depth[v]
    ensures u in depth && depth[u] == c
    decreases depth[v]
  {
    if c == depth[v] {
      u := v;
    } else {
      var p :| WalkBetween(known, links, p, start, v) && |p| == depth[v] + 1;
      var w := p[|p| - 2];
      var q := p[..|p| - 1];
      assert WalkBetween(known, links, q, start, w);
      EdgeRaisesAtMostOne(known, links, start, depth, w, v);
      u := DepthsAreContiguous(known, links, start, depth, w, c);
    }
  }

  ghost predicate NoRepeats(columns: seq<seq<Id>>) {
    forall c, r, c', r' ::
      (0 <= c < |columns| && 0 <= r < |columns[c]| && 0 <= c' < |columns| && 0 <= r' < |columns[c']|
       && columns[c][r] == columns[c'][r'])
      ==> c == c' && r == r'
  }

  /** The point of row r in column c: rows are centred around y = 0. */
  function Spot(column: seq<Id>, c: nat, r: nat): Point {
    Point(c * COL_GAP, r * ROW_GAP - ((|column| - 1) * ROW_GAP) / 2)
  }

  ghost predicate Occupied(ids: seq<Id>, depth: map<Id, nat>, c: nat) {
    exists id :: id in ids && id in depth && depth[id] == c
  }

  /** The columns layoutGraph hands to its placing loop. */
  ghost predicate AreBuckets(ids: seq<Id>, depth: map<Id, nat>, width: nat, columns: seq<seq<Id>>) {
    && width <= |columns| <= width + 1
    && (forall c :: 0 <= c < width ==> columns[c] == Bucket(ids, depth, c))
    && (if Bucket(ids, depth, -1) == [] then |columns| == width
        else |columns| == width + 1 && columns[width] == Bucket(ids, depth, -1))
    && (forall id :: id in ids && id in depth ==> depth[id] < width)
  }

  /** The buckets of the nodes seen so far: one per depth up to the deepest. */
  ghost predicate Bucketed(ids: seq<Id>, depth: map<Id, nat>, columns: seq<seq<Id>>) {
    && (forall c :: 0 <= c < |columns| ==> columns[c] == Bucket(ids, depth, c))
    && (forall id :: id in ids && id in depth ==> depth[id] < |columns|)
  }

  lemma BucketGrows(ids: seq<Id>, k: nat, depth: map<Id, nat>, level: int)
    requires k < |ids|
    ensures Bucket(ids[..k + 1], depth, level)
         == Bucket(ids[..k], depth, level) + if Level(depth, ids[k]) == level then [ids[k]] else []
  {
    assert ids[..k + 1][..k] == ids[..k];
  }

  /** A node goes to the end of its bucket. */
  lemma BucketedStep(ids: seq<Id>, k: nat, depth: map<Id, nat>, columns: seq<seq<Id>>)
    requires k < |ids| && Bucketed(ids[..k], depth, columns) && (ids[k] in depth ==> depth[ids[k]] < |columns|)
    ensures Bucketed(ids[..k + 1], depth,
                     if ids[k] in depth then columns[depth[ids[k]] := columns[depth[ids[k]]] + [ids[k]]] else columns)
  {
    forall c | 0 <= c < |columns|
      ensures Bucket(ids[..k + 1], depth, c)
           == columns[c] + if Level(depth, ids[k]) == c then [ids[k]] else []
    {
      BucketGrows(ids, k, depth, c);
    }
    assert ids[..k + 1] == ids[..k] + [ids[k]];
  }

  /** Buckets deeper than every node so far are empty. */
  method GrowColumns(ghost ids: seq<Id>, ghost depth: map<Id, nat>, columns0: seq<seq<Id>>, d: nat)
    returns (columns: seq<seq<Id>>)
    requires Bucketed(ids, depth, columns0)
    ensures Bucketed(ids, depth, columns)
    ensures |columns| == if |columns0| <= d then d + 1 else |columns0|
  {
    columns := columns0;
    while |columns| <= d
      invariant Bucketed(ids, depth, columns) && |columns0| <= |columns|
      invariant |columns| == |columns0| || |columns| <= d + 1
      decreases d - |columns|
    {
      if Bucket(ids, depth, |columns|) != [] {
        BucketMembers(ids, depth, |columns|, Bucket(ids, depth, |columns|)[0]);
        assert false;
      }
      columns := columns + [[]];
    }
  }

  /** The first part of layoutGraph: one bucket per depth, the unreached nodes, if any,
      in a trailing one. */
  method BucketNodes(ids: seq<Id>, depth: map<Id, nat>) returns (columns: seq<seq<Id>>)
    ensures var width := Reached(ids, depth, columns);
      AreBuckets(ids, depth, width, columns) && (width > 0 ==> Occupied(ids, depth, width - 1))
  {
    columns := [];
    var unreachable := [];
    for k := 0 to |ids|
      invariant Bucketed(ids[..k], depth, columns)
      invariant unreachable == Bucket(ids[..k], depth, -1)
      invariant |columns| > 0 ==> Occupied(ids[..k], depth, |columns| - 1)
    {
      var id := ids[k];
      ghost var width0 := |columns|;
      BucketGrows(ids, k, depth, -1);
      if id !in depth {
        unreachable := unreachable + [id];
        BucketedStep(ids, k, depth, columns);
      } else {
        var d := depth[id];
        columns := GrowColumns(ids[..k], depth, columns, d);
        BucketedStep(ids, k, depth, columns);
        columns := columns[d := columns[d] + [id]];
      }
      assert ids[..k + 1] == ids[..k] + [id];
      assert |columns| > width0 ==> id in ids[..k + 1] && id in depth && depth[id] == |columns| - 1;
    }
    assert ids[..|ids|] == ids;
    if |unreachable| > 0 {
      columns := columns + [unreachable];
    }
  }

  /** How many of the columns are those of a depth. */
  ghost function Reached(ids: seq<Id>, depth: map<Id, nat>, columns: seq<seq<Id>>): nat {
    if columns == [] || Bucket(ids, depth, -1) == [] then |columns| else |columns| - 1
  }

  /** The second part of layoutGraph: every member of every column gets its point. */
  method PlaceColumns(columns: seq<seq<Id>>) returns (pos: map<Id, Point>)
    ensures forall id :: id in pos <==> exists c :: 0 <= c < |columns| && id in columns[c]
    ensures NoRepeats(columns) ==>
      forall c, r :: 0 <= c < |columns| && 0 <= r < |columns[c]| ==> pos[columns[c][r]] == Spot(columns[c], c, r)
  {
    pos := map[];
    for c := 0 to |columns|
      invariant forall id :: id in pos <==> exists c' :: 0 <= c' < c && id in columns[c']
      invariant NoRepeats(columns) ==>
        forall c', r :: 0 <= c' < c && 0 <= r < |columns[c']| ==> pos[columns[c'][r]] == Spot(columns[c'], c', r)
    {
      var col := columns[c];
      var offset := ((|col| - 1) * ROW_GAP) / 2;
      for r := 0 to |col|
        invariant forall id :: id in pos <==> (exists c' :: 0 <= c' < c && id in columns[c']) || id in col[..r]
        invariant NoRepeats(columns) ==>
          forall c', r' :: 0 <= c' < c && 0 <= r' < |columns[c']| ==> pos[columns[c'][r']] == Spot(columns[c'], c', r')
        invariant NoRepeats(columns) ==> forall r' :: 0 <= r' < r ==> pos[col[r']] == Spot(col, c, r')
      {
        assert col[..r + 1] == col[..r] + [col[r]];
        pos := pos[col[r] := Point(c * COL_GAP, r * ROW_GAP - offset)];
      }
      assert col[..|col|] == col;
    }
  }

  /** The nodes drawn at abscissa x, in input order. */
  function ColumnAt(ids: seq<Id>, pos: map<Id, Point>, x: int): seq<Id>
    requires forall id :: id in ids ==> id in pos
  {
    if ids == [] then []
    else
      var rest := ColumnAt(ids[..|ids| - 1], pos, x);
      var id := ids[|ids| - 1];
      if pos[id].x == x then rest + [id] else rest
  }

  function SumY(col: seq<Id>, pos: map<Id, Point>): int
    requires forall id :: id in col ==> id in pos
  {
    if col == [] then 0 else SumY(col[..|col| - 1], pos) + pos[col[|col| - 1]].y
  }

  lemma {:induction false} ColumnAtMembers(ids: seq<Id>, pos: map<Id, Point>, x: int)
    requires forall id :: id in ids ==> id in pos
    ensures forall id :: id in ColumnAt(ids, pos, x) ==> id in ids
  {
    if ids != [] {
      ColumnAtMembers(ids[..|ids| - 1], pos, x);
    }
  }

  /** The layout of distinct nodes. Reached nodes sit in the column of their depth and
      every column up to `width` is occupied; unreached nodes share the column right
      behind; no two nodes meet, and every column is balanced around y = 0. */
  ghost predicate Drawn(ids: seq<Id>, depth: map<Id, nat>, width: nat, pos: map<Id, Point>) {
    && (forall id :: id in ids ==> id in pos)
    && (forall id :: id in ids && id in depth ==> depth[id] < width && pos[id].x == depth[id] * COL_GAP)
    && (forall id :: id in ids && id !in depth ==> pos[id].x == width * COL_GAP)
    && (forall c: nat :: c < width ==> Occupied(ids, depth, c))
    && (forall a, b :: a in ids && b in ids && pos[a] == pos[b] ==> a == b)
    && (forall x :: Balanced(ids, pos, x))
  }

  ghost predicate Balanced(ids: seq<Id>, pos: map<Id, Point>, x: int)
    requires forall id :: id in ids ==> id in pos
  {
    ColumnAtMembers(ids, pos, x);
    SumY(ColumnAt(ids, pos, x), pos) == 0
  }

  lemma {:induction false} ColumnIsBucket(ids: seq<Id>, depth: map<Id, nat>, pos: map<Id, Point>, x: int, level: int)
    requires forall id :: id in ids ==> id in pos && (pos[id].x == x <==> Level(depth, id) == level)
    ensures ColumnAt(ids, pos, x) == Bucket(ids, depth, level)
  {
    if ids != [] {
      ColumnIsBucket(ids[..|ids| - 1], depth, pos, x, level);
    }
  }

  /** The first k rows of a column of n sum to 55 * (k*(k-1) - (n-1)*k). */
  lemma {:induction false} RowsSum(col: seq<Id>, pos: map<Id, Point>, c: nat, k: nat)
    requires k <= |col| && forall r :: 0 <= r < |col| ==> col[r] in pos && pos[col[r]] == Spot(col, c, r)
    ensures SumY(col[..k], pos) == 55 * (k * (k - 1) - (|col| - 1) * k)
  {
    if k > 0 {
      RowsSum(col, pos, c, k - 1);
      assert col[..k][..k - 1] == col[..k - 1];
      assert (k - 1) * (k - 2) + 2 * (k - 1) == k * (k - 1);
      assert (|col| - 1) * (k - 1) + (|col| - 1) == (|col| - 1) * k;
    }
  }

  lemma ColumnBalanced(col: seq<Id>, pos: map<Id, Point>, c: nat)
    requires forall r :: 0 <= r < |col| ==> col[r] in pos && pos[col[r]] == Spot(col, c, r)
    ensures SumY(col, pos) == 0
  {
    RowsSum(col, pos, c, |col|);
    assert col[..|col|] == col;
  }

  function LevelOf(width: nat, c: nat): int {
    if c < width then c else -1
  }

  lemma BucketsDoNotRepeat(ids: seq<Id>, depth: map<Id, nat>, width: nat, columns: seq<seq<Id>>)
    requires Distinct(ids) && AreBuckets(ids, depth, width, columns)
    ensures NoRepeats(columns)
  {
    forall c, r, c', r' | 0 <= c < |columns| && 0 <= r < |columns[c]| && 0 <= c' < |columns| && 0 <= r' < |columns[c']|
                          && columns[c][r] == columns[c'][r']
      ensures c == c' && r == r'
    {
      BucketMembers(ids, depth, LevelOf(width, c), columns[c][r]);
      BucketMembers(ids, depth, LevelOf(width, c'), columns[c'][r']);
      BucketDistinct(ids, depth, LevelOf(width, c));
    }
  }

  /** Where a node ends up: the column of its level, at some row. */
  lemma NodeHasSpot(ids: seq<Id>, depth: map<Id, nat>, width: nat, columns: seq<seq<Id>>, pos: map<Id, Point>, id: Id)
    returns (c: nat, r: nat)
    requires AreBuckets(ids, depth, width, columns)
    requires forall c, r :: 0 <= c < |columns| && 0 <= r < |columns[c]| ==>
      columns[c][r] in pos && pos[columns[c][r]] == Spot(columns[c], c, r)
    requires id in ids
    ensures c == (if id in depth then depth[id] else width) && c < |columns| && r < |columns[c]| && columns[c][r] == id
    ensures id in pos && pos[id] == Spot(columns[c], c, r)
  {
    c := if id in depth then depth[id] else width;
    BucketMembers(ids, depth, Level(depth, id), id);
    r :| 0 <= r < |columns[c]| && columns[c][r] == id;
  }

  lemma ColumnsBalance(ids: seq<Id>, depth: map<Id, nat>, width: nat, columns: seq<seq<Id>>, pos: map<Id, Point>,
                       x: int)
    requires AreBuckets(ids, depth, width, columns)
    requires forall id :: id in ids ==> id in pos && pos[id].x == (if id in depth then depth[id] else width) * COL_GAP
    requires forall c, r :: 0 <= c < |columns| && 0 <= r < |columns[c]| ==>
      columns[c][r] in pos && pos[columns[c][r]] == Spot(columns[c], c, r)
    ensures Balanced(ids, pos, x)
  {
    if c: nat :| c < |columns| && x == c * COL_GAP {
      ColumnIsBucket(ids, depth, pos, x, LevelOf(width, c));
      ColumnBalanced(columns[c], pos, c);
    } else {
      forall id | id in ids
        ensures pos[id].x != x
      {
        BucketMembers(ids, depth, -1, id);
        var c := if id in depth then depth[id] else width;
        assert c < |columns|;
      }
      ColumnIsBucket(ids, depth, pos, x, -2);
      if Bucket(ids, depth, -2) != [] {
        BucketMembers(ids, depth, -2, Bucket(ids, depth, -2)[0]);
      }
    }
  }

  lemma WalkEndsDeclared(known: set<Id>, links: set<Edge>, start: Id, depth: map<Id, nat>, v: Id)
    requires ShortestDepths(known, links, start, depth) && v in depth
    ensures v in known
  {
    var p :| WalkBetween(known, links, p, start, v) && |p| == depth[v] + 1;
  }

  lemma BucketsAreDrawn(ids: seq<Id>, edges: seq<Edge>, start: Id, depth: map<Id, nat>, width: nat,
                        columns: seq<seq<Id>>, pos: map<Id, Point>)
    requires ShortestDepths(NodeSet(ids), EdgeSet(edges), start, depth)
    requires AreBuckets(ids, depth, width, columns) && (width > 0 ==> Occupied(ids, depth, width - 1))
    requires NoRepeats(columns)
    requires forall c, r :: 0 <= c < |columns| && 0 <= r < |columns[c]| ==>
      columns[c][r] in pos && pos[columns[c][r]] == Spot(columns[c], c, r)
    ensures Drawn(ids, depth, width, pos)
  {
    forall id | id in ids
      ensures id in pos && pos[id].x == (if id in depth then depth[id] else width) * COL_GAP
    {
      var c, r := NodeHasSpot(ids, depth, width, columns, pos, id);
    }
    forall c: nat | c < width
      ensures Occupied(ids, depth, c)
    {
      var last :| last in ids && last in depth && depth[last] == width - 1;
      var u := DepthsAreContiguous(NodeSet(ids), EdgeSet(edges), start, depth, last, c);
      WalkEndsDeclared(NodeSet(ids), EdgeSet(edges), start, depth, u);
    }
    forall a, b | a in ids && b in ids && pos[a] == pos[b]
      ensures a == b
    {
      var c, r := NodeHasSpot(ids, depth, width, columns, pos, a);
      var c', r' := NodeHasSpot(ids, depth, width, columns, pos, b);
    }
    forall x
      ensures Balanced(ids, pos, x)
    {
      ColumnsBalance(ids, depth, width, columns, pos, x);
    }
  }

  lemma ColumnsCover(ids: seq<Id>, depth: map<Id, nat>, width: nat, columns: seq<seq<Id>>)
    requires AreBuckets(ids, depth, width, columns)
    ensures forall id :: (exists c :: 0 <= c < |columns| && id in columns[c]) <==> id in ids
  {
    forall id
      ensures (exists c :: 0 <= c < |columns| && id in columns[c]) <==> id in ids
    {
      forall c | 0 <= c < |columns|
        ensures id in columns[c] <==> id in ids && Level(depth, id) == LevelOf(width, c)
      {
        BucketMembers(ids, depth, LevelOf(width, c), id);
      }
      BucketMembers(ids, depth, -1, id);
      if id in ids {
        assert id in columns[if id in depth then depth[id] else width];
      }
    }
  }

  lemma LayoutIsDrawn(ids: seq<Id>, edges: seq<Edge>, start: Id, depth: map<Id, nat>, width: nat,
                      columns: seq<seq<Id>>, pos: map<Id, Point>)
    requires ShortestDepths(NodeSet(ids), EdgeSet(edges), start, depth)
    requires AreBuckets(ids, depth, width, columns) && (width > 0 ==> Occupied(ids, depth, width - 1))
    requires forall id :: id in pos <==> exists c :: 0 <= c < |columns| && id in columns[c]
    requires NoRepeats(columns) ==>
      forall c, r :: 0 <= c < |columns| && 0 <= r < |columns[c]| ==> pos[columns[c][r]] == Spot(columns[c], c, r)
    ensures pos.Keys == NodeSet(ids)
    ensures Distinct(ids) ==> Drawn(ids, depth, width, pos)
  {
    ColumnsCover(ids, depth, width, columns);
    if Distinct(ids) {
      BucketsDoNotRepeat(ids, depth, width, columns);
      BucketsAreDrawn(ids, edges, start, depth, width, columns, pos);
    }
  }

  /** layoutGraph */
  method LayoutGraph(ids: seq<Id>, edges: seq<Edge>, start: Id)
    returns (pos: map<Id, Point>, ghost depth: map<Id, nat>, ghost width: nat)
    ensures ShortestDepths(NodeSet(ids), EdgeSet(edges), start, depth)
    ensures pos.Keys == NodeSet(ids)
    ensures Distinct(ids) ==> Drawn(ids, depth, width, pos)
  {
    var d := GraphDepths(ids, edges, start);
    depth := d;
    var columns := BucketNodes(ids, d);
    width := Reached(ids, d, columns);
    pos := PlaceColumns(columns);
    LayoutIsDrawn(ids, edges, start, depth, width, columns, pos);
  }
}
