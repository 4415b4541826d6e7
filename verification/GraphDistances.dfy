/** What the depths of a lineage graph mean: the path-enumerating walk records
    shortest distances, and agrees with the breadth-first blast radius. */
module GraphDistances {
  import opened Paths
  import opened LineageGraph
  import Impact
  import AnchorPattern

  datatype Request = Request(
    rows: set<Edge>, root: string, direction: string, granularity: string, cap: nat)

  ghost predicate Chosen(direction: string, dir: Direction) {
    if dir.Downstream? then direction != "upstream" else direction != "downstream"
  }

  ghost function Query(rq: Request, dir: Direction): WalkQuery {
    QueryFor(rq.rows, rq.root, rq.granularity, rq.cap, dir)
  }

  ghost function Served(rq: Request): set<OutRow> {
    RowsFor(rq.rows, rq.root, rq.direction, rq.granularity, rq.cap)
  }

  ghost predicate WellFormed(rq: Request) {
    rq.cap > 0 && (rq.granularity == "table" || rq.granularity == "column")
  }

  /** Where a walk starts: the root, or any column of a root table. */
  ghost predicate Anchor(rq: Request, v: string) {
    Anchored(Query(rq, Downstream), v)
  }

  ghost predicate ReachedFrom(rq: Request, dir: Direction, a: string, v: string, m: nat) {
    Chosen(rq.direction, dir) && Anchor(rq, a) && ReachesIn(WalkGraph(Query(rq, dir)), a, v, m)
  }

  /** v is m hops from an anchor in a requested direction. */
  ghost predicate Reached(rq: Request, v: string, m: nat) {
    exists dir, a :: ReachedFrom(rq, dir, a, v, m)
  }

  /** d is the least number of hops, over both directions when both are asked. */
  ghost predicate Nearest(rq: Request, v: string, d: nat) {
    Reached(rq, v, d) && forall m: nat :: m < d ==> !Reached(rq, v, m)
  }

  ghost function Seed(rq: Request): map<string, nat> {
    if rq.granularity == "table" then map[rq.root := 0] else map[]
  }

  lemma AnchorSame(rq: Request, dir: Direction, v: string)
    ensures Anchored(Query(rq, dir), v) <==> Anchor(rq, v)
  {
  }

  lemma SomeDirection(rq: Request) returns (dir: Direction)
    ensures Chosen(rq.direction, dir)
  {
    dir := if rq.direction != "upstream" then Downstream else Upstream;
  }

  // ---- rows and reachability --------------------------------------------------

  /** A row gives its far end the length of a walk, its near end one less. */
  lemma MentionIsReached(rq: Request, v: string, d: nat)
    requires Mentions(Served(rq), v, d)
    ensures 0 < d <= rq.cap && (Reached(rq, v, d) || Reached(rq, v, d - 1))
  {
    var out :| out in Served(rq) && out.depth == d && (out.edge.source == v || out.edge.target == v);
    var dir := if Chosen(rq.direction, Downstream) && out in Projected(RowsUpTo(Query(rq, Downstream), rq.cap))
               then Downstream else Upstream;
    var q := Query(rq, dir);
    assert Chosen(rq.direction, dir) && out in Projected(RowsUpTo(q, rq.cap));
    RowIsReached(rq, dir, out, v);
  }

  lemma RowIsReached(rq: Request, dir: Direction, out: OutRow, v: string)
    requires Chosen(rq.direction, dir) && out in Projected(RowsUpTo(Query(rq, dir), rq.cap))
    requires out.edge.source == v || out.edge.target == v
    ensures 0 < out.depth <= rq.cap && (Reached(rq, v, out.depth) || Reached(rq, v, out.depth - 1))
  {
    hide RowsUpTo, RowsAt;
    var q := Query(rq, dir);
    var r :| r in RowsUpTo(q, rq.cap) && r.depth == out.depth
             && r.edge.upstream == out.edge.source && r.edge.downstream == out.edge.target;
    UpToHasRound(q, r, rq.cap);
    var k: nat :| 0 < k <= rq.cap && r in RowsAt(q, k);
    RowsRecordWalks(q, r, k);
    var a := r.path[0];
    AnchorSame(rq, dir, a);
    if v == Far(r.edge, dir) {
      assert ReachesIn(WalkGraph(q), a, v, k);
      assert ReachedFrom(rq, dir, a, v, k);
    } else {
      PrefixJoins(WalkGraph(q), a, Far(r.edge, dir), r.path, k, k - 1);
      assert ReachesIn(WalkGraph(q), a, v, k - 1);
      assert ReachedFrom(rq, dir, a, v, k - 1);
    }
  }

  /** A node at its least distance from an anchor has a row of that depth. */
  lemma DistanceHasRow(rq: Request, dir: Direction, a: string, v: string, k: nat)
    requires Chosen(rq.direction, dir) && Anchor(rq, a)
    requires Distance(WalkGraph(Query(rq, dir)), a, v, k) && 0 < k <= rq.cap
    ensures Mentions(Served(rq), v, k)
  {
    var q := Query(rq, dir);
    var p :| Joins(WalkGraph(q), a, v, p, k);
    ShortestIsSimple(WalkGraph(q), a, v, p, k);
    AnchorSame(rq, dir, a);
    SimpleWalkHasRow(q, a, v, p, k);
    var r :| r in RowsAt(q, k) && r.depth == k && Far(r.edge, q.dir) == v;
    RowInUpTo(q, r, k, rq.cap);
    RowIsServed(rq, dir, r);
  }

  lemma RowIsServed(rq: Request, dir: Direction, r: WalkRow)
    requires Chosen(rq.direction, dir) && r in RowsUpTo(Query(rq, dir), rq.cap)
    ensures Mentions(Served(rq), Far(r.edge, dir), r.depth)
  {
    var out := OutRow(
      GraphEdge(r.edge.upstream, r.edge.downstream, r.edge.edgeType, r.edge.origin, r.edge.confidence), r.depth);
    assert out in Projected(RowsUpTo(Query(rq, dir), rq.cap));
    assert out in Served(rq);
  }

  lemma NearestIsDistance(rq: Request, v: string, d: nat) returns (dir: Direction, a: string)
    requires Nearest(rq, v, d)
    ensures Chosen(rq.direction, dir) && Anchor(rq, a) && Distance(WalkGraph(Query(rq, dir)), a, v, d)
  {
    dir, a :| ReachedFrom(rq, dir, a, v, d);
    forall m: nat | m < d ensures !ReachesIn(WalkGraph(Query(rq, dir)), a, v, m) {
      if ReachesIn(WalkGraph(Query(rq, dir)), a, v, m) {
        assert ReachedFrom(rq, dir, a, v, m);
        assert Reached(rq, v, m);
      }
    }
  }

  lemma NearestHasRow(rq: Request, v: string, d: nat)
    requires Nearest(rq, v, d) && 0 < d <= rq.cap
    ensures Mentions(Served(rq), v, d)
  {
    var dir, a := NearestIsDistance(rq, v, d);
    DistanceHasRow(rq, dir, a, v, d);
  }

  lemma ReachedHasNearest(rq: Request, v: string, n: nat)
    requires Reached(rq, v, n)
    ensures exists m: nat :: m <= n && Nearest(rq, v, m)
    decreases n
  {
    if m: nat :| m < n && Reached(rq, v, m) {
      ReachedHasNearest(rq, v, m);
    } else {
      assert Nearest(rq, v, n);
    }
  }

  lemma ReachedInZero(rq: Request, v: string)
    ensures Reached(rq, v, 0) <==> Anchor(rq, v)
  {
    if Anchor(rq, v) {
      var dir := SomeDirection(rq);
      Trivial(WalkGraph(Query(rq, dir)), v);
      assert ReachedFrom(rq, dir, v, v, 0);
    }
    if Reached(rq, v, 0) {
      var dir, a :| ReachedFrom(rq, dir, a, v, 0);
      ZeroHops(WalkGraph(Query(rq, dir)), a, v);
    }
  }

  // ---- the depths ---------------------------------------------------------------

  lemma RecordedIsNearest(rq: Request, nodes: map<string, nat>, v: string)
    requires WellFormed(rq) && LeastDepths(nodes, Seed(rq), Served(rq))
    requires v in nodes && (rq.granularity == "table" || !Anchor(rq, v))
    ensures nodes[v] <= rq.cap && Nearest(rq, v, nodes[v])
  {
    var d := nodes[v];
    ReachedInZero(rq, v);
    if Mentions(Served(rq), v, d) {
      MentionIsReached(rq, v, d);
      var n := if Reached(rq, v, d - 1) then d - 1 else d;
      ReachedHasNearest(rq, v, n);
    } else {
      assert v == rq.root && d == 0;
      ReachedHasNearest(rq, v, 0);
    }
    var m: nat :| m <= d && Nearest(rq, v, m);
    if 0 < m < d {
      NearestHasRow(rq, v, m);
    }
  }

  lemma NearestUnique(rq: Request, v: string, m: nat, n: nat)
    requires Nearest(rq, v, m) && Nearest(rq, v, n)
    ensures m == n
  {
  }

  lemma NearestIsRecorded(rq: Request, nodes: map<string, nat>, v: string, d: nat)
    requires WellFormed(rq) && LeastDepths(nodes, Seed(rq), Served(rq))
    requires rq.granularity == "table" || !Anchor(rq, v)
    requires Nearest(rq, v, d) && d <= rq.cap
    ensures v in nodes && nodes[v] == d
  {
    ReachedInZero(rq, v);
    if d > 0 {
      NearestHasRow(rq, v, d);
    } else {
      assert v in Seed(rq);
    }
    RecordedIsNearest(rq, nodes, v);
    NearestUnique(rq, v, nodes[v], d);
  }

  /** Main result, table granularity: a node is in the graph with depth d exactly
      when d is its shortest distance from the root within the cap, the lesser of
      the two directions when both are asked; the root has depth 0. */
  lemma DepthsAreShortestDistances(rq: Request, nodes: map<string, nat>, v: string, d: nat)
    requires WellFormed(rq) && rq.granularity == "table"
    requires LeastDepths(nodes, Seed(rq), Served(rq))
    ensures v in nodes && nodes[v] == d <==> d <= rq.cap && Nearest(rq, v, d)
    ensures rq.root in nodes && nodes[rq.root] == 0
  {
    if v in nodes && nodes[v] == d {
      RecordedIsNearest(rq, nodes, v);
    }
    if d <= rq.cap && Nearest(rq, v, d) {
      NearestIsRecorded(rq, nodes, v, d);
    }
  }

  /** Column granularity: the same for every node that is not itself an anchor;
      but nothing is seeded, so no node, the root included, has depth 0. */
  lemma ColumnDepths(rq: Request, nodes: map<string, nat>, v: string, d: nat)
    requires WellFormed(rq) && rq.granularity == "column"
    requires LeastDepths(nodes, Seed(rq), Served(rq))
    ensures !Anchor(rq, v) ==> (v in nodes && nodes[v] == d <==> d <= rq.cap && Nearest(rq, v, d))
    ensures v in nodes ==> nodes[v] > 0
  {
    if v in nodes {
      MentionIsReached(rq, v, nodes[v]);
    }
    if !Anchor(rq, v) && v in nodes && nodes[v] == d {
      RecordedIsNearest(rq, nodes, v);
    }
    if !Anchor(rq, v) && d <= rq.cap && Nearest(rq, v, d) {
      NearestIsRecorded(rq, nodes, v, d);
    }
  }

  // ---- truncation ---------------------------------------------------------------

  lemma DistancePrefix(g: Graph, a: string, v: string, n: nat, k: nat)
    requires Distance(g, a, v, n) && k <= n
    ensures exists u :: Distance(g, a, u, k)
  {
    var p :| Joins(g, a, v, p, n);
    PrefixJoins(g, a, v, p, n, k);
    assert ReachesIn(g, a, p[k], k);
    forall m: nat | m < k ensures !ReachesIn(g, a, p[k], m) {
      if ReachesIn(g, a, p[k], m) {
        Detour(g, a, p[k], v, m, p[k..], n - k);
      }
    }
    assert Distance(g, a, p[k], k);
  }

  lemma Detour(g: Graph, a: string, u: string, v: string, m: nat, tail: seq<string>, n: nat)
    requires ReachesIn(g, a, u, m) && Joins(g, u, v, tail, n)
    ensures ReachesIn(g, a, v, m + n)
  {
    var head :| Joins(g, a, u, head, m);
    var p := head + tail[1..];
    forall i | 0 <= i < |p| - 1 ensures (p[i], p[i + 1]) in g {
      if i < m {
        assert p[i] == head[i] && p[i + 1] == head[i + 1];
      } else {
        assert p[i] == tail[i - m] && p[i + 1] == tail[i - m + 1];
      }
    }
    assert Joins(g, a, v, p, m + n);
  }

  /** A result that is not flagged truncated is the whole reachable graph. */
  lemma UntruncatedIsComplete(rq: Request, nodes: map<string, nat>, v: string, n: nat)
    requires WellFormed(rq) && LeastDepths(nodes, Seed(rq), Served(rq))
    requires !ReachesCap(Served(rq), rq.cap)
    requires Reached(rq, v, n) && (rq.granularity == "table" || !Anchor(rq, v))
    ensures v in nodes
  {
    ReachedHasNearest(rq, v, n);
    var d: nat :| Nearest(rq, v, d);
    if d <= rq.cap {
      NearestIsRecorded(rq, nodes, v, d);
    } else {
      var dir, a := NearestIsDistance(rq, v, d);
      var g := WalkGraph(Query(rq, dir));
      DistancePrefix(g, a, v, d, rq.cap);
      var u :| Distance(g, a, u, rq.cap);
      DistanceHasRow(rq, dir, a, u, rq.cap);
    }
  }

  // ---- agreement with the blast radius --------------------------------------------

  lemma DownstreamIsImpactGraph(rq: Request)
    ensures WalkGraph(Query(rq, Downstream)) == Impact.GraphOf(rq.rows, rq.granularity)
  {
  }

  lemma DownstreamNearest(rq: Request, v: string, d: nat)
    requires rq.granularity == "table" && rq.direction == "downstream"
    ensures Nearest(rq, v, d) <==> Distance(Impact.GraphOf(rq.rows, "table"), rq.root, v, d)
  {
    DownstreamIsImpactGraph(rq);
    var g := Impact.GraphOf(rq.rows, "table");
    forall m: nat ensures Reached(rq, v, m) <==> ReachesIn(g, rq.root, v, m) {
      if ReachesIn(g, rq.root, v, m) {
        assert ReachedFrom(rq, Downstream, rq.root, v, m);
      }
    }
  }

  /** Main result: one enumerates guarded paths, the other marks visited nodes,
      yet a downstream table graph holds the root and exactly the hits Preview
      reports at the same depth, each at the depth of its hops. */
  lemma GraphAgreesWithPreview(rq: Request, nodes: map<string, nat>, severity: string, hits: seq<Impact.Hit>)
    requires WellFormed(rq) && rq.granularity == "table" && rq.direction == "downstream"
    requires LeastDepths(nodes, Seed(rq), Served(rq))
    requires Impact.BlastRadius(Impact.GraphOf(rq.rows, "table"), rq.root, rq.cap, severity, hits)
    ensures nodes.Keys == {rq.root} + set i | 0 <= i < |hits| :: hits[i].fqn
    ensures forall i :: 0 <= i < |hits| ==> hits[i].fqn in nodes && nodes[hits[i].fqn] == hits[i].hops
  {
    var g := Impact.GraphOf(rq.rows, "table");
    forall i | 0 <= i < |hits| ensures hits[i].fqn in nodes && nodes[hits[i].fqn] == hits[i].hops {
      assert Impact.Genuine(g, rq.root, rq.cap, severity, hits[i]);
      DownstreamNearest(rq, hits[i].fqn, hits[i].hops);
      DepthsAreShortestDistances(rq, nodes, hits[i].fqn, hits[i].hops);
    }
    forall v | v in nodes && v != rq.root ensures exists i :: 0 <= i < |hits| && hits[i].fqn == v {
      DepthsAreShortestDistances(rq, nodes, v, nodes[v]);
      DownstreamNearest(rq, v, nodes[v]);
      BallIsReach(g, rq.root, v, rq.cap);
      assert Impact.HasHit(hits, v);
    }
    DepthsAreShortestDistances(rq, nodes, rq.root, 0);
  }

  // ---- the edges, from the stored rows ----------------------------------------------

  /** The stored rows of the granularity as a graph, walked with the edges for
      what is downstream and against them for what is upstream. */
  ghost function StoredGraph(rq: Request, dir: Direction): Graph {
    var g: Graph := set e | e in rq.rows && e.edgeType == rq.granularity :: (e.upstream, e.downstream);
    if dir == Downstream then g else Reversed(g)
  }

  lemma WalkGraphIsStored(rq: Request, dir: Direction)
    ensures WalkGraph(Query(rq, dir)) == StoredGraph(rq, dir)
  {
    var g: Graph := set e | e in rq.rows && e.edgeType == rq.granularity :: (e.upstream, e.downstream);
    if dir == Upstream {
      forall x | x in WalkGraph(Query(rq, dir)) ensures x in Reversed(g) {
        var e :| e in rq.rows && e.edgeType == rq.granularity && x == (e.downstream, e.upstream);
        assert (e.upstream, e.downstream) in g;
      }
    }
  }

  /** p leaves an anchor, takes at most cap steps, repeats no node and ends with e. */
  ghost predicate GuardedWalk(rq: Request, dir: Direction, e: Edge, p: seq<string>, k: nat) {
    0 < k <= rq.cap && |p| == k + 1 && Anchor(rq, p[0]) && Joins(StoredGraph(rq, dir), p[0], p[k], p, k)
    && (if dir == Downstream then (e.upstream, e.downstream) else (e.downstream, e.upstream)) == (p[k - 1], p[k])
    && (k == 1 || NoRepeats(p))
  }

  /** A stored edge of the granularity that such a walk in a requested direction
      ends with. */
  ghost predicate Walked(rq: Request, e: Edge) {
    e in rq.rows && e.edgeType == rq.granularity
    && exists dir, p, k :: Chosen(rq.direction, dir) && GuardedWalk(rq, dir, e, p, k)
  }

  ghost predicate SameEdge(x: GraphEdge, e: Edge) {
    x == GraphEdge(e.upstream, e.downstream, e.edgeType, e.origin, e.confidence)
  }

  lemma SuffixJoins(g: Graph, a: string, b: string, p: seq<string>, k: nat, j: nat)
    requires Joins(g, a, b, p, k) && j <= k
    ensures Joins(g, p[j], b, p[j..], k - j)
  {
  }

  lemma NoRepeatsSuffix(p: seq<string>, j: nat)
    requires 1 <= j <= |p| && NoRepeats(p[1..])
    ensures NoRepeats(p[j..])
  {
    forall x, y | 0 <= x < y < |p[j..]| ensures p[j..][x] != p[j..][y] {
      assert p[1..][j - 1 + x] == p[j..][x] && p[1..][j - 1 + y] == p[j..][y];
    }
  }

  lemma NoRepeatsFront(p: seq<string>)
    requires |p| > 0 && NoRepeats(p[1..]) && p[0] !in p[1..]
    ensures NoRepeats(p)
  {
    forall x, y | 0 <= x < y < |p| ensures p[x] != p[y] {
      assert p[y] == p[1..][y - 1];
      assert x > 0 ==> p[x] == p[1..][x - 1];
    }
  }

  /** A row's edge ends a guarded walk: a path that comes by its start again is
      cut there. */
  lemma RowIsWalked(rq: Request, dir: Direction, r: WalkRow)
    requires Chosen(rq.direction, dir) && r in RowsUpTo(Query(rq, dir), rq.cap)
    ensures Walked(rq, r.edge)
  {
    hide RowsUpTo, RowsAt, StoredGraph, NoRepeats, Anchored;
    var q := Query(rq, dir);
    UpToHasRound(q, r, rq.cap);
    var k: nat :| 0 < k <= rq.cap && r in RowsAt(q, k);
    RowsRecordWalks(q, r, k);
    WalkGraphIsStored(rq, dir);
    var p := r.path;
    AnchorSame(rq, dir, p[0]);
    if k > 1 && p[0] in p[1..] {
      var i :| 0 <= i < k && p[1..][i] == p[0];
      assert p[0] in p[..k];
      SuffixJoins(StoredGraph(rq, dir), p[0], p[k], p, k, i + 1);
      NoRepeatsSuffix(p, i + 1);
      assert GuardedWalk(rq, dir, r.edge, p[i + 1..], k - i - 1);
    } else {
      if k > 1 {
        NoRepeatsFront(p);
      }
      assert GuardedWalk(rq, dir, r.edge, p, k);
    }
  }

  lemma WalkedHasRow(rq: Request, dir: Direction, e: Edge, p: seq<string>, k: nat) returns (r: WalkRow)
    requires e in rq.rows && e.edgeType == rq.granularity && GuardedWalk(rq, dir, e, p, k)
    ensures r in RowsUpTo(Query(rq, dir), rq.cap) && r.edge == e
  {
    hide RowsUpTo, RowsAt, StoredGraph, Anchored;
    var q := Query(rq, dir);
    WalkGraphIsStored(rq, dir);
    AnchorSame(rq, dir, p[0]);
    r := WalkRow(e, k, p);
    if k == 1 {
      assert p == [Near(e, dir), Far(e, dir)];
      BaseHasRow(q, e);
      FirstRound(q);
    } else {
      LastEdgeHasRow(q, p[0], p, k, e);
    }
    RowInUpTo(q, r, k, rq.cap);
  }

  lemma FirstRound(q: WalkQuery)
    ensures RowsAt(q, 1) == BaseRows(q)
  {
  }

  /** Main result: each edge of the graph is a stored one of the granularity, end
      for end, and all its evidence with it; the walk that found it is guarded
      and within the cap. */
  lemma EdgeIsStored(rq: Request, edges: seq<GraphEdge>, i: nat) returns (e: Edge)
    requires EdgesOf(edges, Served(rq)) && i < |edges|
    ensures SameEdge(edges[i], e) && Walked(rq, e)
  {
    hide RowsUpTo, Walked;
    var out := RowOfEdge(edges, Served(rq), i);
    e := ServedIsStored(rq, out);
  }

  lemma ServedIsStored(rq: Request, out: OutRow) returns (e: Edge)
    requires out in Served(rq)
    ensures SameEdge(out.edge, e) && Walked(rq, e)
  {
    hide RowsUpTo, Walked;
    var dir := if Chosen(rq.direction, Downstream) && out in Projected(RowsUpTo(Query(rq, Downstream), rq.cap))
               then Downstream else Upstream;
    var r :| r in RowsUpTo(Query(rq, dir), rq.cap) && SameEdge(out.edge, r.edge);
    RowIsWalked(rq, dir, r);
    e := r.edge;
  }

  /** Main result: which edges the graph has. One for each pair of ends and origin
      that some stored edge has which a guarded walk ends with, and no other. */
  lemma EdgeReturnedIff(rq: Request, edges: seq<GraphEdge>, source: string, target: string, origin: string)
    requires EdgesOf(edges, Served(rq))
    ensures HasEdge(edges, source, target, origin)
       <==> exists e :: Walked(rq, e) && e.upstream == source && e.downstream == target && e.origin == origin
  {
    hide Served, EdgesOf;
    if i :| 0 <= i < |edges| && edges[i].source == source && edges[i].target == target && edges[i].origin == origin {
      var e := EdgeIsStored(rq, edges, i);
    }
    if e :| Walked(rq, e) && e.upstream == source && e.downstream == target && e.origin == origin {
      WalkedIsReturned(rq, edges, e);
    }
  }

  lemma WalkedIsReturned(rq: Request, edges: seq<GraphEdge>, e: Edge)
    requires EdgesOf(edges, Served(rq)) && Walked(rq, e)
    ensures HasEdge(edges, e.upstream, e.downstream, e.origin)
  {
    hide RowsUpTo, GuardedWalk, HasEdge;
    var dir, p, k :| Chosen(rq.direction, dir) && GuardedWalk(rq, dir, e, p, k);
    var r := WalkedHasRow(rq, dir, e, p, k);
    var out := OutRow(GraphEdge(e.upstream, e.downstream, e.edgeType, e.origin, e.confidence), r.depth);
    assert out in Projected(RowsUpTo(Query(rq, dir), rq.cap));
    assert out in Served(rq);
  }

  /** Main result: downstream an edge never skips a level. Both its ends are in
      the graph, the target at most one deeper than the source. */
  lemma EdgeSpansOneLevel(rq: Request, nodes: map<string, nat>, edges: seq<GraphEdge>, i: nat)
    requires WellFormed(rq) && rq.granularity == "table" && rq.direction == "downstream"
    requires LeastDepths(nodes, Seed(rq), Served(rq)) && EdgesOf(edges, Served(rq)) && i < |edges|
    ensures edges[i].source in nodes && edges[i].target in nodes
    ensures nodes[edges[i].target] <= nodes[edges[i].source] + 1
  {
    hide Served, LeastDepths;
    var source, target := edges[i].source, edges[i].target;
    EndsAreNodes(rq, nodes, edges, i);
    var e := EdgeIsStored(rq, edges, i);
    RecordedIsNearest(rq, nodes, source);
    RecordedIsNearest(rq, nodes, target);
    var d := nodes[source];
    var dir, a :| ReachedFrom(rq, dir, a, source, d);
    WalkGraphIsStored(rq, Downstream);
    assert (source, target) in WalkGraph(Query(rq, Downstream));
    ReachesStep(WalkGraph(Query(rq, Downstream)), a, source, target, d);
    assert ReachedFrom(rq, Downstream, a, target, d + 1);
    assert Reached(rq, target, d + 1);
  }

  lemma EndsAreNodes(rq: Request, nodes: map<string, nat>, edges: seq<GraphEdge>, i: nat)
    requires LeastDepths(nodes, Seed(rq), Served(rq)) && EdgesOf(edges, Served(rq)) && i < |edges|
    ensures edges[i].source in nodes && edges[i].target in nodes
  {
    hide Served;
    var out := RowOfEdge(edges, Served(rq), i);
    assert Mentions(Served(rq), edges[i].source, out.depth) && Mentions(Served(rq), edges[i].target, out.depth);
  }

  // ---- the two directions ----------------------------------------------------------------

  lemma NearestIsStored(rq: Request, dir: Direction, v: string, d: nat)
    requires rq.granularity == "table" && rq.direction == (if dir == Downstream then "downstream" else "upstream")
    ensures Nearest(rq, v, d) <==> Distance(StoredGraph(rq, dir), rq.root, v, d)
  {
    hide StoredGraph;
    WalkGraphIsStored(rq, dir);
    forall m: nat ensures Reached(rq, v, m) <==> ReachesIn(StoredGraph(rq, dir), rq.root, v, m) {
      if ReachesIn(StoredGraph(rq, dir), rq.root, v, m) {
        assert ReachedFrom(rq, dir, rq.root, v, m);
      }
    }
  }

  /** Main result: upstream is downstream seen from the other end. v is in the
      upstream graph of r at depth d exactly when r is in the downstream graph of
      v at depth d. */
  lemma DirectionsAreDual(rows: set<Edge>, r: string, v: string, cap: nat, d: nat,
                          above: map<string, nat>, below: map<string, nat>)
    requires var up, down := Request(rows, r, "upstream", "table", cap), Request(rows, v, "downstream", "table", cap);
             cap > 0 && LeastDepths(above, Seed(up), Served(up)) && LeastDepths(below, Seed(down), Served(down))
    ensures v in above && above[v] == d <==> r in below && below[r] == d
  {
    hide Served, LeastDepths, Nearest;
    var up, down := Request(rows, r, "upstream", "table", cap), Request(rows, v, "downstream", "table", cap);
    DepthsAreShortestDistances(up, above, v, d);
    DepthsAreShortestDistances(down, below, r, d);
    NearestIsStored(up, Upstream, v, d);
    NearestIsStored(down, Downstream, r, d);
    DistanceBackwards(StoredGraph(down, Downstream), v, r, d);
  }

  /** Where a column graph starts, of a name without LIKE's own characters: the
      column itself and whatever is behind the name and a dot. */
  lemma ColumnAnchors(rq: Request, v: string)
    requires rq.granularity == "column" && AnchorPattern.Plain(rq.root)
    ensures Anchor(rq, v) <==> v == rq.root || rq.root + "." <= v
  {
    AnchorPattern.PatternMeansPrefix(rq.root);
    assert AnchorPattern.Expands(rq.root, v) <==> AnchorPattern.IsBelow(rq.root, v);
  }

  /** The request behind a call: any granularity but "column" is "table". */
  ghost function Asked(rows: set<Edge>, fqn: string, direction0: string, granularity0: string, depth: nat): Request {
    Request(rows, fqn, direction0, if granularity0 == "column" then "column" else "table", depth)
  }

  ghost predicate Holds(nodes: map<string, nat>, v: string, d: nat) {
    v in nodes && nodes[v] == d
  }

  ghost predicate IsStored(rq: Request, x: GraphEdge) {
    exists e :: SameEdge(x, e) && Walked(rq, e)
  }

  /** Main result: the answer to a request. Depth 5 stands in for a missing one and
      10 for any greater; a table graph holds exactly the nodes within that many
      hops in the requested direction, in both for any other word, at their least
      distances, and every edge is a stored one. */
  lemma AnswerIsExact(rows: set<Edge>, fqn: string, direction0: string, granularity0: string, depth0: int,
                      res: GraphResult)
    requires Answers(rows, fqn, direction0, granularity0, depth0, res)
    ensures res.depth == if depth0 <= 0 then 5 else if depth0 > 10 then 10 else depth0
    ensures var rq := Asked(rows, fqn, direction0, granularity0, res.depth);
            (granularity0 != "column" ==>
               forall v, d: nat :: Holds(res.nodes, v, d) <==> d <= res.depth && Nearest(rq, v, d))
            && (forall i :: 0 <= i < |res.edges| ==> IsStored(rq, res.edges[i]))
            && (res.truncated ==> exists v :: Reached(rq, v, res.depth))
  {
    hide LeastDepths, EdgesOf, EdgesOnce, ReachesCap, RowsFor, Nearest, Walked;
    var rq := Asked(rows, fqn, direction0, granularity0, res.depth);
    if granularity0 != "column" {
      forall v, d: nat ensures Holds(res.nodes, v, d) <==> d <= res.depth && Nearest(rq, v, d) {
        DepthsAreShortestDistances(rq, res.nodes, v, d);
      }
    }
    forall i | 0 <= i < |res.edges| ensures IsStored(rq, res.edges[i]) {
      var e := EdgeIsStored(rq, res.edges, i);
    }
    if res.truncated {
      TruncatedIsDeep(rq);
    }
  }

  /** The flag is raised only when some walk is as long as the cap. */
  lemma TruncatedIsDeep(rq: Request)
    requires ReachesCap(Served(rq), rq.cap)
    ensures exists v :: Reached(rq, v, rq.cap)
  {
    hide RowsUpTo, RowsAt;
    var out :| out in Served(rq) && out.depth >= rq.cap;
    var dir := if Chosen(rq.direction, Downstream) && out in Projected(RowsUpTo(Query(rq, Downstream), rq.cap))
               then Downstream else Upstream;
    var q := Query(rq, dir);
    var r :| r in RowsUpTo(q, rq.cap) && r.depth == out.depth;
    UpToHasRound(q, r, rq.cap);
    var k: nat :| 0 < k <= rq.cap && r in RowsAt(q, k);
    RowsRecordWalks(q, r, k);
    AnchorSame(rq, dir, r.path[0]);
    assert ReachesIn(WalkGraph(q), r.path[0], Far(r.edge, dir), k);
    assert ReachedFrom(rq, dir, r.path[0], Far(r.edge, dir), k);
    assert k == rq.cap && Reached(rq, Far(r.edge, dir), rq.cap);
  }
}
