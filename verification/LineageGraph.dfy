/** internal/lineage/graph.go: the recursive walks over lineage_edge and the
    graph built from their rows. */
module LineageGraph {
  import opened SqlAst
  import opened Paths
  import ColumnLineage

  type Edge = ColumnLineage.Edge

  const DEFAULT_GRAPH_DEPTH: nat := 5
  const MAX_GRAPH_DEPTH: nat := 10

  /** The two SQL statements differ only in which end of an edge they join on. */
  datatype Direction = Downstream | Upstream

  function Near(e: Edge, dir: Direction): string {
    if dir.Downstream? then e.upstream else e.downstream
  }

  function Far(e: Edge, dir: Direction): string {
    if dir.Downstream? then e.downstream else e.upstream
  }

  /** The bound parameters of one statement; rows are the tenant's edges. */
  datatype WalkQuery = WalkQuery(
    rows: set<Edge>, root: string, granularity: string, like: string, cap: nat, dir: Direction)

  datatype WalkRow = WalkRow(edge: Edge, depth: nat, path: seq<string>)

  /** SQL LIKE with the default escape character. */
  predicate Like(s: string, pattern: string)
    decreases |pattern|, |s|
  {
    if pattern == "" then s == ""
    else if pattern[0] == '%' then Like(s, pattern[1..]) || (s != "" && Like(s[1..], pattern))
    else if pattern[0] == '_' then s != "" && Like(s[1..], pattern[1..])
    else if pattern[0] == '\\' && |pattern| > 1 then
      s != "" && s[0] == pattern[1] && Like(s[1..], pattern[2..])
    else s != "" && s[0] == pattern[0] && Like(s[1..], pattern[1..])
  }

  predicate Anchored(q: WalkQuery, v: string) {
    v == q.root || (q.like != "" && Like(v, q.like))
  }

  function BaseRows(q: WalkQuery): set<WalkRow> {
    set e | e in q.rows && e.edgeType == q.granularity && Anchored(q, Near(e, q.dir)) ::
      WalkRow(e, 1, [Near(e, q.dir), Far(e, q.dir)])
  }

  /** The recursive term applied to the rows of the previous round. */
  function NextRows(q: WalkQuery, working: set<WalkRow>): set<WalkRow> {
    set w, e | w in working && e in q.rows && Extends(q, w, e) ::
      WalkRow(e, w.depth + 1, w.path + [Far(e, q.dir)])
  }

  predicate Extends(q: WalkQuery, w: WalkRow, e: Edge) {
    Near(e, q.dir) == Far(w.edge, q.dir) && e.edgeType == q.granularity
    && w.depth < q.cap && Far(e, q.dir) !in w.path
  }

  ghost function RowsAt(q: WalkQuery, k: nat): set<WalkRow>
    requires k > 0
  {
    if k == 1 then BaseRows(q) else NextRows(q, RowsAt(q, k - 1))
  }

  ghost function RowsUpTo(q: WalkQuery, k: nat): set<WalkRow> {
    if k == 0 then {} else RowsUpTo(q, k - 1) + RowsAt(q, k)
  }

  /** The graph a statement walks. */
  ghost function WalkGraph(q: WalkQuery): Graph {
    set e | e in q.rows && e.edgeType == q.granularity :: (Near(e, q.dir), Far(e, q.dir))
  }

  // ---- what the rows are ------------------------------------------------------

  /** A row at depth k records a k-hop walk from an anchor along its path, which
      repeats no node after the first. */
  ghost predicate RecordsWalk(q: WalkQuery, r: WalkRow, k: nat) {
    r.depth == k && k > 0 && r.edge in q.rows
    && |r.path| == k + 1 && Anchored(q, r.path[0])
    && Joins(WalkGraph(q), r.path[0], Far(r.edge, q.dir), r.path, k)
    && r.path[k - 1] == Near(r.edge, q.dir)
    && NoRepeats(r.path[1..]) && r.edge.edgeType == q.granularity
    && (k > 1 ==> Far(r.edge, q.dir) !in r.path[..k])
  }

  lemma BaseRecordsWalk(q: WalkQuery, r: WalkRow)
    requires r in BaseRows(q)
    ensures RecordsWalk(q, r, 1)
  {
    var e :| e in q.rows && e.edgeType == q.granularity && Anchored(q, Near(e, q.dir))
             && r == WalkRow(e, 1, [Near(e, q.dir), Far(e, q.dir)]);
    assert (Near(e, q.dir), Far(e, q.dir)) in WalkGraph(q);
  }

  lemma NextRecordsWalk(q: WalkQuery, w: WalkRow, e: Edge, k: nat)
    requires RecordsWalk(q, w, k) && e in q.rows && Extends(q, w, e)
    ensures RecordsWalk(q, WalkRow(e, k + 1, w.path + [Far(e, q.dir)]), k + 1)
  {
    var p := w.path + [Far(e, q.dir)];
    assert (Near(e, q.dir), Far(e, q.dir)) in WalkGraph(q);
    assert p[1..] == w.path[1..] + [Far(e, q.dir)];
    assert p[..k + 1] == w.path;
  }

  lemma RowsRecordWalks(q: WalkQuery, r: WalkRow, k: nat)
    requires k > 0 && r in RowsAt(q, k)
    ensures RecordsWalk(q, r, k) && (k > 1 ==> k <= q.cap)
    decreases k
  {
    if k == 1 {
      BaseRecordsWalk(q, r);
    } else {
      var w, e :| w in RowsAt(q, k - 1) && e in q.rows && Extends(q, w, e)
                  && r == WalkRow(e, w.depth + 1, w.path + [Far(e, q.dir)]);
      RowsRecordWalks(q, w, k - 1);
      NextRecordsWalk(q, w, e, k - 1);
    }
  }

  /** Every walk that repeats no node, within the cap, has its row. */
  lemma SimpleWalkHasRow(q: WalkQuery, a: string, v: string, p: seq<string>, k: nat)
    requires Joins(WalkGraph(q), a, v, p, k) && NoRepeats(p) && Anchored(q, a) && 0 < k <= q.cap
    ensures exists r :: r in RowsAt(q, k) && r.path == p && r.depth == k && Far(r.edge, q.dir) == v
    decreases k, 1
  {
    hide RowsAt, Anchored;
    assert (p[k - 1], p[k]) in WalkGraph(q);
    var e :| e in q.rows && e.edgeType == q.granularity && (Near(e, q.dir), Far(e, q.dir)) == (p[k - 1], p[k]);
    LastEdgeHasRow(q, a, p, k, e);
    assert WalkRow(e, k, p) in RowsAt(q, k);
  }

  /** Of parallel edges at its end each has one. */
  lemma LastEdgeHasRow(q: WalkQuery, a: string, p: seq<string>, k: nat, e: Edge)
    requires 0 < k <= q.cap && Joins(WalkGraph(q), a, Far(e, q.dir), p, k) && NoRepeats(p) && Anchored(q, a)
    requires e in q.rows && e.edgeType == q.granularity && Near(e, q.dir) == p[k - 1]
    ensures WalkRow(e, k, p) in RowsAt(q, k)
    decreases k, 0
  {
    hide NextRows, BaseRows, Anchored;
    if k == 1 {
      assert p == [Near(e, q.dir), Far(e, q.dir)];
      BaseHasRow(q, e);
    } else {
      PrefixJoins(WalkGraph(q), a, Far(e, q.dir), p, k, k - 1);
      SimpleWalkHasRow(q, a, p[k - 1], p[..k], k - 1);
      var w :| w in RowsAt(q, k - 1) && w.path == p[..k] && w.depth == k - 1 && Far(w.edge, q.dir) == p[k - 1];
      assert p == p[..k] + [Far(e, q.dir)];
      assert Far(e, q.dir) !in p[..k];
      NextHasRow(q, RowsAt(q, k - 1), w, e);
    }
  }

  lemma BaseHasRow(q: WalkQuery, e: Edge)
    requires e in q.rows && e.edgeType == q.granularity && Anchored(q, Near(e, q.dir))
    ensures WalkRow(e, 1, [Near(e, q.dir), Far(e, q.dir)]) in BaseRows(q)
  {
  }

  lemma NextHasRow(q: WalkQuery, working: set<WalkRow>, w: WalkRow, e: Edge)
    requires w in working && e in q.rows && Extends(q, w, e)
    ensures WalkRow(e, w.depth + 1, w.path + [Far(e, q.dir)]) in NextRows(q, working)
  {
  }

  lemma RowInUpTo(q: WalkQuery, r: WalkRow, k: nat, n: nat)
    requires 0 < k <= n && r in RowsAt(q, k)
    ensures r in RowsUpTo(q, n)
    decreases n
  {
    if k < n {
      RowInUpTo(q, r, k, n - 1);
    }
  }

  lemma UpToHasRound(q: WalkQuery, r: WalkRow, n: nat)
    requires r in RowsUpTo(q, n)
    ensures exists k: nat :: 0 < k <= n && r in RowsAt(q, k)
    decreases n
  {
    if r !in RowsAt(q, n) {
      UpToHasRound(q, r, n - 1);
    }
  }

  // ---- evaluation -------------------------------------------------------------

  lemma EmptyRoundsStayEmpty(q: WalkQuery, k: nat, n: nat)
    requires 0 < k <= n && RowsAt(q, k) == {}
    ensures RowsAt(q, n) == {}
    decreases n
  {
    if k < n {
      EmptyRoundsStayEmpty(q, k, n - 1);
    }
  }

  lemma RowsUpToStops(q: WalkQuery, k: nat, n: nat)
    requires 0 < k <= n + 1 && RowsAt(q, k) == {}
    ensures RowsUpTo(q, n) == RowsUpTo(q, k - 1)
    decreases n
  {
    if k <= n {
      RowsUpToStops(q, k, n - 1);
      EmptyRoundsStayEmpty(q, k, n);
      PlusEmpty(RowsUpTo(q, n - 1));
      assert RowsUpTo(q, n) == RowsUpTo(q, n - 1) + RowsAt(q, n);
    }
  }

  lemma PlusEmpty<T>(s: set<T>)
    ensures s + {} == s
  {
  }

  lemma NothingPastCap(q: WalkQuery, k: nat)
    requires k > q.cap && k > 1
    ensures RowsAt(q, k) == {}
  {
    if r :| r in RowsAt(q, k) {
      RowsRecordWalks(q, r, k);
    }
  }

  /** WITH RECURSIVE as Postgres runs it: feed each round's rows back in until a
      round adds none. It stops on every graph, cyclic or not. */
  method Evaluate(q: WalkQuery) returns (all: set<WalkRow>)
    requires q.cap > 0
    ensures all == RowsUpTo(q, q.cap)
  {
    var working := BaseRows(q);
    all := working;
    ghost var k := 1;
    assert RowsUpTo(q, 1) == RowsUpTo(q, 0) + RowsAt(q, 1);
    while working != {}
      invariant k > 0 && working == RowsAt(q, k) && all == RowsUpTo(q, k)
      invariant k <= q.cap + 1 && (working != {} ==> k <= q.cap)
      decreases q.cap + 1 - k
    {
      working := NextRows(q, working);
      all := all + working;
      k := k + 1;
      if working != {} && k > q.cap {
        NothingPastCap(q, k);
      }
    }
    RowsUpToStops(q, k, q.cap);
    RowsUpToStops(q, k, k);
  }

  lemma DistinctFit(p: seq<string>, nodes: set<string>)
    requires NoRepeats(p) && Elements(p) <= nodes
    ensures |p| <= |nodes|
  {
    if |p| > 0 {
      var last := p[|p| - 1];
      var rest := p[..|p| - 1];
      forall v | v in Elements(rest) ensures v in nodes - {last} {
        assert v in Elements(p);
        var i :| 0 <= i < |rest| && rest[i] == v;
        assert p[i] == v;
      }
      assert last in Elements(p);
      DistinctFit(rest, nodes - {last});
    }
  }

  ghost function Nodes(g: Graph): set<string> {
    (set e | e in g :: e.0) + (set e | e in g :: e.1)
  }

  /** The path guard alone bounds the walk: whatever the cap, no row is deeper
      than the number of nodes. */
  lemma GuardBoundsDepth(q: WalkQuery, r: WalkRow, k: nat)
    requires k > 0 && r in RowsAt(q, k)
    ensures k <= |Nodes(WalkGraph(q))|
  {
    RowsRecordWalks(q, r, k);
    var g := WalkGraph(q);
    forall v | v in Elements(r.path[1..]) ensures v in Nodes(g) {
      var i :| 0 <= i < k && r.path[1..][i] == v;
      assert (r.path[i], r.path[i + 1]) in g;
    }
    DistinctFit(r.path[1..], Nodes(g));
  }

  // ---- building the graph -----------------------------------------------------

  datatype GraphEdge = GraphEdge(
    source: string, target: string, edgeType: string, origin: string, confidence: string)

  /** SELECT DISTINCT upstream, downstream, type, origin, confidence, depth. */
  datatype OutRow = OutRow(edge: GraphEdge, depth: nat)

  function Projected(rows: set<WalkRow>): set<OutRow> {
    set r | r in rows :: OutRow(
      GraphEdge(r.edge.upstream, r.edge.downstream, r.edge.edgeType, r.edge.origin, r.edge.confidence), r.depth)
  }

  ghost predicate Mentions(rows: set<OutRow>, v: string, d: nat) {
    exists r :: r in rows && r.depth == d && (r.edge.source == v || r.edge.target == v)
  }

  /** depths holds the least depth any row, or the seed, gives each node. */
  ghost predicate LeastDepths(depths: map<string, nat>, seed: map<string, nat>, rows: set<OutRow>) {
    (forall v :: v in depths ==> (v in seed && depths[v] == seed[v]) || Mentions(rows, v, depths[v]))
    && (forall v :: v in seed ==> v in depths && depths[v] <= seed[v])
    && (forall v, d: nat :: Mentions(rows, v, d) ==> v in depths && depths[v] <= d)
  }

  function RecordNodeDepth(m: map<string, nat>, fqn: string, d: nat): map<string, nat> {
    if fqn !in m || d < m[fqn] then m[fqn := d] else m
  }

  lemma RecordRow(depths: map<string, nat>, seed: map<string, nat>, rows: set<OutRow>, r: OutRow)
    requires LeastDepths(depths, seed, rows)
    ensures LeastDepths(
              RecordNodeDepth(RecordNodeDepth(depths, r.edge.source, r.depth), r.edge.target, r.depth),
              seed, rows + {r})
  {
    var more := rows + {r};
    var after := RecordNodeDepth(RecordNodeDepth(depths, r.edge.source, r.depth), r.edge.target, r.depth);
    assert Mentions(more, r.edge.source, r.depth) && Mentions(more, r.edge.target, r.depth) by {
      assert r in more;
    }
    forall v | v in after ensures (v in seed && after[v] == seed[v]) || Mentions(more, v, after[v]) {
      if v in depths && after[v] == depths[v] && Mentions(rows, v, depths[v]) {
        var x :| x in rows && x.depth == depths[v] && (x.edge.source == v || x.edge.target == v);
        assert x in more;
      }
    }
    forall v, d: nat | Mentions(more, v, d) ensures v in after && after[v] <= d {
      var x :| x in more && x.depth == d && (x.edge.source == v || x.edge.target == v);
      if x in rows {
        assert Mentions(rows, v, d);
      }
    }
  }

  /** One edge per (source, target, origin). */
  ghost predicate EdgesOnce(edges: seq<GraphEdge>) {
    forall i, j :: 0 <= i < j < |edges| ==>
      (edges[i].source, edges[i].target, edges[i].origin) != (edges[j].source, edges[j].target, edges[j].origin)
  }

  ghost predicate EdgesOf(edges: seq<GraphEdge>, rows: set<OutRow>) {
    (forall i :: 0 <= i < |edges| ==> exists r :: r in rows && r.edge == edges[i])
    && (forall r :: r in rows ==> HasEdge(edges, r.edge.source, r.edge.target, r.edge.origin))
  }

  lemma RowOfEdge(edges: seq<GraphEdge>, rows: set<OutRow>, i: nat) returns (out: OutRow)
    requires EdgesOf(edges, rows) && i < |edges|
    ensures out in rows && out.edge == edges[i]
  {
    var x := edges[i];
    out :| out in rows && out.edge == x;
  }

  ghost predicate HasEdge(edges: seq<GraphEdge>, source: string, target: string, origin: string) {
    exists i :: 0 <= i < |edges| && edges[i].source == source && edges[i].target == target && edges[i].origin == origin
  }

  ghost predicate ReachesCap(rows: set<OutRow>, cap: nat) {
    exists r :: r in rows && r.depth >= cap
  }

  lemma ReachesCapStep(rows: set<OutRow>, r: OutRow, cap: nat)
    ensures ReachesCap(rows + {r}, cap) <==> ReachesCap(rows, cap) || r.depth >= cap
  {
    assert r in rows + {r};
    if x :| x in rows && x.depth >= cap {
      assert x in rows + {r};
    }
  }

  /** The variables the row loop of Graph updates. */
  class GraphBuilder {
    var nodeDepth: map<string, nat>
    var edgeSeen: set<(string, string, string)>
    var edges: seq<GraphEdge>
    var truncated: bool
    ghost var seed: map<string, nat>
    ghost var scanned: set<OutRow>
    ghost var cap: nat

    ghost predicate Valid()
      reads this
    {
      LeastDepths(nodeDepth, seed, scanned)
      && EdgesValid(scanned)
      && (truncated <==> ReachesCap(scanned, cap))
    }

    constructor (seed: map<string, nat>, ghost cap: nat)
      ensures Valid() && this.seed == seed && this.cap == cap && scanned == {}
    {
      this.seed, this.cap, scanned := seed, cap, {};
      nodeDepth, edgeSeen, edges, truncated := seed, {}, [], false;
    }

    method Scan(r: OutRow, depth: nat)
      requires Valid() && depth == cap
      modifies this
      ensures Valid() && seed == old(seed) && cap == old(cap) && scanned == old(scanned) + {r}
    {
      ReachesCapStep(scanned, r, cap);
      if r.depth >= depth {
        truncated := true;
      }
      AddEdge(r);
      AddDepths(r);
      scanned := scanned + {r};
    }

    method AddDepths(r: OutRow)
      requires LeastDepths(nodeDepth, seed, scanned)
      modifies this`nodeDepth
      ensures LeastDepths(nodeDepth, seed, scanned + {r})
    {
      RecordRow(nodeDepth, seed, scanned, r);
      nodeDepth := RecordNodeDepth(nodeDepth, r.edge.source, r.depth);
      nodeDepth := RecordNodeDepth(nodeDepth, r.edge.target, r.depth);
    }

    ghost predicate EdgesValid(rows: set<OutRow>)
      reads this
    {
      EdgesOnce(edges) && EdgesOf(edges, rows)
      && forall s, t, o :: (s, t, o) in edgeSeen <==> HasEdge(edges, s, t, o)
    }

    method AddEdge(r: OutRow)
      requires EdgesValid(scanned)
      modifies this`edgeSeen, this`edges
      ensures EdgesValid(scanned + {r})
    {
      var key := (r.edge.source, r.edge.target, r.edge.origin);
      ghost var before := edges;
      if key !in edgeSeen {
        edgeSeen := edgeSeen + {key};
        edges := edges + [r.edge];
      }
      EdgeAdded(before, edges, scanned, r);
    }

    /** rows.Next() serves the result set in any order. */
    method Run(rows: set<OutRow>, depth: nat)
      requires Valid() && depth == cap
      modifies this
      ensures Valid() && seed == old(seed) && cap == old(cap) && scanned == old(scanned) + rows
    {
      var todo := rows;
      while todo != {}
        invariant Valid() && seed == old(seed) && cap == old(cap) && depth == cap
        invariant todo <= rows && scanned == old(scanned) + (rows - todo)
      {
        var r :| r in todo;
        Scan(r, depth);
        assert rows - (todo - {r}) == (rows - todo) + {r};
        todo := todo - {r};
      }
    }
  }

  lemma EdgeAdded(before: seq<GraphEdge>, after: seq<GraphEdge>, rows: set<OutRow>, r: OutRow)
    requires EdgesOnce(before) && EdgesOf(before, rows)
    requires after == if HasEdge(before, r.edge.source, r.edge.target, r.edge.origin) then before else before + [r.edge]
    ensures EdgesOnce(after) && EdgesOf(after, rows + {r})
    ensures forall s, t, o :: HasEdge(after, s, t, o)
              <==> HasEdge(before, s, t, o) || (s, t, o) == (r.edge.source, r.edge.target, r.edge.origin)
  {
    var more := rows + {r};
    assert r in more;
    forall s, t, o | HasEdge(before, s, t, o) ensures HasEdge(after, s, t, o) {
      var i :| 0 <= i < |before| && before[i].source == s && before[i].target == t && before[i].origin == o;
      assert after[i] == before[i];
    }
    if after != before {
      assert after[|before|] == r.edge;
      assert HasEdge(after, r.edge.source, r.edge.target, r.edge.origin);
    }
    forall i | 0 <= i < |after| ensures exists x :: x in more && x.edge == after[i] {
      if i < |before| {
        var x :| x in rows && x.edge == before[i];
        assert x in more;
      }
    }
  }

  function ClampDepth(depth: int): (d: nat)
    ensures 1 <= d <= MAX_GRAPH_DEPTH
  {
    if depth <= 0 then DEFAULT_GRAPH_DEPTH
    else if depth > MAX_GRAPH_DEPTH then MAX_GRAPH_DEPTH
    else depth
  }

  datatype GraphResult = GraphResult(
    depth: nat, truncated: bool, nodes: map<string, nat>, edges: seq<GraphEdge>)

  ghost function QueryFor(rows: set<Edge>, root: string, granularity: string, cap: nat, dir: Direction): WalkQuery {
    WalkQuery(rows, root, granularity, if granularity == "column" then root + ".%" else "", cap, dir)
  }

  /** The rows both statements return for a request. */
  ghost function RowsFor(rows: set<Edge>, root: string, direction: string, granularity: string, cap: nat): set<OutRow> {
    (if direction == "upstream" then {}
     else Projected(RowsUpTo(QueryFor(rows, root, granularity, cap, Downstream), cap)))
    + (if direction == "downstream" then {}
       else Projected(RowsUpTo(QueryFor(rows, root, granularity, cap, Upstream), cap)))
  }

  /** The graph a request is answered with. */
  ghost predicate Answers(rows: set<Edge>, fqn: string, direction0: string, granularity0: string, depth0: int,
                          res: GraphResult) {
    var cap := ClampDepth(depth0);
    var gran := if granularity0 == "column" then "column" else "table";
    var served := RowsFor(rows, fqn, direction0, gran, cap);
    res.depth == cap
    && LeastDepths(res.nodes, if gran == "table" then map[fqn := 0] else map[], served)
    && EdgesOnce(res.edges) && EdgesOf(res.edges, served)
    && (res.truncated <==> ReachesCap(served, cap))
  }

  method Graph(rows: set<Edge>, fqn: string, direction0: string, granularity0: string, depth0: int)
      returns (res: GraphResult)
    ensures Answers(rows, fqn, direction0, granularity0, depth0, res)
  {
    var depth := ClampDepth(depth0);
    var granularity := if granularity0 == "column" then "column" else "table";
    var direction := direction0;
    if direction != "upstream" && direction != "downstream" && direction != "both" {
      direction := "both";
    }
    var anchorLike := "";
    if granularity == "column" {
      anchorLike := fqn + ".%";
    }
    var seed: map<string, nat> := map[];
    if anchorLike == "" {
      seed := seed[fqn := 0];
    }
    var b := new GraphBuilder(seed, depth);
    ghost var down, up: set<OutRow> := {}, {};
    if direction == "downstream" || direction == "both" {
      var all := Evaluate(WalkQuery(rows, fqn, granularity, anchorLike, depth, Downstream));
      down := Projected(all);
      b.Run(Projected(all), depth);
    }
    assert b.scanned == down;
    if direction == "upstream" || direction == "both" {
      var all := Evaluate(WalkQuery(rows, fqn, granularity, anchorLike, depth, Upstream));
      up := Projected(all);
      b.Run(Projected(all), depth);
    }
    assert b.scanned == down + up;
    assert down + up == RowsFor(rows, fqn, direction0, granularity, depth);
    res := GraphResult(depth, b.truncated, b.nodeDepth, b.edges);
  }
}
