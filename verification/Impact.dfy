/** internal/impact/impact.go: the bounded breadth-first blast radius. */
module Impact {
  import opened SqlAst
  import opened Paths
  import ColumnLineage

  type Edge = ColumnLineage.Edge

  datatype Change = Change(kind: string, fqn: string)
  datatype Hit = Hit(fqn: string, hops: nat, why: string, severity: string)

  const ARROW := " \U{2192} "
  const BREAKING := "breaking"
  const WARNING := "warning"

  /** The kinds of change that concern one column, and those that break what
      depends on the changed thing. */
  ghost const COLUMN_KINDS := {"drop_column", "rename_column", "type_change"}
  ghost const BREAKING_KINDS := {"drop_column", "rename_column", "type_change", "drop_table", "rename_table"}

  function GranularityForKind(kind: string): string {
    if kind == "drop_column" || kind == "rename_column" || kind == "type_change" then "column" else "table"
  }

  function SeverityForKind(kind: string): string {
    if kind == "drop_column" || kind == "drop_table" || kind == "rename_column"
       || kind == "rename_table" || kind == "type_change"
    then BREAKING else WARNING
  }

  /** The tenant's lineage_edge rows and the store that serves them, which
      answers a query in any order or fails (None). */
  datatype Store = Store(ghost rows: set<Edge>, downstream: string -> Option<seq<Edge>>)

  ghost predicate Serves(st: Store) {
    forall fqn :: st.downstream(fqn).Some? ==>
      forall e :: e in st.downstream(fqn).value <==> e in st.rows && e.upstream == fqn
  }

  /** The edges of one granularity as a graph. */
  ghost function GraphOf(rows: set<Edge>, granularity: string): Graph {
    set e | e in rows && e.edgeType == granularity :: (e.upstream, e.downstream)
  }

  /** `why` names an edge into the hit from a node one hop nearer the root. */
  ghost predicate Explained(g: Graph, root: string, h: Hit) {
    h.hops > 0 && exists u :: (u, h.fqn) in g && Distance(g, root, u, h.hops - 1) && h.why == u + ARROW + h.fqn
  }

  ghost predicate Genuine(g: Graph, root: string, depth: nat, severity: string, h: Hit) {
    Distance(g, root, h.fqn, h.hops) && 0 < h.hops <= depth && h.severity == severity && Explained(g, root, h)
  }

  /** hits are exactly the nodes other than root within depth hops, each once,
      with its shortest distance, nearest first. */
  ghost predicate BlastRadius(g: Graph, root: string, depth: nat, severity: string, hits: seq<Hit>) {
    (forall i :: 0 <= i < |hits| ==> Genuine(g, root, depth, severity, hits[i]))
    && (forall i, j :: 0 <= i < j < |hits| ==> hits[i].fqn != hits[j].fqn && hits[i].hops <= hits[j].hops)
    && (forall v :: v != root && v in Ball(g, root, depth) ==> HasHit(hits, v))
  }

  ghost predicate HasHit(hits: seq<Hit>, v: string) {
    exists i :: 0 <= i < |hits| && hits[i].fqn == v
  }

  // ---- one level --------------------------------------------------------------

  ghost function Targets(edges: seq<Edge>, granularity: string): set<string> {
    set e | e in edges && e.edgeType == granularity :: e.downstream
  }

  lemma TargetsStep(edges: seq<Edge>, granularity: string, j: nat)
    requires j < |edges|
    ensures Targets(edges[..j + 1], granularity)
         == Targets(edges[..j], granularity)
            + if edges[j].edgeType == granularity then {edges[j].downstream} else {}
  {
    assert edges[..j + 1] == edges[..j] + [edges[j]];
  }

  lemma TargetsAreSuccessors(st: Store, granularity: string, fqn: string)
    requires Serves(st) && st.downstream(fqn).Some?
    ensures Targets(st.downstream(fqn).value, granularity) == Succ(GraphOf(st.rows, granularity), {fqn})
  {
    var g, edges := GraphOf(st.rows, granularity), st.downstream(fqn).value;
    forall v | v in Targets(edges, granularity) ensures v in Succ(g, {fqn}) {
      var e :| e in edges && e.edgeType == granularity && e.downstream == v;
      assert (fqn, v) in g;
    }
    forall v | v in Succ(g, {fqn}) ensures v in Targets(edges, granularity) {
      assert (fqn, v) in g;
      var e :| e in st.rows && e.edgeType == granularity && (e.upstream, e.downstream) == (fqn, v);
      assert e in edges;
    }
  }

  /** What one level adds: a hit for each new target, in the order found. */
  ghost predicate LevelHits(next: seq<string>, hits: seq<Hit>, g: Graph, level: set<string>,
                            depth: nat, severity: string) {
    |hits| == |next|
    && forall k :: 0 <= k < |next| ==>
         hits[k].fqn == next[k] && hits[k].hops == depth + 1 && hits[k].severity == severity
         && exists u :: u in level && (u, next[k]) in g && hits[k].why == u + ARROW + next[k]
  }

  lemma LevelHitsAppend(next: seq<string>, hits: seq<Hit>, g: Graph, level: set<string>, depth: nat, severity: string,
                        u: string, v: string)
    requires LevelHits(next, hits, g, level, depth, severity) && u in level && (u, v) in g
    ensures LevelHits(next + [v], hits + [Hit(v, depth + 1, u + ARROW + v, severity)], g, level, depth, severity)
  {
  }

  /** The inner loop over one node's edges. */
  method FollowEdges(edges: seq<Edge>, granularity: string, severity: string, fqn: string, depth: nat,
                     seen0: map<string, nat>, next0: seq<string>, hits0: seq<Hit>,
                     ghost g: Graph, ghost level: set<string>)
      returns (seen: map<string, nat>, next: seq<string>, hits: seq<Hit>)
    requires Targets(edges, granularity) <= Succ(g, {fqn}) && fqn in level
    requires LevelHits(next0, hits0, g, level, depth, severity) && NoRepeats(next0)
    requires Elements(next0) <= seen0.Keys
    ensures seen.Keys == seen0.Keys + Targets(edges, granularity)
    ensures Elements(next) == Elements(next0) + (Targets(edges, granularity) - seen0.Keys)
    ensures LevelHits(next, hits, g, level, depth, severity) && NoRepeats(next)
  {
    seen, next, hits := seen0, next0, hits0;
    for j := 0 to |edges|
      invariant seen.Keys == seen0.Keys + Targets(edges[..j], granularity)
      invariant Elements(next) == Elements(next0) + (Targets(edges[..j], granularity) - seen0.Keys)
      invariant LevelHits(next, hits, g, level, depth, severity) && NoRepeats(next)
    {
      var e := edges[j];
      TargetsStep(edges, granularity, j);
      if e.edgeType == granularity {
        if e.downstream !in seen {
          assert e.downstream in Targets(edges, granularity);
          assert (fqn, e.downstream) in g;
          LevelHitsAppend(next, hits, g, level, depth, severity, fqn, e.downstream);
          seen := seen[e.downstream := depth + 1];
          hits := hits + [Hit(e.downstream, depth + 1, fqn + ARROW + e.downstream, severity)];
          AppendNew(next, e.downstream);
          next := next + [e.downstream];
        }
      }
    }
    assert edges[..|edges|] == edges;
  }

  /** The loop over the queue: one breadth-first level. */
  method ExpandLevel(st: Store, granularity: string, severity: string, queue: seq<string>, depth: nat,
                     seen0: map<string, nat>)
      returns (ok: bool, seen: map<string, nat>, next: seq<string>, hits: seq<Hit>)
    requires Serves(st)
    ensures !ok ==> exists fqn :: fqn in queue && st.downstream(fqn).None?
    ensures ok ==>
      var g := GraphOf(st.rows, granularity);
      var level := Elements(queue);
      seen.Keys == seen0.Keys + Succ(g, level)
      && Elements(next) == Succ(g, level) - seen0.Keys
      && LevelHits(next, hits, g, level, depth, severity) && NoRepeats(next)
  {
    ghost var g := GraphOf(st.rows, granularity);
    ghost var level := Elements(queue);
    seen, next, hits := seen0, [], [];
    for i := 0 to |queue|
      invariant seen.Keys == seen0.Keys + Succ(g, Elements(queue[..i]))
      invariant Elements(next) == Succ(g, Elements(queue[..i])) - seen0.Keys
      invariant LevelHits(next, hits, g, level, depth, severity) && NoRepeats(next)
    {
      var edges := st.downstream(queue[i]);
      if edges.None? {
        return false, seen, next, hits;
      }
      TargetsAreSuccessors(st, granularity, queue[i]);
      assert Elements(queue[..i + 1]) == Elements(queue[..i]) + {queue[i]};
      seen, next, hits := FollowEdges(edges.value, granularity, severity, queue[i], depth, seen, next, hits, g, level);
      SuccUnion(g, Elements(queue[..i]), {queue[i]});
    }
    assert queue[..|queue|] == queue;
    ok := true;
  }

  lemma SuccUnion(g: Graph, s: set<string>, t: set<string>)
    ensures Succ(g, s + t) == Succ(g, s) + Succ(g, t)
  {
  }

  // ---- all levels -------------------------------------------------------------

  ghost function Sphere(g: Graph, root: string, n: nat): set<string> {
    if n == 0 then {root} else Ball(g, root, n) - Ball(g, root, n - 1)
  }

  lemma NextBall(g: Graph, root: string, n: nat)
    ensures Ball(g, root, n + 1) == Ball(g, root, n) + Succ(g, Sphere(g, root, n))
    ensures Succ(g, Sphere(g, root, n)) - Ball(g, root, n) == Sphere(g, root, n + 1)
  {
    if n > 0 {
      SuccUnion(g, Ball(g, root, n - 1), Sphere(g, root, n));
      BallGrows(g, root, n - 1, n);
      assert Ball(g, root, n - 1) + Sphere(g, root, n) == Ball(g, root, n);
    }
  }

  lemma LevelIsGenuine(g: Graph, root: string, depth: nat, severity: string, next: seq<string>, hits: seq<Hit>, k: nat)
    requires LevelHits(next, hits, g, Sphere(g, root, depth), depth, severity) && k < |next|
    requires next[k] in Sphere(g, root, depth + 1)
    ensures Genuine(g, root, depth + 1, severity, hits[k])
  {
    DistanceIsSphere(g, root, next[k], depth + 1);
    var u :| u in Sphere(g, root, depth) && (u, next[k]) in g && hits[k].why == u + ARROW + next[k];
    DistanceIsSphere(g, root, u, depth);
  }

  lemma LevelIsAllGenuine(g: Graph, root: string, depth: nat, severity: string, next: seq<string>, hits: seq<Hit>)
    requires LevelHits(next, hits, g, Sphere(g, root, depth), depth, severity)
    requires Elements(next) == Sphere(g, root, depth + 1)
    ensures forall k :: 0 <= k < |hits| ==> Genuine(g, root, depth + 1, severity, hits[k]) && hits[k].hops == depth + 1
    ensures forall v :: v in Sphere(g, root, depth + 1) ==> HasHit(hits, v)
  {
    forall k | 0 <= k < |next| ensures Genuine(g, root, depth + 1, severity, hits[k]) {
      assert next[k] in Elements(next);
      LevelIsGenuine(g, root, depth, severity, next, hits, k);
    }
    forall v | v in Sphere(g, root, depth + 1) ensures HasHit(hits, v) {
      assert v in Elements(next);
      var k :| 0 <= k < |next| && next[k] == v;
      assert hits[k].fqn == v;
    }
  }

  lemma GenuineDeeper(g: Graph, root: string, depth: nat, deeper: nat, severity: string, hits: seq<Hit>)
    requires forall i :: 0 <= i < |hits| ==> Genuine(g, root, depth, severity, hits[i])
    requires depth <= deeper
    ensures forall i :: 0 <= i < |hits| ==> Genuine(g, root, deeper, severity, hits[i])
  {
  }

  lemma HasHitGrows(hits: seq<Hit>, more: seq<Hit>, v: string)
    ensures HasHit(hits, v) || HasHit(more, v) ==> HasHit(hits + more, v)
  {
    var all := hits + more;
    if i :| 0 <= i < |hits| && hits[i].fqn == v {
      assert all[i].fqn == v;
    }
    if k :| 0 <= k < |more| && more[k].fqn == v {
      assert all[|hits| + k].fqn == v;
    }
  }

  /** Hits of an earlier level and of this one never clash. */
  lemma OrderedAcross(g: Graph, root: string, depth: nat, severity: string, h: Hit, k: Hit)
    requires Genuine(g, root, depth, severity, h) && Genuine(g, root, depth + 1, severity, k) && k.hops == depth + 1
    ensures h.fqn != k.fqn && h.hops <= k.hops
  {
    if h.fqn == k.fqn {
      DistanceUnique(g, root, h.fqn, h.hops, k.hops);
    }
  }

  lemma RadiusGrows(g: Graph, root: string, depth: nat, severity: string, hits: seq<Hit>,
                    next: seq<string>, more: seq<Hit>)
    requires BlastRadius(g, root, depth, severity, hits)
    requires LevelHits(next, more, g, Sphere(g, root, depth), depth, severity) && NoRepeats(next)
    requires Elements(next) == Sphere(g, root, depth + 1)
    ensures BlastRadius(g, root, depth + 1, severity, hits + more)
  {
    var all := hits + more;
    LevelIsAllGenuine(g, root, depth, severity, next, more);
    forall i, j | 0 <= i < j < |all| ensures all[i].fqn != all[j].fqn && all[i].hops <= all[j].hops {
      if i < |hits| <= j {
        OrderedAcross(g, root, depth, severity, hits[i], more[j - |hits|]);
      }
    }
    GenuineDeeper(g, root, depth, depth + 1, severity, hits);
    forall v | v != root && v in Ball(g, root, depth + 1) ensures HasHit(all, v) {
      HasHitGrows(hits, more, v);
      assert v in Ball(g, root, depth) || v in Sphere(g, root, depth + 1);
    }
  }

  lemma NoDifference(s: set<string>, t: set<string>)
    requires s <= t && t - s == {}
    ensures s == t
  {
    assert forall x :: x in t ==> x in s || x in t - s;
  }

  lemma NothingBeyond(g: Graph, root: string, n: nat, cap: nat)
    requires Sphere(g, root, n + 1) == {} && n < cap
    ensures Ball(g, root, cap) == Ball(g, root, n + 1)
  {
    BallGrows(g, root, n, n + 1);
    NoDifference(Ball(g, root, n), Ball(g, root, n + 1));
    BallStable(g, root, n, cap);
  }

  lemma RadiusComplete(g: Graph, root: string, depth: nat, severity: string, hits: seq<Hit>, cap: nat)
    requires BlastRadius(g, root, depth, severity, hits) && depth <= cap
    requires depth == cap || Sphere(g, root, depth) == {}
    ensures BlastRadius(g, root, cap, severity, hits)
  {
    if depth < cap {
      NothingBeyond(g, root, depth - 1, cap);
      GenuineDeeper(g, root, depth, cap, severity, hits);
    }
  }

  function DepthOrDefault(maxDepth: int): nat {
    if maxDepth <= 0 then 5 else maxDepth
  }

  lemma KindsAre(kind: string)
    ensures GranularityForKind(kind) == (if kind in COLUMN_KINDS then "column" else "table")
    ensures SeverityForKind(kind) == (if kind in BREAKING_KINDS then "breaking" else "warning")
  {
  }

  /** Main result: the hits are exactly the bounded blast radius of the change, a
      column change's along column edges alone, any other's along table edges
      alone; only a failing store yields an error. */
  method Preview(st: Store, change: Change, maxDepth: int) returns (result: Option<seq<Hit>>)
    requires Serves(st)
    ensures result.None? ==> exists fqn :: st.downstream(fqn).None?
    ensures result.Some? ==>
      BlastRadius(GraphOf(st.rows, if change.kind in COLUMN_KINDS then "column" else "table"), change.fqn,
                  if maxDepth <= 0 then 5 else maxDepth,
                  if change.kind in BREAKING_KINDS then "breaking" else "warning", result.value)
  {
    KindsAre(change.kind);
    var cap := DepthOrDefault(maxDepth);
    var gran := GranularityForKind(change.kind);
    var sev := SeverityForKind(change.kind);
    ghost var g := GraphOf(st.rows, gran);
    var seen: map<string, nat> := map[change.fqn := 0];
    var queue := [change.fqn];
    var hits: seq<Hit> := [];
    var depth := 0;
    while depth < cap && |queue| > 0
      invariant depth <= cap
      invariant seen.Keys == Ball(g, change.fqn, depth)
      invariant Elements(queue) == Sphere(g, change.fqn, depth)
      invariant BlastRadius(g, change.fqn, depth, sev, hits)
      decreases cap - depth
    {
      var ok, seen', next, more := ExpandLevel(st, gran, sev, queue, depth, seen);
      if !ok {
        return None;
      }
      NextBall(g, change.fqn, depth);
      RadiusGrows(g, change.fqn, depth, sev, hits, next, more);
      seen, queue, hits, depth := seen', next, hits + more, depth + 1;
    }
    if |queue| == 0 {
      assert Elements(queue) == {};
    }
    RadiusComplete(g, change.fqn, depth, sev, hits, cap);
    result := Some(hits);
  }

  // ---- what is hit --------------------------------------------------------------------

  /** A node is hit exactly when it can be reached within the depth along the
      edges of the granularity. */
  lemma HitIffReachable(g: Graph, root: string, depth: nat, severity: string, hits: seq<Hit>, v: string)
    requires BlastRadius(g, root, depth, severity, hits)
    ensures HasHit(hits, v) <==> v != root && exists n: nat :: n <= depth && ReachesIn(g, root, v, n)
  {
    BallIsReach(g, root, v, depth);
    if i :| 0 <= i < |hits| && hits[i].fqn == v {
      assert Genuine(g, root, depth, severity, hits[i]);
      Trivial(g, root);
      assert v != root;
    }
  }

  ghost predicate OfType(e: Edge, granularity: string) {
    e.edgeType == granularity
  }

  /** Main result: edges of the other type count for nothing. Whatever rows of
      them there are, and however they join a node to the changed one, the blast
      radius is the same. */
  lemma OtherEdgesNeverCount(rows: set<Edge>, more: set<Edge>, granularity: string, root: string, depth: nat,
                             severity: string, hits: seq<Hit>)
    requires forall e :: OfType(e, granularity) ==> (e in rows <==> e in more)
    ensures BlastRadius(GraphOf(rows, granularity), root, depth, severity, hits)
       <==> BlastRadius(GraphOf(more, granularity), root, depth, severity, hits)
  {
    hide BlastRadius;
    forall e | e in rows || e in more ensures OfType(e, granularity) ==> (e in rows <==> e in more) {
    }
    assert GraphOf(rows, granularity) == GraphOf(more, granularity);
  }
}
