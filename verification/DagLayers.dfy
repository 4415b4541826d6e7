/** layerOf in frontend/src/lib/dagLayout.ts: signed breadth-first layering. */
module DagLayers {
  import opened Paths

  datatype Node = Node(id: string, isRoot: bool)
  datatype Link = Link(source: string, target: string)
  datatype LineageGraph = LineageGraph(nodes: seq<Node>, edges: seq<Link>)

  // ---- signed walks ---------------------------------------------------------------

  ghost function Forward(edges: seq<Link>): Graph {
    set e | e in edges :: (e.source, e.target)
  }

  /** Every edge in both directions. */
  ghost function Undirected(edges: seq<Link>): Graph {
    Forward(edges) + Reversed(Forward(edges))
  }

  ghost function Sum(signs: seq<int>): int {
    if |signs| == 0 then 0 else Sum(signs[..|signs| - 1]) + signs[|signs| - 1]
  }

  /** signs[i] is +1 if step i follows an edge, -1 if it goes against one. */
  ghost predicate Signed(edges: seq<Link>, p: seq<string>, signs: seq<int>) {
    |p| == |signs| + 1
    && forall i :: 0 <= i < |signs| ==> SignedEdge(edges, p[i], p[i + 1], signs[i])
  }

  ghost predicate SignedEdge(edges: seq<Link>, u: string, v: string, sign: int) {
    (sign == 1 && (u, v) in Forward(edges)) || (sign == -1 && (v, u) in Forward(edges))
  }

  ghost predicate Nets(edges: seq<Link>, a: string, b: string, n: nat, net: int, p: seq<string>, signs: seq<int>) {
    Signed(edges, p, signs) && |signs| == n && p[0] == a && p[n] == b && Sum(signs) == net
  }

  /** Some walk of n undirected hops from a to b has this net of forward minus
      backward edges. */
  ghost predicate NetAlongWalk(edges: seq<Link>, a: string, b: string, n: nat, net: int) {
    exists p, signs :: Nets(edges, a, b, n, net, p, signs)
  }

  lemma NetStep(edges: seq<Link>, a: string, b: string, c: string, n: nat, net: int, sign: int)
    requires NetAlongWalk(edges, a, b, n, net)
    requires SignedEdge(edges, b, c, sign)
    ensures NetAlongWalk(edges, a, c, n + 1, net + sign)
  {
    var p, signs :| Nets(edges, a, b, n, net, p, signs);
    var q, more := p + [c], signs + [sign];
    assert more[..n] == signs;
    assert Sum(more) == net + sign;
    forall i | 0 <= i < |more| ensures SignedEdge(edges, q[i], q[i + 1], more[i]) {
      if i < n {
        assert SignedEdge(edges, p[i], p[i + 1], signs[i]);
      }
    }
    assert Nets(edges, a, c, n + 1, net + sign, q, more);
  }

  lemma NetZero(edges: seq<Link>, a: string)
    ensures NetAlongWalk(edges, a, a, 0, 0)
  {
    assert Nets(edges, a, a, 0, 0, [a], []);
  }

  // ---- adjacency --------------------------------------------------------------------

  ghost function TargetsOf(edges: seq<Link>, v: string): seq<string> {
    if |edges| == 0 then []
    else
      var e := edges[|edges| - 1];
      TargetsOf(edges[..|edges| - 1], v) + if e.source == v then [e.target] else []
  }

  ghost function SourcesOf(edges: seq<Link>, v: string): seq<string> {
    if |edges| == 0 then []
    else
      var e := edges[|edges| - 1];
      SourcesOf(edges[..|edges| - 1], v) + if e.target == v then [e.source] else []
  }

  lemma AdjacencyIsForward(edges: seq<Link>, v: string)
    ensures forall w :: w in TargetsOf(edges, v) <==> (v, w) in Forward(edges)
    ensures forall w :: w in SourcesOf(edges, v) <==> (w, v) in Forward(edges)
  {
    if |edges| > 0 {
      var n := |edges| - 1;
      AdjacencyIsForward(edges[..n], v);
      assert edges == edges[..n] + [edges[n]];
      assert Forward(edges) == Forward(edges[..n]) + {(edges[n].source, edges[n].target)};
    }
  }

  function Neighbours(m: map<string, seq<string>>, v: string): seq<string> {
    if v in m then m[v] else []
  }

  ghost predicate IsOut(m: map<string, seq<string>>, edges: seq<Link>) {
    forall v :: Neighbours(m, v) == TargetsOf(edges, v)
  }

  ghost predicate IsInc(m: map<string, seq<string>>, edges: seq<Link>) {
    forall v :: Neighbours(m, v) == SourcesOf(edges, v)
  }

  lemma PushOut(m: map<string, seq<string>>, edges: seq<Link>, e: Link)
    requires IsOut(m, edges)
    ensures IsOut(m[e.source := Neighbours(m, e.source) + [e.target]], edges + [e])
  {
    assert (edges + [e])[..|edges|] == edges;
    forall v ensures TargetsOf(edges + [e], v) == TargetsOf(edges, v) + if e.source == v then [e.target] else [] {
      assert Neighbours(m, v) == TargetsOf(edges, v) == TargetsOf(edges, v) + [];
    }
  }

  lemma PushInc(m: map<string, seq<string>>, edges: seq<Link>, e: Link)
    requires IsInc(m, edges)
    ensures IsInc(m[e.target := Neighbours(m, e.target) + [e.source]], edges + [e])
  {
    assert (edges + [e])[..|edges|] == edges;
    forall v ensures SourcesOf(edges + [e], v) == SourcesOf(edges, v) + if e.target == v then [e.source] else [] {
      assert Neighbours(m, v) == SourcesOf(edges, v) == SourcesOf(edges, v) + [];
    }
  }

  method Adjacency(edges: seq<Link>) returns (out: map<string, seq<string>>, inc: map<string, seq<string>>)
    ensures IsOut(out, edges) && IsInc(inc, edges)
  {
    out, inc := map[], map[];
    for i := 0 to |edges|
      invariant IsOut(out, edges[..i]) && IsInc(inc, edges[..i])
    {
      var e := edges[i];
      assert edges[..i + 1] == edges[..i] + [e];
      PushOut(out, edges[..i], e);
      PushInc(inc, edges[..i], e);
      out := out[e.source := Neighbours(out, e.source) + [e.target]];
      inc := inc[e.target := Neighbours(inc, e.target) + [e.source]];
    }
    assert edges[..|edges|] == edges;
  }

  // ---- the search -------------------------------------------------------------------

  /** Each layered node carries the net of a shortest undirected walk. */
  ghost predicate Layered(edges: seq<Link>, root: string, layer: map<string, int>, dist: map<string, nat>) {
    layer.Keys == dist.Keys && root in dist
    && forall v :: v in layer ==>
         Distance(Undirected(edges), root, v, dist[v]) && NetAlongWalk(edges, root, v, dist[v], layer[v])
  }

  /** The queue holds waiting nodes, nearest first, over at most two distances
      starting at `low`. */
  ghost predicate QueueOk(queue: seq<string>, dist: map<string, nat>, done: set<string>, low: nat) {
    NoRepeats(queue)
    && Elements(queue) == dist.Keys - done && done <= dist.Keys
    && (forall i :: 0 <= i < |queue| ==> queue[i] in dist && low <= dist[queue[i]] <= low + 1)
    && (forall i, j :: 0 <= i < j < |queue| ==> dist[queue[i]] <= dist[queue[j]])
  }

  /** Nodes already drained have all their neighbours layered. */
  ghost predicate Drained(edges: seq<Link>, dist: map<string, nat>, done: set<string>) {
    Succ(Undirected(edges), done) <= dist.Keys
  }

  lemma SignedEdgeIsUndirected(edges: seq<Link>, u: string, v: string, sign: int)
    requires SignedEdge(edges, u, v, sign)
    ensures (u, v) in Undirected(edges)
  {
    if sign == -1 {
      assert (u, v) in Reversed(Forward(edges));
    }
  }

  /** A node first seen from cur, outside the ball of cur, is one hop further. */
  lemma NewNode(edges: seq<Link>, root: string, d: nat, l: int, cur: string, v: string, sign: int)
    requires Distance(Undirected(edges), root, cur, d) && NetAlongWalk(edges, root, cur, d, l)
    requires v !in Ball(Undirected(edges), root, d) && SignedEdge(edges, cur, v, sign)
    ensures Distance(Undirected(edges), root, v, d + 1) && NetAlongWalk(edges, root, v, d + 1, l + sign)
  {
    var g := Undirected(edges);
    SignedEdgeIsUndirected(edges, cur, v, sign);
    ReachesStep(g, root, cur, v, d);
    ReachInBall(g, root, v, d + 1);
    DistanceIsSphere(g, root, v, d + 1);
    NetStep(edges, root, cur, v, d, l, sign);
  }

  lemma LayeredInsert(edges: seq<Link>, root: string, layer: map<string, int>, dist: map<string, nat>,
                      v: string, l: int, d: nat)
    requires Layered(edges, root, layer, dist) && v !in dist
    requires Distance(Undirected(edges), root, v, d) && NetAlongWalk(edges, root, v, d, l)
    ensures Layered(edges, root, layer[v := l], dist[v := d])
  {
  }

  lemma Enqueue(queue: seq<string>, dist: map<string, nat>, done: set<string>, low: nat, v: string)
    requires QueueOk(queue, dist, done, low) && v !in dist
    ensures QueueOk(queue + [v], dist[v := low + 1], done, low)
  {
    AppendNew(queue, v);
    var more := dist[v := low + 1];
    assert more.Keys == dist.Keys + {v};
    assert more.Keys - done == (dist.Keys - done) + {v};
    assert forall i :: 0 <= i < |queue| ==> queue[i] != v;
  }

  /** What holds while the neighbours of cur, at distance d, are looked at. */
  ghost predicate Visiting(edges: seq<Link>, root: string, cur: string, d: nat, layer: map<string, int>,
                           dist: map<string, nat>, queue: seq<string>, done: set<string>) {
    Layered(edges, root, layer, dist) && QueueOk(queue, dist, done, d)
    && cur in dist && dist[cur] == d && Ball(Undirected(edges), root, d) <= dist.Keys
  }

  lemma AddNeighbour(edges: seq<Link>, root: string, cur: string, d: nat, layer: map<string, int>,
                     dist: map<string, nat>, queue: seq<string>, done: set<string>, v: string, sign: int)
    requires Visiting(edges, root, cur, d, layer, dist, queue, done)
    requires v !in layer && SignedEdge(edges, cur, v, sign)
    ensures Visiting(edges, root, cur, d, layer[v := layer[cur] + sign], dist[v := d + 1], queue + [v], done)
  {
    NewNode(edges, root, d, layer[cur], cur, v, sign);
    Enqueue(queue, dist, done, d, v);
    LayeredInsert(edges, root, layer, dist, v, layer[cur] + sign, d + 1);
    assert dist.Keys <= dist[v := d + 1].Keys;
  }

  /** One neighbour list of the node being drained. */
  method Visit(edges: seq<Link>, root: string, cur: string, neighbours: seq<string>, sign: int,
               layer0: map<string, int>, queue0: seq<string>,
               ghost dist0: map<string, nat>, ghost done: set<string>, ghost d: nat)
      returns (layer: map<string, int>, queue: seq<string>, ghost dist: map<string, nat>)
    requires Visiting(edges, root, cur, d, layer0, dist0, queue0, done)
    requires forall v :: v in neighbours ==> SignedEdge(edges, cur, v, sign)
    ensures Visiting(edges, root, cur, d, layer, dist, queue, done)
    ensures dist.Keys == dist0.Keys + Elements(neighbours)
  {
    layer, queue, dist := layer0, queue0, dist0;
    var l := layer[cur];
    for i := 0 to |neighbours|
      invariant Visiting(edges, root, cur, d, layer, dist, queue, done)
      invariant dist.Keys == dist0.Keys + Elements(neighbours[..i])
      invariant cur in layer && layer[cur] == l
    {
      ElementsSnoc(neighbours, i);
      layer, queue, dist := Meet(edges, root, cur, neighbours[i], sign, l, layer, queue, dist, done, d);
    }
    assert neighbours[..|neighbours|] == neighbours;
  }

  /** One neighbour: layered and queued if it is new. */
  method Meet(edges: seq<Link>, root: string, cur: string, nxt: string, sign: int, l: int,
              layer0: map<string, int>, queue0: seq<string>,
              ghost dist0: map<string, nat>, ghost done: set<string>, ghost d: nat)
      returns (layer: map<string, int>, queue: seq<string>, ghost dist: map<string, nat>)
    requires Visiting(edges, root, cur, d, layer0, dist0, queue0, done)
    requires SignedEdge(edges, cur, nxt, sign) && layer0[cur] == l
    ensures Visiting(edges, root, cur, d, layer, dist, queue, done)
    ensures dist.Keys == dist0.Keys + {nxt} && layer[cur] == l
  {
    if nxt in layer0 {
      return layer0, queue0, dist0;
    }
    AddNeighbour(edges, root, cur, d, layer0, dist0, queue0, done, nxt, sign);
    layer := layer0[nxt := l + sign];
    dist := dist0[nxt := d + 1];
    queue := queue0 + [nxt];
  }

  lemma ElementsSnoc(s: seq<string>, i: nat)
    requires i < |s|
    ensures Elements(s[..i + 1]) == Elements(s[..i]) + {s[i]}
  {
  }

  lemma BothWays(edges: seq<Link>, v: string)
    ensures Succ(Undirected(edges), {v}) == Elements(TargetsOf(edges, v)) + Elements(SourcesOf(edges, v))
  {
    AdjacencyIsForward(edges, v);
    var g := Undirected(edges);
    forall w ensures w in Succ(g, {v}) <==> (v, w) in Forward(edges) || (w, v) in Forward(edges) {
      if (v, w) in Forward(edges) || (w, v) in Forward(edges) {
        assert (v, w) in g by {
          if (w, v) in Forward(edges) {
            assert (v, w) in Reversed(Forward(edges));
          }
        }
      }
    }
  }

  lemma SuccSplit(g: Graph, s: set<string>, v: string)
    ensures Succ(g, s + {v}) == Succ(g, s) + Succ(g, {v})
  {
  }

  lemma WaitingIsFar(queue: seq<string>, dist: map<string, nat>, done: set<string>, low: nat, v: string)
    requires QueueOk(queue, dist, done, low) && v in dist && v !in done
    ensures |queue| > 0 && dist[queue[0]] <= dist[v]
  {
    assert v in Elements(queue);
    var i :| 0 <= i < |queue| && queue[i] == v;
  }

  /** Taking the head off the queue: the ball of its distance is layered. */
  lemma HeadBall(edges: seq<Link>, root: string, layer: map<string, int>, dist: map<string, nat>,
                 queue: seq<string>, done: set<string>, low: nat)
    requires Layered(edges, root, layer, dist) && QueueOk(queue, dist, done, low) && |queue| > 0
    requires Drained(edges, dist, done) && Ball(Undirected(edges), root, low) <= dist.Keys
    ensures Ball(Undirected(edges), root, dist[queue[0]]) <= dist.Keys
  {
    var g := Undirected(edges);
    if dist[queue[0]] == low + 1 {
      forall v | v in Ball(g, root, low) ensures v in done {
        BallReaches(g, root, v, low);
        if v !in done {
          WaitingIsFar(queue, dist, done, low, v);
        }
      }
      assert Succ(g, Ball(g, root, low)) <= Succ(g, done);
    }
  }

  lemma Dequeue(queue: seq<string>, dist: map<string, nat>, done: set<string>, low: nat)
    requires QueueOk(queue, dist, done, low) && |queue| > 0
    ensures QueueOk(queue[1..], dist, done + {queue[0]}, dist[queue[0]])
  {
    var cur, rest := queue[0], queue[1..];
    assert cur in Elements(queue);
    assert Elements(queue) == {cur} + Elements(rest);
    assert cur !in Elements(rest);
  }

  lemma AllReached(edges: seq<Link>, root: string, layer: map<string, int>, dist: map<string, nat>, v: string, n: nat)
    requires Layered(edges, root, layer, dist) && Drained(edges, dist, dist.Keys)
    requires ReachesIn(Undirected(edges), root, v, n)
    ensures v in dist
    decreases n
  {
    var g := Undirected(edges);
    if n == 0 {
      ZeroHops(g, root, v);
    } else {
      ReachesUnstep(g, root, v, n - 1);
      var u :| ReachesIn(g, root, u, n - 1) && (u, v) in g;
      AllReached(edges, root, layer, dist, u, n - 1);
      assert v in Succ(g, dist.Keys);
    }
  }

  ghost function Endpoints(edges: seq<Link>): set<string> {
    (set e | e in edges :: e.source) + (set e | e in edges :: e.target)
  }

  lemma ReachedIsEndpoint(edges: seq<Link>, root: string, v: string, n: nat)
    requires ReachesIn(Undirected(edges), root, v, n)
    ensures v in Endpoints(edges) + {root}
  {
    if n == 0 {
      ZeroHops(Undirected(edges), root, v);
    } else {
      ReachesUnstep(Undirected(edges), root, v, n - 1);
      var u :| (u, v) in Undirected(edges);
      assert (u, v) in Forward(edges) || (v, u) in Forward(edges);
    }
  }

  /** What holds between two drained nodes. */
  ghost predicate Searching(edges: seq<Link>, root: string, layer: map<string, int>, dist: map<string, nat>,
                            queue: seq<string>, done: set<string>, low: nat) {
    Layered(edges, root, layer, dist) && QueueOk(queue, dist, done, low)
    && Drained(edges, dist, done) && Ball(Undirected(edges), root, low) <= dist.Keys
  }

  lemma Start(edges: seq<Link>, root: string)
    ensures Searching(edges, root, map[root := 0], map[root := 0], [root], {}, 0)
  {
    Trivial(Undirected(edges), root);
    NetZero(edges, root);
    assert Ball(Undirected(edges), root, 0) == {root};
  }

  /** One turn of the drain loop. */
  method Drain(edges: seq<Link>, root: string, out: map<string, seq<string>>, inc: map<string, seq<string>>,
               layer0: map<string, int>, queue0: seq<string>,
               ghost dist0: map<string, nat>, ghost done: set<string>, ghost low: nat)
      returns (layer: map<string, int>, queue: seq<string>, ghost dist: map<string, nat>)
    requires IsOut(out, edges) && IsInc(inc, edges)
    requires Searching(edges, root, layer0, dist0, queue0, done, low) && |queue0| > 0
    ensures queue0[0] in dist0
    ensures Searching(edges, root, layer, dist, queue, done + {queue0[0]}, dist0[queue0[0]])
  {
    var cur := queue0[0];
    ghost var g, d := Undirected(edges), dist0[cur];
    HeadBall(edges, root, layer0, dist0, queue0, done, low);
    Dequeue(queue0, dist0, done, low);
    AdjacencyIsForward(edges, cur);
    assert forall v :: v in Neighbours(out, cur) ==> SignedEdge(edges, cur, v, 1);
    assert forall v :: v in Neighbours(inc, cur) ==> SignedEdge(edges, cur, v, -1);
    ghost var dist1;
    layer, queue, dist1 :=
      Visit(edges, root, cur, Neighbours(out, cur), 1, layer0, queue0[1..], dist0, done + {cur}, d);
    layer, queue, dist := Visit(edges, root, cur, Neighbours(inc, cur), -1, layer, queue, dist1, done + {cur}, d);
    assert Drained(edges, dist, done + {cur}) by {
      BothWays(edges, cur);
      SuccSplit(g, done, cur);
    }
  }

  /** The drain loop: layers exactly the nodes connected to the root. */
  method Search(edges: seq<Link>, root: string) returns (layer: map<string, int>, ghost dist: map<string, nat>)
    ensures Layered(edges, root, layer, dist)
    ensures forall v, n :: ReachesIn(Undirected(edges), root, v, n) ==> v in layer
  {
    var out, inc := Adjacency(edges);
    layer := map[root := 0];
    dist := map[root := 0];
    var queue := [root];
    ghost var done: set<string>, low: nat := {}, 0;
    Start(edges, root);
    while |queue| > 0
      invariant Searching(edges, root, layer, dist, queue, done, low)
      decreases Endpoints(edges) + {root} - done
    {
      ghost var cur := queue[0];
      assert cur in Elements(queue);
      ReachedIsEndpoint(edges, root, cur, dist[cur]);
      ghost var d := dist[cur];
      layer, queue, dist := Drain(edges, root, out, inc, layer, queue, dist, done, low);
      done, low := done + {cur}, d;
    }
    assert dist.Keys - done == Elements(queue) == {};
    assert forall v :: v in dist.Keys ==> v in done || v in dist.Keys - done;
    assert done == dist.Keys;
    forall v, n | ReachesIn(Undirected(edges), root, v, n) ensures v in layer {
      AllReached(edges, root, layer, dist, v, n);
    }
  }

  ghost function RootOf(nodes: seq<Node>): string
    requires |nodes| > 0
  {
    FirstRoot(nodes, nodes[0].id)
  }

  ghost function FirstRoot(nodes: seq<Node>, default: string): string {
    if |nodes| == 0 then default
    else if nodes[0].isRoot then nodes[0].id
    else FirstRoot(nodes[1..], default)
  }

  method FindRoot(nodes: seq<Node>) returns (root: string)
    requires |nodes| > 0
    ensures root == RootOf(nodes)
  {
    for i := 0 to |nodes|
      invariant RootOf(nodes) == FirstRoot(nodes[i..], nodes[0].id)
    {
      if nodes[i].isRoot {
        return nodes[i].id;
      }
    }
    root := nodes[0].id;
  }

  ghost function Ids(nodes: seq<Node>): set<string> {
    set n | n in nodes :: n.id
  }

  /** A connected node gets the net of forward minus backward edges along some
      shortest undirected walk from the root; a disconnected node gets 0. */
  ghost predicate LayersOk(graph: LineageGraph, layer: map<string, int>) {
    if |graph.nodes| == 0 then layer == map[]
    else
      var root, g := RootOf(graph.nodes), Undirected(graph.edges);
      (forall v, n :: Distance(g, root, v, n) ==> v in layer && NetAlongWalk(graph.edges, root, v, n, layer[v]))
      && (forall v :: v in layer && (forall n :: !ReachesIn(g, root, v, n)) ==> layer[v] == 0 && v in Ids(graph.nodes))
      && Ids(graph.nodes) <= layer.Keys
  }

  method LayerOf(graph: LineageGraph) returns (layer: map<string, int>)
    ensures LayersOk(graph, layer)
  {
    if |graph.nodes| == 0 {
      return map[];
    }
    var root := FindRoot(graph.nodes);
    ghost var g := Undirected(graph.edges);
    ghost var dist;
    layer, dist := Search(graph.edges, root);
    ghost var connected := layer;
    forall v, n | Distance(g, root, v, n) ensures v in layer && NetAlongWalk(graph.edges, root, v, n, layer[v]) {
      DistanceUnique(g, root, v, n, dist[v]);
    }
    for i := 0 to |graph.nodes|
      invariant connected.Keys <= layer.Keys && forall v :: v in connected ==> layer[v] == connected[v]
      invariant forall v :: v in layer && v !in connected ==> layer[v] == 0 && v in Ids(graph.nodes)
      invariant Ids(graph.nodes[..i]) <= layer.Keys
    {
      var n := graph.nodes[i];
      assert Ids(graph.nodes[..i + 1]) == Ids(graph.nodes[..i]) + {n.id};
      if n.id !in layer {
        layer := layer[n.id := 0];
      }
    }
    assert graph.nodes[..|graph.nodes|] == graph.nodes;
  }

  /** The root is the first node marked as such, the first node if none is. */
  lemma {:induction false} RootIsFirstMarked(nodes: seq<Node>)
    requires |nodes| > 0
    ensures (exists i :: 0 <= i < |nodes| && nodes[i].isRoot && RootOf(nodes) == nodes[i].id
                         && forall j :: 0 <= j < i ==> !nodes[j].isRoot)
         || (RootOf(nodes) == nodes[0].id && forall j :: 0 <= j < |nodes| ==> !nodes[j].isRoot)
  {
    FirstMarked(nodes, nodes[0].id);
  }

  lemma {:induction false} FirstMarked(nodes: seq<Node>, default: string)
    ensures (exists i :: 0 <= i < |nodes| && nodes[i].isRoot && FirstRoot(nodes, default) == nodes[i].id
                         && forall j :: 0 <= j < i ==> !nodes[j].isRoot)
         || (FirstRoot(nodes, default) == default && forall j :: 0 <= j < |nodes| ==> !nodes[j].isRoot)
  {
    if |nodes| > 0 && !nodes[0].isRoot {
      var rest := nodes[1..];
      FirstMarked(rest, default);
      assert forall j :: 1 <= j < |nodes| ==> nodes[j] == rest[j - 1];
      if i :| 0 <= i < |rest| && rest[i].isRoot && FirstRoot(rest, default) == rest[i].id
              && forall j :: 0 <= j < i ==> !rest[j].isRoot {
        assert nodes[i + 1].isRoot;
      }
    }
  }
}
