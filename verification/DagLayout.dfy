/** layout in frontend/src/lib/dagLayout.ts: layers become columns, nodes of a
    layer are stacked. Maps keep no insertion order here. */
module DagLayout {
  import opened DagLayers

  const NODE_W := 210
  const NODE_H := 46
  const COL_GAP := 70
  const ROW_GAP := 18
  const PAD := 24

  datatype Positioned = Positioned(id: string, x: int, y: int, w: int, h: int)
  datatype Layout = Layout(nodes: map<string, Positioned>, width: int, height: int)

  ghost predicate StrictlyIncreasing(s: seq<int>) {
    forall i, j :: 0 <= i < j < |s| ==> s[i] < s[j]
  }

  ghost predicate Lists(s: seq<int>, values: set<int>) {
    StrictlyIncreasing(s) && forall v :: v in s <==> v in values
  }

  lemma Pick<T>(s: set<T>) returns (x: T)
    requires s != {}
    ensures x in s
  {
    x :| x in s;
  }

  lemma LeastExists(values: set<int>)
    requires values != {}
    ensures exists m :: m in values && forall v :: v in values ==> m <= v
  {
    var x := Pick(values);
    if values == {x} {
      assert forall v :: v in values ==> x <= v;
    } else {
      var rest := values - {x};
      assert values == rest + {x};
      LeastExists(rest);
      var m :| m in rest && forall v :: v in rest ==> m <= v;
      var least := if x < m then x else m;
      assert least in values && forall v :: v in values ==> least <= v;
    }
  }

  lemma Listed(s: seq<int>, values: set<int>, v: int)
    requires Lists(s, values) && v in values
    ensures v in s
  {
  }

  /** [...new Set(values)].sort((a, b) => a - b) */
  method SortedLayers(values: set<int>) returns (layers: seq<int>)
    ensures Lists(layers, values)
  {
    layers := [];
    var todo := values;
    while todo != {}
      invariant todo <= values && Lists(layers, values - todo)
      invariant forall i, v :: 0 <= i < |layers| && v in todo ==> layers[i] < v
    {
      LeastExists(todo);
      var m :| m in todo && forall v :: v in todo ==> m <= v;
      assert values - (todo - {m}) == (values - todo) + {m};
      layers := layers + [m];
      todo := todo - {m};
    }
    assert values - todo == values;
  }

  method ColumnIndex(layers: seq<int>) returns (index: map<int, nat>)
    requires StrictlyIncreasing(layers)
    ensures forall l :: l in index <==> l in layers
    ensures forall i :: 0 <= i < |layers| ==> layers[i] in index && index[layers[i]] == i
  {
    index := map[];
    for i := 0 to |layers|
      invariant forall l :: l in index <==> l in layers[..i]
      invariant forall j :: 0 <= j < i ==> layers[j] in index && index[layers[j]] == j
    {
      index := index[layers[i] := i];
    }
    assert layers[..|layers|] == layers;
    assert forall l :: l in index <==> l in layers;
  }

  // ---- columns ------------------------------------------------------------------

  ghost function InColumn(nodes: seq<Node>, col: map<string, nat>, c: nat): seq<Node>
    requires forall n :: n in nodes ==> n.id in col
  {
    if |nodes| == 0 then []
    else
      var n := nodes[|nodes| - 1];
      InColumn(nodes[..|nodes| - 1], col, c) + if col[n.id] == c then [n] else []
  }

  lemma InColumnMembers(nodes: seq<Node>, col: map<string, nat>, c: nat)
    requires forall n :: n in nodes ==> n.id in col
    ensures forall n :: n in InColumn(nodes, col, c) <==> n in nodes && col[n.id] == c
  {
    if |nodes| > 0 {
      InColumnMembers(nodes[..|nodes| - 1], col, c);
      assert nodes == nodes[..|nodes| - 1] + [nodes[|nodes| - 1]];
    }
  }

  type Columns = map<nat, seq<Node>>

  function Column(byCol: Columns, c: nat): seq<Node> {
    if c in byCol then byCol[c] else []
  }

  ghost predicate Fills(byCol: Columns, nodes: seq<Node>, col: map<string, nat>)
    requires forall n :: n in nodes ==> n.id in col
  {
    forall c: nat :: Column(byCol, c) == InColumn(nodes, col, c)
  }

  lemma FillOne(byCol: Columns, nodes: seq<Node>, n: Node, col: map<string, nat>)
    requires (forall m :: m in nodes ==> m.id in col) && n.id in col && Fills(byCol, nodes, col)
    ensures forall m :: m in nodes + [n] ==> m.id in col
    ensures Fills(byCol[col[n.id] := Column(byCol, col[n.id]) + [n]], nodes + [n], col)
  {
    assert (nodes + [n])[..|nodes|] == nodes;
    forall c: nat
      ensures InColumn(nodes + [n], col, c) == InColumn(nodes, col, c) + if col[n.id] == c then [n] else []
    {
      assert Column(byCol, c) == InColumn(nodes, col, c) == InColumn(nodes, col, c) + [];
    }
  }

  method FillColumns(nodes: seq<Node>, col: map<string, nat>) returns (byCol: Columns)
    requires forall n :: n in nodes ==> n.id in col
    ensures Fills(byCol, nodes, col)
    ensures byCol.Keys == set n | n in nodes :: col[n.id]
  {
    byCol := map[];
    for i := 0 to |nodes|
      invariant Fills(byCol, nodes[..i], col)
      invariant byCol.Keys == set n | n in nodes[..i] :: col[n.id]
    {
      var n := nodes[i];
      assert nodes[..i + 1] == nodes[..i] + [n];
      FillOne(byCol, nodes[..i], n, col);
      byCol := byCol[col[n.id] := Column(byCol, col[n.id]) + [n]];
    }
    assert nodes[..|nodes|] == nodes;
  }

  // ---- placement ------------------------------------------------------------------

  function Cell(id: string, c: nat, row: nat): Positioned {
    Positioned(id, PAD + c * (NODE_W + COL_GAP), PAD + row * (NODE_H + ROW_GAP), NODE_W, NODE_H)
  }

  /** p is the cell of the row where its column holds its id. */
  ghost predicate PlacedAt(byCol: Columns, id: string, p: Positioned, c: nat, row: nat) {
    c in byCol && row < |byCol[c]| && byCol[c][row].id == id && p == Cell(id, c, row)
  }

  ghost predicate Placed(byCol: Columns, id: string, p: Positioned) {
    exists c, row :: PlacedAt(byCol, id, p, c, row)
  }

  method Place(byCol: Columns) returns (pos: map<string, Positioned>, maxRows: nat)
    ensures forall id :: id in pos ==> Placed(byCol, id, pos[id])
    ensures forall c, row :: c in byCol && 0 <= row < |byCol[c]| ==> byCol[c][row].id in pos
    ensures forall c :: c in byCol ==> |byCol[c]| <= maxRows
    ensures maxRows == 0 || exists c :: c in byCol && |byCol[c]| == maxRows
  {
    pos, maxRows := map[], 0;
    var todo := byCol.Keys;
    while todo != {}
      invariant todo <= byCol.Keys
      invariant forall id :: id in pos ==> Placed(byCol, id, pos[id])
      invariant forall c, row :: c in byCol && c !in todo && 0 <= row < |byCol[c]| ==> byCol[c][row].id in pos
      invariant forall c :: c in byCol && c !in todo ==> |byCol[c]| <= maxRows
      invariant maxRows == 0 || exists c :: c in byCol && |byCol[c]| == maxRows
    {
      var c :| c in todo;
      var nodes := byCol[c];
      if |nodes| > maxRows {
        maxRows := |nodes|;
      }
      ghost var before := pos;
      for row := 0 to |nodes|
        invariant before.Keys <= pos.Keys
        invariant forall id :: id in pos ==> Placed(byCol, id, pos[id])
        invariant forall r :: 0 <= r < row ==> nodes[r].id in pos
      {
        assert PlacedAt(byCol, nodes[row].id, Cell(nodes[row].id, c, row), c, row);
        pos := pos[nodes[row].id := Cell(nodes[row].id, c, row)];
      }
      todo := todo - {c};
    }
  }

  ghost predicate Disjoint(p: Positioned, q: Positioned) {
    p.x + p.w <= q.x || q.x + q.w <= p.x || p.y + p.h <= q.y || q.y + q.h <= p.y
  }

  ghost predicate Inside(p: Positioned, width: int, height: int) {
    0 <= p.x && p.x + p.w <= width && 0 <= p.y && p.y + p.h <= height
  }

  /** Distinct ids never share a cell, so their rectangles do not meet. */
  lemma CellsDisjoint(byCol: Columns, a: string, p: Positioned, b: string, q: Positioned)
    requires Placed(byCol, a, p) && Placed(byCol, b, q) && a != b
    ensures Disjoint(p, q)
  {
    var c, row :| PlacedAt(byCol, a, p, c, row);
    var c', row' :| PlacedAt(byCol, b, q, c', row');
    assert c != c' || row != row';
  }

  function Max(a: int, b: int): int {
    if a < b then b else a
  }

  ghost function WidthOf(columns: nat): int {
    Max(PAD * 2 + columns * (NODE_W + COL_GAP), 400)
  }

  ghost function HeightOf(rows: nat): int {
    Max(PAD * 2 + rows * (NODE_H + ROW_GAP), 160)
  }

  // ---- where a node is drawn ----------------------------------------------------------

  /** How many of the first i nodes are in layer l. */
  ghost function InLayer(nodes: seq<Node>, layer: map<string, int>, l: int, i: nat): nat
    requires i <= |nodes| && forall n :: n in nodes ==> n.id in layer
  {
    if i == 0 then 0 else InLayer(nodes, layer, l, i - 1) + if layer[nodes[i - 1].id] == l then 1 else 0
  }

  ghost function LayersBelow(layer: map<string, int>, l: int): set<int> {
    set v | v in layer.Values && v < l
  }

  ghost predicate UniqueIds(nodes: seq<Node>) {
    forall i, j :: 0 <= i < j < |nodes| ==> nodes[i].id != nodes[j].id
  }

  /** Boxes of 210 by 46, from 24 on, columns 280 apart by layer and rows 64 apart
      in the order of the nodes. */
  ghost predicate DrawnAt(graph: LineageGraph, layer: map<string, int>, drawn: map<string, Positioned>) {
    (forall n :: n in graph.nodes ==> n.id in layer && n.id in drawn)
    && (forall id :: id in drawn ==>
          id in layer && drawn[id].w == 210 && drawn[id].h == 46
          && drawn[id].x == 24 + 280 * |LayersBelow(layer, layer[id])|)
    && (UniqueIds(graph.nodes) ==> forall i :: 0 <= i < |graph.nodes| ==>
          drawn[graph.nodes[i].id].y == 24 + 64 * InLayer(graph.nodes, layer, layer[graph.nodes[i].id], i))
  }

  /** Room for all layers, and for the fullest of them. */
  ghost predicate FitsSize(graph: LineageGraph, layer: map<string, int>, width: int, height: int) {
    (forall n :: n in graph.nodes ==> n.id in layer)
    && width == Max(48 + 280 * |layer.Values|, 400)
    && exists rows: nat :: FullestHas(graph.nodes, layer, rows) && height == Max(48 + 64 * rows, 160)
  }

  ghost predicate FullestHas(nodes: seq<Node>, layer: map<string, int>, rows: nat)
    requires forall n :: n in nodes ==> n.id in layer
  {
    (forall l :: InLayer(nodes, layer, l, |nodes|) <= rows)
    && (rows == 0 || exists l :: InLayer(nodes, layer, l, |nodes|) == rows)
  }

  ghost function Members(s: seq<int>): set<int> {
    set v | v in s
  }

  lemma {:induction false} PrefixSize(layers: seq<int>, k: nat)
    requires StrictlyIncreasing(layers) && k <= |layers|
    ensures |Members(layers[..k])| == k
  {
    if k > 0 {
      PrefixSize(layers, k - 1);
      var before := Members(layers[..k - 1]);
      assert Members(layers[..k]) == before + {layers[k - 1]};
      assert layers[k - 1] !in before;
    }
  }

  lemma MembersAre(s: seq<int>, values: set<int>)
    requires Lists(s, values)
    ensures Members(s) == values
  {
    forall v ensures v in Members(s) <==> v in values {
      assert v in s <==> v in values;
    }
  }

  lemma RankIsColumn(layer: map<string, int>, layers: seq<int>, k: nat)
    requires Lists(layers, layer.Values) && k < |layers|
    ensures |LayersBelow(layer, layers[k])| == k && |layer.Values| == |layers|
  {
    PrefixSize(layers, k);
    PrefixSize(layers, |layers|);
    var below := Members(layers[..k]);
    forall v ensures v in below <==> v in LayersBelow(layer, layers[k]) {
      if v in LayersBelow(layer, layers[k]) {
        var j :| 0 <= j < |layers| && layers[j] == v;
        assert j < k;
        assert layers[..k][j] == v;
      }
      if v in below {
        var j :| 0 <= j < k && layers[..k][j] == v;
        assert layers[j] == v && v in layers;
      }
    }
    assert below == LayersBelow(layer, layers[k]);
    assert layers[..|layers|] == layers;
    MembersAre(layers, layer.Values);
  }

  lemma {:induction false} ColumnHolds(nodes: seq<Node>, layer: map<string, int>, col: map<string, nat>, l: int, c: nat,
                                       i: nat)
    requires i <= |nodes| && forall n :: n in nodes ==> n.id in layer && n.id in col
    requires forall n :: n in nodes ==> (layer[n.id] == l <==> col[n.id] == c)
    ensures |InColumn(nodes[..i], col, c)| == InLayer(nodes, layer, l, i)
    ensures i < |nodes| && col[nodes[i].id] == c ==>
              |InColumn(nodes[..i], col, c)| < |InColumn(nodes, col, c)|
              && InColumn(nodes, col, c)[|InColumn(nodes[..i], col, c)|] == nodes[i]
  {
    if i > 0 {
      ColumnHolds(nodes, layer, col, l, c, i - 1);
      assert nodes[..i][..i - 1] == nodes[..i - 1];
    }
    if i < |nodes| && col[nodes[i].id] == c {
      ColumnGrows(nodes, col, c, i + 1);
      assert nodes[..i + 1][..i] == nodes[..i];
    }
  }

  lemma {:induction false} ColumnGrows(nodes: seq<Node>, col: map<string, nat>, c: nat, i: nat)
    requires i <= |nodes| && forall n :: n in nodes ==> n.id in col
    ensures InColumn(nodes[..i], col, c) <= InColumn(nodes, col, c)
    decreases |nodes| - i
  {
    if i < |nodes| {
      ColumnGrows(nodes, col, c, i + 1);
      assert nodes[..i + 1][..i] == nodes[..i];
    } else {
      assert nodes[..i] == nodes;
    }
  }

  lemma {:induction false} NothingInLayer(nodes: seq<Node>, layer: map<string, int>, l: int, i: nat)
    requires i <= |nodes| && (forall n :: n in nodes ==> n.id in layer) && l !in layer.Values
    ensures InLayer(nodes, layer, l, i) == 0
  {
    if i > 0 {
      NothingInLayer(nodes, layer, l, i - 1);
      assert nodes[i - 1] in nodes;
    }
  }

  /** Main result: every node id is placed exactly once, in the column of its
      layer, left to right by layer; no two rectangles overlap; all lie within
      the reported width and height. Repeated ids need no exception. */
  method LayoutGraph(graph: LineageGraph) returns (result: Layout, ghost layer: map<string, int>)
    ensures LayersOk(graph, layer)
    ensures result.nodes.Keys == Ids(graph.nodes)
    ensures forall id :: id in result.nodes ==> result.nodes[id].id == id
    ensures forall a, b :: a in result.nodes && b in result.nodes && a != b ==>
              Disjoint(result.nodes[a], result.nodes[b])
    ensures forall a, b :: a in result.nodes && b in result.nodes && a in layer && b in layer ==>
              (layer[a] < layer[b] <==> result.nodes[a].x < result.nodes[b].x)
    ensures forall id :: id in result.nodes ==> Inside(result.nodes[id], result.width, result.height)
    ensures DrawnAt(graph, layer, result.nodes) && FitsSize(graph, layer, result.width, result.height)
  {
    hide DrawnAt, FitsSize, LayersOk;
    var layerMap := LayerOf(graph);
    layer := layerMap;
    var col, columns := ColumnsOf(layerMap);
    NodesAreLayered(graph, layerMap);
    var byCol := FillColumns(graph.nodes, col);
    var pos, maxRows := Place(byCol);
    result := Layout(pos,
                     Max(PAD * 2 + columns * (NODE_W + COL_GAP), 400),
                     Max(PAD * 2 + maxRows * (NODE_H + ROW_GAP), 160));
    PlacementOk(graph.nodes, col, byCol, pos, columns, maxRows);
    LeftToRight(layerMap, col, pos);
    DrawnAsPlaced(graph, layer, col, byCol, pos);
    SizeFits(graph, layer, col, byCol, columns, maxRows);
  }

  ghost predicate FollowsLayers(layer: map<string, int>, col: map<string, nat>) {
    col.Keys == layer.Keys
    && (forall id :: id in col ==> col[id] == |LayersBelow(layer, layer[id])|)
    && forall a, b :: a in layer && b in layer ==> (layer[a] == layer[b] <==> col[a] == col[b])
  }

  lemma DrawnAsPlaced(graph: LineageGraph, layer: map<string, int>, col: map<string, nat>, byCol: Columns,
                      pos: map<string, Positioned>)
    requires FollowsLayers(layer, col) && (forall n :: n in graph.nodes ==> n.id in layer)
    requires Fills(byCol, graph.nodes, col) && (forall id :: id in pos ==> Placed(byCol, id, pos[id]))
    requires pos.Keys == Ids(graph.nodes)
    ensures DrawnAt(graph, layer, pos)
  {
    hide LayersBelow, FollowsLayers;
    forall id | id in pos
      ensures id in layer && pos[id].w == 210 && pos[id].h == 46
              && pos[id].x == 24 + 280 * |LayersBelow(layer, layer[id])|
    {
      BoxOf(graph.nodes, layer, col, byCol, id, pos[id]);
    }
    forall n | n in graph.nodes ensures n.id in pos {
      assert n.id in Ids(graph.nodes);
    }
    if UniqueIds(graph.nodes) {
      forall i | 0 <= i < |graph.nodes|
        ensures pos[graph.nodes[i].id].y
             == 24 + 64 * InLayer(graph.nodes, layer, layer[graph.nodes[i].id], i)
      {
        assert graph.nodes[i].id in Ids(graph.nodes);
        RowOf(graph.nodes, layer, col, byCol, i, pos[graph.nodes[i].id]);
      }
    }
  }

  lemma BoxOf(nodes: seq<Node>, layer: map<string, int>, col: map<string, nat>, byCol: Columns, id: string,
              p: Positioned)
    requires FollowsLayers(layer, col) && (forall n :: n in nodes ==> n.id in layer)
    requires Fills(byCol, nodes, col) && Placed(byCol, id, p)
    ensures id in layer && p.w == 210 && p.h == 46 && p.x == 24 + 280 * |LayersBelow(layer, layer[id])|
  {
    hide LayersBelow;
    var c: nat, row: nat :| PlacedAt(byCol, id, p, c, row);
    assert Column(byCol, c) == InColumn(nodes, col, c);
    InColumnMembers(nodes, col, c);
    assert byCol[c][row] in byCol[c];
  }

  lemma RowOf(nodes: seq<Node>, layer: map<string, int>, col: map<string, nat>, byCol: Columns, i: nat, p: Positioned)
    requires FollowsLayers(layer, col) && (forall n :: n in nodes ==> n.id in layer) && UniqueIds(nodes)
    requires Fills(byCol, nodes, col) && i < |nodes| && Placed(byCol, nodes[i].id, p)
    ensures p.y == 24 + 64 * InLayer(nodes, layer, layer[nodes[i].id], i)
  {
    hide LayersBelow;
    var id := nodes[i].id;
    var c: nat, row: nat :| PlacedAt(byCol, id, p, c, row);
    assert Column(byCol, c) == InColumn(nodes, col, c);
    InColumnMembers(nodes, col, c);
    assert byCol[c][row] in byCol[c];
    assert byCol[c][row] == nodes[i] by {
      var j :| 0 <= j < |nodes| && nodes[j] == byCol[c][row];
    }
    ColumnHolds(nodes, layer, col, layer[id], c, i);
    ColumnIsUnique(nodes, col, c);
  }

  lemma {:induction false} ColumnIsUnique(nodes: seq<Node>, col: map<string, nat>, c: nat)
    requires (forall n :: n in nodes ==> n.id in col) && UniqueIds(nodes)
    ensures UniqueIds(InColumn(nodes, col, c))
  {
    if |nodes| > 0 {
      var n := |nodes| - 1;
      ColumnIsUnique(nodes[..n], col, c);
      InColumnMembers(nodes[..n], col, c);
      var column := InColumn(nodes[..n], col, c);
      forall k | 0 <= k < |column| ensures column[k].id != nodes[n].id {
        assert column[k] in column;
        var j :| 0 <= j < n && nodes[..n][j] == column[k];
      }
    }
  }

  lemma SizeFits(graph: LineageGraph, layer: map<string, int>, col: map<string, nat>, byCol: Columns,
                 columns: nat, maxRows: nat)
    requires FollowsLayers(layer, col) && columns == |layer.Values|
    requires (forall n :: n in graph.nodes ==> n.id in layer) && Fills(byCol, graph.nodes, col)
    requires forall c :: c in byCol ==> |byCol[c]| <= maxRows
    requires maxRows == 0 || exists c :: c in byCol && |byCol[c]| == maxRows
    ensures FitsSize(graph, layer, Max(PAD * 2 + columns * (NODE_W + COL_GAP), 400),
                     Max(PAD * 2 + maxRows * (NODE_H + ROW_GAP), 160))
  {
    hide LayersBelow;
    var nodes := graph.nodes;
    forall l ensures InLayer(nodes, layer, l, |nodes|) <= maxRows {
      if l in layer.Values {
        var id :| id in layer && layer[id] == l;
        LayerIsColumn(nodes, layer, col, byCol, id);
      } else {
        NothingInLayer(nodes, layer, l, |nodes|);
      }
    }
    if c :| c in byCol && |byCol[c]| == maxRows && maxRows > 0 {
      var n := byCol[c][0];
      assert Column(byCol, c) == InColumn(nodes, col, c);
      InColumnMembers(nodes, col, c);
      assert n in InColumn(nodes, col, c);
      LayerIsColumn(nodes, layer, col, byCol, n.id);
      assert InLayer(nodes, layer, layer[n.id], |nodes|) == maxRows;
    }
    assert FullestHas(nodes, layer, maxRows);
  }

  lemma LayerIsColumn(nodes: seq<Node>, layer: map<string, int>, col: map<string, nat>, byCol: Columns, id: string)
    requires FollowsLayers(layer, col) && (forall n :: n in nodes ==> n.id in layer)
    requires Fills(byCol, nodes, col) && id in layer
    ensures InLayer(nodes, layer, layer[id], |nodes|) == |Column(byCol, col[id])|
  {
    hide LayersBelow;
    ColumnHolds(nodes, layer, col, layer[id], col[id], |nodes|);
    assert nodes[..|nodes|] == nodes;
    assert Column(byCol, col[id]) == InColumn(nodes, col, col[id]);
  }

  lemma LeftToRight(layer: map<string, int>, col: map<string, nat>, pos: map<string, Positioned>)
    requires col.Keys == layer.Keys
    requires forall a, b :: a in layer && b in layer ==> (layer[a] < layer[b] <==> col[a] < col[b])
    requires forall id :: id in pos ==> id in col && pos[id].x == PAD + col[id] * (NODE_W + COL_GAP)
    ensures forall a, b :: a in pos && b in pos && a in layer && b in layer ==>
              (layer[a] < layer[b] <==> pos[a].x < pos[b].x)
  {
    forall a, b | a in pos && b in pos && a in layer && b in layer
      ensures layer[a] < layer[b] <==> pos[a].x < pos[b].x
    {
      assert col[a] < col[b] <==> pos[a].x < pos[b].x;
    }
  }

  lemma NodesAreLayered(graph: LineageGraph, layer: map<string, int>)
    requires LayersOk(graph, layer)
    ensures forall n :: n in graph.nodes ==> n.id in layer
  {
    forall n | n in graph.nodes ensures n.id in layer {
      assert n.id in Ids(graph.nodes);
    }
  }

  lemma PlacementOk(nodes: seq<Node>, col: map<string, nat>, byCol: Columns, pos: map<string, Positioned>,
                    columns: nat, maxRows: nat)
    requires (forall n :: n in nodes ==> n.id in col) && Fills(byCol, nodes, col)
    requires forall v :: v in col ==> col[v] < columns
    requires forall c :: c in byCol ==> |byCol[c]| <= maxRows
    requires forall id :: id in pos ==> Placed(byCol, id, pos[id])
    requires forall c, row :: c in byCol && 0 <= row < |byCol[c]| ==> byCol[c][row].id in pos
    ensures pos.Keys == Ids(nodes)
    ensures forall id :: id in pos ==>
              id in col && pos[id].id == id && pos[id].x == PAD + col[id] * (NODE_W + COL_GAP)
              && Inside(pos[id], WidthOf(columns), HeightOf(maxRows))
    ensures forall a, b :: a in pos && b in pos && a != b ==> Disjoint(pos[a], pos[b])
  {
    forall id | id in pos
      ensures id in col && pos[id].id == id && pos[id].x == PAD + col[id] * (NODE_W + COL_GAP)
      ensures id in Ids(nodes) && Inside(pos[id], WidthOf(columns), HeightOf(maxRows))
    {
      PlacedInColumn(nodes, col, byCol, id, pos[id], columns, maxRows);
    }
    forall n | n in nodes ensures n.id in pos {
      NodeHasRow(nodes, col, byCol, n);
    }
    forall a, b | a in pos && b in pos && a != b ensures Disjoint(pos[a], pos[b]) {
      CellsDisjoint(byCol, a, pos[a], b, pos[b]);
    }
  }

  /** colIndex.get(layer.get(id)) for every id. */
  method ColumnsOf(layer: map<string, int>) returns (col: map<string, nat>, columns: nat)
    ensures col.Keys == layer.Keys && columns == |layer.Values| && FollowsLayers(layer, col)
    ensures forall id :: id in col ==> col[id] < columns
    ensures forall a, b :: a in layer && b in layer ==> (layer[a] < layer[b] <==> col[a] < col[b])
  {
    hide LayersBelow, FollowsLayers;
    var layers := SortedLayers(layer.Values);
    var colIndex := ColumnIndex(layers);
    forall id | id in layer ensures layer[id] in colIndex {
      assert layer[id] in layer.Values;
      Listed(layers, layer.Values, layer[id]);
    }
    col := map id | id in layer :: colIndex[layer[id]];
    columns := |layers|;
    ColumnsFollowLayers(layer, layers, colIndex, col);
    ColumnsAreRanks(layer, layers, colIndex, col);
  }

  lemma ColumnsAreRanks(layer: map<string, int>, layers: seq<int>, index: map<int, nat>, col: map<string, nat>)
    requires Lists(layers, layer.Values) && forall l :: l in index <==> l in layers
    requires forall i :: 0 <= i < |layers| ==> layers[i] in index && index[layers[i]] == i
    requires col.Keys == layer.Keys
    requires forall id :: id in layer ==> layer[id] in index && col[id] == index[layer[id]]
    ensures FollowsLayers(layer, col) && |layers| == |layer.Values|
  {
    hide LayersBelow;
    forall id | id in col ensures col[id] == |LayersBelow(layer, layer[id])|
                          ensures col[id] < |layers| && layers[col[id]] == layer[id] {
      assert layer[id] in index;
      var i :| 0 <= i < |layers| && layers[i] == layer[id];
      RankIsColumn(layer, layers, i);
    }
    PrefixSize(layers, |layers|);
    assert layers[..|layers|] == layers;
    MembersAre(layers, layer.Values);
  }

  lemma ColumnsFollowLayers(layer: map<string, int>, layers: seq<int>, index: map<int, nat>, col: map<string, nat>)
    requires Lists(layers, layer.Values) && forall l :: l in index <==> l in layers
    requires forall i :: 0 <= i < |layers| ==> layers[i] in index && index[layers[i]] == i
    requires col.Keys == layer.Keys
    requires forall id :: id in layer ==> layer[id] in index && col[id] == index[layer[id]]
    ensures forall id :: id in col ==> col[id] < |layers|
    ensures forall a, b :: a in layer && b in layer ==> (layer[a] < layer[b] <==> col[a] < col[b])
  {
    forall id | id in layer ensures col[id] < |layers| && layers[col[id]] == layer[id] {
      assert layer[id] in index;
      var i :| 0 <= i < |layers| && layers[i] == layer[id];
    }
  }

  lemma PlacedInColumn(nodes: seq<Node>, col: map<string, nat>, byCol: Columns, id: string, p: Positioned,
                       columns: nat, maxRows: nat)
    requires (forall n :: n in nodes ==> n.id in col) && Fills(byCol, nodes, col) && Placed(byCol, id, p)
    requires forall v :: v in col ==> col[v] < columns
    requires forall c :: c in byCol ==> |byCol[c]| <= maxRows
    ensures id in col && id in Ids(nodes) && p.id == id && p.x == PAD + col[id] * (NODE_W + COL_GAP)
    ensures Inside(p, WidthOf(columns), HeightOf(maxRows))
  {
    var c: nat, row: nat :| PlacedAt(byCol, id, p, c, row);
    assert Column(byCol, c) == InColumn(nodes, col, c);
    InColumnMembers(nodes, col, c);
    assert byCol[c][row] in byCol[c];
  }

  lemma NodeHasRow(nodes: seq<Node>, col: map<string, nat>, byCol: Columns, n: Node)
    requires (forall m :: m in nodes ==> m.id in col) && Fills(byCol, nodes, col) && n in nodes
    ensures exists row :: col[n.id] in byCol && 0 <= row < |byCol[col[n.id]]| && byCol[col[n.id]][row].id == n.id
  {
    var c := col[n.id];
    assert Column(byCol, c) == InColumn(nodes, col, c);
    InColumnMembers(nodes, col, c);
    assert n in Column(byCol, c);
    var row :| 0 <= row < |Column(byCol, c)| && Column(byCol, c)[row] == n;
  }
}
