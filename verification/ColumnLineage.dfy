/** internal/lineage/columns.go: the column-lineage resolver. The functions say
    what each step computes; the methods below them are the source's loops over
    a mutable scope, proved to compute exactly that.

    The refs of one output column are a set: the source keeps a list whose order
    depends on Go's map iteration and whose duplicates dedupeEdges removes. */
module ColumnLineage {
  import opened Identifiers
  import opened SqlAst

  const MAX_COL_DEPTH: nat := 64
  const CONF_EXACT := "exact"
  const CONF_AMBIGUOUS := "ambiguous"

  datatype ColRef = ColRef(fqn: string, conf: string)

  /** Output column name -> upstream base columns. */
  type ProjMap = map<string, set<ColRef>>

  /** Visible CTEs. */
  type Env = map<string, ProjMap>

  datatype ScopeView = ScopeView(
    tables: map<string, string>, derived: map<string, ProjMap>, bases: seq<string>)

  const EMPTY_SCOPE := ScopeView(map[], map[], [])

  datatype Edge = Edge(
    upstream: string, downstream: string, edgeType: string,
    origin: string, confidence: string, queryHash: string)

  function ColumnFqn(table: string, col: string): string {
    table + "." + col
  }

  /** A Go map read: the zero value when the key is missing. */
  function Get(p: ProjMap, key: string): set<ColRef> {
    if key in p then p[key] else {}
  }

  function Append(p: ProjMap, key: string, refs: set<ColRef>): ProjMap {
    p[key := Get(p, key) + refs]
  }

  /** The dotted name parts before the first star, and whether there is one. */
  function FieldNames(fields: seq<Field>): (seq<string>, bool) {
    if |fields| == 0 then ([], false)
    else match fields[0]
      case Star => ([], true)
      case OtherField => FieldNames(fields[1..])
      case Name(text) =>
        var (rest, star) := FieldNames(fields[1..]);
        ([text] + rest, star)
  }

  lemma OneName(s: string)
    ensures FieldNames([Name(s)]) == ([s], false)
  {
    var fields := [Name(s)];
    assert fields[1..] == [];
    assert FieldNames(fields[1..]) == ([], false);
    assert [s] + [] == [s];
  }

  function TargetName(t: Target): Option<string> {
    if t.name != "" then Some(t.name)
    else if t.val.Ref? then
      var (parts, star) := FieldNames(t.val.fields);
      if !star && |parts| > 0 then Some(parts[|parts| - 1]) else None
    else None
  }

  function ColumnRefsIn(e: Expr, depth: nat): seq<seq<Field>>
    decreases e, 1, 0
  {
    if e.Absent? || depth > MAX_COL_DEPTH then []
    else if e.Ref? then [e.fields]
    else RefsInOperands(e, WalkedOperands(e), depth + 1)
  }

  function RefsInOperands(e: Expr, operands: seq<Expr>, depth: nat): seq<seq<Field>>
    requires forall i :: 0 <= i < |operands| ==> operands[i] < e
    decreases e, 0, |operands|
  {
    if |operands| == 0 then []
    else ColumnRefsIn(operands[0], depth) + RefsInOperands(e, operands[1..], depth)
  }

  function DerivedRefs(derived: map<string, ProjMap>, col: string): set<ColRef> {
    set a, r | a in derived && r in Get(derived[a], col) :: r
  }

  function Demote(refs: set<ColRef>): set<ColRef> {
    set r | r in refs :: ColRef(r.fqn, CONF_AMBIGUOUS)
  }

  function BaseRefs(bases: seq<string>, col: string, conf: string): set<ColRef> {
    set b | b in bases :: ColRef(ColumnFqn(b, col), conf)
  }

  function Resolve(sc: ScopeView, fields: seq<Field>): set<ColRef> {
    var (parts, star) := FieldNames(fields);
    if star || |parts| == 0 then {}
    else
      var col := parts[|parts| - 1];
      if |parts| >= 2 then
        var qual := Lower(parts[|parts| - 2]);
        if qual in sc.tables then {ColRef(ColumnFqn(sc.tables[qual], col), CONF_EXACT)}
        else if qual in sc.derived then Get(sc.derived[qual], Lower(col))
        else {}
      else if |sc.bases| == 1 && |sc.derived| == 0 then
        {ColRef(ColumnFqn(sc.bases[0], col), CONF_EXACT)}
      else if |sc.bases| == 0 && |sc.derived| == 1 then
        DerivedRefs(sc.derived, Lower(col))
      else
        BaseRefs(sc.bases, col, CONF_AMBIGUOUS) + Demote(DerivedRefs(sc.derived, Lower(col)))
  }

  function ResolveAll(sc: ScopeView, refs: seq<seq<Field>>): set<ColRef> {
    if |refs| == 0 then {}
    else ResolveAll(sc, refs[..|refs| - 1]) + Resolve(sc, refs[|refs| - 1])
  }

  function ProjectTargets(targets: seq<Target>, sc: ScopeView): ProjMap {
    if |targets| == 0 then map[]
    else
      var proj := ProjectTargets(targets[..|targets| - 1], sc);
      var t := targets[|targets| - 1];
      match TargetName(t)
      case None => proj
      case Some(name) => Append(proj, Lower(name), ResolveAll(sc, ColumnRefsIn(t.val, 0)))
  }

  function Joined(left: ProjMap, right: ProjMap, key: string): set<ColRef> {
    Get(left, key) + Get(right, key)
  }

  function MergeArms(left: ProjMap, right: ProjMap): ProjMap {
    map k | k in left.Keys + right.Keys :: Joined(left, right, k)
  }

  function Project(sel: Select, outer: Env, depth: nat): ProjMap
    decreases sel, 2
  {
    if depth > MAX_COL_DEPTH then map[]
    else if sel.larg.Some? || sel.rarg.Some? then
      MergeArms(
        if sel.larg.Some? then Project(sel.larg.value, outer, depth + 1) else map[],
        if sel.rarg.Some? then Project(sel.rarg.value, outer, depth + 1) else map[])
    else ProjectTargets(sel.targets, ScopeOf(sel, outer, depth))
  }

  function ScopeOf(sel: Select, outer: Env, depth: nat): ScopeView
    decreases sel, 1
  {
    ExtendAll(EMPTY_SCOPE, sel.from, WithCtes(sel.ctes, outer, depth), depth)
  }

  function WithCtes(ctes: seq<Cte>, outer: Env, depth: nat): Env
    decreases ctes, 0
  {
    if |ctes| == 0 then outer
    else
      var env := WithCtes(ctes[..|ctes| - 1], outer, depth);
      var cte := ctes[|ctes| - 1];
      if cte.query.Some? then
        env[Lower(cte.name) := Project(cte.query.value, env, depth + 1)]
      else env
  }

  function ExtendAll(sc: ScopeView, fs: seq<From>, env: Env, depth: nat): ScopeView
    decreases fs, 0
  {
    if |fs| == 0 then sc
    else Extend(ExtendAll(sc, fs[..|fs| - 1], env, depth), fs[|fs| - 1], env, depth)
  }

  function Extend(sc: ScopeView, f: From, env: Env, depth: nat): ScopeView
    decreases f, 0
  {
    match f
    case RangeVar(schema, rel, _) =>
      if Lower(rel) in env && schema == "" then
        sc.(derived := sc.derived[Lower(AliasOf(f)) := env[Lower(rel)]])
      else
        sc.(tables := sc.tables[Lower(AliasOf(f)) := RelationName(schema, rel)],
            bases := sc.bases + [RelationName(schema, rel)])
    case RangeSubselect(sub, alias) =>
      if alias != "" && sub.Some? then
        sc.(derived := sc.derived[Lower(alias) := Project(sub.value, env, depth + 1)])
      else sc
    case JoinExpr(l, r) => Extend(Extend(sc, l, env, depth), r, env, depth)
    case FromOther => sc
  }

  /** The column edges of a statement writing `query` into `downstream`. */
  function ColumnEdges(query: Option<Select>, downstream: string, hash: string): set<Edge> {
    if query.None? then {}
    else
      var proj := Project(query.value, map[], 0);
      set c, r | c in proj && r in proj[c] && r.fqn != "" ::
        Edge(r.fqn, ColumnFqn(downstream, c), "column", "", r.conf, hash)
  }

  // ---- the source's loops -------------------------------------------------

  /** One SELECT level's symbol table. */
  class Scope {
    var tables: map<string, string>
    var derived: map<string, ProjMap>
    var bases: seq<string>

    constructor ()
      ensures View() == EMPTY_SCOPE
    {
      tables, derived, bases := map[], map[], [];
    }

    function View(): ScopeView
      reads this
    {
      ScopeView(tables, derived, bases)
    }

    method AddFrom(f: From, env: Env, depth: nat)
      modifies this
      ensures View() == Extend(old(View()), f, env, depth)
      decreases f, 0
    {
      match f {
        case RangeVar(schema, rel, alias) =>
          var name := rel;
          if alias != "" {
            name := alias;
          }
          if Lower(rel) in env && schema == "" {
            derived := derived[Lower(name) := env[Lower(rel)]];
            return;
          }
          var fqn := rel;
          if schema != "" {
            fqn := schema + "." + rel;
          }
          tables := tables[Lower(name) := fqn];
          bases := bases + [fqn];
        case RangeSubselect(sub, alias) =>
          if alias != "" {
            if sub.Some? {
              var p := Projection(sub.value, env, depth + 1);
              derived := derived[Lower(alias) := p];
            }
          }
        case JoinExpr(l, r) =>
          AddFrom(l, env, depth);
          AddFrom(r, env, depth);
        case FromOther =>
      }
    }

    method ResolveColumn(fields: seq<Field>) returns (out: set<ColRef>)
      ensures out == Resolve(View(), fields)
    {
      var (parts, star) := FieldNames(fields);
      if star || |parts| == 0 {
        return {};
      }
      var col := parts[|parts| - 1];
      if |parts| >= 2 {
        var qual := Lower(parts[|parts| - 2]);
        if qual in tables {
          return {ColRef(ColumnFqn(tables[qual], col), CONF_EXACT)};
        }
        if qual in derived {
          return Get(derived[qual], Lower(col));
        }
        return {};
      }
      if |bases| == 1 && |derived| == 0 {
        return {ColRef(ColumnFqn(bases[0], col), CONF_EXACT)};
      }
      if |bases| == 0 && |derived| == 1 {
        SoleKey(derived);
        var a :| a in derived;
        assert forall b :: b in derived ==> b == a;
        return Get(derived[a], Lower(col));
      }
      out := {};
      for i := 0 to |bases|
        invariant out == set b | b in bases[..i] :: ColRef(ColumnFqn(b, col), CONF_AMBIGUOUS)
      {
        out := out + {ColRef(ColumnFqn(bases[i], col), CONF_AMBIGUOUS)};
      }
      assert bases[..|bases|] == bases;
      ghost var fromBases := out;
      var todo := derived.Keys;
      while todo != {}
        invariant todo <= derived.Keys
        invariant out == fromBases + (set a, r | a in derived && a !in todo && r in Get(derived[a], Lower(col))
                                        :: ColRef(r.fqn, CONF_AMBIGUOUS))
      {
        var a :| a in todo;
        out := out + Demote(Get(derived[a], Lower(col)));
        todo := todo - {a};
      }
      assert (set a, r | a in derived && a !in todo && r in Get(derived[a], Lower(col))
                :: ColRef(r.fqn, CONF_AMBIGUOUS))
          == Demote(DerivedRefs(derived, Lower(col)));
    }
  }

  lemma SoleKey(m: map<string, ProjMap>)
    requires |m| == 1
    ensures exists a :: a in m && forall b :: b in m ==> b == a
  {
    assert m.Keys != {};
    var a :| a in m.Keys;
    assert |m.Keys - {a}| == 0;
    assert forall b :: b in m ==> b == a || b in m.Keys - {a};
  }

  method MergeInto(left: ProjMap, right: ProjMap) returns (merged: ProjMap)
    ensures merged == MergeArms(left, right)
  {
    merged := left;
    MergeNothing(left);
    ghost var done: ProjMap := map[];
    var todo := right.Keys;
    while todo != {}
      invariant todo <= right.Keys
      invariant done == right - todo
      invariant merged == MergeArms(left, done)
    {
      var k :| k in todo;
      MergeOne(left, done, k, right[k]);
      merged := Append(merged, k, right[k]);
      done := done[k := right[k]];
      todo := todo - {k};
    }
    assert done == right;
  }

  lemma MergeNothing(left: ProjMap)
    ensures MergeArms(left, map[]) == left
  {
    var merged := MergeArms(left, map[]);
    assert merged.Keys == left.Keys;
    assert forall k :: k in left ==> merged[k] == left[k];
  }

  lemma MergeOne(left: ProjMap, right: ProjMap, k: string, refs: set<ColRef>)
    requires k !in right
    ensures MergeArms(left, right[k := refs]) == Append(MergeArms(left, right), k, refs)
  {
    var more := MergeArms(left, right[k := refs]);
    var one := Append(MergeArms(left, right), k, refs);
    assert more.Keys == one.Keys;
    forall j | j in more ensures more[j] == one[j] {
      assert Get(right[k := refs], j) == if j == k then refs else Get(right, j);
    }
  }

  lemma ResolveAllStep(sc: ScopeView, refs: seq<seq<Field>>, j: nat)
    requires j < |refs|
    ensures ResolveAll(sc, refs[..j + 1]) == ResolveAll(sc, refs[..j]) + Resolve(sc, refs[j])
  {
    assert refs[..j + 1][..j] == refs[..j];
  }

  method RefsOf(sc: Scope, val: Expr) returns (refs: set<ColRef>)
    ensures refs == ResolveAll(sc.View(), ColumnRefsIn(val, 0))
  {
    refs := {};
    var leaves := ColumnRefsIn(val, 0);
    ghost var view := sc.View();
    for j := 0 to |leaves|
      invariant refs == ResolveAll(view, leaves[..j])
    {
      var more := sc.ResolveColumn(leaves[j]);
      ResolveAllStep(view, leaves, j);
      refs := refs + more;
    }
    assert leaves[..|leaves|] == leaves;
  }

  method Projection(sel: Select, outer: Env, depth: nat) returns (proj: ProjMap)
    ensures proj == Project(sel, outer, depth)
    decreases sel, 2
  {
    if depth > MAX_COL_DEPTH {
      return map[];
    }
    if sel.larg.Some? || sel.rarg.Some? {
      var left: ProjMap := map[];
      if sel.larg.Some? {
        left := Projection(sel.larg.value, outer, depth + 1);
      }
      var right: ProjMap := map[];
      if sel.rarg.Some? {
        right := Projection(sel.rarg.value, outer, depth + 1);
      }
      proj := MergeInto(left, right);
      return;
    }
    var sc := BuildScope(sel, outer, depth);
    proj := map[];
    for i := 0 to |sel.targets|
      invariant proj == ProjectTargets(sel.targets[..i], sc.View())
      invariant sc.View() == ScopeOf(sel, outer, depth)
    {
      var t := sel.targets[i];
      assert sel.targets[..i + 1][..i] == sel.targets[..i];
      var name := TargetName(t);
      if name.Some? {
        var refs := RefsOf(sc, t.val);
        proj := Append(proj, Lower(name.value), refs);
      }
    }
    assert sel.targets[..|sel.targets|] == sel.targets;
  }

  method BuildScope(sel: Select, outer: Env, depth: nat) returns (sc: Scope)
    ensures fresh(sc)
    ensures sc.View() == ScopeOf(sel, outer, depth)
    decreases sel, 1
  {
    sc := new Scope();
    var env := outer;
    for i := 0 to |sel.ctes|
      invariant env == WithCtes(sel.ctes[..i], outer, depth)
      invariant sc.View() == EMPTY_SCOPE
    {
      var cte := sel.ctes[i];
      assert sel.ctes[..i + 1][..i] == sel.ctes[..i];
      if cte.query.Some? {
        var p := Projection(cte.query.value, env, depth + 1);
        env := env[Lower(cte.name) := p];
      }
    }
    assert sel.ctes[..|sel.ctes|] == sel.ctes;
    for i := 0 to |sel.from|
      invariant sc.View() == ExtendAll(EMPTY_SCOPE, sel.from[..i], env, depth)
    {
      assert sel.from[..i + 1][..i] == sel.from[..i];
      sc.AddFrom(sel.from[i], env, depth);
    }
    assert sel.from[..|sel.from|] == sel.from;
  }

  method ResolveColumns(query: Option<Select>, downstream: string, hash: string)
      returns (edges: seq<Edge>)
    ensures (set e | e in edges) == ColumnEdges(query, downstream, hash)
  {
    edges := [];
    if query.None? {
      return;
    }
    var proj := Projection(query.value, map[], 0);
    var todo := proj.Keys;
    while todo != {}
      invariant todo <= proj.Keys
      invariant forall e :: e in edges <==> exists c, r ::
        c in proj && c !in todo && r in proj[c] && r.fqn != ""
        && e == Edge(r.fqn, ColumnFqn(downstream, c), "column", "", r.conf, hash)
    {
      var c :| c in todo;
      var refs := proj[c];
      ghost var before := edges;
      while refs != {}
        invariant refs <= proj[c]
        invariant forall e :: e in edges <==> e in before || exists r ::
          r in proj[c] && r !in refs && r.fqn != ""
          && e == Edge(r.fqn, ColumnFqn(downstream, c), "column", "", r.conf, hash)
      {
        var r :| r in refs;
        if r.fqn != "" {
          edges := edges + [Edge(r.fqn, ColumnFqn(downstream, c), "column", "", r.conf, hash)];
        }
        refs := refs - {r};
      }
      todo := todo - {c};
    }
  }
}
