/** What internal/lineage/columns.go makes of the simplest queries, edge for edge,
    with nothing of the resolver in the statements but its result. */
module ResolverCases {
  import opened Identifiers
  import opened SqlAst
  import opened ColumnLineage
  import LineageCtes
  import LineageConfidence

  // ---- names --------------------------------------------------------------------------

  /** The dotted parts of a reference are its names in order. */
  lemma {:induction false} PartsAreNames(names: seq<string>)
    ensures var fields := seq(|names|, i requires 0 <= i < |names| => Name(names[i]));
            FieldNames(fields) == (names, false) && FieldNames(fields + [Star]) == (names, true)
  {
    var fields: seq<Field> := seq(|names|, i requires 0 <= i < |names| => Name(names[i]));
    if |names| > 0 {
      var rest: seq<Field> := seq(|names| - 1, i requires 0 <= i < |names| - 1 => Name(names[1..][i]));
      PartsAreNames(names[1..]);
      assert fields[1..] == rest && (fields + [Star])[1..] == rest + [Star];
      assert [names[0]] + names[1..] == names;
    } else {
      assert fields + [Star] == [Star];
    }
  }

  ghost predicate Unpadded(s: string) {
    |s| > 0 && !Blanks(s[..1]) && !Blanks(s[|s| - 1..])
  }

  /** The same letter, or the two cases of one. */
  ghost predicate SameLetter(a: char, b: char) {
    a == b || ('A' <= a <= 'Z' && b as int == a as int + 32) || ('A' <= b <= 'Z' && a as int == b as int + 32)
  }

  ghost predicate SameButForCase(a: string, b: string) {
    |a| == |b| && forall i :: 0 <= i < |a| ==> SameLetter(a[i], b[i])
  }

  lemma Unpad(l: string, s: string, r: string)
    requires Blanks(l) && Unpadded(s) && Blanks(r)
    ensures TrimRight(TrimLeft(l + s + r)) == s
  {
    assert s[..1][0] == s[0] && s[|s| - 1..][0] == s[|s| - 1];
    assert l + s + r == l + (s + r);
    LeftBlanks(l, s + r);
    RightBlanks(s, r);
  }

  /** Names are compared without the blanks around them and without case. */
  lemma NamesMatchIff(l: string, a: string, r: string, l': string, b: string, r': string)
    requires Blanks(l) && Unpadded(a) && Blanks(r) && Blanks(l') && Unpadded(b) && Blanks(r')
    ensures Lower(l + a + r) == Lower(l' + b + r') <==> SameButForCase(a, b)
  {
    Unpad(l, a, r);
    Unpad(l', b, r');
    var x, y := Lower(l + a + r), Lower(l' + b + r');
    assert |x| == |a| && |y| == |b|;
    assert forall i :: 0 <= i < |a| ==> x[i] == LowerChar(a[i]);
    assert forall i :: 0 <= i < |b| ==> y[i] == LowerChar(b[i]);
    if SameButForCase(a, b) {
      forall i | 0 <= i < |x| ensures x[i] == y[i] {
        assert SameLetter(a[i], b[i]);
      }
    }
    if x == y {
      forall i | 0 <= i < |a| ensures SameLetter(a[i], b[i]) {
        assert x[i] == y[i];
      }
    }
  }

  // ---- one table ------------------------------------------------------------------------

  /** SELECT fields AS name FROM schema.rel AS alias; an empty string is not written. */
  ghost function OneTable(schema: string, rel: string, alias: string, fields: seq<Field>, name: string): Select {
    Select(None, None, false, [], [RangeVar(schema, rel, alias)], [Target(name, Ref(fields))])
  }

  ghost function FullName(schema: string, rel: string): string {
    if schema == "" then rel else schema + "." + rel
  }

  ghost function ExactEdge(table: string, col: string, downstream: string, name: string, hash: string): Edge {
    Edge(table + "." + col, downstream + "." + Lower(if name == "" then col else name), "column", "", "exact", hash)
  }

  lemma OneTableScope(schema: string, rel: string, alias: string, fields: seq<Field>, name: string)
    ensures ScopeOf(OneTable(schema, rel, alias, fields, name), map[], 0)
         == ScopeView(map[Lower(if alias == "" then rel else alias) := FullName(schema, rel)], map[],
                      [FullName(schema, rel)])
  {
    var item := RangeVar(schema, rel, alias);
    LineageCtes.WithCtesNone(map[], 0);
    LineageCtes.OneFromItem(EMPTY_SCOPE, item, map[], 0);
  }

  lemma OneColumn(sel: Select, fields: seq<Field>, name: string, key: string)
    requires sel.larg.None? && sel.rarg.None? && sel.targets == [Target(name, Ref(fields))]
    requires TargetName(Target(name, Ref(fields))) == Some(key)
    ensures Project(sel, map[], 0) == map[Lower(key) := Resolve(ScopeOf(sel, map[], 0), fields)]
  {
    hide Lower, Resolve, ScopeOf, TargetName, ResolveAll;
    var t, sc := Target(name, Ref(fields)), ScopeOf(sel, map[], 0);
    LineageCtes.ProjectOne(t, sc, key);
    LineageCtes.ResolveOne(sc, fields);
    assert ColumnRefsIn(t.val, 0) == [fields];
    assert {} + Resolve(sc, fields) == Resolve(sc, fields);
  }

  lemma EdgesOfOne(sel: Select, key: string, refs: set<ColRef>, downstream: string, hash: string)
    requires Project(sel, map[], 0) == map[key := refs] && forall r :: r in refs ==> r.fqn != ""
    ensures ColumnEdges(Some(sel), downstream, hash)
         == set r | r in refs :: Edge(r.fqn, downstream + "." + key, "column", "", r.conf, hash)
  {
    hide Project;
    var proj: ProjMap := map[key := refs];
    forall r | r in refs
      ensures Edge(r.fqn, downstream + "." + key, "column", "", r.conf, hash)
              in ColumnEdges(Some(sel), downstream, hash)
    {
      assert key in proj && r in proj[key];
    }
  }

  /** Main result: SELECT q.col FROM schema.rel AS alias. The table answers to its
      alias, or without one to its name, and to nothing else; the edge is the one
      of that table's column, exact, under the name of the column or the written
      one. */
  lemma QualifierDecides(schema: string, rel: string, alias: string, q: string, col: string, name: string,
                         downstream: string, hash: string)
    ensures ColumnEdges(Some(OneTable(schema, rel, alias, [Name(q), Name(col)], name)), downstream, hash)
         == if Lower(q) == Lower(if alias == "" then rel else alias)
            then {ExactEdge(FullName(schema, rel), col, downstream, name, hash)} else {}
  {
    hide Project, ScopeOf, Lower;
    var sel := OneTable(schema, rel, alias, [Name(q), Name(col)], name);
    var key := if name == "" then col else name;
    TwoNames(q, col);
    OneColumn(sel, [Name(q), Name(col)], name, key);
    OneTableScope(schema, rel, alias, [Name(q), Name(col)], name);
    var refs := Resolve(ScopeOf(sel, map[], 0), [Name(q), Name(col)]);
    assert |FullName(schema, rel) + "." + col| > 0;
    EdgesOfOne(sel, Lower(key), refs, downstream, hash);
  }

  lemma TwoNames(a: string, b: string)
    ensures FieldNames([Name(a), Name(b)]) == ([a, b], false)
  {
    PartsAreNames([a, b]);
    var names := [a, b];
    var fields: seq<Field> := seq(|names|, i requires 0 <= i < |names| => Name(names[i]));
    assert fields == [Name(a), Name(b)];
  }

  /** SELECT col FROM schema.rel AS alias: the one table has it. */
  lemma SoleTableHasColumn(schema: string, rel: string, alias: string, col: string, name: string,
                           downstream: string, hash: string)
    ensures ColumnEdges(Some(OneTable(schema, rel, alias, [Name(col)], name)), downstream, hash)
         == {ExactEdge(FullName(schema, rel), col, downstream, name, hash)}
  {
    hide Project, ScopeOf, Lower;
    var sel := OneTable(schema, rel, alias, [Name(col)], name);
    var key := if name == "" then col else name;
    OneName(col);
    OneColumn(sel, [Name(col)], name, key);
    OneTableScope(schema, rel, alias, [Name(col)], name);
    assert |FullName(schema, rel) + "." + col| > 0;
    EdgesOfOne(sel, Lower(key), Resolve(ScopeOf(sel, map[], 0), [Name(col)]), downstream, hash);
  }

  // ---- two tables -----------------------------------------------------------------------

  /** SELECT col FROM a, b */
  ghost function TwoTables(a: string, b: string, col: string): Select {
    Select(None, None, false, [], [RangeVar("", a, ""), RangeVar("", b, "")], [Target("", Ref([Name(col)]))])
  }

  lemma TwoTablesScope(a: string, b: string, col: string)
    ensures var sc := ScopeOf(TwoTables(a, b, col), map[], 0); sc.bases == [a, b] && sc.derived == map[]
  {
    var fs := [RangeVar("", a, ""), RangeVar("", b, "")];
    LineageCtes.WithCtesNone(map[], 0);
    assert fs[..1] == [fs[0]];
    LineageCtes.OneFromItem(EMPTY_SCOPE, fs[0], map[], 0);
    assert ExtendAll(EMPTY_SCOPE, fs, map[], 0)
        == Extend(ExtendAll(EMPTY_SCOPE, fs[..1], map[], 0), fs[1], map[], 0);
  }

  lemma TwoCandidates(sc: ScopeView, a: string, b: string, col: string)
    requires sc.bases == [a, b] && sc.derived == map[]
    ensures Resolve(sc, [Name(col)]) == {ColRef(a + "." + col, "ambiguous"), ColRef(b + "." + col, "ambiguous")}
  {
    OneName(col);
    assert DerivedRefs(sc.derived, Lower(col)) == {} && Demote({}) == {};
    var refs := BaseRefs([a, b], col, CONF_AMBIGUOUS);
    forall r ensures r in refs
                <==> r == ColRef(a + "." + col, "ambiguous") || r == ColRef(b + "." + col, "ambiguous") {
      assert [a, b][0] == a && [a, b][1] == b;
      assert a in [a, b] && b in [a, b];
    }
  }

  /** Main result: an unqualified column of two tables may be of either, and both
      edges say so. */
  lemma EitherTableHasColumn(a: string, b: string, col: string, downstream: string, hash: string)
    ensures ColumnEdges(Some(TwoTables(a, b, col)), downstream, hash)
         == {Edge(a + "." + col, downstream + "." + Lower(col), "column", "", "ambiguous", hash),
             Edge(b + "." + col, downstream + "." + Lower(col), "column", "", "ambiguous", hash)}
  {
    hide Project, ScopeOf, Lower;
    var sel := TwoTables(a, b, col);
    OneName(col);
    OneColumn(sel, [Name(col)], "", col);
    TwoTablesScope(a, b, col);
    var refs := Resolve(ScopeOf(sel, map[], 0), [Name(col)]);
    TwoCandidates(ScopeOf(sel, map[], 0), a, b, col);
    assert |a + "." + col| > 0 && |b + "." + col| > 0;
    EdgesOfOne(sel, Lower(col), refs, downstream, hash);
  }

  // ---- the depth cap ----------------------------------------------------------------------

  /** SELECT col FROM (SELECT col FROM (... FROM t) AS s) AS s, n subqueries deep. */
  ghost function Nested(t: string, col: string, n: nat): Select {
    Select(None, None, false, [],
           [if n == 0 then RangeVar("", t, "") else RangeSubselect(Some(Nested(t, col, n - 1)), "s")],
           [Target("", Ref([Name(col)]))])
  }

  lemma {:induction false} NestedProjects(t: string, col: string, n: nat, depth: nat)
    ensures Project(Nested(t, col, n), map[], depth)
         == if depth > 64 then map[]
            else map[Lower(col) := if depth + n > 64 then {} else {ColRef(t + "." + col, "exact")}]
  {
    hide Lower, ProjectTargets;
    if depth <= 64 {
      var sel := Nested(t, col, n);
      var sc := ScopeOf(sel, map[], depth);
      LineageCtes.WithCtesNone(map[], depth);
      LineageCtes.OneFromItem(EMPTY_SCOPE, sel.from[0], map[], depth);
      LineageCtes.OneTarget(col, sc);
      OneName(col);
      if n > 0 {
        NestedProjects(t, col, n - 1, depth + 1);
        var inner := Project(Nested(t, col, n - 1), map[], depth + 1);
        assert sc.derived == map[Lower("s") := inner] && sc.bases == [];
        OneDerivedRefs(Lower("s"), inner, Lower(col));
      }
    }
  }

  lemma OneDerivedRefs(alias: string, p: ProjMap, key: string)
    ensures DerivedRefs(map[alias := p], key) == Get(p, key)
  {
    var derived := map[alias := p];
    assert alias in derived && derived[alias] == p;
  }

  /** Main result: lineage is traced through 64 nested subqueries and through no
      more. */
  lemma NestingCap(t: string, col: string, n: nat, downstream: string, hash: string)
    ensures ColumnEdges(Some(Nested(t, col, n)), downstream, hash)
         == if n <= 64 then {ExactEdge(t, col, downstream, "", hash)} else {}
  {
    hide Project, Lower;
    NestedProjects(t, col, n, 0);
    assert |t + "." + col| > 0;
    EdgesOfOne(Nested(t, col, n), Lower(col), if n > 64 then {} else {ColRef(t + "." + col, "exact")},
               downstream, hash);
  }

  /** A reference under n casts. */
  ghost function Casts(fields: seq<Field>, n: nat): Expr {
    if n == 0 then Ref(fields) else TypeCast("t", Casts(fields, n - 1))
  }

  /** And a reference under 64 nested expression nodes, and under no more. */
  lemma {:induction false} ExpressionCap(fields: seq<Field>, n: nat, depth: nat)
    ensures ColumnRefsIn(Casts(fields, n), depth) == if depth + n <= 64 then [fields] else []
  {
    if n > 0 && depth <= 64 {
      var e := Casts(fields, n);
      ExpressionCap(fields, n - 1, depth + 1);
      assert RefsInOperands(e, [e.arg], depth + 1)
          == ColumnRefsIn(e.arg, depth + 1) + RefsInOperands(e, [e.arg][1..], depth + 1);
    }
  }

  // ---- a CTE ------------------------------------------------------------------------------

  /** WITH x AS (SELECT col FROM t) SELECT col FROM y */
  ghost function WithOne(x: string, t: string, y: string, col: string): Select {
    Select(None, None, false, [Cte(x, Some(Nested(t, col, 0)))], [RangeVar("", y, "")],
           [Target("", Ref([Name(col)]))])
  }

  /** Main result: y is the CTE if it is spelled like x but for case and blanks
      around, else a table. */
  lemma CteIsFound(x: string, t: string, y: string, col: string, downstream: string, hash: string)
    ensures ColumnEdges(Some(WithOne(x, t, y, col)), downstream, hash)
         == {ExactEdge(if Lower(y) == Lower(x) then t else y, col, downstream, "", hash)}
  {
    hide Lower, ProjectTargets;
    var sel := WithOne(x, t, y, col);
    var table := if Lower(y) == Lower(x) then t else y;
    var inner := Project(Nested(t, col, 0), map[], 1);
    NestedProjects(t, col, 0, 1);
    LineageCtes.WithCtesStep(sel.ctes, map[], 0);
    LineageCtes.WithCtesNone(map[], 0);
    assert sel.ctes[..0] == [];
    var env: Env := map[Lower(x) := inner];
    assert WithCtes(sel.ctes, map[], 0) == env;
    LineageCtes.OneFromItem(EMPTY_SCOPE, sel.from[0], env, 0);
    var sc := ScopeOf(sel, map[], 0);
    LineageCtes.OneTarget(col, sc);
    OneName(col);
    if Lower(y) == Lower(x) {
      assert sc.derived == map[Lower(y) := inner] && sc.bases == [];
      OneDerivedRefs(Lower(y), inner, Lower(col));
    }
    assert |table + "." + col| > 0;
    EdgesOfOne(sel, Lower(col), {ColRef(table + "." + col, "exact")}, downstream, hash);
  }
}
