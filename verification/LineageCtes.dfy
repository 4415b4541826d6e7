/** Which CTEs a query of internal/lineage/columns.go sees. A projection depends on
    the visible CTEs through the relation names its FROM items write without a
    schema, and through nothing else; two consequences are a set operation that
    loses its own WITH and a recursive CTE that reads itself as a table. */
module LineageCtes {
  import opened Identifiers
  import opened SqlAst
  import opened ColumnLineage

  // ---- the names a query reads -----------------------------------------------------------

  /** The names, folded, that FROM items of the query write without a schema. */
  ghost function NamesRead(sel: Select): set<string>
    decreases sel, 1
  {
    NamesReadByFroms(sel.from) + NamesReadByCtes(sel.ctes)
    + (if sel.larg.Some? then NamesRead(sel.larg.value) else {})
    + (if sel.rarg.Some? then NamesRead(sel.rarg.value) else {})
  }

  ghost function NamesReadByFroms(fs: seq<From>): set<string>
    decreases fs, 0
  {
    if |fs| == 0 then {} else NamesReadByFroms(fs[..|fs| - 1]) + NamesReadByFrom(fs[|fs| - 1])
  }

  ghost function NamesReadByFrom(f: From): set<string>
    decreases f, 0
  {
    match f
    case RangeVar(schema, rel, _) => if schema == "" then {Lower(rel)} else {}
    case RangeSubselect(sub, _) => if sub.Some? then NamesRead(sub.value) else {}
    case JoinExpr(l, r) => NamesReadByFrom(l) + NamesReadByFrom(r)
    case FromOther => {}
  }

  ghost function NamesReadByCtes(ctes: seq<Cte>): set<string>
    decreases ctes, 0
  {
    if |ctes| == 0 then {}
    else
      var cte := ctes[|ctes| - 1];
      NamesReadByCtes(ctes[..|ctes| - 1]) + if cte.query.Some? then NamesRead(cte.query.value) else {}
  }

  ghost predicate SameAt(a: Env, b: Env, name: string) {
    (name in a <==> name in b) && (name in a ==> a[name] == b[name])
  }

  ghost predicate SameOn(a: Env, b: Env, names: set<string>) {
    forall n :: n in names ==> SameAt(a, b, n)
  }

  /** Main result: environments that agree on the names a query reads give it the
      same projection, at every depth. */
  lemma ProjectionFrame(sel: Select, a: Env, b: Env, depth: nat)
    requires SameOn(a, b, NamesRead(sel))
    ensures Project(sel, a, depth) == Project(sel, b, depth)
    decreases sel, 1
  {
    if depth > MAX_COL_DEPTH {
    } else if sel.larg.Some? || sel.rarg.Some? {
      if sel.larg.Some? {
        ProjectionFrame(sel.larg.value, a, b, depth + 1);
      }
      if sel.rarg.Some? {
        ProjectionFrame(sel.rarg.value, a, b, depth + 1);
      }
    } else {
      CtesFrame(sel.ctes, a, b, depth, NamesRead(sel));
      FromsFrame(EMPTY_SCOPE, sel.from, WithCtes(sel.ctes, a, depth), WithCtes(sel.ctes, b, depth), depth);
    }
  }

  lemma WithCtesStep(ctes: seq<Cte>, env: Env, depth: nat)
    requires |ctes| > 0
    ensures var before, cte := WithCtes(ctes[..|ctes| - 1], env, depth), ctes[|ctes| - 1];
            WithCtes(ctes, env, depth)
            == if cte.query.Some? then before[Lower(cte.name) := Project(cte.query.value, before, depth + 1)]
               else before
  {
  }

  lemma CtesFrame(ctes: seq<Cte>, a: Env, b: Env, depth: nat, names: set<string>)
    requires SameOn(a, b, names) && NamesReadByCtes(ctes) <= names
    ensures SameOn(WithCtes(ctes, a, depth), WithCtes(ctes, b, depth), names)
    decreases ctes, 0
  {
    hide WithCtes, Project, NamesRead, Lower;
    if |ctes| == 0 {
      WithCtesNone(a, depth);
      WithCtesNone(b, depth);
      assert ctes == [];
    } else {
      var n := |ctes| - 1;
      WithCtesStep(ctes, a, depth);
      WithCtesStep(ctes, b, depth);
      CtesFrame(ctes[..n], a, b, depth, names);
      if ctes[n].query.Some? {
        ProjectionFrame(ctes[n].query.value, WithCtes(ctes[..n], a, depth), WithCtes(ctes[..n], b, depth), depth + 1);
      }
    }
  }

  lemma WithCtesNone(env: Env, depth: nat)
    ensures WithCtes([], env, depth) == env
  {
  }

  lemma FromsFrame(sc: ScopeView, fs: seq<From>, a: Env, b: Env, depth: nat)
    requires SameOn(a, b, NamesReadByFroms(fs))
    ensures ExtendAll(sc, fs, a, depth) == ExtendAll(sc, fs, b, depth)
    decreases fs, 0
  {
    if |fs| > 0 {
      FromsFrame(sc, fs[..|fs| - 1], a, b, depth);
      FromFrame(ExtendAll(sc, fs[..|fs| - 1], a, depth), fs[|fs| - 1], a, b, depth);
    }
  }

  lemma FromFrame(sc: ScopeView, f: From, a: Env, b: Env, depth: nat)
    requires SameOn(a, b, NamesReadByFrom(f))
    ensures Extend(sc, f, a, depth) == Extend(sc, f, b, depth)
    decreases f, 0
  {
    match f {
      case RangeVar(schema, rel, _) =>
        assert schema == "" ==> SameAt(a, b, Lower(rel));
      case RangeSubselect(sub, alias) =>
        if sub.Some? {
          ProjectionFrame(sub.value, a, b, depth + 1);
        }
      case JoinExpr(l, r) =>
        FromFrame(sc, l, a, b, depth);
        FromFrame(Extend(sc, l, a, depth), r, a, b, depth);
      case FromOther =>
    }
  }

  // ---- a set operation's own WITH ------------------------------------------------------------

  /** What a set operation would be if its arms saw its WITH clause. */
  ghost function ProjectWithOwnCtes(sel: Select, env: Env, depth: nat): ProjMap
    requires sel.larg.Some? || sel.rarg.Some?
  {
    Project(sel.(ctes := []), WithCtes(sel.ctes, env, depth), depth)
  }

  ghost function CteNames(ctes: seq<Cte>): set<string> {
    set i | 0 <= i < |ctes| && ctes[i].query.Some? :: Lower(ctes[i].name)
  }

  lemma {:induction false} OtherNamesKept(ctes: seq<Cte>, env: Env, depth: nat, name: string)
    requires name !in CteNames(ctes)
    ensures SameAt(WithCtes(ctes, env, depth), env, name)
  {
    if |ctes| > 0 {
      var n := |ctes| - 1;
      assert forall i :: 0 <= i < n ==> ctes[..n][i] == ctes[i];
      assert CteNames(ctes[..n]) <= CteNames(ctes);
      OtherNamesKept(ctes[..n], env, depth, name);
      assert ctes[n].query.Some? ==> Lower(ctes[n].name) in CteNames(ctes);
    }
  }

  /** The WITH clause of a set operation is never looked at. */
  lemma SetOperationIgnoresItsWith(sel: Select, ctes: seq<Cte>, env: Env, depth: nat)
    requires sel.larg.Some? || sel.rarg.Some?
    ensures Project(sel, env, depth) == Project(sel.(ctes := ctes), env, depth)
  {
  }

  /** Main result: that is harmless when no arm reads one of its CTEs. */
  lemma LostWithIsHarmless(sel: Select, env: Env, depth: nat)
    requires sel.larg.Some? || sel.rarg.Some?
    requires NamesRead(sel.(ctes := [])) !! CteNames(sel.ctes)
    ensures Project(sel, env, depth) == ProjectWithOwnCtes(sel, env, depth)
  {
    var arms := sel.(ctes := []);
    var env' := WithCtes(sel.ctes, env, depth);
    forall n | n in NamesRead(arms) ensures SameAt(env, env', n) {
      OtherNamesKept(sel.ctes, env, depth, n);
    }
    ProjectionFrame(arms, env, env', depth);
    SetOperationIgnoresItsWith(sel, [], env, depth);
  }

  // ---- what a name in FROM is read as ---------------------------------------------------------

  /** The FROM items read as base tables, in order. */
  ghost function TablesRead(fs: seq<From>, visible: set<string>): seq<string> {
    if |fs| == 0 then [] else TablesRead(fs[..|fs| - 1], visible) + TablesReadBy(fs[|fs| - 1], visible)
  }

  ghost function TablesReadBy(f: From, visible: set<string>): seq<string> {
    match f
    case RangeVar(schema, rel, _) =>
      if schema == "" && Lower(rel) in visible then [] else [RelationName(schema, rel)]
    case JoinExpr(l, r) => TablesReadBy(l, visible) + TablesReadBy(r, visible)
    case _ => []
  }

  /** The names, folded, that the FROM clause itself writes without a schema. */
  ghost function OwnNames(fs: seq<From>): set<string> {
    if |fs| == 0 then {} else OwnNames(fs[..|fs| - 1]) + OwnNamesOf(fs[|fs| - 1])
  }

  ghost function OwnNamesOf(f: From): set<string> {
    match f
    case RangeVar(schema, rel, _) => if schema == "" then {Lower(rel)} else {}
    case JoinExpr(l, r) => OwnNamesOf(l) + OwnNamesOf(r)
    case _ => {}
  }

  lemma {:induction false} BasesOfItem(sc: ScopeView, f: From, env: Env, depth: nat)
    ensures Extend(sc, f, env, depth).bases == sc.bases + TablesReadBy(f, env.Keys)
    decreases f
  {
    if f.JoinExpr? {
      BasesOfItem(sc, f.left, env, depth);
      BasesOfItem(Extend(sc, f.left, env, depth), f.right, env, depth);
    }
  }

  /** A scope's base tables are exactly the FROM items no visible CTE captures. */
  lemma {:induction false} BasesAreTablesRead(sc: ScopeView, fs: seq<From>, env: Env, depth: nat)
    ensures ExtendAll(sc, fs, env, depth).bases == sc.bases + TablesRead(fs, env.Keys)
    decreases |fs|
  {
    if |fs| > 0 {
      var before := ExtendAll(sc, fs[..|fs| - 1], env, depth);
      BasesAreTablesRead(sc, fs[..|fs| - 1], env, depth);
      BasesOfItem(before, fs[|fs| - 1], env, depth);
    }
  }

  lemma {:induction false} WithCtesKeys(ctes: seq<Cte>, env: Env, depth: nat)
    ensures WithCtes(ctes, env, depth).Keys == env.Keys + CteNames(ctes)
  {
    hide WithCtes, Project, Lower;
    if |ctes| == 0 {
      WithCtesNone(env, depth);
      assert ctes == [];
    } else {
      var n := |ctes| - 1;
      WithCtesStep(ctes, env, depth);
      WithCtesKeys(ctes[..n], env, depth);
      assert forall i :: 0 <= i < n ==> ctes[..n][i] == ctes[i];
      forall name ensures name in CteNames(ctes)
                     <==> name in CteNames(ctes[..n]) || (ctes[n].query.Some? && name == Lower(ctes[n].name)) {
        if name in CteNames(ctes) {
          var i :| 0 <= i < |ctes| && ctes[i].query.Some? && name == Lower(ctes[i].name);
          assert i < n ==> ctes[..n][i].query.Some?;
        }
      }
    }
  }

  lemma {:induction false} CapturedByItem(f: From, fewer: set<string>, more: set<string>)
    requires fewer <= more
    ensures |TablesReadBy(f, more)| <= |TablesReadBy(f, fewer)|
    ensures OwnNamesOf(f) !! (more - fewer) ==> TablesReadBy(f, more) == TablesReadBy(f, fewer)
    ensures !(OwnNamesOf(f) !! (more - fewer)) ==> |TablesReadBy(f, more)| < |TablesReadBy(f, fewer)|
    decreases f
  {
    if f.JoinExpr? {
      CapturedByItem(f.left, fewer, more);
      CapturedByItem(f.right, fewer, more);
    }
  }

  /** More visible CTEs leave the tables read as they are exactly when the FROM
      clause names none of the added ones. */
  lemma {:induction false} Captured(fs: seq<From>, fewer: set<string>, more: set<string>)
    requires fewer <= more
    ensures |TablesRead(fs, more)| <= |TablesRead(fs, fewer)|
    ensures OwnNames(fs) !! (more - fewer) ==> TablesRead(fs, more) == TablesRead(fs, fewer)
    ensures !(OwnNames(fs) !! (more - fewer)) ==> |TablesRead(fs, more)| < |TablesRead(fs, fewer)|
    decreases |fs|
  {
    if |fs| > 0 {
      Captured(fs[..|fs| - 1], fewer, more);
      CapturedByItem(fs[|fs| - 1], fewer, more);
    }
  }

  /** Main result: an arm of a set operation takes a CTE of the lost WITH for a
      base table exactly when its FROM clause names one that is not otherwise
      visible to it. */
  lemma LostWithChangesTablesIff(ctes: seq<Cte>, arm: Select, env: Env, depth: nat)
    ensures var seen := WithCtes(arm.ctes, env, depth);
            var meant := WithCtes(arm.ctes, WithCtes(ctes, env, depth), depth);
            ExtendAll(EMPTY_SCOPE, arm.from, seen, depth).bases != ExtendAll(EMPTY_SCOPE, arm.from, meant, depth).bases
            <==> !(OwnNames(arm.from) !! (CteNames(ctes) - env.Keys - CteNames(arm.ctes)))
  {
    var seen := WithCtes(arm.ctes, env, depth);
    var meant := WithCtes(arm.ctes, WithCtes(ctes, env, depth), depth);
    WithCtesKeys(arm.ctes, env, depth);
    WithCtesKeys(ctes, env, depth);
    WithCtesKeys(arm.ctes, WithCtes(ctes, env, depth), depth);
    BasesAreTablesRead(EMPTY_SCOPE, arm.from, seen, depth);
    BasesAreTablesRead(EMPTY_SCOPE, arm.from, meant, depth);
    assert meant.Keys - seen.Keys == CteNames(ctes) - env.Keys - CteNames(arm.ctes);
    assert EMPTY_SCOPE.bases + TablesRead(arm.from, seen.Keys) == TablesRead(arm.from, seen.Keys);
    assert EMPTY_SCOPE.bases + TablesRead(arm.from, meant.Keys) == TablesRead(arm.from, meant.Keys);
    Captured(arm.from, seen.Keys, meant.Keys);
  }

  // ---- one column of one relation --------------------------------------------------------------

  /** SELECT col FROM rel */
  ghost function SelectColumn(rel: string, col: string, recursive: bool, ctes: seq<Cte>): Select {
    Select(None, None, recursive, ctes, [RangeVar("", rel, "")], [Target("", Ref([Name(col)]))])
  }

  lemma OneFromItem(sc: ScopeView, f: From, env: Env, depth: nat)
    ensures ExtendAll(sc, [f], env, depth) == Extend(sc, f, env, depth)
  {
    assert [f][..0] == [];
    assert ExtendAll(sc, [f][..0], env, depth) == sc;
  }

  lemma ProjectOne(t: Target, sc: ScopeView, name: string)
    requires TargetName(t) == Some(name)
    ensures ProjectTargets([t], sc) == Append(map[], Lower(name), ResolveAll(sc, ColumnRefsIn(t.val, 0)))
  {
    hide ColumnRefsIn, ResolveAll, TargetName, Lower;
    assert [t][..0] == [];
    assert ProjectTargets([t][..0], sc) == map[];
  }

  lemma ResolveOne(sc: ScopeView, fields: seq<Field>)
    ensures ResolveAll(sc, [fields]) == Resolve(sc, fields)
  {
    hide Resolve;
    assert [fields][..0] == [];
    assert ResolveAll(sc, [fields][..0]) == {};
  }

  lemma OneTarget(col: string, sc: ScopeView)
    ensures ProjectTargets([Target("", Ref([Name(col)]))], sc)
         == map[Lower(col) := Resolve(sc, [Name(col)])]
  {
    hide ProjectTargets, ResolveAll, Resolve, Lower;
    var t := Target("", Ref([Name(col)]));
    OneName(col);
    assert ColumnRefsIn(t.val, 0) == [[Name(col)]];
    ProjectOne(t, sc, col);
    ResolveOne(sc, [Name(col)]);
    assert {} + Resolve(sc, [Name(col)]) == Resolve(sc, [Name(col)]);
  }

  lemma SoleColumn(rel: string, col: string, recursive: bool, ctes: seq<Cte>, env: Env, depth: nat)
    requires depth <= MAX_COL_DEPTH && IsLower(rel) && IsLower(col)
    ensures var env' := WithCtes(ctes, env, depth);
            Get(Project(SelectColumn(rel, col, recursive, ctes), env, depth), col)
            == if rel in env' then Get(env'[rel], col) else {ColRef(ColumnFqn(rel, col), CONF_EXACT)}
  {
    hide WithCtes, ProjectTargets;
    var sel := SelectColumn(rel, col, recursive, ctes);
    var env' := WithCtes(ctes, env, depth);
    var sc := ScopeOf(sel, env, depth);
    OneFromItem(EMPTY_SCOPE, sel.from[0], env', depth);
    OneTarget(col, sc);
    OneName(col);
    if rel in env' {
      assert sc.derived == map[rel := env'[rel]] && sc.bases == [];
      assert DerivedRefs(sc.derived, col) == Get(env'[rel], col);
    }
  }

  /** What `SELECT col FROM rel` lists where these CTEs are visible. */
  ghost function ColumnOf(rel: string, col: string, env: Env): set<ColRef> {
    if rel in env then Get(env[rel], col) else {ColRef(ColumnFqn(rel, col), CONF_EXACT)}
  }

  /** Main result: WITH x AS (...) anchor UNION SELECT c FROM x, for any anchor and
      any body of x: unless x is visible from outside, the second arm lists an
      exact upstream x.c, a column of a table that is not there. */
  lemma LostCteIsReadAsTable(anchor: Select, x: string, body: Select, c: string, env: Env, depth: nat)
    requires depth + 1 <= MAX_COL_DEPTH && IsLower(x) && IsLower(c) && x !in env
    ensures var query := Select(Some(anchor), Some(SelectColumn(x, c, false, [])), false,
                                [Cte(x, Some(body))], [], []);
            ColRef(ColumnFqn(x, c), CONF_EXACT) in Get(Project(query, env, depth), c)
  {
    SoleColumn(x, c, false, [], env, depth + 1);
    assert WithCtes([], env, depth + 1) == env;
  }

  // ---- a recursive CTE that names itself ---------------------------------------------------------

  /** anchor UNION ALL SELECT c FROM r */
  ghost function RecursiveBody(anchor: Select, r: string, c: string): Select {
    Select(Some(anchor), Some(SelectColumn(r, c, false, [])), false, [], [], [])
  }

  /** WITH RECURSIVE earlier, r AS (anchor UNION ALL SELECT c FROM r) SELECT c FROM r */
  ghost function RecursiveQuery(earlier: seq<Cte>, anchor: Select, r: string, c: string): Select {
    SelectColumn(r, c, true, earlier + [Cte(r, Some(RecursiveBody(anchor, r, c)))])
  }

  /** Main result: the lineage of a recursive query is that of its anchor and
      whatever r means outside: the enclosing or earlier CTE of that name if
      there is one, else a base table r. */
  lemma RecursiveLineage(earlier: seq<Cte>, anchor: Select, r: string, c: string, env: Env, depth: nat)
    requires depth + 2 <= MAX_COL_DEPTH && IsLower(r) && IsLower(c)
    ensures var outside := WithCtes(earlier, env, depth);
            Get(Project(RecursiveQuery(earlier, anchor, r, c), env, depth), c)
            == Get(Project(anchor, outside, depth + 2), c) + ColumnOf(r, c, outside)
  {
    hide WithCtes, Project, ColumnOf;
    var outside := WithCtes(earlier, env, depth);
    var body := RecursiveBody(anchor, r, c);
    var ctes := earlier + [Cte(r, Some(body))];
    assert ctes[..|ctes| - 1] == earlier;
    WithCtesStep(ctes, env, depth);
    BodyLineage(anchor, r, c, outside, depth + 1);
    SoleColumn(r, c, true, ctes, env, depth);
  }

  lemma BodyLineage(anchor: Select, r: string, c: string, env: Env, depth: nat)
    requires depth + 1 <= MAX_COL_DEPTH && IsLower(r) && IsLower(c)
    ensures Get(Project(RecursiveBody(anchor, r, c), env, depth), c)
         == Get(Project(anchor, env, depth + 1), c) + ColumnOf(r, c, env)
  {
    hide WithCtes, ProjectTargets;
    var arm := SelectColumn(r, c, false, []);
    SoleColumn(r, c, false, [], env, depth + 1);
    WithCtesNone(env, depth + 1);
    JoinedAt(Project(anchor, env, depth + 1), Project(arm, env, depth + 1), c);
  }

  lemma JoinedAt(l: ProjMap, r: ProjMap, k: string)
    ensures Get(MergeArms(l, r), k) == Get(l, k) + Get(r, k)
  {
  }

  /** So a table that is not there enters the lineage of every recursive query of
      this shape at the top level, whatever its anchor. */
  lemma SelfReferenceIsReadAsTable(anchor: Select, r: string, c: string, downstream: string, hash: string)
    requires IsLower(r) && IsLower(c)
    ensures Edge(ColumnFqn(r, c), ColumnFqn(downstream, c), "column", "", CONF_EXACT, hash)
         in ColumnEdges(Some(RecursiveQuery([], anchor, r, c)), downstream, hash)
  {
    hide WithCtes, Project;
    RecursiveLineage([], anchor, r, c, map[], 0);
    WithCtesNone(map[], 0);
    var proj := Project(RecursiveQuery([], anchor, r, c), map[], 0);
    assert ColRef(ColumnFqn(r, c), CONF_EXACT) in Get(proj, c);
    assert c in proj;
  }

  /** So the recursive arm adds nothing, as documented, only if the anchor lists
      what r means outside anyway. */
  lemma ArmAddsNothingIff(earlier: seq<Cte>, anchor: Select, r: string, c: string, env: Env, depth: nat)
    requires depth + 2 <= MAX_COL_DEPTH && IsLower(r) && IsLower(c)
    ensures var outside := WithCtes(earlier, env, depth);
            Get(Project(RecursiveQuery(earlier, anchor, r, c), env, depth), c)
            == Get(Project(anchor, outside, depth + 2), c)
            <==> ColumnOf(r, c, outside) <= Get(Project(anchor, outside, depth + 2), c)
  {
    RecursiveLineage(earlier, anchor, r, c, env, depth);
  }

  /** SELECT c FROM fs */
  ghost function AnchorOver(fs: seq<From>, c: string): Select {
    Select(None, None, false, [], fs, [Target("", Ref([Name(c)]))])
  }

  lemma AnchorColumn(fs: seq<From>, c: string, env: Env, depth: nat)
    requires depth <= MAX_COL_DEPTH && IsLower(c)
    ensures Get(Project(AnchorOver(fs, c), env, depth), c)
         == Resolve(ExtendAll(EMPTY_SCOPE, fs, env, depth), [Name(c)])
  {
    hide Resolve, ProjectTargets, ExtendAll;
    WithCtesNone(env, depth);
    OneTarget(c, ExtendAll(EMPTY_SCOPE, fs, env, depth));
  }

  /** Only a scope of the one base table t, or a derived source, lists t.c as exact. */
  lemma ExactBaseIff(sc: ScopeView, t: string, c: string)
    requires sc.derived == map[]
    ensures ColRef(ColumnFqn(t, c), CONF_EXACT) in Resolve(sc, [Name(c)]) <==> sc.bases == [t]
  {
    OneName(c);
    if |sc.bases| == 1 && ColumnFqn(sc.bases[0], c) == ColumnFqn(t, c) {
      SameRelation(sc.bases[0], t, c);
    }
  }

  /** The FROM clause holds base tables only, where these CTEs are visible. */
  ghost predicate TablesOnly(f: From, visible: set<string>) {
    match f
    case RangeVar(schema, rel, _) => schema != "" || Lower(rel) !in visible
    case RangeSubselect(_, _) => false
    case JoinExpr(l, r) => TablesOnly(l, visible) && TablesOnly(r, visible)
    case FromOther => true
  }

  lemma {:induction false} NothingDerivedBy(sc: ScopeView, f: From, env: Env, depth: nat)
    requires TablesOnly(f, env.Keys)
    ensures Extend(sc, f, env, depth).derived == sc.derived
    decreases f
  {
    if f.JoinExpr? {
      NothingDerivedBy(sc, f.left, env, depth);
      NothingDerivedBy(Extend(sc, f.left, env, depth), f.right, env, depth);
    }
  }

  lemma {:induction false} NothingDerived(fs: seq<From>, env: Env, depth: nat)
    requires forall i :: 0 <= i < |fs| ==> TablesOnly(fs[i], env.Keys)
    ensures ExtendAll(EMPTY_SCOPE, fs, env, depth).derived == map[]
    decreases |fs|
  {
    if |fs| > 0 {
      var n := |fs| - 1;
      NothingDerived(fs[..n], env, depth);
      NothingDerivedBy(ExtendAll(EMPTY_SCOPE, fs[..n], env, depth), fs[n], env, depth);
    }
  }

  /** Main result, for an anchor that selects c from base tables and no visible CTE
      named r: the recursive arm adds nothing, as documented, exactly when the
      anchor reads r itself, alone. */
  lemma AnchorLineageOnlyIff(earlier: seq<Cte>, fs: seq<From>, r: string, c: string, env: Env, depth: nat)
    requires depth + 2 <= MAX_COL_DEPTH && IsLower(r) && IsLower(c)
    requires var visible := env.Keys + CteNames(earlier);
             r !in visible && forall i :: 0 <= i < |fs| ==> TablesOnly(fs[i], visible)
    ensures Get(Project(RecursiveQuery(earlier, AnchorOver(fs, c), r, c), env, depth), c)
         == Get(Project(AnchorOver(fs, c), WithCtes(earlier, env, depth), depth + 2), c)
       <==> TablesRead(fs, env.Keys + CteNames(earlier)) == [r]
  {
    hide WithCtes, Project, ExtendAll, Resolve, TablesRead;
    var outside := WithCtes(earlier, env, depth);
    var sc := ExtendAll(EMPTY_SCOPE, fs, outside, depth + 2);
    WithCtesKeys(earlier, env, depth);
    ArmAddsNothingIff(earlier, AnchorOver(fs, c), r, c, env, depth);
    AnchorColumn(fs, c, outside, depth + 2);
    NothingDerived(fs, outside, depth + 2);
    BasesAreTablesRead(EMPTY_SCOPE, fs, outside, depth + 2);
    assert EMPTY_SCOPE.bases + TablesRead(fs, outside.Keys) == TablesRead(fs, outside.Keys);
    ExactBaseIff(sc, r, c);
  }

  /** An unqualified reference lists a base relation of its scope, and no other
      relation that no derived source offers. */
  lemma UnqualifiedListsBaseIff(sc: ScopeView, col: string, rel: string)
    requires forall d :: d in DerivedRefs(sc.derived, Lower(col)) ==> d.fqn != ColumnFqn(rel, col)
    ensures (exists ref :: ref in Resolve(sc, [Name(col)]) && ref.fqn == ColumnFqn(rel, col)) <==> rel in sc.bases
  {
    OneName(col);
    var refs := Resolve(sc, [Name(col)]);
    if rel in sc.bases {
      if |sc.bases| == 1 && |sc.derived| == 0 {
        assert ColRef(ColumnFqn(rel, col), CONF_EXACT) in refs;
      } else {
        assert ColRef(ColumnFqn(rel, col), CONF_AMBIGUOUS) in refs;
      }
    } else {
      forall b | b in sc.bases ensures ColumnFqn(b, col) != ColumnFqn(rel, col) {
        if ColumnFqn(b, col) == ColumnFqn(rel, col) {
          SameRelation(b, rel, col);
        }
      }
    }
  }

  lemma SameRelation(a: string, b: string, col: string)
    requires ColumnFqn(a, col) == ColumnFqn(b, col)
    ensures a == b
  {
    assert |ColumnFqn(a, col)| == |ColumnFqn(b, col)|;
    assert a == ColumnFqn(a, col)[..|a|] && b == ColumnFqn(b, col)[..|b|];
  }

  lemma {:induction false} ReadByItem(f: From, visible: set<string>, rel: string)
    requires rel in TablesReadBy(f, visible) && !SpelledWithSchema(f, rel)
    ensures Lower(rel) !in visible
    decreases f
  {
    if f.JoinExpr? {
      if rel in TablesReadBy(f.left, visible) {
        ReadByItem(f.left, visible, rel);
      } else {
        ReadByItem(f.right, visible, rel);
      }
    }
  }

  lemma {:induction false} ReadAsTable(f: From, visible: set<string>, rel: string)
    requires NamedBare(f, rel) && Lower(rel) !in visible
    ensures rel in TablesReadBy(f, visible)
    decreases f
  {
    if f.JoinExpr? {
      if NamedBare(f.left, rel) {
        ReadAsTable(f.left, visible, rel);
      } else {
        ReadAsTable(f.right, visible, rel);
      }
    }
  }

  /** The FROM item writes rel itself, without a schema. */
  ghost predicate NamedBare(f: From, rel: string) {
    match f
    case RangeVar(schema, name, _) => schema == "" && name == rel
    case JoinExpr(l, r) => NamedBare(l, rel) || NamedBare(r, rel)
    case _ => false
  }

  /** A schema-qualified item that is spelled like rel once joined by a dot. */
  ghost predicate SpelledWithSchema(f: From, rel: string) {
    match f
    case RangeVar(schema, name, _) => schema != "" && RelationName(schema, name) == rel
    case JoinExpr(l, r) => SpelledWithSchema(l, rel) || SpelledWithSchema(r, rel)
    case _ => false
  }

  lemma {:induction false} ReadIff(fs: seq<From>, visible: set<string>, rel: string)
    requires exists i :: 0 <= i < |fs| && NamedBare(fs[i], rel)
    requires forall i :: 0 <= i < |fs| ==> !SpelledWithSchema(fs[i], rel)
    ensures rel in TablesRead(fs, visible) <==> Lower(rel) !in visible
  {
    MembersOfTablesRead(fs, visible, rel);
    if Lower(rel) !in visible {
      var i :| 0 <= i < |fs| && NamedBare(fs[i], rel);
      ReadAsTable(fs[i], visible, rel);
    } else if rel in TablesRead(fs, visible) {
      var i :| 0 <= i < |fs| && rel in TablesReadBy(fs[i], visible);
      ReadByItem(fs[i], visible, rel);
    }
  }

  lemma {:induction false} MembersOfTablesRead(fs: seq<From>, visible: set<string>, rel: string)
    ensures rel in TablesRead(fs, visible) <==> exists i :: 0 <= i < |fs| && rel in TablesReadBy(fs[i], visible)
  {
    if |fs| > 0 {
      var n := |fs| - 1;
      MembersOfTablesRead(fs[..n], visible, rel);
      assert forall i :: 0 <= i < n ==> fs[..n][i] == fs[i];
    }
  }

  /** Main result, for an arm of any shape that names r in its FROM clause, and any
      enclosing environment: an unqualified column of the arm has upstream r.col
      exactly when no enclosing, earlier or own CTE is named r. */
  lemma SelfReferenceIff(arm: Select, earlier: seq<Cte>, env: Env, depth: nat, r: string, col: string)
    requires exists i :: 0 <= i < |arm.from| && NamedBare(arm.from[i], r)
    requires forall i :: 0 <= i < |arm.from| ==> !SpelledWithSchema(arm.from[i], r)
    requires var sc := ScopeOf(arm, WithCtes(earlier, env, depth), depth);
             forall d :: d in DerivedRefs(sc.derived, Lower(col)) ==> d.fqn != ColumnFqn(r, col)
    ensures var sc := ScopeOf(arm, WithCtes(earlier, env, depth), depth);
            (exists ref :: ref in Resolve(sc, [Name(col)]) && ref.fqn == ColumnFqn(r, col))
            <==> Lower(r) !in env.Keys + CteNames(earlier) + CteNames(arm.ctes)
  {
    var outside := WithCtes(earlier, env, depth);
    var visible := WithCtes(arm.ctes, outside, depth);
    WithCtesKeys(earlier, env, depth);
    WithCtesKeys(arm.ctes, outside, depth);
    BasesAreTablesRead(EMPTY_SCOPE, arm.from, visible, depth);
    ReadIff(arm.from, visible.Keys, r);
    UnqualifiedListsBaseIff(ScopeOf(arm, outside, depth), col, r);
  }
}
