/** No invented lineage: every upstream column the resolver lists is a column
    name of the query paired with a relation that walkProto finds in it. No
    fragment: this holds of every AST, at every depth. */
module LineageContainment {
  import opened SqlAst
  import opened ColumnLineage
  import opened TableWalk

  ghost predicate AllRelationsNamed(sel: Select)
    decreases sel
  {
    (forall i :: 0 <= i < |sel.from| ==> FromNamed(sel.from[i]))
    && (forall i :: 0 <= i < |sel.ctes| ==> CteNamed(sel.ctes[i]))
    && (sel.larg.Some? ==> AllRelationsNamed(sel.larg.value))
    && (sel.rarg.Some? ==> AllRelationsNamed(sel.rarg.value))
  }

  ghost predicate FromNamed(f: From)
    decreases f
  {
    match f
    case RangeVar(_, rel, _) => rel != ""
    case RangeSubselect(sub, _) => sub.Some? ==> AllRelationsNamed(sub.value)
    case JoinExpr(l, r) => FromNamed(l) && FromNamed(r)
    case FromOther => true
  }

  ghost predicate CteNamed(cte: Cte)
    decreases cte
  {
    cte.query.Some? ==> AllRelationsNamed(cte.query.value)
  }

  // ---- the column names of a query ----------------------------------------

  ghost function LastNames(refs: seq<seq<Field>>): set<string> {
    set fields | fields in refs && |FieldNames(fields).0| > 0 ::
      var parts := FieldNames(fields).0; parts[|parts| - 1]
  }

  ghost function NamesOfTargets(targets: seq<Target>): set<string> {
    if |targets| == 0 then {}
    else NamesOfTargets(targets[..|targets| - 1]) + LastNames(ColumnRefsIn(targets[|targets| - 1].val, 0))
  }

  ghost function NamesOfSelect(sel: Select): set<string>
    decreases sel, 1
  {
    NamesOfTargets(sel.targets) + NamesOfFroms(sel.from) + NamesOfCtes(sel.ctes)
    + (if sel.larg.Some? then NamesOfSelect(sel.larg.value) else {})
    + (if sel.rarg.Some? then NamesOfSelect(sel.rarg.value) else {})
  }

  ghost function NamesOfFroms(fs: seq<From>): set<string>
    decreases fs, 0
  {
    if |fs| == 0 then {} else NamesOfFroms(fs[..|fs| - 1]) + NamesOfFrom(fs[|fs| - 1])
  }

  ghost function NamesOfFrom(f: From): set<string>
    decreases f, 0
  {
    match f
    case RangeSubselect(sub, _) => if sub.Some? then NamesOfSelect(sub.value) else {}
    case JoinExpr(l, r) => NamesOfFrom(l) + NamesOfFrom(r)
    case _ => {}
  }

  ghost function NamesOfCtes(ctes: seq<Cte>): set<string>
    decreases ctes, 0
  {
    if |ctes| == 0 then {}
    else
      var cte := ctes[|ctes| - 1];
      NamesOfCtes(ctes[..|ctes| - 1]) + if cte.query.Some? then NamesOfSelect(cte.query.value) else {}
  }

  // ---- containment --------------------------------------------------------

  /** Relation names and column names an upstream column may be built from. */
  datatype Vocabulary = Vocabulary(relations: set<string>, columns: set<string>)

  ghost predicate Within(v: Vocabulary, fqn: string) {
    exists t, c :: t in v.relations && c in v.columns && fqn == ColumnFqn(t, c)
  }

  ghost predicate RefsWithin(v: Vocabulary, refs: set<ColRef>) {
    forall r :: r in refs ==> Within(v, r.fqn)
  }

  ghost predicate ProjWithin(v: Vocabulary, p: ProjMap) {
    forall k :: k in p ==> RefsWithin(v, p[k])
  }

  ghost predicate EnvWithin(v: Vocabulary, env: map<string, ProjMap>) {
    forall k :: k in env ==> ProjWithin(v, env[k])
  }

  ghost predicate ScopeWithin(v: Vocabulary, sc: ScopeView) {
    (forall k :: k in sc.tables ==> sc.tables[k] in v.relations)
    && (forall i :: 0 <= i < |sc.bases| ==> sc.bases[i] in v.relations)
    && EnvWithin(v, sc.derived)
  }

  ghost function RelationNames(ts: seq<TableRef>): set<string> {
    set t | t in ts :: RelationName(t.schema, t.table)
  }

  lemma ResolveWithin(v: Vocabulary, sc: ScopeView, fields: seq<Field>)
    requires ScopeWithin(v, sc) && LastNames([fields]) <= v.columns
    ensures RefsWithin(v, Resolve(sc, fields))
  {
    var (parts, star) := FieldNames(fields);
    if |parts| > 0 {
      var col := parts[|parts| - 1];
      assert fields in [fields];
      assert col in LastNames([fields]);
      forall r | r in Resolve(sc, fields) ensures Within(v, r.fqn) {
        if r !in DerivedRefs(sc.derived, Identifiers.Lower(col))
           && (exists b :: b in v.relations && r.fqn == ColumnFqn(b, col)) {
          var b :| b in v.relations && r.fqn == ColumnFqn(b, col);
        } else {
          DerivedRefsWithin(v, sc.derived, Identifiers.Lower(col));
        }
      }
    }
  }

  lemma DerivedRefsWithin(v: Vocabulary, derived: map<string, ProjMap>, col: string)
    requires EnvWithin(v, derived)
    ensures RefsWithin(v, DerivedRefs(derived, col)) && RefsWithin(v, Demote(DerivedRefs(derived, col)))
  {
  }

  lemma ResolveAllWithin(v: Vocabulary, sc: ScopeView, refs: seq<seq<Field>>)
    requires ScopeWithin(v, sc) && LastNames(refs) <= v.columns
    ensures RefsWithin(v, ResolveAll(sc, refs))
  {
    if |refs| > 0 {
      ResolveAllWithin(v, sc, refs[..|refs| - 1]);
      ResolveWithin(v, sc, refs[|refs| - 1]);
    }
  }

  lemma TargetsWithin(v: Vocabulary, targets: seq<Target>, sc: ScopeView)
    requires ScopeWithin(v, sc) && NamesOfTargets(targets) <= v.columns
    ensures ProjWithin(v, ProjectTargets(targets, sc))
  {
    if |targets| > 0 {
      TargetsWithin(v, targets[..|targets| - 1], sc);
      ResolveAllWithin(v, sc, ColumnRefsIn(targets[|targets| - 1].val, 0));
    }
  }

  lemma FromWithin(v: Vocabulary, sc: ScopeView, f: From, env: Env, depth: nat)
    requires ScopeWithin(v, sc) && EnvWithin(v, env) && FromNamed(f)
    requires RelationNames(TablesOfFrom(f)) <= v.relations && NamesOfFrom(f) <= v.columns
    ensures ScopeWithin(v, Extend(sc, f, env, depth))
    decreases f, 0
  {
    match f {
      case RangeVar(schema, rel, _) =>
        assert TableRef(schema, rel) in TablesOfFrom(f);
        assert RelationName(schema, rel) in v.relations;
      case RangeSubselect(sub, alias) =>
        if sub.Some? {
          ProjectWithin(v, sub.value, env, depth + 1);
        }
      case JoinExpr(l, r) =>
        assert RelationNames(TablesOfFrom(f)) == RelationNames(TablesOfFrom(l)) + RelationNames(TablesOfFrom(r));
        FromWithin(v, sc, l, env, depth);
        FromWithin(v, Extend(sc, l, env, depth), r, env, depth);
      case FromOther =>
    }
  }

  lemma FromsWithin(v: Vocabulary, fs: seq<From>, env: Env, depth: nat)
    requires EnvWithin(v, env) && forall i :: 0 <= i < |fs| ==> FromNamed(fs[i])
    requires RelationNames(TablesOfFroms(fs)) <= v.relations && NamesOfFroms(fs) <= v.columns
    ensures ScopeWithin(v, ExtendAll(EMPTY_SCOPE, fs, env, depth))
    decreases fs, 0
  {
    if |fs| > 0 {
      var n := |fs| - 1;
      assert RelationNames(TablesOfFroms(fs))
          == RelationNames(TablesOfFroms(fs[..n])) + RelationNames(TablesOfFrom(fs[n]));
      FromsWithin(v, fs[..n], env, depth);
      FromWithin(v, ExtendAll(EMPTY_SCOPE, fs[..n], env, depth), fs[n], env, depth);
    }
  }

  lemma CtesWithin(v: Vocabulary, ctes: seq<Cte>, env: Env, depth: nat)
    requires EnvWithin(v, env) && forall i :: 0 <= i < |ctes| ==> CteNamed(ctes[i])
    requires RelationNames(TablesOfCtes(ctes)) <= v.relations && NamesOfCtes(ctes) <= v.columns
    ensures EnvWithin(v, WithCtes(ctes, env, depth))
    decreases ctes, 0
  {
    if |ctes| > 0 {
      var n := |ctes| - 1;
      var rest := if ctes[n].query.Some? then TablesOfSelect(ctes[n].query.value) else [];
      assert RelationNames(TablesOfCtes(ctes)) == RelationNames(TablesOfCtes(ctes[..n])) + RelationNames(rest);
      CtesWithin(v, ctes[..n], env, depth);
      if ctes[n].query.Some? {
        assert CteNamed(ctes[n]);
        ProjectWithin(v, ctes[n].query.value, WithCtes(ctes[..n], env, depth), depth + 1);
      }
    }
  }

  lemma TablesOfSelectParts(sel: Select)
    ensures RelationNames(TablesOfFroms(sel.from)) <= RelationNames(TablesOfSelect(sel))
    ensures RelationNames(TablesOfCtes(sel.ctes)) <= RelationNames(TablesOfSelect(sel))
    ensures sel.larg.Some? ==> RelationNames(TablesOfSelect(sel.larg.value)) <= RelationNames(TablesOfSelect(sel))
    ensures sel.rarg.Some? ==> RelationNames(TablesOfSelect(sel.rarg.value)) <= RelationNames(TablesOfSelect(sel))
  {
  }

  lemma ProjectWithin(v: Vocabulary, sel: Select, env: Env, depth: nat)
    requires EnvWithin(v, env) && AllRelationsNamed(sel)
    requires RelationNames(TablesOfSelect(sel)) <= v.relations && NamesOfSelect(sel) <= v.columns
    ensures ProjWithin(v, Project(sel, env, depth))
    decreases sel, 1
  {
    hide ScopeWithin, EnvWithin;
    TablesOfSelectParts(sel);
    if depth > MAX_COL_DEPTH {
    } else if sel.larg.Some? || sel.rarg.Some? {
      if sel.larg.Some? {
        ProjectWithin(v, sel.larg.value, env, depth + 1);
      }
      if sel.rarg.Some? {
        ProjectWithin(v, sel.rarg.value, env, depth + 1);
      }
    } else {
      CtesWithin(v, sel.ctes, env, depth);
      FromsWithin(v, sel.from, WithCtes(sel.ctes, env, depth), depth);
      TargetsWithin(v, sel.targets, ScopeOf(sel, env, depth));
    }
  }

  /** Main result: each emitted upstream column is relation.column for a
      relation walkProto collects from the query and a column name it uses. */
  lemma NoInventedLineage(query: Select, downstream: string, hash: string, e: Edge)
    requires AllRelationsNamed(query) && e in ColumnEdges(Some(query), downstream, hash)
    ensures exists t, c :: t in TablesOfSelect(query) && c in NamesOfSelect(query)
              && e.upstream == ColumnFqn(RelationName(t.schema, t.table), c)
  {
    var v := Vocabulary(RelationNames(TablesOfSelect(query)), NamesOfSelect(query));
    ProjectWithin(v, query, map[], 0);
    var proj := Project(query, map[], 0);
    var k: string, r: ColRef :| k in proj && r in proj[k] && e.upstream == r.fqn;
    assert Within(v, r.fqn);
    var name, c :| name in v.relations && c in v.columns && r.fqn == ColumnFqn(name, c);
    var t :| t in TablesOfSelect(query) && RelationName(t.schema, t.table) == name;
  }
}
