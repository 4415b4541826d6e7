/** What the confidence labels say. A derivation records, from the base column
    outwards, how each scope bound the name: how many candidates the resolver
    listed for it, and how many items of that scope's FROM clause, counted in the
    AST, the name could belong to. The resolver keeps neither, only a label. This
    module proves, for every AST, which histories the labels stand for. */
module LineageConfidence {
  import opened Identifiers
  import opened SqlAst
  import opened ColumnLineage

  /** Where a name is bound: the FROM clause, and the CTEs visible there, folded. */
  datatype Clause = Clause(from: seq<From>, visible: set<string>)

  /** One binding: `listed` candidates of the resolver, `items` of the FROM clause;
      the clause and the qualifier it took place with. */
  datatype Binding = Binding(listed: nat, items: nat, clause: Clause, qual: Option<string>)

  datatype Derivation = Derivation(fqn: string, bindings: seq<Binding>)

  type History = map<string, set<Derivation>>

  datatype HistoryScope = HistoryScope(
    tables: map<string, string>, derived: map<string, History>, bases: seq<string>)

  // ---- FROM items, counted in the AST -----------------------------------------

  /** Every leaf of the joins is an item, those the resolver ignores included. */
  ghost function ItemsOf(f: From): nat {
    if f.JoinExpr? then ItemsOf(f.left) + ItemsOf(f.right) else 1
  }

  ghost function Items(fs: seq<From>): nat {
    if |fs| == 0 then 0 else Items(fs[..|fs| - 1]) + ItemsOf(fs[|fs| - 1])
  }

  /** The names the items answer to, folded. */
  ghost function ItemNamesOf(f: From): seq<string> {
    match f
    case RangeVar(_, _, _) => [Lower(AliasOf(f))]
    case RangeSubselect(_, alias) => if alias == "" then [] else [Lower(alias)]
    case JoinExpr(l, r) => ItemNamesOf(l) + ItemNamesOf(r)
    case FromOther => []
  }

  ghost function ItemNames(fs: seq<From>): seq<string> {
    if |fs| == 0 then [] else ItemNames(fs[..|fs| - 1]) + ItemNamesOf(fs[|fs| - 1])
  }

  ghost function ItemsNamed(fs: seq<From>, name: string): nat {
    multiset(ItemNames(fs))[name]
  }

  ghost const NO_SOURCES := HistoryScope(map[], map[], [])

  ghost function At(h: History, key: string): set<Derivation> {
    if key in h then h[key] else {}
  }

  ghost function Through(ds: set<Derivation>, b: Binding): set<Derivation> {
    set d | d in ds :: Derivation(d.fqn, d.bindings + [b])
  }

  ghost function FromDerived(derived: map<string, History>, col: string): set<Derivation> {
    set a, d | a in derived && d in At(derived[a], col) :: d
  }

  ghost function FromBases(bases: seq<string>, col: string): set<Derivation> {
    set t | t in bases :: Derivation(ColumnFqn(t, col), [])
  }

  /** How a scope binds a reference, with no reading of confidence labels. */
  ghost function Bind(sc: HistoryScope, cl: Clause, fields: seq<Field>): set<Derivation> {
    var (parts, star) := FieldNames(fields);
    if star || |parts| == 0 then {}
    else
      var col := parts[|parts| - 1];
      if |parts| >= 2 then
        var qual := Lower(parts[|parts| - 2]);
        var b := Binding(1, ItemsNamed(cl.from, qual), cl, Some(qual));
        if qual in sc.tables then {Derivation(ColumnFqn(sc.tables[qual], col), [b])}
        else if qual in sc.derived then Through(At(sc.derived[qual], Lower(col)), b)
        else {}
      else
        Through(FromBases(sc.bases, col) + FromDerived(sc.derived, Lower(col)),
                Binding(|sc.bases| + |sc.derived|, Items(cl.from), cl, None))
  }

  ghost function BindAll(sc: HistoryScope, cl: Clause, refs: seq<seq<Field>>): set<Derivation> {
    if |refs| == 0 then {} else BindAll(sc, cl, refs[..|refs| - 1]) + Bind(sc, cl, refs[|refs| - 1])
  }

  ghost function HistoryOfTargets(targets: seq<Target>, sc: HistoryScope, cl: Clause): History {
    if |targets| == 0 then map[]
    else
      var h := HistoryOfTargets(targets[..|targets| - 1], sc, cl);
      var t := targets[|targets| - 1];
      match TargetName(t)
      case None => h
      case Some(name) => h[Lower(name) := At(h, Lower(name)) + BindAll(sc, cl, ColumnRefsIn(t.val, 0))]
  }

  ghost function HistoryOfSelect(sel: Select, outer: map<string, History>, depth: nat): History
    decreases sel, 1
  {
    if depth > MAX_COL_DEPTH then map[]
    else if sel.larg.Some? || sel.rarg.Some? then
      var l := if sel.larg.Some? then HistoryOfSelect(sel.larg.value, outer, depth + 1) else map[];
      var r := if sel.rarg.Some? then HistoryOfSelect(sel.rarg.value, outer, depth + 1) else map[];
      JoinHistories(l, r)
    else
      var env := HistoryOfCtes(sel.ctes, outer, depth);
      HistoryOfTargets(sel.targets, AddSources(NO_SOURCES, sel.from, env, depth), Clause(sel.from, env.Keys))
  }

  ghost function HistoryOfCtes(ctes: seq<Cte>, outer: map<string, History>, depth: nat): map<string, History>
    decreases ctes, 0
  {
    if |ctes| == 0 then outer
    else
      var env := HistoryOfCtes(ctes[..|ctes| - 1], outer, depth);
      var cte := ctes[|ctes| - 1];
      if cte.query.Some? then env[Lower(cte.name) := HistoryOfSelect(cte.query.value, env, depth + 1)]
      else env
  }

  ghost function AddSources(sc: HistoryScope, fs: seq<From>, env: map<string, History>, depth: nat): HistoryScope
    decreases fs, 0
  {
    if |fs| == 0 then sc
    else AddSource(AddSources(sc, fs[..|fs| - 1], env, depth), fs[|fs| - 1], env, depth)
  }

  ghost function AddSource(sc: HistoryScope, f: From, env: map<string, History>, depth: nat): HistoryScope
    decreases f, 0
  {
    match f
    case RangeVar(schema, rel, _) =>
      if Lower(rel) in env && schema == "" then
        sc.(derived := sc.derived[Lower(AliasOf(f)) := env[Lower(rel)]])
      else
        sc.(tables := sc.tables[Lower(AliasOf(f)) := RelationName(schema, rel)],
            bases := sc.bases + [RelationName(schema, rel)])
    case RangeSubselect(sub, alias) =>
      if alias != "" && sub.Some? then
        sc.(derived := sc.derived[Lower(alias) := HistoryOfSelect(sub.value, env, depth + 1)])
      else sc
    case JoinExpr(l, r) => AddSource(AddSource(sc, l, env, depth), r, env, depth)
    case FromOther => sc
  }

  // ---- labels from histories ------------------------------------------------

  /** The resolver never had a second candidate. */
  ghost predicate SoleThroughout(d: Derivation) {
    forall i :: 0 <= i < |d.bindings| ==> d.bindings[i].listed == 1
  }

  /** No FROM clause on the way had a second item the name could belong to. */
  ghost predicate Certain(d: Derivation) {
    forall i :: 0 <= i < |d.bindings| ==> d.bindings[i].items == 1
  }

  ghost function Label(d: Derivation): ColRef {
    ColRef(d.fqn, if SoleThroughout(d) then CONF_EXACT else CONF_AMBIGUOUS)
  }

  ghost function Labels(ds: set<Derivation>): set<ColRef> {
    set d | d in ds :: Label(d)
  }

  ghost function LabelAll(h: History): ProjMap {
    map k | k in h :: Labels(h[k])
  }

  ghost function LabelEnv(env: map<string, History>): map<string, ProjMap> {
    map k | k in env :: LabelAll(env[k])
  }

  ghost function LabelScope(sc: HistoryScope): ScopeView {
    ScopeView(sc.tables, LabelEnv(sc.derived), sc.bases)
  }

  lemma LabelsUnion(x: set<Derivation>, y: set<Derivation>)
    ensures Labels(x + y) == Labels(x) + Labels(y)
  {
  }

  lemma LabelsThrough(ds: set<Derivation>, b: Binding)
    ensures b.listed == 1 ==> Labels(Through(ds, b)) == Labels(ds)
    ensures b.listed != 1 ==> Labels(Through(ds, b)) == Demote(Labels(ds))
  {
    forall d | d in ds
      ensures Label(Derivation(d.fqn, d.bindings + [b]))
           == if b.listed != 1 then ColRef(d.fqn, CONF_AMBIGUOUS) else Label(d)
      ensures Label(d) in Labels(ds)
    {
      var longer := Derivation(d.fqn, d.bindings + [b]);
      assert longer.bindings[|d.bindings|] == b;
      assert forall i :: 0 <= i < |d.bindings| ==> longer.bindings[i] == d.bindings[i];
    }
    forall d | d in ds ensures Derivation(d.fqn, d.bindings + [b]) in Through(ds, b) {
    }
    if b.listed != 1 {
      forall r | r in Demote(Labels(ds)) ensures r in Labels(Through(ds, b)) {
        var d :| d in ds && r == ColRef(Label(d).fqn, CONF_AMBIGUOUS);
        assert Label(Derivation(d.fqn, d.bindings + [b])) == r;
      }
    } else {
      forall r | r in Labels(ds) ensures r in Labels(Through(ds, b)) {
        var d :| d in ds && r == Label(d);
        assert Label(Derivation(d.fqn, d.bindings + [b])) == r;
      }
    }
  }

  lemma LabelsOfDerived(derived: map<string, History>, col: string)
    ensures Labels(FromDerived(derived, col)) == DerivedRefs(LabelEnv(derived), col)
  {
    forall r | r in DerivedRefs(LabelEnv(derived), col) ensures r in Labels(FromDerived(derived, col)) {
      var a :| a in LabelEnv(derived) && r in Get(LabelEnv(derived)[a], col);
      var d :| d in At(derived[a], col) && r == Label(d);
      assert d in FromDerived(derived, col);
    }
    forall d | d in FromDerived(derived, col) ensures Label(d) in DerivedRefs(LabelEnv(derived), col) {
      var a :| a in derived && d in At(derived[a], col);
      assert Label(d) in Get(LabelEnv(derived)[a], col);
    }
  }

  lemma LabelsOfBases(bases: seq<string>, col: string)
    ensures Labels(FromBases(bases, col)) == BaseRefs(bases, col, CONF_EXACT)
  {
    forall t | t in bases ensures Label(Derivation(ColumnFqn(t, col), [])) == ColRef(ColumnFqn(t, col), CONF_EXACT)
      ensures Derivation(ColumnFqn(t, col), []) in FromBases(bases, col) {
    }
    forall r | r in BaseRefs(bases, col, CONF_EXACT)
      ensures r in Labels(FromBases(bases, col))
    {
      var t :| t in bases && r == ColRef(ColumnFqn(t, col), CONF_EXACT);
      assert Label(Derivation(ColumnFqn(t, col), [])) == r;
    }
  }

  /** Several candidates: the labels are demoted. */
  lemma LabelsOfSeveral(bases: seq<string>, derived: map<string, History>, col: string, bd: Binding)
    requires bd.listed != 1
    ensures Labels(Through(FromBases(bases, col) + FromDerived(derived, Lower(col)), bd))
         == BaseRefs(bases, col, CONF_AMBIGUOUS)
            + Demote(DerivedRefs(LabelEnv(derived), Lower(col)))
  {
    var b, d := FromBases(bases, col), FromDerived(derived, Lower(col));
    LabelsThrough(b + d, bd);
    LabelsUnion(b, d);
    LabelsOfBases(bases, col);
    LabelsOfDerived(derived, Lower(col));
    DemoteBases(bases, col, Labels(d));
  }

  /** One candidate: the labels pass unchanged. */
  lemma LabelsOfSole(bases: seq<string>, derived: map<string, History>, col: string, bd: Binding)
    requires bd.listed == 1
    ensures Labels(Through(FromBases(bases, col) + FromDerived(derived, Lower(col)), bd))
         == BaseRefs(bases, col, CONF_EXACT)
            + DerivedRefs(LabelEnv(derived), Lower(col))
  {
    var b, d := FromBases(bases, col), FromDerived(derived, Lower(col));
    LabelsThrough(b + d, bd);
    LabelsUnion(b, d);
    LabelsOfBases(bases, col);
    LabelsOfDerived(derived, Lower(col));
  }

  lemma ResolveUnqualified(sc: ScopeView, fields: seq<Field>)
    requires var (parts, star) := FieldNames(fields); !star && |parts| == 1
    ensures var col := FieldNames(fields).0[0];
            Resolve(sc, fields)
            == if |sc.bases| + |sc.derived| == 1
               then BaseRefs(sc.bases, col, CONF_EXACT) + DerivedRefs(sc.derived, Lower(col))
               else BaseRefs(sc.bases, col, CONF_AMBIGUOUS)
                    + Demote(DerivedRefs(sc.derived, Lower(col)))
  {
    hide Lower, DerivedRefs, Demote, BaseRefs;
    var col := FieldNames(fields).0[0];
    if |sc.bases| == 1 && |sc.derived| == 0 {
      assert sc.bases == [sc.bases[0]];
      OneBaseRef(sc.bases[0], col);
      NoDerivedRefs(sc.derived, Lower(col));
    } else if |sc.bases| == 0 && |sc.derived| == 1 {
      assert sc.bases == [];
      NoBaseRefs(col);
    }
  }

  lemma OneBaseRef(t: string, col: string)
    ensures BaseRefs([t], col, CONF_EXACT) == {ColRef(ColumnFqn(t, col), CONF_EXACT)}
  {
  }

  lemma NoBaseRefs(col: string)
    ensures BaseRefs([], col, CONF_EXACT) == {}
  {
  }

  lemma NoDerivedRefs(derived: map<string, ProjMap>, col: string)
    requires |derived| == 0
    ensures DerivedRefs(derived, col) == {}
  {
  }

  lemma LabelsOfUnqualified(sc: HistoryScope, cl: Clause, fields: seq<Field>)
    requires var (parts, star) := FieldNames(fields); !star && |parts| == 1
    ensures Labels(Bind(sc, cl, fields)) == Resolve(LabelScope(sc), fields)
  {
    hide Labels, Through, FromBases, FromDerived, Demote, DerivedRefs, Resolve, Lower;
    var col := FieldNames(fields).0[0];
    assert LabelEnv(sc.derived).Keys == sc.derived.Keys;
    assert |LabelEnv(sc.derived)| == |LabelEnv(sc.derived).Keys| == |sc.derived.Keys|;
    var b := Binding(|sc.bases| + |sc.derived|, Items(cl.from), cl, None);
    ResolveUnqualified(LabelScope(sc), fields);
    if b.listed == 1 {
      LabelsOfSole(sc.bases, sc.derived, col, b);
    } else {
      LabelsOfSeveral(sc.bases, sc.derived, col, b);
    }
  }

  lemma DemoteBases(bases: seq<string>, col: string, refs: set<ColRef>)
    ensures Demote(BaseRefs(bases, col, CONF_EXACT) + refs)
         == BaseRefs(bases, col, CONF_AMBIGUOUS) + Demote(refs)
  {
    var exact := BaseRefs(bases, col, CONF_EXACT);
    forall t | t in bases ensures ColRef(ColumnFqn(t, col), CONF_AMBIGUOUS) in Demote(exact + refs) {
      assert ColRef(ColumnFqn(t, col), CONF_EXACT) in exact;
    }
  }

  lemma BindLabels(sc: HistoryScope, cl: Clause, fields: seq<Field>)
    ensures Labels(Bind(sc, cl, fields)) == Resolve(LabelScope(sc), fields)
  {
    var (parts, star) := FieldNames(fields);
    if !star && |parts| == 1 {
      LabelsOfUnqualified(sc, cl, fields);
    } else if !star && |parts| >= 2 {
      var qual, col := Lower(parts[|parts| - 2]), parts[|parts| - 1];
      var b := Binding(1, ItemsNamed(cl.from, qual), cl, Some(qual));
      if qual in sc.tables {
        var d := Derivation(ColumnFqn(sc.tables[qual], col), [b]);
        assert Bind(sc, cl, fields) == {d} && Labels({d}) == {Label(d)};
      } else if qual in sc.derived {
        LabelsThrough(At(sc.derived[qual], Lower(col)), b);
      }
    }
  }

  lemma BindAllLabels(sc: HistoryScope, cl: Clause, refs: seq<seq<Field>>)
    ensures Labels(BindAll(sc, cl, refs)) == ResolveAll(LabelScope(sc), refs)
  {
    if |refs| > 0 {
      BindAllLabels(sc, cl, refs[..|refs| - 1]);
      BindLabels(sc, cl, refs[|refs| - 1]);
      LabelsUnion(BindAll(sc, cl, refs[..|refs| - 1]), Bind(sc, cl, refs[|refs| - 1]));
    }
  }

  lemma LabelAppend(h: History, key: string, ds: set<Derivation>)
    ensures LabelAll(h[key := At(h, key) + ds]) == Append(LabelAll(h), key, Labels(ds))
  {
    LabelsUnion(At(h, key), ds);
    var x, y := LabelAll(h[key := At(h, key) + ds]), Append(LabelAll(h), key, Labels(ds));
    assert x.Keys == y.Keys;
    assert forall k :: k in x ==> x[k] == y[k];
  }

  lemma TargetsLabels(targets: seq<Target>, sc: HistoryScope, cl: Clause)
    ensures LabelAll(HistoryOfTargets(targets, sc, cl)) == ProjectTargets(targets, LabelScope(sc))
  {
    if |targets| > 0 {
      var t := targets[|targets| - 1];
      TargetsLabels(targets[..|targets| - 1], sc, cl);
      if TargetName(t).Some? {
        var refs := ColumnRefsIn(t.val, 0);
        BindAllLabels(sc, cl, refs);
        var before := HistoryOfTargets(targets[..|targets| - 1], sc, cl);
        LabelAppend(before, Lower(TargetName(t).value), BindAll(sc, cl, refs));
      }
    }
  }

  lemma SourceLabels(sc: HistoryScope, f: From, env: map<string, History>, depth: nat)
    ensures LabelScope(AddSource(sc, f, env, depth)) == Extend(LabelScope(sc), f, LabelEnv(env), depth)
    decreases f, 0
  {
    match f {
      case RangeVar(schema, rel, _) =>
        if Lower(rel) in env && schema == "" {
          LabelEnvUpdate(sc.derived, Lower(AliasOf(f)), env[Lower(rel)]);
        }
      case RangeSubselect(sub, alias) =>
        if alias != "" && sub.Some? {
          SelectLabels(sub.value, env, depth + 1);
          LabelEnvUpdate(sc.derived, Lower(alias), HistoryOfSelect(sub.value, env, depth + 1));
        }
      case JoinExpr(l, r) =>
        SourceLabels(sc, l, env, depth);
        SourceLabels(AddSource(sc, l, env, depth), r, env, depth);
      case FromOther =>
    }
  }

  lemma LabelEnvUpdate(env: map<string, History>, key: string, h: History)
    ensures LabelEnv(env[key := h]) == LabelEnv(env)[key := LabelAll(h)]
  {
  }

  lemma SourcesLabels(fs: seq<From>, env: map<string, History>, depth: nat)
    ensures LabelScope(AddSources(NO_SOURCES, fs, env, depth))
         == ExtendAll(EMPTY_SCOPE, fs, LabelEnv(env), depth)
    decreases fs, 0
  {
    if |fs| > 0 {
      SourcesLabels(fs[..|fs| - 1], env, depth);
      SourceLabels(AddSources(NO_SOURCES, fs[..|fs| - 1], env, depth), fs[|fs| - 1], env, depth);
    }
  }

  lemma CtesLabels(ctes: seq<Cte>, env: map<string, History>, depth: nat)
    ensures LabelEnv(HistoryOfCtes(ctes, env, depth)) == WithCtes(ctes, LabelEnv(env), depth)
    decreases ctes, 0
  {
    if |ctes| > 0 {
      var before := HistoryOfCtes(ctes[..|ctes| - 1], env, depth);
      var cte := ctes[|ctes| - 1];
      CtesLabels(ctes[..|ctes| - 1], env, depth);
      if cte.query.Some? {
        SelectLabels(cte.query.value, before, depth + 1);
        LabelEnvUpdate(before, Lower(cte.name), HistoryOfSelect(cte.query.value, before, depth + 1));
      }
    }
  }

  lemma LabelsAt(h: History, k: string)
    ensures Get(LabelAll(h), k) == Labels(At(h, k))
  {
  }

  lemma ArmLabels(l: History, r: History, k: string)
    ensures Labels(BothArms(l, r, k)) == Joined(LabelAll(l), LabelAll(r), k)
  {
    LabelsAt(l, k);
    LabelsAt(r, k);
    LabelsUnion(At(l, k), At(r, k));
  }

  ghost function JoinHistories(l: History, r: History): History {
    map k | k in l.Keys + r.Keys :: BothArms(l, r, k)
  }

  ghost function BothArms(l: History, r: History, key: string): set<Derivation> {
    At(l, key) + At(r, key)
  }

  lemma ArmsLabels(l: History, r: History)
    ensures LabelAll(JoinHistories(l, r)) == MergeArms(LabelAll(l), LabelAll(r))
  {
    hide Labels, Joined;
    var x, y := LabelAll(JoinHistories(l, r)), MergeArms(LabelAll(l), LabelAll(r));
    forall k ensures k in x <==> k in y
             ensures k in x ==> x[k] == Joined(LabelAll(l), LabelAll(r), k)
    {
      ArmLabels(l, r, k);
    }
  }

  /** The resolver's labelled refs are the labels of the derivations. */
  lemma SelectLabels(sel: Select, env: map<string, History>, depth: nat)
    ensures LabelAll(HistoryOfSelect(sel, env, depth)) == Project(sel, LabelEnv(env), depth)
    decreases sel, 1
  {
    if depth > MAX_COL_DEPTH {
    } else if sel.larg.Some? || sel.rarg.Some? {
      var l := if sel.larg.Some? then HistoryOfSelect(sel.larg.value, env, depth + 1) else map[];
      var r := if sel.rarg.Some? then HistoryOfSelect(sel.rarg.value, env, depth + 1) else map[];
      if sel.larg.Some? {
        SelectLabels(sel.larg.value, env, depth + 1);
      }
      if sel.rarg.Some? {
        SelectLabels(sel.rarg.value, env, depth + 1);
      }
      ArmsLabels(l, r);
      assert LabelAll(map[]) == map[];
    } else {
      CtesLabels(sel.ctes, env, depth);
      var env' := HistoryOfCtes(sel.ctes, env, depth);
      SourcesLabels(sel.from, env', depth);
      TargetsLabels(sel.targets, AddSources(NO_SOURCES, sel.from, env', depth), Clause(sel.from, env'.Keys));
    }
  }

  ghost function EdgeOf(fqn: string, downstream: string, col: string, conf: string, hash: string): Edge {
    Edge(fqn, ColumnFqn(downstream, col), "column", "", conf, hash)
  }

  /** An edge is emitted with a label exactly when some derivation of its upstream
      column carries that label. */
  lemma EdgesAreLabels(query: Select, downstream: string, hash: string, fqn: string, col: string, conf: string)
    requires fqn != ""
    ensures EdgeOf(fqn, downstream, col, conf, hash) in ColumnEdges(Some(query), downstream, hash)
        <==> exists d :: d in At(HistoryOfSelect(query, map[], 0), col) && Label(d) == ColRef(fqn, conf)
  {
    SelectLabels(query, map[], 0);
    assert LabelEnv(map[]) == map[];
    var proj, h := Project(query, map[], 0), HistoryOfSelect(query, map[], 0);
    var e := EdgeOf(fqn, downstream, col, conf, hash);
    assert e in ColumnEdges(Some(query), downstream, hash) <==> ColRef(fqn, conf) in Get(proj, col) by {
      SameDownstream(downstream, col);
    }
    assert Get(proj, col) == Labels(At(h, col));
  }

  lemma SameDownstream(downstream: string, col: string)
    ensures forall c :: ColumnFqn(downstream, c) == ColumnFqn(downstream, col) ==> c == col
  {
    forall c | ColumnFqn(downstream, c) == ColumnFqn(downstream, col) ensures c == col {
      assert c == ColumnFqn(downstream, c)[|downstream| + 1..];
      assert col == ColumnFqn(downstream, col)[|downstream| + 1..];
    }
  }
}
