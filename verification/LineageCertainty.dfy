/** When a confidence label is right. The resolver counts the candidates it lists;
    what decides is how many items of a FROM clause a name could belong to. The
    two agree in a scope exactly when the resolver ignores none of its items and
    no two derived sources share a name. */
module LineageCertainty {
  import opened Identifiers
  import opened SqlAst
  import opened ColumnLineage
  import opened LineageConfidence

  // ---- one scope --------------------------------------------------------------------------

  /** Items the resolver ignores: functions and the like, subselects without an
      alias or without a SELECT. */
  ghost function IgnoredBy(f: From): nat {
    match f
    case RangeVar(_, _, _) => 0
    case RangeSubselect(sub, alias) => if alias != "" && sub.Some? then 0 else 1
    case JoinExpr(l, r) => IgnoredBy(l) + IgnoredBy(r)
    case FromOther => 1
  }

  ghost function Ignored(fs: seq<From>): nat {
    if |fs| == 0 then 0 else Ignored(fs[..|fs| - 1]) + IgnoredBy(fs[|fs| - 1])
  }

  /** The names of the derived sources, folded, where these CTEs are visible. */
  ghost function DerivedNamesOf(f: From, visible: set<string>): seq<string> {
    match f
    case RangeVar(schema, rel, _) => if Lower(rel) in visible && schema == "" then [Lower(AliasOf(f))] else []
    case RangeSubselect(sub, alias) => if alias != "" && sub.Some? then [Lower(alias)] else []
    case JoinExpr(l, r) => DerivedNamesOf(l, visible) + DerivedNamesOf(r, visible)
    case FromOther => []
  }

  ghost function DerivedNames(fs: seq<From>, visible: set<string>): seq<string> {
    if |fs| == 0 then [] else DerivedNames(fs[..|fs| - 1], visible) + DerivedNamesOf(fs[|fs| - 1], visible)
  }

  ghost predicate Distinct(names: seq<string>) {
    forall i, j :: 0 <= i < j < |names| ==> names[i] != names[j]
  }

  ghost function Elements(names: seq<string>): set<string> {
    set n | n in names
  }

  lemma RepeatedElement(names: seq<string>)
    requires |names| > 0 && names[|names| - 1] in names[..|names| - 1]
    ensures Elements(names) == Elements(names[..|names| - 1]) && !Distinct(names)
  {
    var n := |names| - 1;
    var i :| 0 <= i < n && names[..n][i] == names[n];
    assert names[i] == names[n];
  }

  lemma NewElement(names: seq<string>)
    requires |names| > 0 && names[|names| - 1] !in names[..|names| - 1]
    ensures Elements(names) == Elements(names[..|names| - 1]) + {names[|names| - 1]}
    ensures Distinct(names) <==> Distinct(names[..|names| - 1])
  {
    var n := |names| - 1;
    assert forall i :: 0 <= i < n ==> names[..n][i] == names[i];
  }

  lemma {:induction false} ElementsFit(names: seq<string>)
    ensures |Elements(names)| <= |names| && (|Elements(names)| == |names| <==> Distinct(names))
  {
    hide Elements, Distinct;
    if |names| == 0 {
      NoElements(names);
    } else {
      var n := |names| - 1;
      ElementsFit(names[..n]);
      if names[n] in names[..n] {
        RepeatedElement(names);
      } else {
        NewElement(names);
        LastIsNew(names);
      }
    }
  }

  lemma NoElements(names: seq<string>)
    requires |names| == 0
    ensures Elements(names) == {} && Distinct(names)
  {
  }

  lemma LastIsNew(names: seq<string>)
    requires |names| > 0 && names[|names| - 1] !in names[..|names| - 1]
    ensures names[|names| - 1] !in Elements(names[..|names| - 1])
  {
  }

  lemma ElementsAppend(s: seq<string>, t: seq<string>)
    ensures Elements(s + t) == Elements(s) + Elements(t)
  {
  }

  lemma {:induction false} ScopeOfItem(sc: HistoryScope, f: From, env: map<string, History>, depth: nat)
    ensures var after := AddSource(sc, f, env, depth);
            after.derived.Keys == sc.derived.Keys + Elements(DerivedNamesOf(f, env.Keys))
            && |after.bases| + |DerivedNamesOf(f, env.Keys)| + IgnoredBy(f) == |sc.bases| + ItemsOf(f)
    decreases f
  {
    if f.JoinExpr? {
      ScopeOfItem(sc, f.left, env, depth);
      ScopeOfItem(AddSource(sc, f.left, env, depth), f.right, env, depth);
      ElementsAppend(DerivedNamesOf(f.left, env.Keys), DerivedNamesOf(f.right, env.Keys));
    }
  }

  lemma {:induction false} ScopeOfItems(fs: seq<From>, env: map<string, History>, depth: nat)
    ensures var sc := AddSources(NO_SOURCES, fs, env, depth);
            sc.derived.Keys == Elements(DerivedNames(fs, env.Keys))
            && |sc.bases| + |DerivedNames(fs, env.Keys)| + Ignored(fs) == Items(fs)
    decreases |fs|
  {
    if |fs| > 0 {
      var n := |fs| - 1;
      ScopeOfItems(fs[..n], env, depth);
      ScopeOfItem(AddSources(NO_SOURCES, fs[..n], env, depth), fs[n], env, depth);
      ElementsAppend(DerivedNames(fs[..n], env.Keys), DerivedNamesOf(fs[n], env.Keys));
    }
  }

  /** Main result: the resolver never lists more candidates than there are items,
      and as many exactly when it ignores none and no derived name repeats. */
  lemma CountIsRightIff(fs: seq<From>, env: map<string, History>, depth: nat)
    ensures var sc := AddSources(NO_SOURCES, fs, env, depth);
            |sc.bases| + |sc.derived| <= Items(fs)
            && (|sc.bases| + |sc.derived| == Items(fs)
                <==> Ignored(fs) == 0 && Distinct(DerivedNames(fs, env.Keys)))
  {
    ScopeOfItems(fs, env, depth);
    ElementsFit(DerivedNames(fs, env.Keys));
    var sc := AddSources(NO_SOURCES, fs, env, depth);
    assert |sc.derived| == |sc.derived.Keys|;
  }

  // ---- every scope of a query ---------------------------------------------------------------

  /** No scope of the query has an ignored item or a repeated name. */
  ghost predicate Counted(sel: Select)
    decreases sel
  {
    Distinct(ItemNames(sel.from))
    && (forall i :: 0 <= i < |sel.from| ==> ItemCounted(sel.from[i]))
    && (forall i :: 0 <= i < |sel.ctes| ==> CteCounted(sel.ctes[i]))
    && (sel.larg.Some? ==> Counted(sel.larg.value))
    && (sel.rarg.Some? ==> Counted(sel.rarg.value))
  }

  ghost predicate ItemCounted(f: From)
    decreases f
  {
    match f
    case RangeVar(_, _, _) => true
    case RangeSubselect(sub, alias) => alias != "" && sub.Some? && Counted(sub.value)
    case JoinExpr(l, r) => ItemCounted(l) && ItemCounted(r)
    case FromOther => false
  }

  ghost predicate CteCounted(cte: Cte)
    decreases cte
  {
    cte.query.Some? ==> Counted(cte.query.value)
  }

  /** A FROM clause whose items all count: none is ignored, and no two derived
      sources share a name. */
  ghost predicate AllCount(cl: Clause) {
    Ignored(cl.from) == 0 && Distinct(DerivedNames(cl.from, cl.visible))
  }

  /** Nothing in the FROM clause was overlooked for this binding: all its items
      count, or the qualifier names one of them only. */
  ghost predicate Clear(b: Binding) {
    match b.qual
    case None => AllCount(b.clause)
    case Some(q) => ItemsNamed(b.clause.from, q) == 1
  }

  /** The resolver's count is not above the true one, which is that of the clause;
      `strict`: it is the true one. */
  ghost predicate BindingOk(b: Binding, strict: bool) {
    1 <= b.listed <= b.items && (strict ==> b.listed == b.items)
    && (b.listed == 1 ==> (b.items == 1 <==> Clear(b)))
  }

  ghost predicate DerivationOk(d: Derivation, strict: bool) {
    forall i :: 0 <= i < |d.bindings| ==> BindingOk(d.bindings[i], strict)
  }

  ghost predicate AllOk(ds: set<Derivation>, strict: bool) {
    forall d :: d in ds ==> DerivationOk(d, strict)
  }

  ghost predicate HistoryOk(h: History, strict: bool) {
    forall k :: k in h ==> AllOk(h[k], strict)
  }

  ghost predicate EnvOk(env: map<string, History>, strict: bool) {
    forall k :: k in env ==> HistoryOk(env[k], strict)
  }

  /** A scope over the items of this clause. */
  ghost predicate ScopeOk(sc: HistoryScope, cl: Clause, strict: bool) {
    EnvOk(sc.derived, strict)
    && sc.tables.Keys + sc.derived.Keys <= Elements(ItemNames(cl.from))
    && |sc.bases| + |sc.derived| <= Items(cl.from)
    && (|sc.bases| + |sc.derived| == Items(cl.from) <==> AllCount(cl))
    && (strict ==> AllCount(cl) && Distinct(ItemNames(cl.from)))
  }

  lemma ThroughOk(ds: set<Derivation>, b: Binding, strict: bool)
    requires AllOk(ds, strict) && BindingOk(b, strict)
    ensures AllOk(Through(ds, b), strict)
  {
  }

  lemma NamedOnce(names: seq<string>, name: string)
    requires name in names
    ensures multiset(names)[name] >= 1 && (Distinct(names) ==> multiset(names)[name] == 1)
    decreases |names|
  {
    var n := |names| - 1;
    assert names == names[..n] + [names[n]];
    if name in names[..n] {
      NamedOnce(names[..n], name);
      var i :| 0 <= i < n && names[..n][i] == name;
      assert Distinct(names) ==> names[i] != names[n];
    }
  }

  lemma QualifiedOk(sc: HistoryScope, cl: Clause, qual: string, col: string, strict: bool)
    requires ScopeOk(sc, cl, strict) && (qual in sc.tables || qual in sc.derived)
    ensures var b := Binding(1, ItemsNamed(cl.from, qual), cl, Some(qual));
            (qual in sc.tables ==> AllOk({Derivation(ColumnFqn(sc.tables[qual], col), [b])}, strict))
            && (qual in sc.derived ==> AllOk(Through(At(sc.derived[qual], Lower(col)), b), strict))
  {
    hide Lower, ItemNames, Items;
    assert qual in Elements(ItemNames(cl.from));
    NamedOnce(ItemNames(cl.from), qual);
    if qual in sc.derived {
      ThroughOk(At(sc.derived[qual], Lower(col)), Binding(1, ItemsNamed(cl.from, qual), cl, Some(qual)), strict);
    }
  }

  lemma BindOk(sc: HistoryScope, cl: Clause, fields: seq<Field>, strict: bool)
    requires ScopeOk(sc, cl, strict)
    ensures AllOk(Bind(sc, cl, fields), strict)
  {
    hide Items, ItemsNamed, Lower, Through, FromBases, FromDerived, ScopeOk, AllCount;
    var (parts, star) := FieldNames(fields);
    if !star && |parts| >= 2 {
      var qual := Lower(parts[|parts| - 2]);
      if qual in sc.tables || qual in sc.derived {
        QualifiedOk(sc, cl, qual, parts[|parts| - 1], strict);
      }
    } else if !star && |parts| == 1 {
      UnqualifiedOk(sc, cl, parts[0], strict);
    }
  }

  lemma UnqualifiedOk(sc: HistoryScope, cl: Clause, col: string, strict: bool)
    requires ScopeOk(sc, cl, strict)
    ensures AllOk(Through(FromBases(sc.bases, col) + FromDerived(sc.derived, Lower(col)),
                          Binding(|sc.bases| + |sc.derived|, Items(cl.from), cl, None)), strict)
  {
    hide AllCount, Items;
    var ds := FromBases(sc.bases, col) + FromDerived(sc.derived, Lower(col));
    if |sc.bases| + |sc.derived| > 0 {
      assert AllOk(ds, strict);
      ThroughOk(ds, Binding(|sc.bases| + |sc.derived|, Items(cl.from), cl, None), strict);
    } else {
      assert sc.derived == map[];
      assert ds == {};
    }
  }

  lemma {:induction false} BindAllOk(sc: HistoryScope, cl: Clause, refs: seq<seq<Field>>, strict: bool)
    requires ScopeOk(sc, cl, strict)
    ensures AllOk(BindAll(sc, cl, refs), strict)
  {
    hide ScopeOk, Bind;
    if |refs| > 0 {
      BindAllOk(sc, cl, refs[..|refs| - 1], strict);
      BindOk(sc, cl, refs[|refs| - 1], strict);
    }
  }

  lemma {:induction false} TargetsOk(targets: seq<Target>, sc: HistoryScope, cl: Clause, strict: bool)
    requires ScopeOk(sc, cl, strict)
    ensures HistoryOk(HistoryOfTargets(targets, sc, cl), strict)
  {
    hide ScopeOk, BindAll;
    if |targets| > 0 {
      TargetsOk(targets[..|targets| - 1], sc, cl, strict);
      BindAllOk(sc, cl, ColumnRefsIn(targets[|targets| - 1].val, 0), strict);
    }
  }

  /** Names and histories of the sources; the counts are CountIsRightIff's. */
  ghost predicate SourcesOk(sc: HistoryScope, names: set<string>, strict: bool) {
    EnvOk(sc.derived, strict) && sc.tables.Keys + sc.derived.Keys <= names
  }

  lemma SourceOk(sc: HistoryScope, names: set<string>, f: From, env: map<string, History>, depth: nat, strict: bool)
    requires SourcesOk(sc, names, strict) && EnvOk(env, strict) && (strict ==> ItemCounted(f))
    ensures SourcesOk(AddSource(sc, f, env, depth), names + Elements(ItemNamesOf(f)), strict)
    decreases f, 0
  {
    match f {
      case RangeVar(_, _, _) =>
      case RangeSubselect(sub, alias) =>
        if alias != "" && sub.Some? {
          SelectOk(sub.value, env, depth + 1, strict);
        }
      case JoinExpr(l, r) =>
        SourceOk(sc, names, l, env, depth, strict);
        SourceOk(AddSource(sc, l, env, depth), names + Elements(ItemNamesOf(l)), r, env, depth, strict);
        ElementsAppend(ItemNamesOf(l), ItemNamesOf(r));
      case FromOther =>
    }
  }

  lemma SourcesAllOk(fs: seq<From>, env: map<string, History>, depth: nat, strict: bool)
    requires EnvOk(env, strict) && (strict ==> forall i :: 0 <= i < |fs| ==> ItemCounted(fs[i]))
    ensures SourcesOk(AddSources(NO_SOURCES, fs, env, depth), Elements(ItemNames(fs)), strict)
    decreases fs, 0
  {
    if |fs| > 0 {
      var n := |fs| - 1;
      SourcesAllOk(fs[..n], env, depth, strict);
      SourceOk(AddSources(NO_SOURCES, fs[..n], env, depth), Elements(ItemNames(fs[..n])), fs[n], env, depth, strict);
      ElementsAppend(ItemNames(fs[..n]), ItemNamesOf(fs[n]));
    }
  }

  lemma {:induction false} CountedItem(f: From, visible: set<string>)
    requires ItemCounted(f)
    ensures IgnoredBy(f) == 0 && Within(DerivedNamesOf(f, visible), ItemNamesOf(f))
    decreases f
  {
    if f.JoinExpr? {
      CountedItem(f.left, visible);
      CountedItem(f.right, visible);
      WithinAppend(DerivedNamesOf(f.left, visible), ItemNamesOf(f.left),
                   DerivedNamesOf(f.right, visible), ItemNamesOf(f.right));
    }
  }

  /** Every name occurs in the second list at least as often. */
  ghost predicate Within(few: seq<string>, many: seq<string>) {
    multiset(few) <= multiset(many)
  }

  lemma WithinAppend(a: seq<string>, b: seq<string>, c: seq<string>, d: seq<string>)
    requires Within(a, b) && Within(c, d)
    ensures Within(a + c, b + d)
  {
  }

  lemma WithinDistinct(few: seq<string>, many: seq<string>)
    requires Within(few, many) && Distinct(many)
    ensures Distinct(few)
  {
    forall i, j | 0 <= i < j < |few| ensures few[i] != few[j] {
      if few[i] == few[j] {
        assert few == few[..i] + [few[i]] + few[i + 1..j] + [few[j]] + few[j + 1..];
        assert multiset(few)[few[i]] >= 2;
        assert few[i] in multiset(many) && few[i] in many;
        NamedOnce(many, few[i]);
        assert false;
      }
    }
  }

  lemma {:induction false} CountedItems(fs: seq<From>, visible: set<string>)
    requires forall i :: 0 <= i < |fs| ==> ItemCounted(fs[i])
    ensures Ignored(fs) == 0 && Within(DerivedNames(fs, visible), ItemNames(fs))
  {
    if |fs| > 0 {
      var n := |fs| - 1;
      CountedItems(fs[..n], visible);
      CountedItem(fs[n], visible);
      WithinAppend(DerivedNames(fs[..n], visible), ItemNames(fs[..n]),
                   DerivedNamesOf(fs[n], visible), ItemNamesOf(fs[n]));
    }
  }

  lemma FromClauseOk(fs: seq<From>, env: map<string, History>, depth: nat, strict: bool)
    requires EnvOk(env, strict)
    requires strict ==> Distinct(ItemNames(fs)) && forall i :: 0 <= i < |fs| ==> ItemCounted(fs[i])
    ensures ScopeOk(AddSources(NO_SOURCES, fs, env, depth), Clause(fs, env.Keys), strict)
    decreases fs, 1
  {
    SourcesAllOk(fs, env, depth, strict);
    CountIsRightIff(fs, env, depth);
    if strict {
      CountedItems(fs, env.Keys);
      WithinDistinct(DerivedNames(fs, env.Keys), ItemNames(fs));
    }
  }

  lemma CtesOk(ctes: seq<Cte>, env: map<string, History>, depth: nat, strict: bool)
    requires EnvOk(env, strict) && (strict ==> forall i :: 0 <= i < |ctes| ==> CteCounted(ctes[i]))
    ensures EnvOk(HistoryOfCtes(ctes, env, depth), strict)
    decreases ctes, 0
  {
    if |ctes| > 0 {
      var n := |ctes| - 1;
      CtesOk(ctes[..n], env, depth, strict);
      if ctes[n].query.Some? {
        assert strict ==> CteCounted(ctes[n]);
        SelectOk(ctes[n].query.value, HistoryOfCtes(ctes[..n], env, depth), depth + 1, strict);
      }
    }
  }

  /** No derivation of any query was counted above its items; of a counted query,
      none was counted below them either. */
  lemma SelectOk(sel: Select, env: map<string, History>, depth: nat, strict: bool)
    requires EnvOk(env, strict) && (strict ==> Counted(sel))
    ensures HistoryOk(HistoryOfSelect(sel, env, depth), strict)
    decreases sel, 1
  {
    if depth > MAX_COL_DEPTH {
    } else if sel.larg.Some? || sel.rarg.Some? {
      if sel.larg.Some? {
        SelectOk(sel.larg.value, env, depth + 1, strict);
      }
      if sel.rarg.Some? {
        SelectOk(sel.rarg.value, env, depth + 1, strict);
      }
    } else {
      CtesOk(sel.ctes, env, depth, strict);
      var visible := HistoryOfCtes(sel.ctes, env, depth);
      FromClauseOk(sel.from, visible, depth, strict);
      TargetsOk(sel.targets, AddSources(NO_SOURCES, sel.from, visible, depth),
                Clause(sel.from, visible.Keys), strict);
    }
  }

  // ---- the labels -------------------------------------------------------------------------------

  ghost predicate DerivationFor(query: Select, col: string, d: Derivation) {
    d in At(HistoryOfSelect(query, map[], 0), col)
  }

  lemma DerivationsOk(query: Select, col: string, d: Derivation, strict: bool)
    requires DerivationFor(query, col, d) && (strict ==> Counted(query))
    ensures DerivationOk(d, strict)
  {
    SelectOk(query, map[], 0, strict);
  }

  /** Main result, every query: an ambiguous label is deserved. Some FROM clause on
      the way had several items the name could belong to. */
  lemma AmbiguousIsDeserved(query: Select, downstream: string, hash: string, fqn: string, col: string)
    requires fqn != ""
    requires EdgeOf(fqn, downstream, col, CONF_AMBIGUOUS, hash) in ColumnEdges(Some(query), downstream, hash)
    ensures exists d :: DerivationFor(query, col, d) && d.fqn == fqn && !Certain(d)
  {
    EdgesAreLabels(query, downstream, hash, fqn, col, CONF_AMBIGUOUS);
    var d :| DerivationFor(query, col, d) && Label(d) == ColRef(fqn, CONF_AMBIGUOUS);
    DerivationsOk(query, col, d, false);
    var i :| 0 <= i < |d.bindings| && d.bindings[i].listed != 1;
    assert BindingOk(d.bindings[i], false);
  }

  /** Main result, every query: a derivation is certain exactly when it is labelled
      exact and every FROM clause on the way was clear. Of an unqualified name
      that asks that no item is ignored and no derived name repeated, of a
      qualified one that a single item has the name. */
  lemma CertainIff(query: Select, col: string, d: Derivation)
    requires DerivationFor(query, col, d)
    ensures Certain(d)
       <==> Label(d).conf == CONF_EXACT && forall i :: 0 <= i < |d.bindings| ==> Clear(d.bindings[i])
  {
    hide Clear;
    DerivationsOk(query, col, d, false);
    assert forall i :: 0 <= i < |d.bindings| ==> BindingOk(d.bindings[i], false);
  }

  /** Main result: of a query none of whose scopes has an ignored item or a
      repeated name, every label is right. An edge is emitted as exact if and only
      if a derivation had one possible item throughout, as ambiguous if and only
      if one had several somewhere; so no ambiguous ref inside is exact outside. */
  lemma ConfidenceIsNeverUpgraded(query: Select, downstream: string, hash: string,
                                  fqn: string, col: string, conf: string)
    requires fqn != "" && Counted(query)
    ensures EdgeOf(fqn, downstream, col, conf, hash) in ColumnEdges(Some(query), downstream, hash)
        <==> exists d :: DerivationFor(query, col, d) && d.fqn == fqn
                         && conf == if Certain(d) then CONF_EXACT else CONF_AMBIGUOUS
  {
    EdgesAreLabels(query, downstream, hash, fqn, col, conf);
    forall d | DerivationFor(query, col, d) ensures SoleThroughout(d) <==> Certain(d) {
      DerivationsOk(query, col, d, true);
      assert forall i :: 0 <= i < |d.bindings| ==> BindingOk(d.bindings[i], true);
    }
  }

  // ---- an exact label that is not deserved --------------------------------------------------------

  /** SELECT x FROM t, generate_series(1, 3) AS x: any ignored item will do. */
  ghost function BesideIgnored(t: string, x: string): Select {
    Select(None, None, false, [], [RangeVar("", t, ""), FromOther], [Target("", Ref([Name(x)]))])
  }

  ghost function IgnoredClause(t: string): Clause {
    Clause([RangeVar("", t, ""), FromOther], {})
  }

  ghost function OneOfTwo(t: string, x: string): Derivation {
    Derivation(ColumnFqn(t, x), [Binding(1, 2, IgnoredClause(t), None)])
  }

  lemma IgnoredScope(t: string)
    ensures AddSources(NO_SOURCES, IgnoredClause(t).from, map[], 0) == HistoryScope(map[Lower(t) := t], map[], [t])
    ensures Items(IgnoredClause(t).from) == 2
  {
    var fs := [RangeVar("", t, ""), FromOther];
    assert fs[..1] == [RangeVar("", t, "")] && fs[..1][..0] == [];
    assert [RangeVar("", t, "")][..0] == [];
    assert AddSources(NO_SOURCES, fs[..1], map[], 0) == AddSource(NO_SOURCES, fs[0], map[], 0);
    assert Items(fs[..1]) == 1;
  }

  /** Main result: two items could hold x, and the edge is exact all the same. */
  lemma ExactDespiteSeveralItems(t: string, x: string, downstream: string, hash: string)
    requires IsLower(x)
    ensures var query := BesideIgnored(t, x);
            EdgeOf(ColumnFqn(t, x), downstream, x, CONF_EXACT, hash) in ColumnEdges(Some(query), downstream, hash)
            && forall d :: DerivationFor(query, x, d) ==> !Certain(d)
  {
    var query := BesideIgnored(t, x);
    var d := OneOfTwo(t, x);
    IgnoredHistory(t, x);
    assert DerivationFor(query, x, d) && Label(d) == ColRef(ColumnFqn(t, x), CONF_EXACT);
    EdgesAreLabels(query, downstream, hash, ColumnFqn(t, x), x, CONF_EXACT);
    assert d.bindings[0].items == 2;
  }

  lemma OneTargetHistory(x: string, sc: HistoryScope, cl: Clause)
    requires IsLower(x)
    ensures At(HistoryOfTargets([Target("", Ref([Name(x)]))], sc, cl), x) == Bind(sc, cl, [Name(x)])
  {
    hide Bind, Lower;
    var t := Target("", Ref([Name(x)]));
    var refs := [[Name(x)]];
    OneName(x);
    assert [t][..0] == [] && refs[..0] == [];
    assert HistoryOfTargets([t][..0], sc, cl) == map[];
    assert ColumnRefsIn(t.val, 0) == refs;
    assert BindAll(sc, cl, refs) == BindAll(sc, cl, refs[..0]) + Bind(sc, cl, [Name(x)]);
  }

  lemma IgnoredBinding(t: string, x: string)
    requires Items(IgnoredClause(t).from) == 2
    ensures Bind(HistoryScope(map[Lower(t) := t], map[], [t]), IgnoredClause(t), [Name(x)]) == {OneOfTwo(t, x)}
  {
    hide Lower, Items, Through, FromBases, FromDerived;
    OneName(x);
    OneBase(t, x);
    var d, b := Derivation(ColumnFqn(t, x), []), Binding(1, 2, IgnoredClause(t), None);
    ThroughOne(d, b);
    assert d.bindings + [b] == [b];
    assert {d} + {} == {d};
  }

  lemma OneBase(t: string, x: string)
    ensures FromBases([t], x) == {Derivation(ColumnFqn(t, x), [])} && FromDerived(map[], Lower(x)) == {}
  {
  }

  lemma ThroughOne(d: Derivation, b: Binding)
    ensures Through({d}, b) == {Derivation(d.fqn, d.bindings + [b])}
  {
  }

  lemma IgnoredHistory(t: string, x: string)
    requires IsLower(x)
    ensures At(HistoryOfSelect(BesideIgnored(t, x), map[], 0), x) == {OneOfTwo(t, x)}
  {
    hide Bind, HistoryOfTargets, AddSources, Items, Lower, IsLower;
    var cl := IgnoredClause(t);
    var none: map<string, History> := map[];
    assert none.Keys == cl.visible;
    IgnoredScope(t);
    OneTargetHistory(x, AddSources(NO_SOURCES, cl.from, map[], 0), cl);
    IgnoredBinding(t, x);
  }
}
