/** The resolver of internal/lineage/columns.go without its blind spots: it looks
    into every operand of every expression node and has no depth cap. What a
    query computes depends on what this one lists; the emitted lineage is right
    as far as the two agree. */
module FullLineage {
  import opened Identifiers
  import opened SqlAst
  import opened ColumnLineage
  import opened QuerySemantics

  /** Every column reference the value of e takes in. */
  ghost function AllRefs(e: Expr): seq<seq<Field>>
    decreases e, 1, 0
  {
    if e.Ref? then [e.fields] else AllRefsIn(e, Operands(e))
  }

  ghost function AllRefsIn(e: Expr, operands: seq<Expr>): seq<seq<Field>>
    requires forall i :: 0 <= i < |operands| ==> operands[i] < e
    decreases e, 0, |operands|
  {
    if |operands| == 0 then [] else AllRefs(operands[0]) + AllRefsIn(e, operands[1..])
  }

  ghost function FullTargets(targets: seq<Target>, sc: ScopeView): ProjMap {
    if |targets| == 0 then map[]
    else
      var proj := FullTargets(targets[..|targets| - 1], sc);
      var t := targets[|targets| - 1];
      match TargetName(t)
      case None => proj
      case Some(name) => Append(proj, Lower(name), ResolveAll(sc, AllRefs(t.val)))
  }

  ghost function Full(sel: Select, outer: Env): ProjMap
    decreases sel, 2
  {
    if sel.larg.Some? || sel.rarg.Some? then
      MergeArms(
        if sel.larg.Some? then Full(sel.larg.value, outer) else map[],
        if sel.rarg.Some? then Full(sel.rarg.value, outer) else map[])
    else FullTargets(sel.targets, FullScope(sel, outer))
  }

  ghost function FullScope(sel: Select, outer: Env): ScopeView
    decreases sel, 1
  {
    FullExtendAll(EMPTY_SCOPE, sel.from, FullCtes(sel.ctes, outer))
  }

  ghost function FullCtes(ctes: seq<Cte>, outer: Env): Env
    decreases ctes, 0
  {
    if |ctes| == 0 then outer
    else
      var env := FullCtes(ctes[..|ctes| - 1], outer);
      var cte := ctes[|ctes| - 1];
      if cte.query.Some? then env[Lower(cte.name) := Full(cte.query.value, env)] else env
  }

  lemma FullCtesStep(ctes: seq<Cte>, outer: Env)
    requires |ctes| > 0 && ctes[|ctes| - 1].query.Some?
    ensures var env, cte := FullCtes(ctes[..|ctes| - 1], outer), ctes[|ctes| - 1];
            FullCtes(ctes, outer) == env[Lower(cte.name) := Full(cte.query.value, env)]
  {
    hide Full, Lower;
  }

  lemma FullCtesNone(outer: Env)
    ensures FullCtes([], outer) == outer
  {
  }

  ghost function FullExtendAll(sc: ScopeView, fs: seq<From>, env: Env): ScopeView
    decreases fs, 0
  {
    if |fs| == 0 then sc
    else FullExtend(FullExtendAll(sc, fs[..|fs| - 1], env), fs[|fs| - 1], env)
  }

  ghost function FullExtend(sc: ScopeView, f: From, env: Env): ScopeView
    decreases f, 0
  {
    match f
    case RangeVar(schema, rel, _) =>
      if Lower(rel) in env && schema == "" then
        sc.(derived := sc.derived[Lower(AliasOf(f)) := env[Lower(rel)]])
      else
        sc.(tables := sc.tables[Lower(AliasOf(f)) := RelationName(schema, rel)],
            bases := sc.bases + [RelationName(schema, rel)])
    case RangeSubselect(sub, alias) =>
      if alias != "" && sub.Some? then sc.(derived := sc.derived[Lower(alias) := Full(sub.value, env)])
      else sc
    case JoinExpr(l, r) => FullExtend(FullExtend(sc, l, env), r, env)
    case FromOther => sc
  }

  // ---- the queries that have a meaning -----------------------------------------------------

  ghost predicate RefOk(fields: seq<Field>) {
    var (parts, star) := FieldNames(fields);
    !star && |parts| > 0 && IsLower(parts[|parts| - 1])
    && (|parts| >= 2 ==> IsLower(parts[|parts| - 2]))
  }

  /** No subquery used as a value, names folded. */
  ghost predicate ExprMeant(e: Expr)
    decreases e
  {
    !e.SubLink? && (e.Ref? ==> RefOk(e.fields))
    && var operands := Operands(e);
       forall i :: 0 <= i < |operands| ==> ExprMeant(operands[i])
  }

  ghost predicate TargetMeant(t: Target) {
    TargetName(t).Some? && IsLower(TargetName(t).value) && ExprMeant(t.val)
  }

  ghost predicate FromMeant(f: From)
    decreases f
  {
    match f
    case RangeVar(_, rel, _) => IsLower(rel) && IsLower(ItemName(f))
    case RangeSubselect(sub, alias) => alias != "" && IsLower(alias) && sub.Some? && SelectMeant(sub.value)
    case JoinExpr(l, r) => FromMeant(l) && FromMeant(r)
    case FromOther => false
  }

  ghost predicate CteMeant(cte: Cte)
    decreases cte
  {
    IsLower(cte.name) && cte.query.Some? && SelectMeant(cte.query.value)
  }

  /** Queries of any depth over base tables, aliased subselects, joins and CTEs,
      with named targets of any expression nodes. */
  ghost predicate SelectMeant(sel: Select)
    decreases sel
  {
    sel.larg.None? && sel.rarg.None? && !sel.recursive
    && (forall i :: 0 <= i < |sel.ctes| ==> CteMeant(sel.ctes[i]))
    && (forall i :: 0 <= i < |sel.from| ==> FromMeant(sel.from[i]))
    && NoDuplicates(AliasesOfAll(sel.from))
    && (forall i :: 0 <= i < |sel.targets| ==> TargetMeant(sel.targets[i]))
  }

  ghost predicate NoDuplicates(names: seq<string>) {
    forall i, j :: 0 <= i < j < |names| ==> names[i] != names[j]
  }

  ghost function AliasesOfAll(fs: seq<From>): seq<string> {
    if |fs| == 0 then [] else AliasesOfAll(fs[..|fs| - 1]) + AliasesOf(fs[|fs| - 1])
  }

  ghost function AliasesOf(f: From): seq<string> {
    match f
    case RangeVar(_, _, _) => [ItemName(f)]
    case RangeSubselect(_, alias) => [alias]
    case JoinExpr(l, r) => AliasesOf(l) + AliasesOf(r)
    case FromOther => []
  }

  // ---- those without a blind spot ----------------------------------------------------------

  /** Only node kinds columnRefsIn walks, names folded, within its depth cap. */
  ghost predicate ExprOk(e: Expr, depth: nat)
    decreases e
  {
    e.Absent?
    || (depth <= MAX_COL_DEPTH && !e.SubLink?
        && (e.Ref? ==> RefOk(e.fields))
        && (e.Opaque? ==> e.hidden == [])
        && var operands := WalkedOperands(e);
           forall i :: 0 <= i < |operands| ==> ExprOk(operands[i], depth + 1))
  }

  ghost predicate TargetOk(t: Target) {
    TargetName(t).Some? && IsLower(TargetName(t).value) && ExprOk(t.val, 0)
  }

  ghost predicate FromOk(f: From, depth: nat)
    decreases f
  {
    match f
    case RangeVar(_, rel, _) => IsLower(rel) && IsLower(ItemName(f))
    case RangeSubselect(sub, alias) =>
      alias != "" && IsLower(alias) && sub.Some? && SelectOk(sub.value, depth + 1)
    case JoinExpr(l, r) => FromOk(l, depth) && FromOk(r, depth)
    case FromOther => false
  }

  ghost predicate CteOk(cte: Cte, depth: nat)
    decreases cte
  {
    IsLower(cte.name) && cte.query.Some? && SelectOk(cte.query.value, depth + 1)
  }

  /** The same with walked nodes only, within the depth cap, nesting measured from
      `depth`. */
  ghost predicate SelectOk(sel: Select, depth: nat)
    decreases sel
  {
    depth <= MAX_COL_DEPTH && sel.larg.None? && sel.rarg.None? && !sel.recursive
    && (forall i :: 0 <= i < |sel.ctes| ==> CteOk(sel.ctes[i], depth))
    && (forall i :: 0 <= i < |sel.from| ==> FromOk(sel.from[i], depth))
    && NoDuplicates(AliasesOfAll(sel.from))
    && (forall i :: 0 <= i < |sel.targets| ==> TargetOk(sel.targets[i]))
  }

  lemma {:induction false} WalkedExpr(e: Expr, depth: nat)
    requires ExprOk(e, depth)
    ensures ExprMeant(e) && AllRefs(e) == ColumnRefsIn(e, depth)
    decreases e, 1, 0
  {
    hide RefOk;
    if !e.Absent? && !e.Ref? {
      assert Operands(e) == WalkedOperands(e);
      WalkedExprs(e, WalkedOperands(e), depth + 1);
    }
  }

  lemma {:induction false} WalkedExprs(e: Expr, operands: seq<Expr>, depth: nat)
    requires forall i :: 0 <= i < |operands| ==> operands[i] < e && ExprOk(operands[i], depth)
    ensures forall i :: 0 <= i < |operands| ==> ExprMeant(operands[i])
    ensures AllRefsIn(e, operands) == RefsInOperands(e, operands, depth)
    decreases e, 0, |operands|
  {
    hide ExprOk, ExprMeant;
    if |operands| > 0 {
      WalkedExpr(operands[0], depth);
      WalkedExprs(e, operands[1..], depth);
      assert forall i :: 1 <= i < |operands| ==> operands[i] == operands[1..][i - 1];
    }
  }

  lemma {:induction false} WalkedTargets(targets: seq<Target>, sc: ScopeView)
    requires forall i :: 0 <= i < |targets| ==> TargetOk(targets[i])
    ensures forall i :: 0 <= i < |targets| ==> TargetMeant(targets[i])
    ensures FullTargets(targets, sc) == ProjectTargets(targets, sc)
  {
    hide ExprOk, ExprMeant, AllRefs, ColumnRefsIn, ResolveAll, IsLower, Lower;
    if |targets| > 0 {
      WalkedTargets(targets[..|targets| - 1], sc);
      WalkedExpr(targets[|targets| - 1].val, 0);
    }
  }

  lemma WalkedItem(sc: ScopeView, f: From, env: Env, depth: nat)
    requires FromOk(f, depth)
    ensures FromMeant(f) && FullExtend(sc, f, env) == Extend(sc, f, env, depth)
    decreases f, 0
  {
    hide Lower, IsLower;
    match f {
      case RangeVar(_, _, _) =>
      case RangeSubselect(sub, _) => WalkedSelect(sub.value, env, depth + 1);
      case JoinExpr(l, r) =>
        WalkedItem(sc, l, env, depth);
        WalkedItem(Extend(sc, l, env, depth), r, env, depth);
    }
  }

  lemma WalkedItems(fs: seq<From>, env: Env, depth: nat)
    requires forall i :: 0 <= i < |fs| ==> FromOk(fs[i], depth)
    ensures forall i :: 0 <= i < |fs| ==> FromMeant(fs[i])
    ensures FullExtendAll(EMPTY_SCOPE, fs, env) == ExtendAll(EMPTY_SCOPE, fs, env, depth)
    decreases fs, 1
  {
    hide FromOk, FromMeant, Extend, FullExtend;
    if |fs| > 0 {
      var n := |fs| - 1;
      WalkedItems(fs[..n], env, depth);
      WalkedItem(ExtendAll(EMPTY_SCOPE, fs[..n], env, depth), fs[n], env, depth);
      assert forall i :: 0 <= i < n ==> fs[i] == fs[..n][i];
    }
  }

  lemma WalkedCtes(ctes: seq<Cte>, env: Env, depth: nat)
    requires forall i :: 0 <= i < |ctes| ==> CteOk(ctes[i], depth)
    ensures forall i :: 0 <= i < |ctes| ==> CteMeant(ctes[i])
    ensures FullCtes(ctes, env) == WithCtes(ctes, env, depth)
    decreases ctes, 1
  {
    hide Lower, IsLower, Full, Project, SelectOk, SelectMeant;
    if |ctes| > 0 {
      var n := |ctes| - 1;
      WalkedCtes(ctes[..n], env, depth);
      assert CteOk(ctes[n], depth);
      WalkedSelect(ctes[n].query.value, WithCtes(ctes[..n], env, depth), depth + 1);
      assert forall i :: 0 <= i < n ==> ctes[i] == ctes[..n][i];
    }
  }

  /** Where nothing is hidden the resolver lists what the full one does. */
  lemma WalkedSelect(sel: Select, env: Env, depth: nat)
    requires SelectOk(sel, depth)
    ensures SelectMeant(sel) && Full(sel, env) == Project(sel, env, depth)
    decreases sel, 2
  {
    hide TargetOk, TargetMeant, FromOk, FromMeant, CteOk, CteMeant, ProjectTargets, FullTargets;
    var env' := WithCtes(sel.ctes, env, depth);
    WalkedCtes(sel.ctes, env, depth);
    WalkedItems(sel.from, env', depth);
    WalkedTargets(sel.targets, ExtendAll(EMPTY_SCOPE, sel.from, env', depth));
  }

  // ---- the resolver lists no more ----------------------------------------------------------

  lemma ResolveAllContains(sc: ScopeView, refs: seq<seq<Field>>, fields: seq<Field>)
    requires fields in refs
    ensures Resolve(sc, fields) <= ResolveAll(sc, refs)
  {
    if fields != refs[|refs| - 1] {
      ResolveAllContains(sc, refs[..|refs| - 1], fields);
    }
  }

  lemma {:induction false} ResolvedFrom(sc: ScopeView, refs: seq<seq<Field>>, ref: ColRef) returns (fields: seq<Field>)
    requires ref in ResolveAll(sc, refs)
    ensures fields in refs && ref in Resolve(sc, fields)
  {
    hide Resolve;
    if ref in Resolve(sc, refs[|refs| - 1]) {
      fields := refs[|refs| - 1];
    } else {
      fields := ResolvedFrom(sc, refs[..|refs| - 1], ref);
    }
  }

  ghost predicate Less(p: ProjMap, q: ProjMap) {
    forall k :: Get(p, k) <= Get(q, k)
  }

  ghost predicate EnvLess(a: Env, b: Env) {
    a.Keys == b.Keys && forall k :: k in a ==> Less(a[k], b[k])
  }

  ghost predicate ScopeLess(s: ScopeView, t: ScopeView) {
    s.tables == t.tables && s.bases == t.bases && EnvLess(s.derived, t.derived)
  }

  lemma DerivedLess(a: Env, b: Env, col: string)
    requires EnvLess(a, b)
    ensures DerivedRefs(a, col) <= DerivedRefs(b, col)
    ensures Demote(DerivedRefs(a, col)) <= Demote(DerivedRefs(b, col))
  {
    forall r | r in DerivedRefs(a, col) ensures r in DerivedRefs(b, col) {
      var k :| k in a && r in Get(a[k], col);
      assert Less(a[k], b[k]) && r in Get(b[k], col);
    }
  }

  lemma ResolveLess(s: ScopeView, t: ScopeView, fields: seq<Field>)
    requires ScopeLess(s, t)
    ensures Resolve(s, fields) <= Resolve(t, fields)
  {
    hide Lower, DerivedRefs, Demote, BaseRefs;
    assert |s.derived| == |s.derived.Keys| == |t.derived.Keys| == |t.derived|;
    var (parts, star) := FieldNames(fields);
    if !star && |parts| > 0 {
      DerivedLess(s.derived, t.derived, Lower(parts[|parts| - 1]));
    }
  }

  lemma {:induction false} RefsLess(e: Expr, depth: nat, fields: seq<Field>)
    requires ExprMeant(e) && fields in ColumnRefsIn(e, depth)
    ensures fields in AllRefs(e)
    decreases e, 1, 0
  {
    hide RefOk;
    if !e.Ref? {
      assert WalkedOperands(e) == [] || WalkedOperands(e) == Operands(e);
      RefsInLess(e, WalkedOperands(e), depth + 1, fields);
    }
  }

  lemma {:induction false} RefsInLess(e: Expr, operands: seq<Expr>, depth: nat, fields: seq<Field>)
    requires forall i :: 0 <= i < |operands| ==> operands[i] < e && ExprMeant(operands[i])
    requires fields in RefsInOperands(e, operands, depth)
    ensures fields in AllRefsIn(e, operands)
    decreases e, 0, |operands|
  {
    hide ExprMeant;
    if fields in ColumnRefsIn(operands[0], depth) {
      RefsLess(operands[0], depth, fields);
    } else {
      RefsInLess(e, operands[1..], depth, fields);
    }
  }

  lemma ExprLess(s: ScopeView, t: ScopeView, e: Expr)
    requires ScopeLess(s, t) && ExprMeant(e)
    ensures ResolveAll(s, ColumnRefsIn(e, 0)) <= ResolveAll(t, AllRefs(e))
  {
    hide ScopeLess, ExprMeant, Resolve, ResolveAll, AllRefs, ColumnRefsIn;
    forall r | r in ResolveAll(s, ColumnRefsIn(e, 0)) ensures r in ResolveAll(t, AllRefs(e)) {
      var fields := ResolvedFrom(s, ColumnRefsIn(e, 0), r);
      RefsLess(e, 0, fields);
      ResolveLess(s, t, fields);
      ResolveAllContains(t, AllRefs(e), fields);
    }
  }

  lemma AppendLess(p: ProjMap, q: ProjMap, key: string, refs: set<ColRef>, more: set<ColRef>)
    requires Less(p, q) && refs <= more
    ensures Less(Append(p, key, refs), Append(q, key, more))
  {
    forall k ensures Get(Append(p, key, refs), k) <= Get(Append(q, key, more), k) {
      assert Get(p, k) <= Get(q, k);
    }
  }

  lemma {:induction false} TargetsLess(targets: seq<Target>, s: ScopeView, t: ScopeView)
    requires ScopeLess(s, t) && forall i :: 0 <= i < |targets| ==> TargetMeant(targets[i])
    ensures Less(ProjectTargets(targets, s), FullTargets(targets, t))
  {
    hide ScopeLess, ExprMeant, ResolveAll, AllRefs, ColumnRefsIn, Lower, IsLower;
    if |targets| > 0 {
      var n := |targets| - 1;
      var e := targets[n].val;
      TargetsLess(targets[..n], s, t);
      ExprLess(s, t, e);
      AppendLess(ProjectTargets(targets[..n], s), FullTargets(targets[..n], t), Lower(TargetName(targets[n]).value),
                 ResolveAll(s, ColumnRefsIn(e, 0)), ResolveAll(t, AllRefs(e)));
    }
  }

  lemma ItemLess(s: ScopeView, t: ScopeView, f: From, a: Env, b: Env, depth: nat)
    requires ScopeLess(s, t) && EnvLess(a, b) && FromMeant(f)
    ensures ScopeLess(Extend(s, f, a, depth), FullExtend(t, f, b))
    decreases f, 0
  {
    hide Lower, IsLower, Less;
    match f {
      case RangeVar(_, _, _) =>
      case RangeSubselect(sub, _) => SelectLess(sub.value, a, b, depth + 1);
      case JoinExpr(l, r) =>
        ItemLess(s, t, l, a, b, depth);
        ItemLess(Extend(s, l, a, depth), FullExtend(t, l, b), r, a, b, depth);
    }
  }

  lemma ItemsLess(fs: seq<From>, a: Env, b: Env, depth: nat)
    requires EnvLess(a, b) && forall i :: 0 <= i < |fs| ==> FromMeant(fs[i])
    ensures ScopeLess(ExtendAll(EMPTY_SCOPE, fs, a, depth), FullExtendAll(EMPTY_SCOPE, fs, b))
    decreases fs, 1
  {
    hide FromMeant, Extend, FullExtend;
    if |fs| > 0 {
      hide ScopeLess;
      var n := |fs| - 1;
      ItemsLess(fs[..n], a, b, depth);
      ItemLess(ExtendAll(EMPTY_SCOPE, fs[..n], a, depth), FullExtendAll(EMPTY_SCOPE, fs[..n], b), fs[n], a, b, depth);
    }
  }

  lemma CtesLess(ctes: seq<Cte>, a: Env, b: Env, depth: nat)
    requires EnvLess(a, b) && forall i :: 0 <= i < |ctes| ==> CteMeant(ctes[i])
    ensures EnvLess(WithCtes(ctes, a, depth), FullCtes(ctes, b))
    decreases ctes, 1
  {
    hide Lower, IsLower, Less, Project, Full, SelectMeant;
    if |ctes| > 0 {
      var n := |ctes| - 1;
      CtesLess(ctes[..n], a, b, depth);
      assert CteMeant(ctes[n]);
      SelectLess(ctes[n].query.value, WithCtes(ctes[..n], a, depth), FullCtes(ctes[..n], b), depth + 1);
    }
  }

  lemma SelectLess(sel: Select, a: Env, b: Env, depth: nat)
    requires SelectMeant(sel) && EnvLess(a, b)
    ensures Less(Project(sel, a, depth), Full(sel, b))
    decreases sel, 2
  {
    hide TargetMeant, FromMeant, CteMeant, ProjectTargets, FullTargets, EnvLess, ScopeLess;
    CtesLess(sel.ctes, a, b, depth);
    ItemsLess(sel.from, WithCtes(sel.ctes, a, depth), FullCtes(sel.ctes, b), depth);
    TargetsLess(sel.targets, ScopeOf(sel, a, depth), FullScope(sel, b));
  }
}
