/** Soundness of the column resolver: whatever an output column's value depends
    on is among the upstream columns the resolver lists for it. */
module LineageSoundness {
  import opened Identifiers
  import opened SqlAst
  import opened ColumnLineage
  import opened QuerySemantics
  import opened FullLineage

  // ---- two evaluations side by side ---------------------------------------

  /** Two databases and the choices both evaluations make. */
  datatype Twin = Twin(left: Database, right: Database, ch: Choices)

  ghost predicate SameRowCounts(w: Twin) {
    forall t :: w.left.rowCount(t) == w.right.rowCount(t)
  }

  ghost predicate AgreeOn(w: Twin, fqn: string) {
    forall rel, col :: ColumnFqn(rel, col) == fqn ==> w.left.column(rel, col) == w.right.column(rel, col)
  }

  ghost predicate Agree(w: Twin, refs: set<ColRef>) {
    forall r :: r in refs ==> AgreeOn(w, r.fqn)
  }

  /** Each column is equal on both sides if the databases agree on its refs. */
  ghost predicate Covers(w: Twin, p: ProjMap, a: Relation, b: Relation) {
    a.rows == b.rows && |a.outs| == |b.outs|
    && forall i :: 0 <= i < |a.outs| ==>
         a.outs[i].name == b.outs[i].name
         && (Agree(w, Get(p, a.outs[i].name)) ==> a.outs[i].col == b.outs[i].col)
  }

  ghost predicate EnvCovers(w: Twin, env: Env, a: RelEnv, b: RelEnv) {
    a.Keys == b.Keys == env.Keys
    && forall k :: k in env ==> Covers(w, env[k], a[k], b[k])
  }

  ghost predicate Linked(w: Twin, sc: ScopeView, a: Source, b: Source) {
    a.alias == b.alias && IsLower(a.alias)
    && match a
       case Base(alias, fqn) => a == b && alias in sc.tables && sc.tables[alias] == fqn && fqn in sc.bases
       case Derived(alias, rel) =>
         b.Derived? && alias in sc.derived && Covers(w, sc.derived[alias], rel, b.rel)
  }

  ghost function Aliases(srcs: seq<Source>): (names: seq<string>)
    ensures |names| == |srcs|
  {
    seq(|srcs|, i requires 0 <= i < |srcs| => srcs[i].alias)
  }

  ghost predicate AllLinked(w: Twin, sc: ScopeView, a: seq<Source>, b: seq<Source>) {
    |a| == |b| && forall i :: 0 <= i < |a| ==> Linked(w, sc, a[i], b[i])
  }

  ghost predicate IsSource(srcs: seq<Source>, i: int, alias: string, base: bool) {
    0 <= i < |srcs| && srcs[i].alias == alias && srcs[i].Base? == base
  }

  ghost predicate AllNamed(keys: set<string>, srcs: seq<Source>, base: bool) {
    forall k :: k in keys ==> exists i :: IsSource(srcs, i, k, base)
  }

  /** The scope has one entry for each of these sources and no other. */
  ghost predicate Describes(sc: ScopeView, srcs: seq<Source>) {
    AllNamed(sc.tables.Keys, srcs, true)
    && AllNamed(sc.derived.Keys, srcs, false)
    && NoDuplicates(Aliases(srcs))
  }

  ghost predicate ScopeCovers(w: Twin, sc: ScopeView, a: seq<Source>, b: seq<Source>) {
    AllLinked(w, sc, a, b) && Describes(sc, a)
  }

  // ---- column references --------------------------------------------------

  lemma FindSourceFinds(srcs: seq<Source>, alias: string)
    ensures FindSource(srcs, alias) <= |srcs|
    ensures FindSource(srcs, alias) < |srcs| ==> srcs[FindSource(srcs, alias)].alias == alias
    ensures forall i :: 0 <= i < FindSource(srcs, alias) && i < |srcs| ==> srcs[i].alias != alias
  {
    if |srcs| > 0 && srcs[0].alias != alias {
      FindSourceFinds(srcs[1..], alias);
      assert forall i :: 0 < i < |srcs| ==> srcs[i] == srcs[1..][i - 1];
    }
  }

  lemma NamedColumnsAgree(w: Twin, p: ProjMap, a: Relation, b: Relation, name: string, n: nat)
    requires Covers(w, p, a, b) && n <= |a.outs|
    requires Agree(w, Get(p, name))
    ensures NamedColumns(a.outs[..n], name) == NamedColumns(b.outs[..n], name)
  {
    if n > 0 {
      NamedColumnsAgree(w, p, a, b, name, n - 1);
      assert a.outs[..n][..n - 1] == a.outs[..n - 1];
      assert b.outs[..n][..n - 1] == b.outs[..n - 1];
    }
  }

  lemma SourceColumnsAgree(w: Twin, sc: ScopeView, a: Source, b: Source, col: string, path: seq<nat>)
    requires Linked(w, sc, a, b) && SourceAgrees(w, sc, a, col)
    ensures SourceColumn(w.left, w.ch, a, col, path) == SourceColumn(w.right, w.ch, b, col, path)
  {
    match a {
      case Base(_, fqn) =>
      case Derived(alias, rel) =>
        NamedColumnsAgree(w, sc.derived[alias], rel, b.rel, col, |rel.outs|);
        assert rel.outs[..|rel.outs|] == rel.outs && b.rel.outs[..|rel.outs|] == b.rel.outs;
    }
  }

  /** The databases agree on the column that source k offers under this name. */
  ghost predicate SourceAgrees(w: Twin, sc: ScopeView, src: Source, col: string) {
    match src
    case Base(_, fqn) => AgreeOn(w, ColumnFqn(fqn, col))
    case Derived(alias, _) => alias in sc.derived && Agree(w, Get(sc.derived[alias], col))
  }

  lemma SameSourceFound(w: Twin, sc: ScopeView, a: seq<Source>, b: seq<Source>, alias: string)
    requires AllLinked(w, sc, a, b)
    ensures FindSource(a, alias) == FindSource(b, alias)
  {
    FindSourceFinds(a, alias);
    FindSourceFinds(b, alias);
    assert forall i :: 0 <= i < |a| ==> a[i].alias == b[i].alias && Linked(w, sc, a[i], b[i]);
  }

  lemma QualifiedResolve(sc: ScopeView, fields: seq<Field>, qual: string, col: string)
    requires RefOk(fields)
    requires var parts := FieldNames(fields).0;
             |parts| >= 2 && parts[|parts| - 2] == qual && parts[|parts| - 1] == col
    ensures qual in sc.tables ==> ColRef(ColumnFqn(sc.tables[qual], col), CONF_EXACT) in Resolve(sc, fields)
    ensures qual !in sc.tables && qual in sc.derived ==> Resolve(sc, fields) == Get(sc.derived[qual], col)
  {
  }

  lemma QualifiedCovers(w: Twin, sc: ScopeView, a: seq<Source>, b: seq<Source>, fields: seq<Field>,
                        qual: string, col: string, k: nat)
    requires ScopeCovers(w, sc, a, b) && RefOk(fields) && k < |a| && a[k].alias == qual
    requires var parts := FieldNames(fields).0;
             |parts| >= 2 && parts[|parts| - 2] == qual && parts[|parts| - 1] == col
    requires Agree(w, Resolve(sc, fields))
    ensures SourceAgrees(w, sc, a[k], col)
  {
    assert Linked(w, sc, a[k], b[k]);
    QualifierIsUnique(sc, a, k);
    QualifiedResolve(sc, fields, qual, col);
  }

  lemma QualifierIsUnique(sc: ScopeView, a: seq<Source>, k: nat)
    requires Describes(sc, a) && k < |a|
    ensures a[k].Base? ==> a[k].alias !in sc.derived
    ensures a[k].Derived? ==> a[k].alias !in sc.tables
  {
    var names := Aliases(a);
    forall i | 0 <= i < |a| && a[i].alias == a[k].alias ensures i == k {
      assert names[i] == names[k];
    }
    assert forall i, base :: IsSource(a, i, a[k].alias, base) ==> base == a[k].Base?;
  }

  lemma UnqualifiedCovers(w: Twin, sc: ScopeView, a: seq<Source>, b: seq<Source>,
                          fields: seq<Field>, k: nat)
    requires ScopeCovers(w, sc, a, b) && RefOk(fields) && k < |a|
    requires |FieldNames(fields).0| == 1
    requires Agree(w, Resolve(sc, fields))
    ensures SourceAgrees(w, sc, a[k], FieldNames(fields).0[0])
  {
    var col := FieldNames(fields).0[0];
    assert Linked(w, sc, a[k], b[k]);
    if a[k].Base? {
      UnqualifiedBase(sc, fields, a[k].fqn);
    } else {
      UnqualifiedDerived(sc, fields, a[k].alias);
      forall r | r in Get(sc.derived[a[k].alias], col) ensures AgreeOn(w, r.fqn) {
        var r' :| r' in Resolve(sc, fields) && r'.fqn == r.fqn;
      }
    }
  }

  lemma UnqualifiedBase(sc: ScopeView, fields: seq<Field>, fqn: string)
    requires RefOk(fields) && |FieldNames(fields).0| == 1 && fqn in sc.bases
    ensures exists r :: r in Resolve(sc, fields) && r.fqn == ColumnFqn(fqn, FieldNames(fields).0[0])
  {
    var col := FieldNames(fields).0[0];
    if |sc.bases| == 1 && |sc.derived| == 0 {
      assert ColRef(ColumnFqn(fqn, col), CONF_EXACT) in Resolve(sc, fields);
    } else {
      assert ColRef(ColumnFqn(fqn, col), CONF_AMBIGUOUS) in Resolve(sc, fields);
    }
  }

  lemma UnqualifiedDerived(sc: ScopeView, fields: seq<Field>, alias: string)
    requires RefOk(fields) && |FieldNames(fields).0| == 1 && alias in sc.derived
    ensures forall r :: r in Get(sc.derived[alias], FieldNames(fields).0[0]) ==>
              exists r' :: r' in Resolve(sc, fields) && r'.fqn == r.fqn
  {
    var col := FieldNames(fields).0[0];
    assert |sc.derived| > 0;
    forall r | r in Get(sc.derived[alias], col)
      ensures exists r' :: r' in Resolve(sc, fields) && r'.fqn == r.fqn
    {
      assert r in DerivedRefs(sc.derived, col);
      if |sc.bases| == 0 && |sc.derived| == 1 {
        assert r in Resolve(sc, fields);
      } else {
        assert ColRef(r.fqn, CONF_AMBIGUOUS) in Resolve(sc, fields);
      }
    }
  }

  lemma SameBinding(w: Twin, sc: ScopeView, a: seq<Source>, b: seq<Source>, parts: seq<string>, path: seq<nat>)
    requires AllLinked(w, sc, a, b) && |parts| > 0
    ensures var k := BoundSource(w.ch, parts, a, path);
            k == BoundSource(w.ch, parts, b, path)
            && (k < |a| && |parts| >= 2 ==> a[k].alias == parts[|parts| - 2])
  {
    if |parts| >= 2 {
      SameSourceFound(w, sc, a, b, parts[|parts| - 2]);
      FindSourceFinds(a, parts[|parts| - 2]);
    }
  }

  /** The resolver lists whatever the source a reference binds to offers. */
  lemma BoundSourceCovers(w: Twin, sc: ScopeView, a: seq<Source>, b: seq<Source>, fields: seq<Field>, k: nat)
    requires ScopeCovers(w, sc, a, b) && RefOk(fields) && k < |a|
    requires var parts := FieldNames(fields).0;
             |parts| >= 2 ==> a[k].alias == parts[|parts| - 2]
    requires Agree(w, Resolve(sc, fields))
    ensures SourceAgrees(w, sc, a[k], FieldNames(fields).0[|FieldNames(fields).0| - 1])
  {
    var parts := FieldNames(fields).0;
    if |parts| >= 2 {
      QualifiedCovers(w, sc, a, b, fields, parts[|parts| - 2], parts[|parts| - 1], k);
    } else {
      UnqualifiedCovers(w, sc, a, b, fields, k);
    }
  }

  lemma RefAgrees(w: Twin, sc: ScopeView, a: seq<Source>, b: seq<Source>,
                  fields: seq<Field>, combos: seq<seq<nat>>, path: seq<nat>)
    requires ScopeCovers(w, sc, a, b) && RefOk(fields)
    requires Agree(w, Resolve(sc, fields))
    ensures EvalRef(w.left, w.ch, fields, a, combos, path) == EvalRef(w.right, w.ch, fields, b, combos, path)
  {
    var parts := FieldNames(fields).0;
    var k := BoundSource(w.ch, parts, a, path);
    SameBinding(w, sc, a, b, parts, path);
    if k < |a| {
      BoundSourceCovers(w, sc, a, b, fields, k);
      assert Linked(w, sc, a[k], b[k]);
      SourceColumnsAgree(w, sc, a[k], b[k], parts[|parts| - 1], path);
    }
  }

  // ---- expressions and targets --------------------------------------------

  lemma ExprAgrees(w: Twin, sc: ScopeView, a: seq<Source>, b: seq<Source>,
                   e: Expr, combos: seq<seq<nat>>, path: seq<nat>)
    requires ScopeCovers(w, sc, a, b) && ExprMeant(e)
    requires forall fields :: fields in AllRefs(e) ==> Agree(w, Resolve(sc, fields))
    ensures EvalExpr(w.left, w.ch, e, a, combos, path) == EvalExpr(w.right, w.ch, e, b, combos, path)
    decreases e, 1, 0
  {
    if e.Ref? {
      assert e.fields in AllRefs(e);
      RefAgrees(w, sc, a, b, e.fields, combos, path);
    } else {
      OperandsAgree(w, sc, a, b, e, Operands(e), combos, path);
    }
  }

  lemma OperandsAgree(w: Twin, sc: ScopeView, a: seq<Source>, b: seq<Source>, e: Expr,
                      operands: seq<Expr>, combos: seq<seq<nat>>, path: seq<nat>)
    requires ScopeCovers(w, sc, a, b)
    requires forall i :: 0 <= i < |operands| ==> operands[i] < e && ExprMeant(operands[i])
    requires forall fields :: fields in AllRefsIn(e, operands) ==> Agree(w, Resolve(sc, fields))
    ensures EvalOperands(w.left, w.ch, e, operands, a, combos, path)
         == EvalOperands(w.right, w.ch, e, operands, b, combos, path)
    decreases e, 0, |operands|
  {
    if |operands| > 0 {
      ExprAgrees(w, sc, a, b, operands[0], combos, path);
      OperandsAgree(w, sc, a, b, e, operands[1..], combos, path);
    }
  }

  /** The projection lists, under a target's name, all refs of the target. */
  lemma ProjectionContainsTarget(targets: seq<Target>, sc: ScopeView, i: nat)
    requires i < |targets| && TargetName(targets[i]).Some?
    ensures ResolveAll(sc, AllRefs(targets[i].val))
         <= Get(FullTargets(targets, sc), Lower(TargetName(targets[i]).value))
  {
    if i < |targets| - 1 {
      ProjectionContainsTarget(targets[..|targets| - 1], sc, i);
    }
  }

  lemma TargetAgrees(w: Twin, sc: ScopeView, a: seq<Source>, b: seq<Source>,
                     targets: seq<Target>, i: nat, combos: seq<seq<nat>>, path: seq<nat>)
    requires ScopeCovers(w, sc, a, b) && i < |targets| && TargetMeant(targets[i])
    requires Agree(w, Get(FullTargets(targets, sc), OutputName(targets[i])))
    ensures EvalExpr(w.left, w.ch, targets[i].val, a, combos, path)
         == EvalExpr(w.right, w.ch, targets[i].val, b, combos, path)
  {
    ProjectionContainsTarget(targets, sc, i);
    var leaves := AllRefs(targets[i].val);
    forall fields | fields in leaves ensures Agree(w, Resolve(sc, fields)) {
      ResolveAllContains(sc, leaves, fields);
    }
    ExprAgrees(w, sc, a, b, targets[i].val, combos, path);
  }

  // ---- scopes -------------------------------------------------------------

  lemma AllNamedGrows(keys: set<string>, srcs: seq<Source>, base: bool, x: Source)
    requires AllNamed(keys, srcs, base)
    ensures AllNamed(keys, srcs + [x], base)
    ensures x.Base? == base ==> AllNamed(keys + {x.alias}, srcs + [x], base)
  {
    var srcs' := srcs + [x];
    forall k | k in keys ensures exists i :: IsSource(srcs', i, k, base) {
      var i :| IsSource(srcs, i, k, base);
      assert IsSource(srcs', i, k, base);
    }
    if x.Base? == base {
      assert IsSource(srcs', |srcs|, x.alias, base);
    }
  }

  /** Binding a new alias leaves the earlier sources linked. */
  lemma LinkedKeeps(w: Twin, sc: ScopeView, sc': ScopeView, a: seq<Source>, b: seq<Source>, alias: string)
    requires AllLinked(w, sc, a, b) && alias !in Aliases(a)
    requires forall k :: k in sc.tables && k != alias ==> k in sc'.tables && sc'.tables[k] == sc.tables[k]
    requires forall k :: k in sc.derived && k != alias ==> k in sc'.derived && sc'.derived[k] == sc.derived[k]
    requires sc.bases <= sc'.bases
    ensures AllLinked(w, sc', a, b)
  {
    forall i | 0 <= i < |a| ensures Linked(w, sc', a[i], b[i]) {
      assert Linked(w, sc, a[i], b[i]) && Aliases(a)[i] == a[i].alias;
    }
  }

  lemma LinkedGrows(w: Twin, sc: ScopeView, a: seq<Source>, b: seq<Source>, x: Source, y: Source)
    requires AllLinked(w, sc, a, b) && Linked(w, sc, x, y)
    ensures AllLinked(w, sc, a + [x], b + [y])
  {
  }

  lemma AliasesGrow(srcs: seq<Source>, x: Source)
    requires NoDuplicates(Aliases(srcs)) && x.alias !in Aliases(srcs)
    ensures Aliases(srcs + [x]) == Aliases(srcs) + [x.alias]
    ensures NoDuplicates(Aliases(srcs + [x]))
  {
    assert Aliases(srcs + [x]) == Aliases(srcs) + [x.alias];
  }

  lemma DescribesGrows(sc: ScopeView, sc': ScopeView, srcs: seq<Source>, x: Source)
    requires Describes(sc, srcs) && x.alias !in Aliases(srcs)
    requires x.Base? ==> sc'.tables.Keys == sc.tables.Keys + {x.alias}
                         && sc'.derived.Keys == sc.derived.Keys
    requires x.Derived? ==> sc'.derived.Keys == sc.derived.Keys + {x.alias}
                            && sc'.tables.Keys == sc.tables.Keys
    ensures Describes(sc', srcs + [x]) && Aliases(srcs + [x]) == Aliases(srcs) + [x.alias]
  {
    AliasesGrow(srcs, x);
    assert AllNamed(sc'.tables.Keys, srcs + [x], true) by {
      AllNamedGrows(sc.tables.Keys, srcs, true, x);
    }
    assert AllNamed(sc'.derived.Keys, srcs + [x], false) by {
      AllNamedGrows(sc.derived.Keys, srcs, false, x);
    }
  }

  lemma BaseLinked(w: Twin, sc: ScopeView, a: seq<Source>, b: seq<Source>, alias: string, fqn: string)
    requires AllLinked(w, sc, a, b) && IsLower(alias) && alias !in Aliases(a)
    ensures AllLinked(w, sc.(tables := sc.tables[alias := fqn], bases := sc.bases + [fqn]),
                      a + [Base(alias, fqn)], b + [Base(alias, fqn)])
  {
    var sc' := sc.(tables := sc.tables[alias := fqn], bases := sc.bases + [fqn]);
    LinkedKeeps(w, sc, sc', a, b, alias);
    LinkedGrows(w, sc', a, b, Base(alias, fqn), Base(alias, fqn));
  }

  lemma AddBase(w: Twin, sc: ScopeView, a: seq<Source>, b: seq<Source>, alias: string, fqn: string)
    requires ScopeCovers(w, sc, a, b) && IsLower(alias) && alias !in Aliases(a)
    ensures ScopeCovers(w, sc.(tables := sc.tables[alias := fqn], bases := sc.bases + [fqn]),
                        a + [Base(alias, fqn)], b + [Base(alias, fqn)])
    ensures Aliases(a + [Base(alias, fqn)]) == Aliases(a) + [alias]
  {
    BaseLinked(w, sc, a, b, alias, fqn);
    DescribesGrows(sc, sc.(tables := sc.tables[alias := fqn], bases := sc.bases + [fqn]), a, Base(alias, fqn));
  }

  lemma DerivedLinked(w: Twin, sc: ScopeView, a: seq<Source>, b: seq<Source>, alias: string,
                      p: ProjMap, ra: Relation, rb: Relation)
    requires AllLinked(w, sc, a, b) && IsLower(alias) && alias !in Aliases(a)
    requires Covers(w, p, ra, rb)
    ensures AllLinked(w, sc.(derived := sc.derived[alias := p]),
                      a + [Derived(alias, ra)], b + [Derived(alias, rb)])
  {
    var sc' := sc.(derived := sc.derived[alias := p]);
    LinkedKeeps(w, sc, sc', a, b, alias);
    LinkedGrows(w, sc', a, b, Derived(alias, ra), Derived(alias, rb));
  }

  lemma AddDerived(w: Twin, sc: ScopeView, a: seq<Source>, b: seq<Source>, alias: string,
                   p: ProjMap, ra: Relation, rb: Relation)
    requires ScopeCovers(w, sc, a, b) && IsLower(alias) && alias !in Aliases(a)
    requires Covers(w, p, ra, rb)
    ensures ScopeCovers(w, sc.(derived := sc.derived[alias := p]),
                        a + [Derived(alias, ra)], b + [Derived(alias, rb)])
    ensures Aliases(a + [Derived(alias, ra)]) == Aliases(a) + [alias]
  {
    DerivedLinked(w, sc, a, b, alias, p, ra, rb);
    DescribesGrows(sc, sc.(derived := sc.derived[alias := p]), a, Derived(alias, ra));
  }

  lemma FromItemCovers(w: Twin, sc: ScopeView, a: seq<Source>, b: seq<Source>, f: From,
                       env: Env, ea: RelEnv, eb: RelEnv, path: seq<nat>)
    requires SameRowCounts(w) && EnvCovers(w, env, ea, eb)
    requires ScopeCovers(w, sc, a, b) && FromMeant(f)
    requires NoDuplicates(Aliases(a) + AliasesOf(f))
    ensures var a', b' := a + SourcesOf(w.left, w.ch, f, ea, path), b + SourcesOf(w.right, w.ch, f, eb, path);
            ScopeCovers(w, FullExtend(sc, f, env), a', b')
            && Aliases(a') == Aliases(a) + AliasesOf(f)
    decreases f, 1
  {
    match f {
      case RangeVar(schema, rel, _) =>
        var alias := AliasOf(f);
        LastIsNew(Aliases(a), alias);
        if schema == "" && rel in env {
          AddDerived(w, sc, a, b, alias, env[rel], ea[rel], eb[rel]);
        } else {
          AddBase(w, sc, a, b, alias, RelationName(schema, rel));
        }
      case RangeSubselect(sub, alias) =>
        LastIsNew(Aliases(a), alias);
        FullCovers(w, sub.value, env, ea, eb, path);
        AddDerived(w, sc, a, b, alias, Full(sub.value, env),
                   EvalSelect(w.left, w.ch, sub.value, ea, path), EvalSelect(w.right, w.ch, sub.value, eb, path));
      case JoinExpr(l, r) =>
        JoinCovers(w, sc, a, b, f, env, ea, eb, path);
    }
  }

  lemma LastIsNew(names: seq<string>, alias: string)
    requires NoDuplicates(names + [alias])
    ensures alias !in names
  {
    var all := names + [alias];
    forall i | 0 <= i < |names| ensures names[i] != alias {
      assert all[i] != all[|names|];
    }
  }

  lemma PrefixHasNoDuplicates(xs: seq<string>, ys: seq<string>)
    requires NoDuplicates(xs + ys)
    ensures NoDuplicates(xs)
  {
    assert forall i :: 0 <= i < |xs| ==> xs[i] == (xs + ys)[i];
  }

  lemma AppendAssociative<T>(a: seq<T>, b: seq<T>, c: seq<T>)
    ensures a + (b + c) == (a + b) + c
  {
  }

  lemma JoinCovers(w: Twin, sc: ScopeView, a: seq<Source>, b: seq<Source>, f: From,
                   env: Env, ea: RelEnv, eb: RelEnv, path: seq<nat>)
    requires SameRowCounts(w) && EnvCovers(w, env, ea, eb)
    requires ScopeCovers(w, sc, a, b) && f.JoinExpr? && FromMeant(f)
    requires NoDuplicates(Aliases(a) + AliasesOf(f))
    ensures var a', b' := a + SourcesOf(w.left, w.ch, f, ea, path), b + SourcesOf(w.right, w.ch, f, eb, path);
            ScopeCovers(w, FullExtend(sc, f, env), a', b')
            && Aliases(a') == Aliases(a) + AliasesOf(f)
    decreases f, 0
  {
    var l, r := f.left, f.right;
    var la, lb := SourcesOf(w.left, w.ch, l, ea, path + [0]), SourcesOf(w.right, w.ch, l, eb, path + [0]);
    var ra, rb := SourcesOf(w.left, w.ch, r, ea, path + [1]), SourcesOf(w.right, w.ch, r, eb, path + [1]);
    AppendAssociative(Aliases(a), AliasesOf(l), AliasesOf(r));
    PrefixHasNoDuplicates(Aliases(a) + AliasesOf(l), AliasesOf(r));
    FromItemCovers(w, sc, a, b, l, env, ea, eb, path + [0]);
    FromItemCovers(w, FullExtend(sc, l, env), a + la, b + lb, r, env, ea, eb, path + [1]);
    AppendAssociative(a, la, ra);
    AppendAssociative(b, lb, rb);
  }

  lemma FromClauseCovers(w: Twin, fs: seq<From>, env: Env, ea: RelEnv, eb: RelEnv, path: seq<nat>)
    requires SameRowCounts(w) && EnvCovers(w, env, ea, eb)
    requires forall i :: 0 <= i < |fs| ==> FromMeant(fs[i])
    requires NoDuplicates(AliasesOfAll(fs))
    ensures var a, b := SourcesOfAll(w.left, w.ch, fs, ea, path), SourcesOfAll(w.right, w.ch, fs, eb, path);
            ScopeCovers(w, FullExtendAll(EMPTY_SCOPE, fs, env), a, b)
            && Aliases(a) == AliasesOfAll(fs)
    decreases fs, 1
  {
    if |fs| > 0 {
      var n := |fs| - 1;
      var before := fs[..n];
      PrefixHasNoDuplicates(AliasesOfAll(before), AliasesOf(fs[n]));
      FromClauseCovers(w, before, env, ea, eb, path);
      FromItemCovers(w, FullExtendAll(EMPTY_SCOPE, before, env),
                     SourcesOfAll(w.left, w.ch, before, ea, path), SourcesOfAll(w.right, w.ch, before, eb, path),
                     fs[n], env, ea, eb, path + [1, |fs|]);
    }
  }

  lemma CtesCover(w: Twin, ctes: seq<Cte>, env: Env, ea: RelEnv, eb: RelEnv, path: seq<nat>)
    requires SameRowCounts(w) && EnvCovers(w, env, ea, eb)
    requires forall i :: 0 <= i < |ctes| ==> CteMeant(ctes[i])
    ensures EnvCovers(w, FullCtes(ctes, env),
                      EvalCtes(w.left, w.ch, ctes, ea, path), EvalCtes(w.right, w.ch, ctes, eb, path))
    decreases ctes, 1
  {
    if |ctes| > 0 {
      var n := |ctes| - 1;
      CtesCover(w, ctes[..n], env, ea, eb, path);
      assert CteMeant(ctes[n]);
      FullCovers(w, ctes[n].query.value, FullCtes(ctes[..n], env),
                   EvalCtes(w.left, w.ch, ctes[..n], ea, path), EvalCtes(w.right, w.ch, ctes[..n], eb, path),
                   path + [0, |ctes|]);
    }
  }

  /** The induction: through any nesting of CTEs, subselects and joins, whatever
      the expressions. */
  lemma FullCovers(w: Twin, sel: Select, env: Env, ea: RelEnv, eb: RelEnv, path: seq<nat>)
    requires SameRowCounts(w) && EnvCovers(w, env, ea, eb) && SelectMeant(sel)
    ensures Covers(w, Full(sel, env),
                   EvalSelect(w.left, w.ch, sel, ea, path), EvalSelect(w.right, w.ch, sel, eb, path))
    decreases sel, 2
  {
    CtesCover(w, sel.ctes, env, ea, eb, path);
    var env' := FullCtes(sel.ctes, env);
    var ea', eb' := EvalCtes(w.left, w.ch, sel.ctes, ea, path), EvalCtes(w.right, w.ch, sel.ctes, eb, path);
    FromClauseCovers(w, sel.from, env', ea', eb', path);
    var a, b := SourcesOfAll(w.left, w.ch, sel.from, ea', path), SourcesOfAll(w.right, w.ch, sel.from, eb', path);
    var sc := FullExtendAll(EMPTY_SCOPE, sel.from, env');
    TargetsCover(w, sc, a, b, sel.targets, path);
  }

  /** Where nothing is hidden, at every depth: what the resolver lists covers what
      the query computes. */
  lemma SelectCovers(w: Twin, sel: Select, env: Env, ea: RelEnv, eb: RelEnv, depth: nat, path: seq<nat>)
    requires SameRowCounts(w) && EnvCovers(w, env, ea, eb) && SelectOk(sel, depth)
    ensures Covers(w, Project(sel, env, depth),
                   EvalSelect(w.left, w.ch, sel, ea, path), EvalSelect(w.right, w.ch, sel, eb, path))
  {
    hide Covers, EvalSelect, Project, Full;
    WalkedSelect(sel, env, depth);
    FullCovers(w, sel, env, ea, eb, path);
  }

  lemma TargetsCover(w: Twin, sc: ScopeView, a: seq<Source>, b: seq<Source>, targets: seq<Target>, path: seq<nat>)
    requires SameRowCounts(w) && ScopeCovers(w, sc, a, b)
    requires forall i :: 0 <= i < |targets| ==> TargetMeant(targets[i])
    ensures RowCounts(w.left, a) == RowCounts(w.right, b)
    ensures var counts := RowCounts(w.left, a);
            var combos := w.ch.pick(path, counts);
            Covers(w, FullTargets(targets, sc),
                   Relation(w.ch.outRows(path, counts), EvalTargets(w.left, w.ch, targets, a, combos, path)),
                   Relation(w.ch.outRows(path, counts), EvalTargets(w.right, w.ch, targets, b, combos, path)))
  {
    assert forall i :: 0 <= i < |a| ==> Linked(w, sc, a[i], b[i]);
    assert RowCounts(w.left, a) == RowCounts(w.right, b);
    var combos := w.ch.pick(path, RowCounts(w.left, a));
    forall i | 0 <= i < |targets| && Agree(w, Get(FullTargets(targets, sc), OutputName(targets[i])))
      ensures EvalExpr(w.left, w.ch, targets[i].val, a, combos, path)
           == EvalExpr(w.right, w.ch, targets[i].val, b, combos, path)
    {
      TargetAgrees(w, sc, a, b, targets, i, combos, path);
    }
  }

  // ---- the theorem ----------------------------------------------------------

  /** The two databases agree on every upstream column the emitted edges give
      for one downstream column. */
  ghost predicate AgreeUpstream(w: Twin, edges: set<Edge>, downstream: string) {
    forall e :: e in edges && e.downstream == downstream ==> AgreeOn(w, e.upstream)
  }

  /** Main result. Take a query of the fragment written into `target`. If two
      databases have the same row counts and agree on every upstream column of
      the edges into target.c, the query computes the same column c from both,
      however ambiguous names bind and whatever the expressions and the row
      filters compute. */
  lemma ColumnLineageIsSound(w: Twin, sel: Select, target: string, hash: string, i: nat)
    requires SameRowCounts(w) && SelectOk(sel, 0) && i < |sel.targets|
    ensures var a, b := EvalSelect(w.left, w.ch, sel, map[], []), EvalSelect(w.right, w.ch, sel, map[], []);
            |a.outs| == |b.outs| == |sel.targets|
            && a.rows == b.rows
            && a.outs[i].name == b.outs[i].name == OutputName(sel.targets[i])
            && (AgreeUpstream(w, ColumnEdges(Some(sel), target, hash), ColumnFqn(target, a.outs[i].name))
                ==> a.outs[i].col == b.outs[i].col)
  {
    SelectCovers(w, sel, map[], map[], map[], 0, []);
    var proj := Project(sel, map[], 0);
    var name := OutputName(sel.targets[i]);
    var edges := ColumnEdges(Some(sel), target, hash);
    if AgreeUpstream(w, edges, ColumnFqn(target, name)) {
      forall r | r in Get(proj, name) ensures AgreeOn(w, r.fqn) {
        if r.fqn != "" {
          var e := Edge(r.fqn, ColumnFqn(target, name), "column", "", r.conf, hash);
          assert e in edges;
        } else {
          assert forall rel, col :: |ColumnFqn(rel, col)| > 0;
        }
      }
    }
  }
}
