/** The converse of soundness: the resolver lists nothing in vain. For every edge
    of a query there are choices and two databases that differ in its upstream
    column alone, over which the output column differs. With both directions it is
    settled when the emitted lineage is sound.

    The proof follows the resolver and collects, in a map, the picks a derivation
    needs: at each SELECT on its way one source to bind to and one output to
    take. Two SELECTs never compete for a slot, because slots carry the position
    of the SELECT; `x` below says which positions a collection stays away from. */
module LineagePrecision {
  import opened Identifiers
  import opened SqlAst
  import opened ColumnLineage
  import opened QuerySemantics
  import opened FullLineage
  import opened LineageSoundness
  import opened MarkedEvaluation
  import LineageConfidence
  import LineageCtes

  type Path = seq<nat>
  type Area = Path -> bool

  // ---- relations that depend on the picks ------------------------------------------------------

  ghost predicate Extends(m: Picks, d: Picks) {
    forall s :: s in d ==> s in m && m[s] == d[s]
  }

  ghost predicate Avoids(d: Picks, x: Area) {
    forall s :: s in d ==> !x(s.0)
  }

  /** With the picks of d, whatever else is picked, output i of this name counts a mark. */
  ghost predicate Shows(r: Picks -> Relation, name: string, d: Picks, i: nat) {
    forall m :: Extends(m, d) ==>
      i < |NamedColumns(r(m).outs, name)| && FirstOf(NamedColumns(r(m).outs, name)[i]) >= 1
  }

  ghost predicate Hit(r: Picks -> Relation, name: string, x: Area) {
    exists d: Picks, i: nat :: Shows(r, name, d, i) && Avoids(d, x)
  }

  ghost predicate Lists(p: ProjMap, name: string, fqn: string) {
    exists ref :: ref in Get(p, name) && ref.fqn == fqn
  }

  /** Wherever the projection lists the marked column, a mark can be made to show. */
  ghost predicate Good(r: Picks -> Relation, p: ProjMap, fqn: string, x: Area) {
    forall name :: Lists(p, name, fqn) ==> Hit(r, name, x)
  }

  lemma GoodElsewhere(r: Picks -> Relation, q: Picks -> Relation, p: ProjMap, fqn: string, x: Area, y: Area)
    requires Good(r, p, fqn, x)
    requires forall m :: r(m) == q(m)
    requires forall path :: y(path) ==> x(path)
    ensures Good(q, p, fqn, y)
  {
    forall name | Lists(p, name, fqn) ensures Hit(q, name, y) {
      var d: Picks, i: nat :| Shows(r, name, d, i) && Avoids(d, x);
      assert Shows(q, name, d, i) && Avoids(d, y);
    }
  }

  type EnvFamily = Picks -> RelEnv

  ghost function RelAt(e: EnvFamily, name: string): Picks -> Relation {
    m => if name in e(m) then e(m)[name] else Relation(0, [])
  }

  ghost predicate EnvGood(e: EnvFamily, env: Env, fqn: string, x: Area) {
    (forall m :: e(m).Keys == env.Keys)
    && forall name :: name in env ==> Good(RelAt(e, name), env[name], fqn, x)
  }

  lemma EnvElsewhere(e: EnvFamily, env: Env, fqn: string, x: Area, y: Area)
    requires EnvGood(e, env, fqn, x) && forall path :: y(path) ==> x(path)
    ensures EnvGood(e, env, fqn, y)
  {
    hide Good, RelAt;
    forall name | name in env ensures Good(RelAt(e, name), env[name], fqn, y) {
      GoodElsewhere(RelAt(e, name), RelAt(e, name), env[name], fqn, x, y);
    }
  }

  // ---- scopes ------------------------------------------------------------------------------------

  type SourceFamily = Picks -> seq<Source>

  ghost function RelOf(s: SourceFamily, j: nat): Picks -> Relation {
    m => if j < |s(m)| && s(m)[j].Derived? then s(m)[j].rel else Relation(0, [])
  }

  ghost predicate BaseAt(s: SourceFamily, j: nat, alias: string, rel: string) {
    forall m :: j < |s(m)| && s(m)[j] == Base(alias, rel)
  }

  ghost predicate DerivedAt(s: SourceFamily, j: nat, alias: string) {
    forall m :: j < |s(m)| && s(m)[j].Derived? && s(m)[j].alias == alias
  }

  ghost predicate HasBase(s: SourceFamily, names: seq<string>, rel: string) {
    exists j: nat :: j < |names| && BaseAt(s, j, names[j], rel)
  }

  ghost predicate HasTable(s: SourceFamily, names: seq<string>, alias: string, rel: string) {
    exists j: nat :: j < |names| && names[j] == alias && BaseAt(s, j, alias, rel)
  }

  ghost predicate HasDerived(s: SourceFamily, names: seq<string>, alias: string, p: ProjMap, fqn: string, x: Area) {
    exists j: nat :: j < |names| && names[j] == alias && DerivedAt(s, j, alias) && Good(RelOf(s, j), p, fqn, x)
  }

  /** Every entry of the scope stands for one of the sources. */
  ghost predicate ScopeGood(s: SourceFamily, sc: ScopeView, names: seq<string>, fqn: string, x: Area) {
    (forall m :: Aliases(s(m)) == names)
    && (forall b :: b in sc.bases ==> HasBase(s, names, b))
    && (forall a :: a in sc.tables ==> HasTable(s, names, a, sc.tables[a]))
    && (forall a :: a in sc.derived ==> HasDerived(s, names, a, sc.derived[a], fqn, x))
  }

  // ---- references ---------------------------------------------------------------------------------

  /** With the picks of d the reference counts a mark. */
  ghost predicate RefShows(s: SourceFamily, fields: seq<Field>, fqn: string, path: Path, d: Picks) {
    forall m :: Extends(m, d) ==>
      FirstOf(EvalRef(MarkedAt(fqn, 1), Guided(m), fields, s(m), [Zeros(|s(m)|)], path)) >= 1
  }

  ghost predicate StaysNear(d: Picks, path: Path, x: Area) {
    forall slot :: slot in d ==> slot.0 == path || !x(slot.0)
  }

  ghost predicate RefHit(s: SourceFamily, fields: seq<Field>, fqn: string, path: Path, x: Area) {
    exists d: Picks :: RefShows(s, fields, fqn, path, d) && StaysNear(d, path, x)
  }

  /** The reference can be bound to source j of this name. */
  ghost predicate Binds(parts: seq<string>, names: seq<string>, j: nat) {
    |parts| > 0 && j < |names| && (|parts| >= 2 ==> names[j] == parts[|parts| - 2] && NoDuplicates(names))
  }

  lemma BoundTo(s: seq<Source>, names: seq<string>, parts: seq<string>, j: nat, m: Picks, path: Path)
    requires Aliases(s) == names && Binds(parts, names, j)
    requires |parts| == 1 ==> (path, parts[0]) in m && m[(path, parts[0])].0 == j
    ensures BoundSource(Guided(m), parts, s, path) == j
  {
    if |parts| >= 2 {
      FindSourceFinds(s, names[j]);
      var k := FindSource(s, names[j]);
      assert s[j].alias == names[j];
      if k < |s| {
        assert names[k] == s[k].alias;
      }
    }
  }

  lemma EvalBound(fqn: string, m: Picks, fields: seq<Field>, srcs: seq<Source>, path: Path, j: nat)
    requires RefOk(fields) && j < |srcs|
    requires BoundSource(Guided(m), FieldNames(fields).0, srcs, path) == j
    ensures var parts := FieldNames(fields).0;
            FirstOf(EvalRef(MarkedAt(fqn, 1), Guided(m), fields, srcs, [Zeros(|srcs|)], path))
            == FirstOf(SourceColumn(MarkedAt(fqn, 1), Guided(m), srcs[j], parts[|parts| - 1], path))
  {
    hide SourceColumn, Gather, BoundSource;
    var parts := FieldNames(fields).0;
    GatherFirst(SourceColumn(MarkedAt(fqn, 1), Guided(m), srcs[j], parts[|parts| - 1], path), |srcs|, j);
  }

  lemma BaseRefHits(s: SourceFamily, names: seq<string>, fields: seq<Field>, fqn: string, path: Path, x: Area,
                    j: nat, rel: string)
    requires (forall m :: Aliases(s(m)) == names) && RefOk(fields)
    requires var parts := FieldNames(fields).0;
             Binds(parts, names, j) && BaseAt(s, j, names[j], rel) && ColumnFqn(rel, parts[|parts| - 1]) == fqn
    ensures RefHit(s, fields, fqn, path, x)
  {
    hide EvalRef, BoundSource, Guided, Aliases;
    var parts := FieldNames(fields).0;
    var d: Picks := map[(path, parts[|parts| - 1]) := (j, 0)];
    forall m | Extends(m, d)
      ensures FirstOf(EvalRef(MarkedAt(fqn, 1), Guided(m), fields, s(m), [Zeros(|s(m)|)], path)) >= 1
    {
      assert (path, parts[|parts| - 1]) in d;
      BoundTo(s(m), names, parts, j, m, path);
      EvalBound(fqn, m, fields, s(m), path, j);
    }
    assert RefShows(s, fields, fqn, path, d);
  }

  lemma SmallModulo(i: nat, n: nat)
    requires i < n
    ensures i % n == i
  {
  }

  lemma TakesNamed(fqn: string, m: Picks, src: Source, col: string, path: Path, i: nat)
    requires src.Derived? && i < |NamedColumns(src.rel.outs, col)|
    requires (path, col) in m && m[(path, col)].1 == i
    ensures SourceColumn(MarkedAt(fqn, 1), Guided(m), src, col, path) == NamedColumns(src.rel.outs, col)[i]
  {
    hide SumOf, Zeros, NamedColumns, ColumnFqn;
    assert Guided(m).same(path, col) == i;
    SmallModulo(i, |NamedColumns(src.rel.outs, col)|);
  }

  lemma DerivedRefHits(s: SourceFamily, names: seq<string>, fields: seq<Field>, fqn: string, path: Path, x: Area,
                       j: nat, p: ProjMap)
    requires (forall m :: Aliases(s(m)) == names) && RefOk(fields) && x(path)
    requires var parts := FieldNames(fields).0;
             Binds(parts, names, j) && DerivedAt(s, j, names[j]) && Good(RelOf(s, j), p, fqn, x)
             && Lists(p, parts[|parts| - 1], fqn)
    ensures RefHit(s, fields, fqn, path, x)
  {
    hide EvalRef, BoundSource, Guided, Aliases, NamedColumns, SourceColumn;
    var parts := FieldNames(fields).0;
    var col := parts[|parts| - 1];
    var inner: Picks, i: nat :| Shows(RelOf(s, j), col, inner, i) && Avoids(inner, x);
    var slot := (path, col);
    var d := inner[slot := (j, i)];
    forall m | Extends(m, d)
      ensures FirstOf(EvalRef(MarkedAt(fqn, 1), Guided(m), fields, s(m), [Zeros(|s(m)|)], path)) >= 1
    {
      assert slot in d && slot !in inner;
      assert Extends(m, inner) by {
        forall t | t in inner ensures t in m && m[t] == inner[t] {
          assert t in d;
        }
      }
      BoundTo(s(m), names, parts, j, m, path);
      EvalBound(fqn, m, fields, s(m), path, j);
      TakesNamed(fqn, m, s(m)[j], col, path, i);
    }
    assert RefShows(s, fields, fqn, path, d);
  }

  /** A listed ref comes from a base or a derived source the reference may bind to. */
  lemma RefHits(s: SourceFamily, sc: ScopeView, names: seq<string>, fields: seq<Field>, fqn: string,
                path: Path, x: Area, ref: ColRef)
    requires ScopeGood(s, sc, names, fqn, x) && NoDuplicates(names) && RefOk(fields) && x(path)
    requires ref in Resolve(sc, fields) && ref.fqn == fqn
    ensures RefHit(s, fields, fqn, path, x)
  {
    hide RefHit, Good, BaseAt, DerivedAt, Aliases, IsLower;
    var parts := FieldNames(fields).0;
    var col := parts[|parts| - 1];
    RefIsFolded(fields);
    if |parts| >= 2 {
      var qual := parts[|parts| - 2];
      if qual in sc.tables {
        var j: nat :| j < |names| && names[j] == qual && BaseAt(s, j, qual, sc.tables[qual]);
        BaseRefHits(s, names, fields, fqn, path, x, j, sc.tables[qual]);
      } else {
        DerivedSourceHits(s, sc, names, fields, fqn, path, x, qual);
      }
    } else {
      UnqualifiedFrom(sc, fields, ref);
      if rel :| rel in sc.bases && ref.fqn == ColumnFqn(rel, col) {
        var j: nat :| j < |names| && BaseAt(s, j, names[j], rel);
        BaseRefHits(s, names, fields, fqn, path, x, j, rel);
      } else {
        var a :| a in sc.derived && Lists(sc.derived[a], col, ref.fqn);
        DerivedSourceHits(s, sc, names, fields, fqn, path, x, a);
      }
    }
  }

  lemma RefIsFolded(fields: seq<Field>)
    requires RefOk(fields)
    ensures var parts := FieldNames(fields).0;
            Lower(parts[|parts| - 1]) == parts[|parts| - 1]
            && (|parts| >= 2 ==> Lower(parts[|parts| - 2]) == parts[|parts| - 2])
  {
  }

  lemma DerivedSourceHits(s: SourceFamily, sc: ScopeView, names: seq<string>, fields: seq<Field>, fqn: string,
                          path: Path, x: Area, a: string)
    requires ScopeGood(s, sc, names, fqn, x) && NoDuplicates(names) && RefOk(fields) && x(path) && a in sc.derived
    requires var parts := FieldNames(fields).0;
             (|parts| >= 2 ==> a == parts[|parts| - 2]) && Lists(sc.derived[a], parts[|parts| - 1], fqn)
    ensures RefHit(s, fields, fqn, path, x)
  {
    hide RefHit, Good, BaseAt, DerivedAt, Aliases;
    var j: nat :| j < |names| && names[j] == a && DerivedAt(s, j, a) && Good(RelOf(s, j), sc.derived[a], fqn, x);
    DerivedRefHits(s, names, fields, fqn, path, x, j, sc.derived[a]);
  }

  lemma UnqualifiedFrom(sc: ScopeView, fields: seq<Field>, ref: ColRef)
    requires RefOk(fields) && |FieldNames(fields).0| == 1 && ref in Resolve(sc, fields)
    ensures var col := FieldNames(fields).0[0];
            (exists rel :: rel in sc.bases && ref.fqn == ColumnFqn(rel, col))
            || exists a :: a in sc.derived && Lists(sc.derived[a], col, ref.fqn)
  {
    var col := FieldNames(fields).0[0];
    RefIsFolded(fields);
    hide Lower, IsLower;
    if !exists rel :: rel in sc.bases && ref.fqn == ColumnFqn(rel, col) {
      var original :| original in DerivedRefs(sc.derived, col) && original.fqn == ref.fqn;
      var a :| a in sc.derived && original in Get(sc.derived[a], col);
      assert Lists(sc.derived[a], col, ref.fqn);
    }
  }

  // ---- expressions and targets --------------------------------------------------------------------

  lemma {:induction false} ExprShows(fqn: string, m: Picks, e: Expr, srcs: seq<Source>, path: Path,
                                     fields: seq<Field>)
    requires ExprMeant(e) && fields in AllRefs(e) && SourcesCount(srcs, 1)
    requires FirstOf(EvalRef(MarkedAt(fqn, 1), Guided(m), fields, srcs, [Zeros(|srcs|)], path)) >= 1
    ensures FirstOf(EvalExpr(MarkedAt(fqn, 1), Guided(m), e, srcs, [Zeros(|srcs|)], path)) >= 1
    decreases e, 1, 0
  {
    hide EvalRef, SourcesCount;
    if !e.Ref? {
      OperandsShow(fqn, m, e, Operands(e), srcs, path, fields);
    }
  }

  lemma {:induction false} OperandsShow(fqn: string, m: Picks, e: Expr, operands: seq<Expr>,
                                        srcs: seq<Source>, path: Path, fields: seq<Field>)
    requires forall i :: 0 <= i < |operands| ==> operands[i] < e && ExprMeant(operands[i])
    requires fields in AllRefsIn(e, operands) && SourcesCount(srcs, 1)
    requires FirstOf(EvalRef(MarkedAt(fqn, 1), Guided(m), fields, srcs, [Zeros(|srcs|)], path)) >= 1
    ensures SumOf(EvalOperands(MarkedAt(fqn, 1), Guided(m), e, operands, srcs, [Zeros(|srcs|)], path)) >= 1
    decreases e, 0, |operands|
  {
    hide EvalRef, SourcesCount, ExprMeant;
    var db, ch := MarkedAt(fqn, 1), Guided(m);
    SumCons(EvalExpr(db, ch, operands[0], srcs, [Zeros(|srcs|)], path),
            EvalOperands(db, ch, e, operands[1..], srcs, [Zeros(|srcs|)], path));
    if fields in AllRefs(operands[0]) {
      ExprShows(fqn, m, operands[0], srcs, path, fields);
      OperandsCount(fqn, 1, m, e, operands[1..], srcs, path);
    } else {
      ExprIsCount(fqn, 1, m, operands[0], srcs, path);
      OperandsShow(fqn, m, e, operands[1..], srcs, path, fields);
    }
  }

  /** A listed ref was resolved for one of the targets of that name. */
  lemma {:induction false} ListedBy(targets: seq<Target>, sc: ScopeView, name: string, ref: ColRef)
      returns (i: nat, fields: seq<Field>)
    requires ref in Get(FullTargets(targets, sc), name)
    ensures i < |targets| && TargetName(targets[i]).Some? && Lower(TargetName(targets[i]).value) == name
    ensures fields in AllRefs(targets[i].val) && ref in Resolve(sc, fields)
  {
    hide Resolve, ResolveAll, AllRefs, TargetName, Lower;
    var n := |targets| - 1;
    var t := targets[n];
    if TargetName(t).Some? && Lower(TargetName(t).value) == name && ref in ResolveAll(sc, AllRefs(t.val)) {
      i := n;
      fields := ResolvedFrom(sc, AllRefs(t.val), ref);
    } else {
      i, fields := ListedBy(targets[..n], sc, name, ref);
    }
  }

  ghost function CountNamed(targets: seq<Target>, name: string): nat {
    if |targets| == 0 then 0
    else CountNamed(targets[..|targets| - 1], name) + if OutputName(targets[|targets| - 1]) == name then 1 else 0
  }

  ghost predicate NamedAfter(outs: seq<Output>, targets: seq<Target>) {
    |outs| == |targets| && forall i :: 0 <= i < |outs| ==> outs[i].name == OutputName(targets[i])
  }

  /** Target i is output number CountNamed(targets[..i]) of its name. */
  lemma {:induction false} PlaceOf(outs: seq<Output>, targets: seq<Target>, i: nat)
    requires NamedAfter(outs, targets) && i < |targets|
    ensures var name := OutputName(targets[i]);
            var k := CountNamed(targets[..i], name);
            k < |NamedColumns(outs, name)| && NamedColumns(outs, name)[k] == outs[i].col
  {
    hide OutputName;
    var n := |outs| - 1;
    NamesCounted(outs[..n], targets[..n], OutputName(targets[i]));
    if i < n {
      assert targets[..n][..i] == targets[..i];
      PlaceOf(outs[..n], targets[..n], i);
    }
  }

  lemma {:induction false} NamesCounted(outs: seq<Output>, targets: seq<Target>, name: string)
    requires NamedAfter(outs, targets)
    ensures |NamedColumns(outs, name)| == CountNamed(targets, name)
  {
    hide OutputName;
    if |outs| > 0 {
      NamesCounted(outs[..|outs| - 1], targets[..|targets| - 1], name);
    }
  }

  // ---- one SELECT -----------------------------------------------------------------------------------

  ghost function SelectFamily(fqn: string, sel: Select, e: EnvFamily, path: Path): Picks -> Relation {
    m => EvalSelect(MarkedAt(fqn, 1), Guided(m), sel, e(m), path)
  }

  ghost function CtesFamily(fqn: string, ctes: seq<Cte>, e: EnvFamily, path: Path): EnvFamily {
    m => EvalCtes(MarkedAt(fqn, 1), Guided(m), ctes, e(m), path)
  }

  ghost function FromsFamily(fqn: string, fs: seq<From>, e: EnvFamily, path: Path): SourceFamily {
    m => SourcesOfAll(MarkedAt(fqn, 1), Guided(m), fs, e(m), path)
  }

  ghost function FromFamily(fqn: string, f: From, e: EnvFamily, path: Path): SourceFamily {
    m => SourcesOf(MarkedAt(fqn, 1), Guided(m), f, e(m), path)
  }

  ghost predicate CountingEnv(e: EnvFamily) {
    forall m :: EnvCounts(e(m), 1)
  }

  lemma EvalPlain(fqn: string, m: Picks, sel: Select, env: RelEnv, path: Path)
    requires sel.larg.None? && sel.rarg.None?
    ensures var db, ch := MarkedAt(fqn, 1), Guided(m);
            var srcs := SourcesOfAll(db, ch, sel.from, EvalCtes(db, ch, sel.ctes, env, path), path);
            var outs := EvalSelect(db, ch, sel, env, path).outs;
            NamedAfter(outs, sel.targets)
            && forall i :: 0 <= i < |outs| ==>
                 outs[i].col == EvalExpr(db, ch, sel.targets[i].val, srcs, [Zeros(|srcs|)], path)
  {
    hide EvalExpr, SourcesOfAll, EvalCtes;
    var db, ch := MarkedAt(fqn, 1), Guided(m);
    var srcs := SourcesOfAll(db, ch, sel.from, EvalCtes(db, ch, sel.ctes, env, path), path);
    assert ch.pick(path, RowCounts(db, srcs)) == [Zeros(|srcs|)];
  }

  /** Once its scope is good, a SELECT is: the picks are those of the reference
      and one slot of its own. */
  lemma TargetHits(fqn: string, sel: Select, e: EnvFamily, sc: ScopeView, path: Path, x: Area, y: Area, name: string)
    requires sel.larg.None? && sel.rarg.None? && CountingEnv(e)
    requires forall i :: 0 <= i < |sel.targets| ==> TargetMeant(sel.targets[i])
    requires ScopeGood(FromsFamily(fqn, sel.from, CtesFamily(fqn, sel.ctes, e, path), path), sc,
                       AliasesOfAll(sel.from), fqn, y)
    requires NoDuplicates(AliasesOfAll(sel.from)) && y(path) && !x(path) && forall p :: x(p) ==> y(p)
    requires Lists(FullTargets(sel.targets, sc), name, fqn)
    ensures Hit(SelectFamily(fqn, sel, e, path), name, x)
  {
    hide ScopeGood, EvalExpr, EvalRef, EvalSelect, EvalCtes, SourcesOfAll, FullTargets, AllRefs, Resolve;
    hide ExprMeant, AliasesOfAll, RefOk;
    var ref :| ref in Get(FullTargets(sel.targets, sc), name) && ref.fqn == fqn;
    var i, fields := ListedBy(sel.targets, sc, name, ref);
    var t := sel.targets[i];
    var s := FromsFamily(fqn, sel.from, CtesFamily(fqn, sel.ctes, e, path), path);
    RefInOk(t.val, fields);
    RefHits(s, sc, AliasesOfAll(sel.from), fields, fqn, path, y, ref);
    var d: Picks :| RefShows(s, fields, fqn, path, d) && StaysNear(d, path, y);
    var k := CountNamed(sel.targets[..i], name);
    assert OutputName(t) == name;
    forall m | Extends(m, d)
      ensures var outs := SelectFamily(fqn, sel, e, path)(m).outs;
              k < |NamedColumns(outs, name)| && FirstOf(NamedColumns(outs, name)[k]) >= 1
    {
      EvalPlain(fqn, m, sel, e(m), path);
      CtesCount(fqn, 1, m, sel.ctes, e(m), path);
      FromsCount(fqn, 1, m, sel.from, CtesFamily(fqn, sel.ctes, e, path)(m), path);
      ExprShows(fqn, m, t.val, s(m), path, fields);
      PlaceOf(SelectFamily(fqn, sel, e, path)(m).outs, sel.targets, i);
    }
    assert Shows(SelectFamily(fqn, sel, e, path), name, d, k);
    assert Avoids(d, x);
  }

  lemma {:induction false} RefInOk(e: Expr, fields: seq<Field>)
    requires ExprMeant(e) && fields in AllRefs(e)
    ensures RefOk(fields)
    decreases e, 1, 0
  {
    hide RefOk;
    if !e.Ref? {
      RefInOperandsOk(e, Operands(e), fields);
    }
  }

  lemma {:induction false} RefInOperandsOk(e: Expr, operands: seq<Expr>, fields: seq<Field>)
    requires forall i :: 0 <= i < |operands| ==> operands[i] < e && ExprMeant(operands[i])
    requires fields in AllRefsIn(e, operands)
    ensures RefOk(fields)
    decreases e, 0, |operands|
  {
    hide RefOk, ExprMeant;
    if fields in AllRefs(operands[0]) {
      RefInOk(operands[0], fields);
    } else {
      RefInOperandsOk(e, operands[1..], fields);
    }
  }

  // ---- FROM clauses -----------------------------------------------------------------------------------

  /** The position lies at or inside the other. */
  ghost predicate Under(p: Path, path: Path) {
    path <= p
  }

  ghost function Plus(x: Area, path: Path): Area {
    p => x(p) || Under(p, path)
  }

  ghost predicate Outside(x: Area, path: Path) {
    forall p :: Under(p, path) ==> !x(p)
  }

  ghost function Both(s: SourceFamily, t: SourceFamily): SourceFamily {
    m => s(m) + t(m)
  }

  lemma ScopeSame(s: SourceFamily, t: SourceFamily, sc: ScopeView, names: seq<string>, fqn: string, x: Area)
    requires ScopeGood(s, sc, names, fqn, x) && forall m :: s(m) == t(m)
    ensures ScopeGood(t, sc, names, fqn, x)
  {
    hide Good, Aliases;
    forall b | b in sc.bases ensures HasBase(t, names, b) {
      var j: nat :| j < |names| && BaseAt(s, j, names[j], b);
      assert BaseAt(t, j, names[j], b);
    }
    forall a | a in sc.tables ensures HasTable(t, names, a, sc.tables[a]) {
      var j: nat :| j < |names| && names[j] == a && BaseAt(s, j, a, sc.tables[a]);
      assert BaseAt(t, j, a, sc.tables[a]);
    }
    forall a | a in sc.derived ensures HasDerived(t, names, a, sc.derived[a], fqn, x) {
      var j: nat :| j < |names| && names[j] == a && DerivedAt(s, j, a) && Good(RelOf(s, j), sc.derived[a], fqn, x);
      GoodElsewhere(RelOf(s, j), RelOf(t, j), sc.derived[a], fqn, x, x);
      assert DerivedAt(t, j, a);
    }
  }

  /** Sources added behind leave the scope good. */
  lemma ScopeKept(s: SourceFamily, t: SourceFamily, sc: ScopeView, names: seq<string>, more: seq<string>,
                  fqn: string, x: Area)
    requires ScopeGood(s, sc, names, fqn, x) && forall m :: Aliases(t(m)) == more
    ensures ScopeGood(Both(s, t), sc, names + more, fqn, x)
  {
    hide Good;
    var u, all := Both(s, t), names + more;
    forall m ensures Aliases(u(m)) == all && |s(m)| == |names| {
      AliasesAppend(s(m), t(m));
    }
    forall b | b in sc.bases ensures HasBase(u, all, b) {
      var j: nat :| j < |names| && BaseAt(s, j, names[j], b);
      assert BaseAt(u, j, all[j], b);
    }
    forall a | a in sc.tables ensures HasTable(u, all, a, sc.tables[a]) {
      var j: nat :| j < |names| && names[j] == a && BaseAt(s, j, a, sc.tables[a]);
      assert all[j] == a && BaseAt(u, j, a, sc.tables[a]);
    }
    forall a | a in sc.derived ensures HasDerived(u, all, a, sc.derived[a], fqn, x) {
      var j: nat :| j < |names| && names[j] == a && DerivedAt(s, j, a) && Good(RelOf(s, j), sc.derived[a], fqn, x);
      GoodElsewhere(RelOf(s, j), RelOf(u, j), sc.derived[a], fqn, x, x);
      assert all[j] == a && DerivedAt(u, j, a);
    }
  }

  lemma AliasesAppend(s: seq<Source>, t: seq<Source>)
    ensures Aliases(s + t) == Aliases(s) + Aliases(t)
  {
  }

  lemma BaseAdded(s: SourceFamily, t: SourceFamily, sc: ScopeView, names: seq<string>, alias: string, rel: string,
                  fqn: string, x: Area)
    requires ScopeGood(s, sc, names, fqn, x) && forall m :: t(m) == [Base(alias, rel)]
    ensures ScopeGood(Both(s, t), sc.(tables := sc.tables[alias := rel], bases := sc.bases + [rel]),
                      names + [alias], fqn, x)
  {
    hide Good, HasDerived;
    var u, all := Both(s, t), names + [alias];
    ScopeKept(s, t, sc, names, [alias], fqn, x);
    assert forall m :: |s(m)| == |Aliases(s(m))| == |names|;
    assert BaseAt(u, |names|, alias, rel) && all[|names|] == alias;
    assert HasBase(u, all, rel) && HasTable(u, all, alias, rel);
  }

  lemma DerivedAdded(s: SourceFamily, t: SourceFamily, sc: ScopeView, names: seq<string>, alias: string,
                     r: Picks -> Relation, p: ProjMap, fqn: string, x: Area)
    requires ScopeGood(s, sc, names, fqn, x) && forall m :: t(m) == [Derived(alias, r(m))]
    requires Good(r, p, fqn, x)
    ensures ScopeGood(Both(s, t), sc.(derived := sc.derived[alias := p]), names + [alias], fqn, x)
  {
    hide Good, HasBase, HasTable;
    var u, all, n := Both(s, t), names + [alias], |names|;
    ScopeKept(s, t, sc, names, [alias], fqn, x);
    assert forall m :: |s(m)| == |Aliases(s(m))| == n;
    assert DerivedAt(u, n, alias) && all[n] == alias;
    GoodElsewhere(r, RelOf(u, n), p, fqn, x, x);
    assert HasDerived(u, all, alias, p, fqn, x);
  }

  lemma FromItemGood(s: SourceFamily, sc: ScopeView, names: seq<string>, f: From, env: Env, e: EnvFamily,
                     fqn: string, x: Area, path: Path)
    requires ScopeGood(s, sc, names, fqn, x) && FromMeant(f) && CountingEnv(e)
    requires EnvGood(e, env, fqn, Plus(x, path)) && Outside(x, path)
    ensures ScopeGood(Both(s, FromFamily(fqn, f, e, path)), FullExtend(sc, f, env), names + AliasesOf(f), fqn, x)
    decreases f, 0
  {
    hide Good, ScopeGood, CountingEnv, Guided, IsLower, Lower;
    var t := FromFamily(fqn, f, e, path);
    match f {
      case RangeVar(schema, rel, _) =>
        FromVarGood(s, sc, names, f, env, e, fqn, x, path);
      case RangeSubselect(sub, alias) =>
        AliasFolded(f);
        FullGood(sub.value, env, e, fqn, x, path);
        DerivedAdded(s, t, sc, names, alias, SelectFamily(fqn, sub.value, e, path),
                     Full(sub.value, env), fqn, x);
      case JoinExpr(l, r) =>
        Narrower(e, env, fqn, x, path, [0]);
        Narrower(e, env, fqn, x, path, [1]);
        FromItemGood(s, sc, names, l, env, e, fqn, x, path + [0]);
        var left := Both(s, FromFamily(fqn, l, e, path + [0]));
        FromItemGood(left, FullExtend(sc, l, env), names + AliasesOf(l), r, env, e, fqn, x, path + [1]);
        JoinedFamilies(s, l, r, e, fqn, path);
        assert names + AliasesOf(l) + AliasesOf(r) == names + AliasesOf(f);
        ScopeSame(Both(left, FromFamily(fqn, r, e, path + [1])), Both(s, t), FullExtend(sc, f, env),
                  names + AliasesOf(f), fqn, x);
    }
  }

  lemma AliasFolded(f: From)
    requires FromMeant(f) && !f.JoinExpr?
    ensures f.RangeVar? ==> Lower(f.rel) == f.rel && Lower(AliasOf(f)) == AliasOf(f)
    ensures f.RangeSubselect? ==> f.alias != "" && Lower(f.alias) == f.alias && f.sub.Some?
                                  && SelectMeant(f.sub.value)
  {
  }

  lemma FromVarGood(s: SourceFamily, sc: ScopeView, names: seq<string>, f: From, env: Env, e: EnvFamily,
                    fqn: string, x: Area, path: Path)
    requires ScopeGood(s, sc, names, fqn, x) && FromMeant(f) && f.RangeVar?
    requires EnvGood(e, env, fqn, Plus(x, path))
    ensures ScopeGood(Both(s, FromFamily(fqn, f, e, path)), FullExtend(sc, f, env), names + AliasesOf(f), fqn, x)
  {
    hide Good, ScopeGood, Guided, IsLower, Lower;
    AliasFolded(f);
    var t := FromFamily(fqn, f, e, path);
    if f.schema == "" && f.rel in env {
      GoodElsewhere(RelAt(e, f.rel), RelAt(e, f.rel), env[f.rel], fqn, Plus(x, path), x);
      assert forall m :: e(m).Keys == env.Keys;
      DerivedAdded(s, t, sc, names, AliasOf(f), RelAt(e, f.rel), env[f.rel], fqn, x);
    } else {
      assert forall m :: e(m).Keys == env.Keys;
      BaseAdded(s, t, sc, names, AliasOf(f), RelationName(f.schema, f.rel), fqn, x);
    }
  }

  /** What avoids everything under a position avoids everything under a longer one. */
  lemma Narrower(e: EnvFamily, env: Env, fqn: string, x: Area, path: Path, more: Path)
    requires EnvGood(e, env, fqn, Plus(x, path)) && Outside(x, path)
    ensures EnvGood(e, env, fqn, Plus(x, path + more)) && Outside(x, path + more)
  {
    hide EnvGood;
    forall p | Under(p, path + more) ensures Under(p, path) {
      assert p[..|path|] == (path + more)[..|path|] == path;
    }
    EnvElsewhere(e, env, fqn, Plus(x, path), Plus(x, path + more));
  }

  lemma JoinedFamilies(s: SourceFamily, l: From, r: From, e: EnvFamily, fqn: string, path: Path)
    ensures forall m :: Both(Both(s, FromFamily(fqn, l, e, path + [0])), FromFamily(fqn, r, e, path + [1]))(m)
                        == Both(s, FromFamily(fqn, JoinExpr(l, r), e, path))(m)
  {
    forall m ensures Both(Both(s, FromFamily(fqn, l, e, path + [0])), FromFamily(fqn, r, e, path + [1]))(m)
                     == Both(s, FromFamily(fqn, JoinExpr(l, r), e, path))(m) {
      var a, b, c := s(m), FromFamily(fqn, l, e, path + [0])(m), FromFamily(fqn, r, e, path + [1])(m);
      SourcesOfJoin(MarkedAt(fqn, 1), Guided(m), l, r, e(m), path);
      assert (a + b) + c == a + (b + c);
    }
  }

  lemma SourcesOfJoin(db: Database, ch: Choices, l: From, r: From, env: RelEnv, path: Path)
    ensures SourcesOf(db, ch, JoinExpr(l, r), env, path)
         == SourcesOf(db, ch, l, env, path + [0]) + SourcesOf(db, ch, r, env, path + [1])
  {
    var f := JoinExpr(l, r);
    assert f.left == l && f.right == r;
  }

  lemma FromsGood(fs: seq<From>, env: Env, e: EnvFamily, fqn: string, x: Area, path: Path)
    requires (forall i :: 0 <= i < |fs| ==> FromMeant(fs[i])) && CountingEnv(e)
    requires EnvGood(e, env, fqn, Plus(x, path + [1])) && Outside(x, path + [1])
    ensures ScopeGood(FromsFamily(fqn, fs, e, path), FullExtendAll(EMPTY_SCOPE, fs, env),
                      AliasesOfAll(fs), fqn, x)
    decreases fs, 1
  {
    hide Good, CountingEnv, Guided, FromMeant;
    if |fs| > 0 {
      hide ScopeGood;
      var n := |fs| - 1;
      FromsGood(fs[..n], env, e, fqn, x, path);
      assert path + [1, |fs|] == path + [1] + [|fs|];
      Narrower(e, env, fqn, x, path + [1], [|fs|]);
      var before := FromsFamily(fqn, fs[..n], e, path);
      var item := FromFamily(fqn, fs[n], e, path + [1, |fs|]);
      FromItemGood(before, FullExtendAll(EMPTY_SCOPE, fs[..n], env), AliasesOfAll(fs[..n]), fs[n], env, e,
                   fqn, x, path + [1, |fs|]);
      ScopeSame(Both(before, item), FromsFamily(fqn, fs, e, path), FullExtendAll(EMPTY_SCOPE, fs, env),
                AliasesOfAll(fs), fqn, x);
    }
  }

  // ---- WITH clauses -----------------------------------------------------------------------------------

  /** What is still to come of a SELECT after its first i CTEs: its own slots, its
      FROM items and the later CTEs. */
  ghost function Ahead(x: Area, path: Path, i: nat): Area {
    p => x(p) || p == path || (Under(p, path) && |p| > |path| && p[|path|] == 1)
         || (Under(p, path) && |p| > |path| + 1 && p[|path|] == 0 && p[|path| + 1] > i)
  }

  lemma CteIsBehind(x: Area, path: Path, i: nat)
    requires Outside(x, path)
    ensures Outside(Ahead(x, path, i + 1), path + [0, i + 1])
    ensures forall p :: Plus(Ahead(x, path, i + 1), path + [0, i + 1])(p) ==> Ahead(x, path, i)(p)
    ensures forall p :: Ahead(x, path, i + 1)(p) ==> Ahead(x, path, i)(p)
  {
    forall p | Under(p, path + [0, i + 1])
      ensures Under(p, path) && |p| > |path| + 1 && p[|path|] == 0 && p[|path| + 1] == i + 1
    {
      var q := path + [0, i + 1];
      assert p[..|q|] == q && q[..|path|] == path && p[..|path|] == q[..|path|];
      assert p[|path|] == q[|path|] && p[|path| + 1] == q[|path| + 1];
    }
  }

  lemma CtesGood(ctes: seq<Cte>, env: Env, e: EnvFamily, fqn: string, x: Area, path: Path)
    requires (forall i :: 0 <= i < |ctes| ==> CteMeant(ctes[i])) && CountingEnv(e)
    requires EnvGood(e, env, fqn, Plus(x, path)) && Outside(x, path)
    ensures CountingEnv(CtesFamily(fqn, ctes, e, path))
    ensures EnvGood(CtesFamily(fqn, ctes, e, path), FullCtes(ctes, env), fqn, Ahead(x, path, |ctes|))
    decreases ctes, 1
  {
    hide Good, EnvGood, Guided, EvalSelect, Full, Lower, IsLower, EnvCounts;
    var after := CtesFamily(fqn, ctes, e, path);
    forall m ensures EnvCounts(after(m), 1) {
      assert EnvCounts(e(m), 1);
      CtesCount(fqn, 1, m, ctes, e(m), path);
    }
    if |ctes| == 0 {
      FullCtesNone(env);
      assert ctes == [];
      EnvElsewhere(e, env, fqn, Plus(x, path), Ahead(x, path, 0));
      EnvSame(e, after, env, fqn, Ahead(x, path, 0));
    } else {
      var n := |ctes| - 1;
      var before, known := CtesFamily(fqn, ctes[..n], e, path), FullCtes(ctes[..n], env);
      CtesGood(ctes[..n], env, e, fqn, x, path);
      CteIsBehind(x, path, n);
      var cte, at := ctes[n], path + [0, n + 1];
      CteFolded(cte);
      EnvElsewhere(before, known, fqn, Ahead(x, path, n), Plus(Ahead(x, path, n + 1), at));
      FullGood(cte.query.value, known, before, fqn, Ahead(x, path, n + 1), at);
      EnvElsewhere(before, known, fqn, Ahead(x, path, n), Ahead(x, path, n + 1));
      FullCtesStep(ctes, env);
      CteAdded(before, after, known, cte.name, SelectFamily(fqn, cte.query.value, before, at),
               Full(cte.query.value, known), fqn, Ahead(x, path, n + 1));
    }
  }

  lemma CteFolded(cte: Cte)
    requires CteMeant(cte)
    ensures cte.query.Some? && Lower(cte.name) == cte.name && SelectMeant(cte.query.value)
  {
  }

  lemma EnvSame(e: EnvFamily, f: EnvFamily, env: Env, fqn: string, x: Area)
    requires EnvGood(e, env, fqn, x) && forall m :: e(m) == f(m)
    ensures EnvGood(f, env, fqn, x)
  {
    hide Good;
    forall name | name in env ensures Good(RelAt(f, name), env[name], fqn, x) {
      GoodElsewhere(RelAt(e, name), RelAt(f, name), env[name], fqn, x, x);
    }
  }

  lemma CteAdded(e: EnvFamily, f: EnvFamily, env: Env, name: string, r: Picks -> Relation, p: ProjMap,
                 fqn: string, x: Area)
    requires EnvGood(e, env, fqn, x) && Good(r, p, fqn, x)
    requires forall m :: f(m) == e(m)[name := r(m)]
    ensures EnvGood(f, env[name := p], fqn, x)
  {
    hide Good;
    forall k | k in env[name := p] ensures Good(RelAt(f, k), env[name := p][k], fqn, x) {
      if k == name {
        GoodElsewhere(r, RelAt(f, k), p, fqn, x, x);
      } else {
        GoodElsewhere(RelAt(e, k), RelAt(f, k), env[k], fqn, x, x);
      }
    }
  }

  // ---- the induction ------------------------------------------------------------------------------------

  ghost function With(x: Area, path: Path): Area {
    p => x(p) || p == path
  }

  lemma FromIsAhead(x: Area, path: Path, i: nat)
    requires Outside(x, path)
    ensures forall p :: Plus(With(x, path), path + [1])(p) ==> Ahead(x, path, i)(p)
    ensures Outside(With(x, path), path + [1]) && With(x, path)(path) && !x(path)
  {
    forall p | Under(p, path + [1]) ensures Under(p, path) && |p| > |path| && p[|path|] == 1 {
      var q := path + [1];
      assert p[..|q|] == q && q[..|path|] == path && p[..|path|] == q[..|path|];
      assert p[|path|] == q[|path|];
    }
  }

  /** Through any nesting of CTEs, subselects and joins: a listed mark can be shown. */
  lemma FullGood(sel: Select, env: Env, e: EnvFamily, fqn: string, x: Area, path: Path)
    requires SelectMeant(sel) && CountingEnv(e)
    requires EnvGood(e, env, fqn, Plus(x, path)) && Outside(x, path)
    ensures Good(SelectFamily(fqn, sel, e, path), Full(sel, env), fqn, x)
    decreases sel, 2
  {
    hide EnvGood, Guided, EvalSelect, ScopeGood, Lists, Hit, FromMeant, CteMeant, TargetMeant, CountingEnv;
    var known := FullCtes(sel.ctes, env);
    var inner := CtesFamily(fqn, sel.ctes, e, path);
    CtesGood(sel.ctes, env, e, fqn, x, path);
    FromIsAhead(x, path, |sel.ctes|);
    var y := With(x, path);
    EnvElsewhere(inner, known, fqn, Ahead(x, path, |sel.ctes|), Plus(y, path + [1]));
    FromsGood(sel.from, known, inner, fqn, y, path);
    var sc := FullExtendAll(EMPTY_SCOPE, sel.from, known);
    forall name | Lists(FullTargets(sel.targets, sc), name, fqn)
      ensures Hit(SelectFamily(fqn, sel, e, path), name, x)
    {
      TargetHits(fqn, sel, e, sc, path, x, y, name);
    }
  }

  /** The same of what the resolver lists, where nothing is hidden from it. */
  lemma SelectGood(sel: Select, env: Env, e: EnvFamily, fqn: string, x: Area, path: Path, depth: nat)
    requires SelectOk(sel, depth) && CountingEnv(e)
    requires EnvGood(e, env, fqn, Plus(x, path)) && Outside(x, path)
    ensures Good(SelectFamily(fqn, sel, e, path), Project(sel, env, depth), fqn, x)
  {
    hide Good, EnvGood, Full, Project, CountingEnv, SelectOk, SelectMeant;
    WalkedSelect(sel, env, depth);
    FullGood(sel, env, e, fqn, x, path);
  }

  // ---- the theorem --------------------------------------------------------------------------------------

  /** The databases agree on every column but those of this name. */
  ghost predicate DifferOnlyAt(a: Database, b: Database, fqn: string) {
    (forall t :: a.rowCount(t) == b.rowCount(t))
    && forall rel, col :: ColumnFqn(rel, col) != fqn ==> a.column(rel, col) == b.column(rel, col)
  }

  /** Over two databases that differ there alone, output i differs. */
  ghost predicate Depends(sel: Select, i: nat, fqn: string) {
    exists a, b, ch ::
      DifferOnlyAt(a, b, fqn)
      && i < |EvalSelect(a, ch, sel, map[], []).outs| && i < |EvalSelect(b, ch, sel, map[], []).outs|
      && EvalSelect(a, ch, sel, map[], []).outs[i].col != EvalSelect(b, ch, sel, map[], []).outs[i].col
  }

  ghost function NoCtes(): EnvFamily {
    m => map[]
  }

  ghost function Nowhere(): Area {
    p => false
  }

  lemma {:induction false} DifferingOutput(a: seq<Output>, b: seq<Output>, name: string, k: nat) returns (i: nat)
    requires |a| == |b| && forall i :: 0 <= i < |a| ==> a[i].name == b[i].name
    requires k < |NamedColumns(a, name)| && |NamedColumns(a, name)| == |NamedColumns(b, name)|
    requires NamedColumns(a, name)[k] != NamedColumns(b, name)[k]
    ensures i < |a| && a[i].name == name && a[i].col != b[i].col
  {
    var n := |a| - 1;
    if a[n].name == name && a[n].col != b[n].col {
      i := n;
    } else {
      SameNumber(a[..n], b[..n], name);
      i := DifferingOutput(a[..n], b[..n], name, k);
    }
  }

  lemma {:induction false} SameNumber(a: seq<Output>, b: seq<Output>, name: string)
    requires |a| == |b| && forall i :: 0 <= i < |a| ==> a[i].name == b[i].name
    ensures |NamedColumns(a, name)| == |NamedColumns(b, name)|
  {
    if |a| > 0 {
      SameNumber(a[..|a| - 1], b[..|b| - 1], name);
    }
  }

  lemma ListedIsNeeded(sel: Select, name: string, fqn: string)
    requires SelectMeant(sel) && Lists(Full(sel, map[]), name, fqn)
    ensures exists i: nat :: i < |sel.targets| && OutputName(sel.targets[i]) == name && Depends(sel, i, fqn)
  {
    hide Good, SelectMeant, Guided, EvalSelect, Full, EvalExpr;
    var r := SelectFamily(fqn, sel, NoCtes(), []);
    FullGood(sel, map[], NoCtes(), fqn, Nowhere(), []);
    assert Hit(r, name, Nowhere()) by {
      GoodMeans(r, Full(sel, map[]), fqn, Nowhere(), name);
    }
    var d: Picks, k: nat :| Shows(r, name, d, k) && Avoids(d, Nowhere());
    assert Extends(d, d);
    var i := MarkedOutputDiffers(sel, fqn, d, name, k);
    assert Depends(sel, i, fqn);
  }

  lemma GoodMeans(r: Picks -> Relation, p: ProjMap, fqn: string, x: Area, name: string)
    requires Good(r, p, fqn, x) && Lists(p, name, fqn)
    ensures Hit(r, name, x)
  {
  }

  lemma MarkedOutputDiffers(sel: Select, fqn: string, d: Picks, name: string, k: nat) returns (i: nat)
    requires SelectMeant(sel)
    requires var outs := EvalSelect(MarkedAt(fqn, 1), Guided(d), sel, map[], []).outs;
             k < |NamedColumns(outs, name)| && FirstOf(NamedColumns(outs, name)[k]) >= 1
    ensures i < |sel.targets| && OutputName(sel.targets[i]) == name && Depends(sel, i, fqn)
  {
    hide NamedColumns, FirstOf;
    var a, b, ch := MarkedAt(fqn, 0), MarkedAt(fqn, 1), Guided(d);
    var x, y := EvalSelect(a, ch, sel, map[], []).outs, EvalSelect(b, ch, sel, map[], []).outs;
    OutputNames(a, ch, sel);
    OutputNames(b, ch, sel);
    hide EvalSelect, Guided, SelectMeant;
    SelectCounts(fqn, 0, d, sel, map[], []);
    NamedAreCounts(x, name, 0);
    SameNumber(x, y, name);
    i := DifferingOutput(x, y, name, k);
    assert DifferOnlyAt(a, b, fqn);
  }

  lemma OutputNames(db: Database, ch: Choices, sel: Select)
    requires SelectMeant(sel)
    ensures NamedAfter(EvalSelect(db, ch, sel, map[], []).outs, sel.targets)
  {
  }

  lemma NeededIsListed(sel: Select, i: nat, fqn: string)
    requires SelectMeant(sel) && i < |sel.targets| && Depends(sel, i, fqn)
    ensures Lists(Full(sel, map[]), OutputName(sel.targets[i]), fqn) && fqn != ""
  {
    hide SelectMeant, EvalSelect, Full, OutputName;
    var a, b, ch :|
      DifferOnlyAt(a, b, fqn)
      && i < |EvalSelect(a, ch, sel, map[], []).outs| && i < |EvalSelect(b, ch, sel, map[], []).outs|
      && EvalSelect(a, ch, sel, map[], []).outs[i].col != EvalSelect(b, ch, sel, map[], []).outs[i].col;
    var w := Twin(a, b, ch);
    FullCovers(w, sel, map[], map[], map[], []);
    OutputNames(a, ch, sel);
    var ref :| ref in Get(Full(sel, map[]), OutputName(sel.targets[i])) && !AgreeOn(w, ref.fqn);
    assert ref.fqn == fqn;
    var rel, col :| ColumnFqn(rel, col) == fqn && a.column(rel, col) != b.column(rel, col);
    assert |ColumnFqn(rel, col)| > 0;
  }

  /** Main result, both directions, for queries of any depth and any expression
      nodes: what the full resolver lists for a name is exactly what some target of
      that name depends on. */
  lemma FullIsExact(sel: Select, name: string, fqn: string)
    requires SelectMeant(sel)
    ensures Lists(Full(sel, map[]), name, fqn)
       <==> exists i: nat :: i < |sel.targets| && OutputName(sel.targets[i]) == name && Depends(sel, i, fqn)
  {
    hide SelectMeant, Full, Depends, OutputName, Lists;
    if Lists(Full(sel, map[]), name, fqn) {
      ListedIsNeeded(sel, name, fqn);
    }
    if i: nat :| i < |sel.targets| && OutputName(sel.targets[i]) == name && Depends(sel, i, fqn) {
      NeededIsListed(sel, i, fqn);
    }
  }

  // ---- what the resolver emits ------------------------------------------------------------------------

  ghost predicate Listed(sel: Select, target: string, hash: string, name: string, fqn: string) {
    exists edge :: edge in ColumnEdges(Some(sel), target, hash)
                   && edge.downstream == ColumnFqn(target, name) && edge.upstream == fqn
  }

  lemma EmittedIff(sel: Select, target: string, hash: string, name: string, fqn: string)
    ensures Listed(sel, target, hash, name, fqn) <==> fqn != "" && Lists(Project(sel, map[], 0), name, fqn)
  {
    hide Project;
    LineageConfidence.SameDownstream(target, name);
    var proj := Project(sel, map[], 0);
    if fqn != "" && Lists(proj, name, fqn) {
      var ref :| ref in Get(proj, name) && ref.fqn == fqn;
      assert Edge(fqn, ColumnFqn(target, name), "column", "", ref.conf, hash) in ColumnEdges(Some(sel), target, hash);
    }
  }

  /** Main result, the converse of soundness, for queries of any depth and any
      expression nodes: every edge into target.c is needed. Some target named c
      depends on its upstream column: for some choices and two databases that
      differ in that column alone it has two values. */
  lemma NothingListedInVain(sel: Select, target: string, hash: string, edge: Edge)
    requires SelectMeant(sel) && edge in ColumnEdges(Some(sel), target, hash)
    ensures exists i: nat :: i < |sel.targets|
              && edge.downstream == ColumnFqn(target, OutputName(sel.targets[i]))
              && Depends(sel, i, edge.upstream)
  {
    hide SelectMeant, Project, Full, Depends, OutputName;
    var proj := Project(sel, map[], 0);
    var name: string, ref: ColRef :| name in proj && ref in proj[name]
                                     && edge.upstream == ref.fqn && edge.downstream == ColumnFqn(target, name);
    SelectLess(sel, map[], map[], 0);
    assert ref in Get(Full(sel, map[]), name);
    ListedIsNeeded(sel, name, ref.fqn);
  }

  /** Main result, both directions: where nothing is hidden, the listed upstream
      columns of target.c are exactly the columns some target named c depends on. */
  lemma LineageIsExact(sel: Select, target: string, hash: string, name: string, fqn: string)
    requires SelectOk(sel, 0)
    ensures Listed(sel, target, hash, name, fqn)
       <==> exists i: nat :: i < |sel.targets| && OutputName(sel.targets[i]) == name && Depends(sel, i, fqn)
  {
    hide SelectOk, SelectMeant, Project, Full, Depends, OutputName, Listed, Lists;
    WalkedSelect(sel, map[], 0);
    EmittedIff(sel, target, hash, name, fqn);
    FullIsExact(sel, name, fqn);
    if i: nat :| i < |sel.targets| && OutputName(sel.targets[i]) == name && Depends(sel, i, fqn) {
      NeededIsListed(sel, i, fqn);
    }
  }

  // ---- what is hidden from it -------------------------------------------------------------------------

  /** Every target of this name has the same value on both sides. */
  ghost predicate SameColumns(w: Twin, sel: Select, name: string) {
    var a, b := EvalSelect(w.left, w.ch, sel, map[], []).outs, EvalSelect(w.right, w.ch, sel, map[], []).outs;
    |a| == |b| && forall i :: 0 <= i < |a| && a[i].name == name ==> a[i].col == b[i].col
  }

  /** Databases with equal row counts that agree on the listed upstream columns of
      target.c give the query the same c, for all choices. */
  ghost predicate SoundFor(sel: Select, target: string, hash: string, name: string) {
    forall w: Twin ::
      SameRowCounts(w) && AgreeUpstream(w, ColumnEdges(Some(sel), target, hash), ColumnFqn(target, name))
      ==> SameColumns(w, sel, name)
  }

  /** Main result, for queries of any depth and any expression nodes: the lineage
      emitted for a column is sound exactly when nothing the full resolver lists
      is missing from it. */
  lemma SoundIff(sel: Select, target: string, hash: string, name: string)
    requires SelectMeant(sel)
    ensures SoundFor(sel, target, hash, name)
       <==> forall fqn :: Lists(Full(sel, map[]), name, fqn) ==> Listed(sel, target, hash, name, fqn)
  {
    hide SelectMeant, Full, ColumnEdges, SameColumns, AgreeOn;
    if forall fqn :: Lists(Full(sel, map[]), name, fqn) ==> Listed(sel, target, hash, name, fqn) {
      forall w: Twin | SameRowCounts(w)
                       && AgreeUpstream(w, ColumnEdges(Some(sel), target, hash), ColumnFqn(target, name))
        ensures SameColumns(w, sel, name)
      {
        forall r | r in Get(Full(sel, map[]), name) ensures AgreeOn(w, r.fqn) {
          assert Lists(Full(sel, map[]), name, r.fqn);
          assert Listed(sel, target, hash, name, r.fqn);
        }
        AgreementShows(w, sel, name);
      }
    } else {
      var fqn :| Lists(Full(sel, map[]), name, fqn) && !Listed(sel, target, hash, name, fqn);
      MissingIsUnsound(sel, target, hash, name, fqn);
    }
  }

  lemma AgreementShows(w: Twin, sel: Select, name: string)
    requires SelectMeant(sel) && SameRowCounts(w) && Agree(w, Get(Full(sel, map[]), name))
    ensures SameColumns(w, sel, name)
  {
    hide SelectMeant, EvalSelect, Full, AgreeOn;
    FullCovers(w, sel, map[], map[], map[], []);
  }

  lemma MissingIsUnsound(sel: Select, target: string, hash: string, name: string, fqn: string)
    requires SelectMeant(sel) && Lists(Full(sel, map[]), name, fqn) && !Listed(sel, target, hash, name, fqn)
    ensures !SoundFor(sel, target, hash, name)
  {
    hide SelectMeant, EvalSelect, Full, ColumnEdges, OutputName;
    ListedIsNeeded(sel, name, fqn);
    var i: nat :| i < |sel.targets| && OutputName(sel.targets[i]) == name && Depends(sel, i, fqn);
    var a, b, ch :|
      DifferOnlyAt(a, b, fqn)
      && i < |EvalSelect(a, ch, sel, map[], []).outs| && i < |EvalSelect(b, ch, sel, map[], []).outs|
      && EvalSelect(a, ch, sel, map[], []).outs[i].col != EvalSelect(b, ch, sel, map[], []).outs[i].col;
    var w := Twin(a, b, ch);
    OutputNames(a, ch, sel);
    forall edge | edge in ColumnEdges(Some(sel), target, hash) && edge.downstream == ColumnFqn(target, name)
      ensures AgreeOn(w, edge.upstream)
    {
      assert edge.upstream != fqn;
    }
    assert !SameColumns(w, sel, name);
  }
}
