/** Expression nodes columnRefsIn in internal/lineage/columns.go has no case for, and
    operands below its depth cap, hide their columns. This module says, over one
    table and by column names alone, exactly when that makes the lineage of an
    expression unsound. */
module UnwalkedNodes {
  import opened Identifiers
  import opened SqlAst
  import opened ColumnLineage
  import opened QuerySemantics
  import opened LineageSoundness
  import opened LineageContainment
  import opened MarkedEvaluation
  import LineageConfidence
  import LineageCtes

  /** SELECT e AS name FROM t */
  ghost function OverTable(t: string, e: Expr, name: string): Select {
    Select(None, None, false, [], [RangeVar("", t, "")], [Target(name, e)])
  }

  /** A reference to a column of t, bare or qualified. */
  ghost predicate RefersTo(t: string, fields: seq<Field>) {
    var (parts, star) := FieldNames(fields);
    !star && |parts| > 0 && (|parts| >= 2 ==> parts[|parts| - 2] == t)
  }

  ghost function ColumnName(fields: seq<Field>): string
    requires |FieldNames(fields).0| > 0
  {
    var parts := FieldNames(fields).0;
    parts[|parts| - 1]
  }

  /** Every reference, hidden ones included, is to a column of t. Subqueries used
      as values have no meaning in QuerySemantics and are left out. */
  ghost predicate RefersOnlyTo(t: string, e: Expr)
    decreases e
  {
    !e.SubLink? && (e.Ref? ==> RefersTo(t, e.fields))
    && var operands := Operands(e);
       forall i :: 0 <= i < |operands| ==> RefersOnlyTo(t, operands[i])
  }

  /** How often the value of e takes in column c. */
  ghost function Occurrences(e: Expr, c: string): nat
    decreases e, 1, 0
  {
    if e.Ref? then
      if |FieldNames(e.fields).0| > 0 && ColumnName(e.fields) == c then 1 else 0
    else OccurrencesIn(e, Operands(e), c)
  }

  ghost function OccurrencesIn(e: Expr, operands: seq<Expr>, c: string): nat
    requires forall i :: 0 <= i < |operands| ==> operands[i] < e
    decreases e, 0, |operands|
  {
    if |operands| == 0 then 0 else Occurrences(operands[0], c) + OccurrencesIn(e, operands[1..], c)
  }

  // ---- what the resolver lists --------------------------------------------------------------

  ghost predicate AllReferTo(t: string, refs: seq<seq<Field>>) {
    forall i :: 0 <= i < |refs| ==> RefersTo(t, refs[i])
  }

  lemma WalkedAreOperands(e: Expr)
    requires !e.Ref?
    ensures WalkedOperands(e) == [] || WalkedOperands(e) == Operands(e)
  {
  }

  lemma {:induction false} WalkedRefs(t: string, e: Expr, depth: nat)
    requires RefersOnlyTo(t, e)
    ensures AllReferTo(t, ColumnRefsIn(e, depth))
    decreases e, 1, 0
  {
    if !e.Absent? && depth <= MAX_COL_DEPTH && !e.Ref? {
      WalkedAreOperands(e);
      WalkedRefsIn(t, e, WalkedOperands(e), depth + 1);
    }
  }

  lemma {:induction false} WalkedRefsIn(t: string, e: Expr, operands: seq<Expr>, depth: nat)
    requires forall i :: 0 <= i < |operands| ==> operands[i] < e && RefersOnlyTo(t, operands[i])
    ensures AllReferTo(t, RefsInOperands(e, operands, depth))
    decreases e, 0, |operands|
  {
    if |operands| > 0 {
      WalkedRefs(t, operands[0], depth);
      WalkedRefsIn(t, e, operands[1..], depth);
    }
  }

  ghost function ScopeOfTable(t: string): ScopeView {
    ScopeView(map[t := t], map[], [t])
  }

  lemma ResolvesToTable(t: string, fields: seq<Field>)
    requires IsLower(t) && RefersTo(t, fields)
    ensures Resolve(ScopeOfTable(t), fields) == {ColRef(ColumnFqn(t, ColumnName(fields)), CONF_EXACT)}
  {
  }

  ghost function Upstream(t: string, names: set<string>): set<ColRef> {
    set c | c in names :: ColRef(ColumnFqn(t, c), CONF_EXACT)
  }

  lemma LastNamesSnoc(refs: seq<seq<Field>>)
    requires |refs| > 0 && |FieldNames(refs[|refs| - 1]).0| > 0
    ensures LastNames(refs) == LastNames(refs[..|refs| - 1]) + {ColumnName(refs[|refs| - 1])}
  {
    var n := |refs| - 1;
    assert refs == refs[..n] + [refs[n]];
    forall c ensures c in LastNames(refs) <==> c in LastNames(refs[..n]) || c == ColumnName(refs[n]) {
      if c in LastNames(refs) {
        var fields :| fields in refs && |FieldNames(fields).0| > 0 && c == ColumnName(fields);
        assert fields in refs[..n] || fields == refs[n];
      }
      assert refs[n] in refs;
    }
  }

  lemma {:induction false} ResolvesAllToTable(t: string, refs: seq<seq<Field>>)
    requires IsLower(t) && AllReferTo(t, refs)
    ensures ResolveAll(ScopeOfTable(t), refs) == Upstream(t, LastNames(refs))
  {
    hide Resolve, LastNames, RefersTo;
    if |refs| == 0 {
      NoLastNames(refs);
    } else {
      var n := |refs| - 1;
      ResolvesAllToTable(t, refs[..n]);
      ResolvesToTable(t, refs[n]);
      RefersHasName(t, refs[n]);
      LastNamesSnoc(refs);
      UpstreamUnion(t, LastNames(refs[..n]), ColumnName(refs[n]));
    }
  }

  lemma NoLastNames(refs: seq<seq<Field>>)
    requires |refs| == 0
    ensures LastNames(refs) == {}
  {
  }

  lemma RefersHasName(t: string, fields: seq<Field>)
    requires RefersTo(t, fields)
    ensures |FieldNames(fields).0| > 0
  {
  }

  lemma UpstreamUnion(t: string, names: set<string>, c: string)
    ensures Upstream(t, names + {c}) == Upstream(t, names) + {ColRef(ColumnFqn(t, c), CONF_EXACT)}
  {
  }

  lemma ScopeIsTable(t: string, e: Expr, name: string)
    requires IsLower(t)
    ensures ScopeOf(OverTable(t, e, name), map[], 0) == ScopeOfTable(t)
  {
    var item := RangeVar("", t, "");
    LineageCtes.WithCtesNone(map[], 0);
    LineageCtes.OneFromItem(EMPTY_SCOPE, item, map[], 0);
    assert Extend(EMPTY_SCOPE, item, map[], 0) == ScopeOfTable(t);
  }

  lemma ProjectsWalkedNames(t: string, e: Expr, name: string)
    requires IsLower(t) && IsLower(name) && name != "" && RefersOnlyTo(t, e)
    ensures Get(Project(OverTable(t, e, name), map[], 0), name) == Upstream(t, LastNames(ColumnRefsIn(e, 0)))
  {
    hide ColumnRefsIn, LastNames, ResolveAll, RefersOnlyTo;
    var targets := [Target(name, e)];
    ScopeIsTable(t, e, name);
    WalkedRefs(t, e, 0);
    ResolvesAllToTable(t, ColumnRefsIn(e, 0));
    assert targets[..0] == [];
    assert ProjectTargets(targets[..0], ScopeOfTable(t)) == map[];
    assert ProjectTargets(targets, ScopeOfTable(t))
        == Append(map[], name, ResolveAll(ScopeOfTable(t), ColumnRefsIn(e, 0)));
  }

  // ---- what the query computes -----------------------------------------------------------------

  ghost function ValueOver(db: Database, ch: Choices, t: string, e: Expr): Column {
    EvalExpr(db, ch, e, [Base(t, t)], ch.pick([], [db.rowCount(t)]), [])
  }

  lemma EvalOver(db: Database, ch: Choices, t: string, e: Expr, name: string)
    requires name != ""
    ensures EvalSelect(db, ch, OverTable(t, e, name), map[], [])
         == Relation(ch.outRows([], [db.rowCount(t)]), [Output(name, ValueOver(db, ch, t, e))])
  {
    hide EvalExpr;
    var sel := OverTable(t, e, name);
    var env := EvalCtes(db, ch, sel.ctes, map[], []);
    assert sel.from[..0] == [];
    assert SourcesOfAll(db, ch, sel.from[..0], env, []) == [];
    assert AliasOf(sel.from[0]) == t && RelationName("", t) == t;
    assert SourcesOfAll(db, ch, sel.from, env, []) == [Base(t, t)];
    assert RowCounts(db, [Base(t, t)]) == [db.rowCount(t)];
    assert EvalTargets(db, ch, sel.targets, [Base(t, t)], ch.pick([], [db.rowCount(t)]), [])
        == [Output(name, ValueOver(db, ch, t, e))];
  }

  /** Databases with equal row counts that agree on the listed upstream columns
      give the query the same result, for all choices. */
  ghost predicate SoundOver(t: string, e: Expr, name: string, target: string, hash: string) {
    var sel := OverTable(t, e, name);
    forall w: Twin ::
      SameRowCounts(w) && AgreeUpstream(w, ColumnEdges(Some(sel), target, hash), ColumnFqn(target, name))
      ==> EvalSelect(w.left, w.ch, sel, map[], []) == EvalSelect(w.right, w.ch, sel, map[], [])
  }

  /** Every column the value takes in is also referenced where columnRefsIn looks. */
  ghost predicate AllWalked(e: Expr) {
    forall c :: Occurrences(e, c) > 0 ==> c in LastNames(ColumnRefsIn(e, 0))
  }

  ghost predicate AgreeWhereUsed(w: Twin, t: string, e: Expr) {
    forall c :: Occurrences(e, c) > 0 ==> w.left.column(t, c) == w.right.column(t, c)
  }

  lemma {:induction false} ValuesAgree(w: Twin, t: string, e: Expr, combos: seq<seq<nat>>)
    requires RefersOnlyTo(t, e) && AgreeWhereUsed(w, t, e)
    ensures EvalExpr(w.left, w.ch, e, [Base(t, t)], combos, []) == EvalExpr(w.right, w.ch, e, [Base(t, t)], combos, [])
    decreases e, 1, 0
  {
    if e.Ref? {
      var parts := FieldNames(e.fields).0;
      assert FindSource([Base(t, t)], t) == 0;
      assert Occurrences(e, ColumnName(e.fields)) == 1;
    } else {
      OperandValuesAgree(w, t, e, Operands(e), combos);
    }
  }

  lemma {:induction false} OperandValuesAgree(w: Twin, t: string, e: Expr, operands: seq<Expr>, combos: seq<seq<nat>>)
    requires forall i :: 0 <= i < |operands| ==> operands[i] < e && RefersOnlyTo(t, operands[i])
    requires forall c :: OccurrencesIn(e, operands, c) > 0 ==> w.left.column(t, c) == w.right.column(t, c)
    ensures EvalOperands(w.left, w.ch, e, operands, [Base(t, t)], combos, [])
         == EvalOperands(w.right, w.ch, e, operands, [Base(t, t)], combos, [])
    decreases e, 0, |operands|
  {
    if |operands| > 0 {
      assert forall c :: OccurrencesIn(e, operands, c)
                         == Occurrences(operands[0], c) + OccurrencesIn(e, operands[1..], c);
      ValuesAgree(w, t, operands[0], combos);
      OperandValuesAgree(w, t, e, operands[1..], combos);
    }
  }

  // ---- the emitted edges --------------------------------------------------------------------------

  lemma ListedEdge(t: string, e: Expr, name: string, target: string, hash: string, c: string)
    requires IsLower(t) && IsLower(name) && name != "" && RefersOnlyTo(t, e)
    ensures c in LastNames(ColumnRefsIn(e, 0))
        <==> Edge(ColumnFqn(t, c), ColumnFqn(target, name), "column", "", CONF_EXACT, hash)
             in ColumnEdges(Some(OverTable(t, e, name)), target, hash)
  {
    hide ColumnRefsIn, LastNames, Project, RefersOnlyTo;
    ProjectsWalkedNames(t, e, name);
    LineageConfidence.SameDownstream(target, name);
    UpstreamMember(t, LastNames(ColumnRefsIn(e, 0)), c);
  }

  lemma UpstreamMember(t: string, names: set<string>, c: string)
    ensures ColRef(ColumnFqn(t, c), CONF_EXACT) in Upstream(t, names) <==> c in names
    ensures |ColumnFqn(t, c)| > 0
  {
    LineageConfidence.SameDownstream(t, c);
  }

  /** Edges into the one column are of the one table. */
  lemma EdgeIsListed(t: string, e: Expr, name: string, target: string, hash: string, edge: Edge) returns (c: string)
    requires IsLower(t) && IsLower(name) && name != "" && RefersOnlyTo(t, e)
    requires edge in ColumnEdges(Some(OverTable(t, e, name)), target, hash)
    requires edge.downstream == ColumnFqn(target, name)
    ensures c in LastNames(ColumnRefsIn(e, 0)) && edge.upstream == ColumnFqn(t, c)
  {
    hide ColumnRefsIn, LastNames, Project, RefersOnlyTo;
    ProjectsWalkedNames(t, e, name);
    LineageConfidence.SameDownstream(target, name);
    var proj := Project(OverTable(t, e, name), map[], 0);
    var k: string, r: ColRef :| k in proj && r in proj[k]
                                && edge.upstream == r.fqn && edge.downstream == ColumnFqn(target, k);
    assert k == name && r in Upstream(t, LastNames(ColumnRefsIn(e, 0)));
    c :| c in LastNames(ColumnRefsIn(e, 0)) && r == ColRef(ColumnFqn(t, c), CONF_EXACT);
  }

  // ---- two databases that differ in one column ----------------------------------------------------

  /** What e comes to over a marked database. */
  ghost function Weight(n: int, k: nat): int {
    if n == 0 then 0 else k
  }

  lemma RefAddsUp(t: string, c: string, n: int, fields: seq<Field>)
    requires RefersTo(t, fields) && (n == 0 || n == 1)
    ensures EvalRef(MarkedAt(ColumnFqn(t, c), n), Guided(map[]), fields, [Base(t, t)], [Zeros(1)], [])
         == [Known(if ColumnName(fields) == c then n else 0)]
  {
    var col := ColumnName(fields);
    LineageConfidence.SameDownstream(t, c);
    assert FindSource([Base(t, t)], t) == 0;
    var held := MarkedAt(ColumnFqn(t, c), n).column(t, col);
    assert held == [Known(if col == c then n else 0)];
    assert Gather(held, [Zeros(1)], 0) == held;
  }

  lemma {:induction false} AddsUp(t: string, c: string, n: int, e: Expr)
    requires RefersOnlyTo(t, e) && (n == 0 || n == 1)
    ensures EvalExpr(MarkedAt(ColumnFqn(t, c), n), Guided(map[]), e, [Base(t, t)], [Zeros(1)], [])
         == [Known(Weight(n, Occurrences(e, c)))]
    decreases e, 1, 0
  {
    if e.Ref? {
      RefAddsUp(t, c, n, e.fields);
    } else {
      OperandsAddUp(t, c, n, e, Operands(e));
    }
  }

  lemma {:induction false} OperandsAddUp(t: string, c: string, n: int, e: Expr, operands: seq<Expr>)
    requires forall i :: 0 <= i < |operands| ==> operands[i] < e && RefersOnlyTo(t, operands[i])
    requires n == 0 || n == 1
    ensures SumOf(EvalOperands(MarkedAt(ColumnFqn(t, c), n), Guided(map[]), e, operands, [Base(t, t)], [Zeros(1)], []))
         == Weight(n, OccurrencesIn(e, operands, c))
    decreases e, 0, |operands|
  {
    if |operands| > 0 {
      AddsUp(t, c, n, operands[0]);
      OperandsAddUp(t, c, n, e, operands[1..]);
      var db := MarkedAt(ColumnFqn(t, c), n);
      var first := EvalExpr(db, Guided(map[]), operands[0], [Base(t, t)], [Zeros(1)], []);
      var rest := EvalOperands(db, Guided(map[]), e, operands[1..], [Base(t, t)], [Zeros(1)], []);
      assert ([first] + rest)[1..] == rest;
    }
  }

  // ---- the condition --------------------------------------------------------------------------------

  lemma WalkedIsSound(t: string, e: Expr, name: string, target: string, hash: string, w: Twin)
    requires IsLower(t) && IsLower(name) && name != "" && RefersOnlyTo(t, e) && AllWalked(e)
    requires SameRowCounts(w)
    requires AgreeUpstream(w, ColumnEdges(Some(OverTable(t, e, name)), target, hash), ColumnFqn(target, name))
    ensures EvalSelect(w.left, w.ch, OverTable(t, e, name), map[], [])
         == EvalSelect(w.right, w.ch, OverTable(t, e, name), map[], [])
  {
    hide ColumnRefsIn, LastNames, ColumnEdges, EvalSelect, EvalExpr, Occurrences;
    forall c | Occurrences(e, c) > 0 ensures w.left.column(t, c) == w.right.column(t, c) {
      ListedEdge(t, e, name, target, hash, c);
      var edge := Edge(ColumnFqn(t, c), ColumnFqn(target, name), "column", "", CONF_EXACT, hash);
      assert AgreeOn(w, edge.upstream);
    }
    ValuesAgree(w, t, e, w.ch.pick([], [w.left.rowCount(t)]));
    EvalOver(w.left, w.ch, t, e, name);
    EvalOver(w.right, w.ch, t, e, name);
  }

  lemma HiddenIsUnsound(t: string, e: Expr, name: string, target: string, hash: string, c: string)
    requires IsLower(t) && IsLower(name) && name != "" && RefersOnlyTo(t, e)
    requires Occurrences(e, c) > 0 && c !in LastNames(ColumnRefsIn(e, 0))
    ensures !SoundOver(t, e, name, target, hash)
  {
    hide ColumnRefsIn, LastNames, ColumnEdges, EvalSelect, EvalExpr, Occurrences, RefersOnlyTo;
    var sel := OverTable(t, e, name);
    var w := Twin(MarkedAt(ColumnFqn(t, c), 0), MarkedAt(ColumnFqn(t, c), 1), Guided(map[]));
    forall edge | edge in ColumnEdges(Some(sel), target, hash) && edge.downstream == ColumnFqn(target, name)
      ensures AgreeOn(w, edge.upstream)
    {
      var d := EdgeIsListed(t, e, name, target, hash, edge);
      LineageConfidence.SameDownstream(t, d);
    }
    AddsUp(t, c, 0, e);
    AddsUp(t, c, 1, e);
    EvalOver(w.left, w.ch, t, e, name);
    EvalOver(w.right, w.ch, t, e, name);
    assert EvalSelect(w.left, w.ch, sel, map[], []) != EvalSelect(w.right, w.ch, sel, map[], []);
  }

  /** Main result: over one table, for every expression, the emitted lineage is
      sound for all databases and all choices exactly when every column the value
      takes in, hidden or not, is also referenced where columnRefsIn looks. */
  lemma SoundIff(t: string, e: Expr, name: string, target: string, hash: string)
    requires IsLower(t) && IsLower(name) && name != "" && RefersOnlyTo(t, e)
    ensures SoundOver(t, e, name, target, hash) <==> AllWalked(e)
  {
    hide ColumnRefsIn, LastNames, ColumnEdges, EvalSelect, Occurrences, RefersOnlyTo, OverTable;
    if AllWalked(e) {
      var edges := ColumnEdges(Some(OverTable(t, e, name)), target, hash);
      forall w: Twin | SameRowCounts(w) && AgreeUpstream(w, edges, ColumnFqn(target, name))
        ensures EvalSelect(w.left, w.ch, OverTable(t, e, name), map[], [])
             == EvalSelect(w.right, w.ch, OverTable(t, e, name), map[], [])
      {
        WalkedIsSound(t, e, name, target, hash, w);
      }
    } else {
      var c :| Occurrences(e, c) > 0 && c !in LastNames(ColumnRefsIn(e, 0));
      HiddenIsUnsound(t, e, name, target, hash, c);
    }
  }

  /** SELECT GREATEST(a) AS name FROM t is unsound, GREATEST(a) + a is not. */
  lemma UnwalkedNodeIsUnsound(t: string, a: string, name: string, target: string, hash: string)
    requires IsLower(t) && IsLower(name) && name != ""
    ensures var greatest := Opaque("MinMaxExpr", [Ref([Name(a)])]);
            !SoundOver(t, greatest, name, target, hash)
            && SoundOver(t, AExpr("+", greatest, Ref([Name(a)])), name, target, hash)
  {
    hide SoundOver, IsLower;
    var r := Ref([Name(a)]);
    var greatest := Opaque("MinMaxExpr", [r]);
    var sum := AExpr("+", greatest, r);
    OneName(a);
    GreatestHides(a);
    SumShows(a);
    SoundIff(t, greatest, name, target, hash);
    SoundIff(t, sum, name, target, hash);
  }

  lemma GreatestHides(a: string)
    ensures !AllWalked(Opaque("MinMaxExpr", [Ref([Name(a)])]))
  {
    OneName(a);
    var e := Opaque("MinMaxExpr", [Ref([Name(a)])]);
    assert OccurrencesIn(e, e.hidden, a) == Occurrences(e.hidden[0], a) + OccurrencesIn(e, e.hidden[1..], a);
    assert Occurrences(e, a) > 0;
    assert ColumnRefsIn(e, 0) == [];
  }

  lemma SumShows(a: string)
    ensures AllWalked(AExpr("+", Opaque("MinMaxExpr", [Ref([Name(a)])]), Ref([Name(a)])))
  {
    OneName(a);
    var greatest, r := Opaque("MinMaxExpr", [Ref([Name(a)])]), Ref([Name(a)]);
    var e := AExpr("+", greatest, r);
    assert [greatest, r][1..] == [r] && [r][1..] == [];
    assert RefsInOperands(e, [r], 1) == ColumnRefsIn(r, 1) + RefsInOperands(e, [], 1);
    assert ColumnRefsIn(greatest, 1) == [];
    assert RefsInOperands(e, [greatest, r], 1) == ColumnRefsIn(greatest, 1) + RefsInOperands(e, [r], 1);
    assert RefsInOperands(e, [], 1) == [];
    assert ColumnRefsIn(e, 0) == RefsInOperands(e, [greatest, r], 1) == [[Name(a)]];
    assert [Name(a)] in ColumnRefsIn(e, 0);
    forall c | Occurrences(e, c) > 0 ensures c == a {
      assert OccurrencesIn(e, [greatest, r], c) == Occurrences(greatest, c) + OccurrencesIn(e, [r], c);
      assert OccurrencesIn(e, [r], c) == Occurrences(r, c) + OccurrencesIn(e, [], c);
      assert OccurrencesIn(greatest, [r], c) == Occurrences(r, c) + OccurrencesIn(greatest, [r][1..], c);
    }
  }
}
