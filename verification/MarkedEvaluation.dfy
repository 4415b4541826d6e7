/** Evaluating a query over databases that hold 1 in one column and 0 in all
    others, with nodes that add their operands up: a value then counts how often
    the marked column enters it. Nothing is ever negative, so one occurrence
    shows. */
module MarkedEvaluation {
  import opened SqlAst
  import opened ColumnLineage
  import opened QuerySemantics

  /** n in the column of this name, 0 elsewhere, one row everywhere. */
  ghost function MarkedAt(fqn: string, n: int): Database {
    Database(_ => 1, (rel, col) => if ColumnFqn(rel, col) == fqn then [Known(n)] else [Known(0)])
  }

  ghost function FirstOf(c: Column): int {
    if |c| > 0 && c[0].Known? then c[0].n else 0
  }

  ghost function SumOf(cols: seq<Column>): int {
    if |cols| == 0 then 0 else FirstOf(cols[0]) + SumOf(cols[1..])
  }

  ghost function Zeros(n: nat): seq<nat> {
    seq(n, _ => 0)
  }

  /** For a SELECT and a column name: the source to bind to, and which output of
      that name to take. */
  type Slot = (seq<nat>, string)
  type Picks = map<Slot, (nat, nat)>

  ghost function Guided(m: Picks): Choices {
    Choices((_, cols) => [Known(SumOf(cols))],
            (_, counts: seq<nat>) => [Zeros(|counts|)],
            (_, _) => 1,
            (path, name) => if (path, name) in m then m[(path, name)].0 else 0,
            (path, name) => if (path, name) in m then m[(path, name)].1 else 0)
  }

  /** A count of marks: none when nothing is marked. */
  ghost predicate IsCount(v: int, n: int) {
    v >= 0 && (n == 0 ==> v == 0)
  }

  ghost predicate CountsOnly(rel: Relation, n: int) {
    forall i :: 0 <= i < |rel.outs| ==> IsCount(FirstOf(rel.outs[i].col), n)
  }

  ghost predicate EnvCounts(env: RelEnv, n: int) {
    forall k :: k in env ==> CountsOnly(env[k], n)
  }

  ghost predicate SourcesCount(srcs: seq<Source>, n: int) {
    forall i :: 0 <= i < |srcs| && srcs[i].Derived? ==> CountsOnly(srcs[i].rel, n)
  }

  lemma {:induction false} NamedAreCounts(outs: seq<Output>, name: string, n: int)
    requires forall i :: 0 <= i < |outs| ==> IsCount(FirstOf(outs[i].col), n)
    ensures forall i :: 0 <= i < |NamedColumns(outs, name)| ==> IsCount(FirstOf(NamedColumns(outs, name)[i]), n)
  {
    if |outs| > 0 {
      NamedAreCounts(outs[..|outs| - 1], name, n);
    }
  }

  lemma GatherFirst(c: Column, width: nat, k: nat)
    requires k < width
    ensures FirstOf(Gather(c, [Zeros(width)], k)) == FirstOf(c)
  {
  }

  lemma SourceColumnIsCount(fqn: string, n: int, m: Picks, src: Source, col: string, path: seq<nat>)
    requires (n == 0 || n == 1) && (src.Derived? ==> CountsOnly(src.rel, n))
    ensures IsCount(FirstOf(SourceColumn(MarkedAt(fqn, n), Guided(m), src, col, path)), n)
  {
    if src.Derived? {
      NamedAreCounts(src.rel.outs, col, n);
    }
  }

  lemma RefIsCount(fqn: string, n: int, m: Picks, fields: seq<Field>, srcs: seq<Source>, path: seq<nat>)
    requires (n == 0 || n == 1) && SourcesCount(srcs, n)
    ensures IsCount(FirstOf(EvalRef(MarkedAt(fqn, n), Guided(m), fields, srcs, [Zeros(|srcs|)], path)), n)
  {
    hide Gather, SourceColumn;
    var (parts, star) := FieldNames(fields);
    if !star && |parts| > 0 {
      var k := BoundSource(Guided(m), parts, srcs, path);
      if k < |srcs| {
        SourceColumnIsCount(fqn, n, m, srcs[k], parts[|parts| - 1], path);
        GatherFirst(SourceColumn(MarkedAt(fqn, n), Guided(m), srcs[k], parts[|parts| - 1], path), |srcs|, k);
      }
    }
  }

  lemma {:induction false} ExprIsCount(fqn: string, n: int, m: Picks, e: Expr, srcs: seq<Source>, path: seq<nat>)
    requires (n == 0 || n == 1) && SourcesCount(srcs, n)
    ensures IsCount(FirstOf(EvalExpr(MarkedAt(fqn, n), Guided(m), e, srcs, [Zeros(|srcs|)], path)), n)
    decreases e, 1, 0
  {
    if e.Ref? {
      RefIsCount(fqn, n, m, e.fields, srcs, path);
    } else {
      OperandsCount(fqn, n, m, e, Operands(e), srcs, path);
    }
  }

  lemma {:induction false} OperandsCount(fqn: string, n: int, m: Picks, e: Expr, operands: seq<Expr>,
                                         srcs: seq<Source>, path: seq<nat>)
    requires (n == 0 || n == 1) && SourcesCount(srcs, n)
    requires forall i :: 0 <= i < |operands| ==> operands[i] < e
    ensures IsCount(SumOf(EvalOperands(MarkedAt(fqn, n), Guided(m), e, operands, srcs, [Zeros(|srcs|)], path)), n)
    decreases e, 0, |operands|
  {
    hide SourcesCount;
    if |operands| > 0 {
      ExprIsCount(fqn, n, m, operands[0], srcs, path);
      OperandsCount(fqn, n, m, e, operands[1..], srcs, path);
      SumCons(EvalExpr(MarkedAt(fqn, n), Guided(m), operands[0], srcs, [Zeros(|srcs|)], path),
              EvalOperands(MarkedAt(fqn, n), Guided(m), e, operands[1..], srcs, [Zeros(|srcs|)], path));
    }
  }

  lemma SumCons(first: Column, rest: seq<Column>)
    ensures SumOf([first] + rest) == FirstOf(first) + SumOf(rest)
  {
    assert ([first] + rest)[1..] == rest;
  }

  lemma SelectCounts(fqn: string, n: int, m: Picks, sel: Select, env: RelEnv, path: seq<nat>)
    requires (n == 0 || n == 1) && EnvCounts(env, n)
    ensures CountsOnly(EvalSelect(MarkedAt(fqn, n), Guided(m), sel, env, path), n)
    decreases sel, 1
  {
    hide EvalExpr;
    if sel.larg.None? && sel.rarg.None? {
      var db, ch := MarkedAt(fqn, n), Guided(m);
      CtesCount(fqn, n, m, sel.ctes, env, path);
      var env' := EvalCtes(db, ch, sel.ctes, env, path);
      FromsCount(fqn, n, m, sel.from, env', path);
      var srcs := SourcesOfAll(db, ch, sel.from, env', path);
      assert ch.pick(path, RowCounts(db, srcs)) == [Zeros(|srcs|)];
      forall i | 0 <= i < |sel.targets|
        ensures IsCount(FirstOf(EvalExpr(db, ch, sel.targets[i].val, srcs, [Zeros(|srcs|)], path)), n)
      {
        ExprIsCount(fqn, n, m, sel.targets[i].val, srcs, path);
      }
    }
  }

  lemma CtesCount(fqn: string, n: int, m: Picks, ctes: seq<Cte>, env: RelEnv, path: seq<nat>)
    requires (n == 0 || n == 1) && EnvCounts(env, n)
    ensures EnvCounts(EvalCtes(MarkedAt(fqn, n), Guided(m), ctes, env, path), n)
    decreases ctes, 0
  {
    hide EvalSelect, CountsOnly;
    if |ctes| > 0 {
      var k := |ctes| - 1;
      CtesCount(fqn, n, m, ctes[..k], env, path);
      var inner := EvalCtes(MarkedAt(fqn, n), Guided(m), ctes[..k], env, path);
      if ctes[k].query.Some? {
        SelectCounts(fqn, n, m, ctes[k].query.value, inner, path + [0, |ctes|]);
      }
    }
  }

  lemma FromsCount(fqn: string, n: int, m: Picks, fs: seq<From>, env: RelEnv, path: seq<nat>)
    requires (n == 0 || n == 1) && EnvCounts(env, n)
    ensures SourcesCount(SourcesOfAll(MarkedAt(fqn, n), Guided(m), fs, env, path), n)
    decreases fs, 0
  {
    hide SourcesOf, CountsOnly, EnvCounts;
    if |fs| > 0 {
      FromsCount(fqn, n, m, fs[..|fs| - 1], env, path);
      FromCounts(fqn, n, m, fs[|fs| - 1], env, path + [1, |fs|]);
    }
  }

  lemma FromCounts(fqn: string, n: int, m: Picks, f: From, env: RelEnv, path: seq<nat>)
    requires (n == 0 || n == 1) && EnvCounts(env, n)
    ensures SourcesCount(SourcesOf(MarkedAt(fqn, n), Guided(m), f, env, path), n)
    decreases f, 0
  {
    hide EvalSelect, CountsOnly;
    match f {
      case RangeVar(_, _, _) =>
      case RangeSubselect(sub, _) =>
        if sub.Some? {
          SelectCounts(fqn, n, m, sub.value, env, path);
        }
      case JoinExpr(l, r) =>
        FromCounts(fqn, n, m, l, env, path + [0]);
        FromCounts(fqn, n, m, r, env, path + [1]);
      case FromOther =>
    }
  }
}
