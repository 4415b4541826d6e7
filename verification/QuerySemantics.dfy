/** What a SELECT means, independently of the resolver. A relation is a list of
    named columns and a column is the vector of its values. FROM is a cross
    product: `pick` says which row of each source every kept combination takes,
    so it stands for WHERE, ON, GROUP BY, DISTINCT, ORDER BY and LIMIT, and
    `outRows` says how many rows come out. `op` turns the columns of an
    expression node's operands into the node's column, so scalar functions,
    aggregates and window functions are all instances. */
module QuerySemantics {
  import opened SqlAst
  import opened ColumnLineage

  datatype Value = Null | Known(n: int)
  type Column = seq<Value>

  /** Base tables under the name the query writes for them. */
  datatype Database = Database(
    rowCount: string -> nat,
    column: (string, string) -> Column)

  /** Everything the text of the query does not settle, fixed for one
      evaluation. The first argument of each function but `op` is the position
      of the SELECT in the query, so two occurrences may choose differently.
      `bind` names the source an unqualified column belongs to when there are
      several; `same` picks among outputs of one name. */
  datatype Choices = Choices(
    op: (string, seq<Column>) -> Column,
    pick: (seq<nat>, seq<nat>) -> seq<seq<nat>>,
    outRows: (seq<nat>, seq<nat>) -> nat,
    bind: (seq<nat>, string) -> nat,
    same: (seq<nat>, string) -> nat)

  datatype Output = Output(name: string, col: Column)
  datatype Relation = Relation(rows: nat, outs: seq<Output>)
  datatype Source = Base(alias: string, fqn: string) | Derived(alias: string, rel: Relation)
  type RelEnv = map<string, Relation>

  /** The name a table goes by in the query: its alias, else its own. */
  function ItemName(f: From): string
    requires f.RangeVar?
  {
    if f.alias != "" then f.alias else f.rel
  }

  /** A table of the database, by schema and name. */
  function TableName(schema: string, name: string): string {
    if schema != "" then schema + "." + name else name
  }

  function RowCount(db: Database, src: Source): nat {
    match src
    case Base(_, fqn) => db.rowCount(fqn)
    case Derived(_, rel) => rel.rows
  }

  function NamedColumns(outs: seq<Output>, name: string): seq<Column> {
    if |outs| == 0 then []
    else
      NamedColumns(outs[..|outs| - 1], name)
      + if outs[|outs| - 1].name == name then [outs[|outs| - 1].col] else []
  }

  function SourceColumn(db: Database, ch: Choices, src: Source, col: string, path: seq<nat>): Column {
    match src
    case Base(_, fqn) => db.column(fqn, col)
    case Derived(_, rel) =>
      var named := NamedColumns(rel.outs, col);
      if |named| == 0 then [] else named[ch.same(path, col) % |named|]
  }

  function FindSource(srcs: seq<Source>, alias: string): nat {
    if |srcs| == 0 || srcs[0].alias == alias then 0 else 1 + FindSource(srcs[1..], alias)
  }

  /** The rows of source k that the kept combinations take. */
  function Gather(c: Column, combos: seq<seq<nat>>, k: nat): Column {
    seq(|combos|, i requires 0 <= i < |combos| =>
      if k < |combos[i]| && combos[i][k] < |c| then c[combos[i][k]] else Null)
  }

  function BoundSource(ch: Choices, parts: seq<string>, srcs: seq<Source>, path: seq<nat>): nat
    requires |parts| > 0
  {
    if |parts| >= 2 then FindSource(srcs, parts[|parts| - 2])
    else if |srcs| == 1 then 0
    else ch.bind(path, parts[|parts| - 1])
  }

  function EvalRef(db: Database, ch: Choices, fields: seq<Field>, srcs: seq<Source>,
                   combos: seq<seq<nat>>, path: seq<nat>): Column {
    var (parts, star) := FieldNames(fields);
    if star || |parts| == 0 then []
    else
      var k := BoundSource(ch, parts, srcs, path);
      if k < |srcs| then
        Gather(SourceColumn(db, ch, srcs[k], parts[|parts| - 1], path), combos, k)
      else []
  }

  function NodeLabel(e: Expr): string {
    match e
    case Absent => "absent"
    case Ref(_) => "ref"
    case AExpr(op, _, _) => "operator " + op
    case FuncCall(fn, _) => "call " + fn
    case Coalesce(_) => "coalesce"
    case BoolExpr(connective, _) => "bool " + connective
    case CaseExpr(_, _, _) => "case"
    case TypeCast(typ, _) => "cast " + typ
    case ListExpr(_) => "list"
    case SubLink(_) => "sublink"
    case Opaque(kind, _) => "node " + kind
  }

  /** Every operand the value of a node depends on. */
  function Operands(e: Expr): (es: seq<Expr>)
    ensures forall i :: 0 <= i < |es| ==> es[i] < e
  {
    match e
    case Absent => []
    case Ref(_) => []
    case AExpr(_, l, r) => [l, r]
    case FuncCall(_, args) => args
    case Coalesce(args) => args
    case BoolExpr(_, args) => args
    case CaseExpr(arg, def, arms) => [arg, def] + arms
    case TypeCast(_, arg) => [arg]
    case ListExpr(items) => items
    case SubLink(sub) =>
      assert forall i :: 0 <= i < |sub.targets| ==> sub.targets[i] < e;
      TargetExprs(sub.targets)
    case Opaque(_, hidden) => hidden
  }

  function EvalExpr(db: Database, ch: Choices, e: Expr, srcs: seq<Source>,
                    combos: seq<seq<nat>>, path: seq<nat>): Column
    decreases e, 1, 0
  {
    if e.Ref? then EvalRef(db, ch, e.fields, srcs, combos, path)
    else ch.op(NodeLabel(e), EvalOperands(db, ch, e, Operands(e), srcs, combos, path))
  }

  function EvalOperands(db: Database, ch: Choices, e: Expr, operands: seq<Expr>, srcs: seq<Source>,
                        combos: seq<seq<nat>>, path: seq<nat>): seq<Column>
    requires forall i :: 0 <= i < |operands| ==> operands[i] < e
    decreases e, 0, |operands|
  {
    if |operands| == 0 then []
    else [EvalExpr(db, ch, operands[0], srcs, combos, path)]
         + EvalOperands(db, ch, e, operands[1..], srcs, combos, path)
  }

  /** The written name, else that of a plain column, else none to speak of. */
  function OutputName(t: Target): string {
    if t.name != "" then t.name
    else if t.val.Ref? && !FieldNames(t.val.fields).1 && |FieldNames(t.val.fields).0| > 0 then
      var parts := FieldNames(t.val.fields).0;
      parts[|parts| - 1]
    else "?column?"
  }

  function EvalTargets(db: Database, ch: Choices, targets: seq<Target>, srcs: seq<Source>,
                       combos: seq<seq<nat>>, path: seq<nat>): (outs: seq<Output>)
    ensures |outs| == |targets|
    ensures forall i :: 0 <= i < |outs| ==>
      outs[i] == Output(OutputName(targets[i]), EvalExpr(db, ch, targets[i].val, srcs, combos, path))
  {
    seq(|targets|, i requires 0 <= i < |targets| =>
      Output(OutputName(targets[i]), EvalExpr(db, ch, targets[i].val, srcs, combos, path)))
  }

  function RowCounts(db: Database, srcs: seq<Source>): (counts: seq<nat>)
    ensures |counts| == |srcs|
    ensures forall i :: 0 <= i < |srcs| ==> counts[i] == RowCount(db, srcs[i])
  {
    seq(|srcs|, i requires 0 <= i < |srcs| => RowCount(db, srcs[i]))
  }

  /** The relation a SELECT denotes. Set operations and recursive WITH have no
      meaning here; the soundness theorem excludes them. */
  function EvalSelect(db: Database, ch: Choices, sel: Select, env: RelEnv, path: seq<nat>): Relation
    decreases sel, 1
  {
    if sel.larg.Some? || sel.rarg.Some? then Relation(0, [])
    else
      var srcs := SourcesOfAll(db, ch, sel.from, EvalCtes(db, ch, sel.ctes, env, path), path);
      var counts := RowCounts(db, srcs);
      Relation(
        ch.outRows(path, counts),
        EvalTargets(db, ch, sel.targets, srcs, ch.pick(path, counts), path))
  }

  function EvalCtes(db: Database, ch: Choices, ctes: seq<Cte>, env: RelEnv, path: seq<nat>): RelEnv
    decreases ctes, 0
  {
    if |ctes| == 0 then env
    else
      var inner := EvalCtes(db, ch, ctes[..|ctes| - 1], env, path);
      var cte := ctes[|ctes| - 1];
      if cte.query.Some? then
        inner[cte.name := EvalSelect(db, ch, cte.query.value, inner, path + [0, |ctes|])]
      else inner
  }

  function SourcesOfAll(db: Database, ch: Choices, fs: seq<From>, env: RelEnv, path: seq<nat>): seq<Source>
    decreases fs, 0
  {
    if |fs| == 0 then []
    else SourcesOfAll(db, ch, fs[..|fs| - 1], env, path)
         + SourcesOf(db, ch, fs[|fs| - 1], env, path + [1, |fs|])
  }

  function SourcesOf(db: Database, ch: Choices, f: From, env: RelEnv, path: seq<nat>): seq<Source>
    decreases f, 0
  {
    match f
    case RangeVar(schema, rel, _) =>
      if schema == "" && rel in env then [Derived(ItemName(f), env[rel])]
      else [Base(ItemName(f), TableName(schema, rel))]
    case RangeSubselect(sub, alias) =>
      if sub.Some? then [Derived(alias, EvalSelect(db, ch, sub.value, env, path))] else []
    case JoinExpr(l, r) => SourcesOf(db, ch, l, env, path + [0]) + SourcesOf(db, ch, r, env, path + [1])
    case FromOther => []
  }
}
