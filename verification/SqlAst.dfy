/** String helpers shared by the lineage modules: the ASCII part of Go's
    strings.TrimSpace and strings.ToLower, as internal/lineage/columns.go
    composes them. */
module Identifiers {

  predicate IsSpace(c: char) {
    c == ' ' || c == '\t' || c == '\n' || c == '\r' || c == '\U{000B}' || c == '\U{000C}'
  }

  function TrimLeft(s: string): string {
    if |s| > 0 && IsSpace(s[0]) then TrimLeft(s[1..]) else s
  }

  function TrimRight(s: string): string {
    if |s| > 0 && IsSpace(s[|s| - 1]) then TrimRight(s[..|s| - 1]) else s
  }

  function LowerChar(c: char): char {
    if 'A' <= c <= 'Z' then c + ' ' else c
  }

  function Lower(s: string): string {
    var t := TrimRight(TrimLeft(s));
    seq(|t|, i requires 0 <= i < |t| => LowerChar(t[i]))
  }

  /** Nothing but blanks. */
  ghost predicate Blanks(s: string) {
    forall i :: 0 <= i < |s| ==> s[i] in {' ', '\t', '\n', '\r', '\U{000B}', '\U{000C}'}
  }

  lemma {:induction false} LeftBlanks(l: string, s: string)
    requires Blanks(l) && |s| > 0 && !IsSpace(s[0])
    ensures TrimLeft(l + s) == s
  {
    if |l| == 0 {
      assert l + s == s;
    } else {
      assert (l + s)[1..] == l[1..] + s;
      LeftBlanks(l[1..], s);
    }
  }

  lemma {:induction false} RightBlanks(s: string, r: string)
    requires Blanks(r) && |s| > 0 && !IsSpace(s[|s| - 1])
    ensures TrimRight(s + r) == s
  {
    if |r| == 0 {
      assert s + r == s;
    } else {
      assert (s + r)[..|s + r| - 1] == s + r[..|r| - 1];
      RightBlanks(s, r[..|r| - 1]);
    }
  }

  /** An identifier the resolver's case folding leaves alone. */
  predicate IsLower(s: string) {
    Lower(s) == s
  }
}

/** The part of the pg_query tree that internal/lineage/columns.go and
    walkProto in internal/router/table_extractor.go read. */
module SqlAst {

  datatype Option<+T> = None | Some(value: T)

  /** One element of ColumnRef.Fields: a name, a `*`, or another node kind. */
  datatype Field = Name(text: string) | Star | OtherField

  /** Expression nodes. `Absent` is a nil node. `arms` of a CASE lists the
      condition and the result of each WHEN in turn. `Opaque` is every node
      kind that columnRefsIn has no case for; its operands are hidden from it
      (constants are opaque nodes without operands). */
  datatype Expr =
    | Absent
    | Ref(fields: seq<Field>)
    | AExpr(op: string, left: Expr, right: Expr)
    | FuncCall(fn: string, args: seq<Expr>)
    | Coalesce(args: seq<Expr>)
    | BoolExpr(connective: string, args: seq<Expr>)
    | CaseExpr(arg: Expr, def: Expr, arms: seq<Expr>)
    | TypeCast(typ: string, arg: Expr)
    | ListExpr(items: seq<Expr>)
    | SubLink(sub: Select)
    | Opaque(kind: string, hidden: seq<Expr>)

  /** ResTarget; name is "" when there is no AS. */
  datatype Target = Target(name: string, val: Expr)

  /** CommonTableExpr; query is None when the body is not a SELECT. */
  datatype Cte = Cte(name: string, query: Option<Select>)

  /** FROM items; alias is "" when there is none. `FromOther` is a nil node or
      any item kind the resolver ignores (functions, VALUES lists, ...). */
  datatype From =
    | RangeVar(schema: string, rel: string, alias: string)
    | RangeSubselect(sub: Option<Select>, alias: string)
    | JoinExpr(left: From, right: From)
    | FromOther

  /** SelectStmt; larg/rarg are the arms of a set operation. */
  datatype Select = Select(
    larg: Option<Select>, rarg: Option<Select>,
    recursive: bool, ctes: seq<Cte>,
    from: seq<From>, targets: seq<Target>)

  function RelationName(schema: string, rel: string): string {
    if schema == "" then rel else schema + "." + rel
  }

  function AliasOf(f: From): string
    requires f.RangeVar?
  {
    if f.alias == "" then f.rel else f.alias
  }

  function TargetExprs(targets: seq<Target>): (es: seq<Expr>)
    ensures |es| == |targets|
    ensures forall i :: 0 <= i < |es| ==> es[i] == targets[i].val
  {
    seq(|targets|, i requires 0 <= i < |targets| => targets[i].val)
  }

  /** The operands columnRefsIn descends into, in its order. */
  function WalkedOperands(e: Expr): (es: seq<Expr>)
    ensures forall c :: c in es ==> c < e
  {
    match e
    case AExpr(_, l, r) => [l, r]
    case FuncCall(_, args) => args
    case Coalesce(args) => args
    case BoolExpr(_, args) => args
    case CaseExpr(arg, def, arms) => [arg, def] + arms
    case TypeCast(_, arg) => [arg]
    case ListExpr(items) => items
    case SubLink(sub) =>
      assert forall i :: 0 <= i < |sub.targets| ==> sub.targets[i] < e;
      TargetExprs(sub.targets)
    case _ => []
  }
}
