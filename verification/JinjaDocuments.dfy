/** What internal/srcanalysis/dbt.go makes of a whole model file: plain text
    interleaved with well-formed tags. */
module JinjaDocuments {
  import opened SqlAst
  import opened Jinja

  /** `ws` are the blanks at every place the tag allows them. */
  datatype Piece =
    | Text(text: string)
    | SourceTag(ws: string, quote: char, schema: string, table: string)
    | RefTag(ws: string, quote: char, package: Option<string>, model: string)
    | ConfigTag(ws: string, args: string)
    | BlockTag(body: string)
    | ExprTag(body: string)

  ghost predicate Blank(s: string) {
    forall i :: 0 <= i < |s| ==> s[i] in {' ', '\t', '\n', '\r', '\U{000C}'}
  }

  ghost predicate Lacks(s: string, c: char) {
    forall i :: 0 <= i < |s| ==> s[i] != c
  }

  ghost predicate Nameable(s: string) {
    |s| > 0 && Lacks(s, '\'') && Lacks(s, '"') && Lacks(s, '{')
  }

  /** Not the start of a call that an earlier pass could take. */
  ghost predicate NoCall(body: string) {
    var b := SkipBlanks(body);
    !("source(" <= b) && !("ref(" <= b) && !("config(" <= b)
  }

  ghost predicate WellFormed(p: Piece) {
    match p
    case Text(t) => Lacks(t, '{')
    case SourceTag(ws, q, schema, table) => Blank(ws) && q in {'\'', '"'} && Nameable(schema) && Nameable(table)
    case RefTag(ws, q, pkg, model) =>
      Blank(ws) && q in {'\'', '"'} && Nameable(model) && (pkg.Some? ==> Nameable(pkg.value))
    case ConfigTag(ws, args) => Blank(ws) && Lacks(args, '{') && Lacks(args, '}')
    case BlockTag(body) => Lacks(body, '{') && Lacks(body, '}')
    case ExprTag(body) =>
      Lacks(body, '{') && Lacks(body, '}') && NoCall(body) && (|body| > 0 ==> body[0] != '%')
  }

  function Quote(q: char, s: string): string {
    [q] + s + [q]
  }

  /** A call tag from its name on, with x behind it. */
  ghost function Call(p: Piece, x: string): string
    requires p.SourceTag? || p.RefTag? || p.ConfigTag?
  {
    match p
    case SourceTag(w, q, schema, table) =>
      "source(" + (w + (Quote(q, schema) + (w + ("," + (w + (Quote(q, table) + CallEnd(w, x)))))))
    case RefTag(w, q, pkg, model) =>
      if pkg.None? then "ref(" + (w + (Quote(q, model) + CallEnd(w, x)))
      else "ref(" + (w + (Quote(q, pkg.value) + (w + ("," + (w + (Quote(q, model) + CallEnd(w, x)))))))
    case ConfigTag(w, args) => "config(" + (args + (")" + (w + ("}}" + x))))
  }

  ghost function CallEnd(w: string, x: string): string {
    w + (")" + (w + ("}}" + x)))
  }

  /** The piece as it stands in the file. */
  ghost function Written(p: Piece): string {
    match p
    case Text(t) => t
    case BlockTag(body) => "{%" + (body + "%}")
    case ExprTag(body) => "{{" + (body + "}}")
    case _ => "{{" + (p.ws + Call(p, ""))
  }

  /** What the SQL parser is to see of it. */
  function Meaning(p: Piece): string {
    match p
    case Text(t) => t
    case SourceTag(_, _, schema, table) => schema + "." + table
    case RefTag(_, _, _, model) => model
    case ConfigTag(_, _) => " "
    case BlockTag(_) => " "
    case ExprTag(_) => "null"
  }

  ghost function File(doc: seq<Piece>): string {
    if |doc| == 0 then "" else Written(doc[0]) + File(doc[1..])
  }

  ghost function MeaningOf(doc: seq<Piece>): string {
    if |doc| == 0 then "" else Meaning(doc[0]) + MeaningOf(doc[1..])
  }

  // ---- reading back what was written ---------------------------------------------------------

  lemma Assoc(a: string, b: string, c: string)
    ensures (a + b) + c == a + (b + c)
  {
  }

  lemma EatWritten(token: string, x: string)
    ensures Eat(token, token + x) == At(x)
  {
  }

  lemma EatOther(token: string, s: string)
    requires |token| > 0 && (|s| > 0 ==> s[0] != token[0])
    ensures Eat(token, s) == Stop
  {
  }

  lemma {:induction false} SkipWritten(w: string, x: string)
    requires Blank(w) && |x| > 0 && !IsBlank(x[0])
    ensures SkipBlanks(w + x) == x
  {
    if |w| == 0 {
      assert w + x == x;
    } else {
      assert (w + x)[1..] == w[1..] + x;
      SkipWritten(w[1..], x);
    }
  }

  lemma {:induction false} UntilWritten(name: string, q: char, x: string)
    requires Lacks(name, '\'') && Lacks(name, '"') && IsQuote(q)
    ensures UntilQuote(name + ([q] + x)) == Quoted(name, x)
  {
    var s := name + ([q] + x);
    if |name| == 0 {
      assert s == [q] + x && s[1..] == x;
    } else {
      assert s[1..] == name[1..] + ([q] + x);
      UntilWritten(name[1..], q, x);
      assert [name[0]] + name[1..] == name;
    }
  }

  lemma QuotedWritten(name: string, q: char, x: string)
    requires Nameable(name) && IsQuote(q)
    ensures EatQuoted(Quote(q, name) + x) == Quoted(name, x)
  {
    assert (Quote(q, name) + x)[1..] == name + ([q] + x);
    UntilWritten(name, q, x);
  }

  lemma {:induction false} FindWritten(c: char, body: string, x: string)
    requires Lacks(body, '}')
    ensures Find([c, '}'], body + ([c, '}'] + x)) == At(x)
  {
    var s := body + ([c, '}'] + x);
    if |body| == 0 {
      assert s == [c, '}'] + x;
    } else {
      assert s[0] == body[0] && (|body| > 1 ==> s[1] == body[1]) && (|body| == 1 ==> s[1] == c);
      assert !([c, '}'] <= s);
      assert s[1..] == body[1..] + ([c, '}'] + x);
      FindWritten(c, body[1..], x);
    }
  }

  lemma CallEndWritten(w: string, x: string)
    requires Blank(w)
    ensures Eat(")", SkipBlanks(CallEnd(w, x))) == At(w + ("}}" + x))
    ensures Eat("}}", SkipBlanks(w + ("}}" + x))) == At(x)
  {
    SkipWritten(w, ")" + (w + ("}}" + x)));
    EatWritten(")", w + ("}}" + x));
    SkipWritten(w, "}}" + x);
    EatWritten("}}", x);
  }

  lemma NextToken(w: string, token: string, x: string)
    requires Blank(w) && |token| > 0 && !IsBlank(token[0])
    ensures Eat(token, SkipBlanks(w + (token + x))) == At(x)
  {
    SkipWritten(w, token + x);
    EatWritten(token, x);
  }

  lemma NextQuoted(w: string, q: char, name: string, x: string)
    requires Blank(w) && IsQuote(q) && Nameable(name)
    ensures EatQuoted(SkipBlanks(w + (Quote(q, name) + x))) == Quoted(name, x)
  {
    SkipWritten(w, Quote(q, name) + x);
    QuotedWritten(name, q, x);
  }

  lemma CallEndFollowed(w: string, x: string)
    ensures CallEnd(w, "") + x == CallEnd(w, x)
  {
  }

  lemma Append4(a: string, b: string, c: string, d: string, x: string)
    ensures (a + (b + (c + d))) + x == a + (b + (c + (d + x)))
  {
  }

  lemma CallFollowed(p: Piece, x: string)
    requires p.SourceTag? || p.RefTag? || p.ConfigTag?
    ensures Written(p) + x == "{{" + (p.ws + Call(p, x))
  {
    match p
    case SourceTag(w, q, schema, table) =>
      CallEndFollowed(w, x);
      var tail := CallEnd(w, "");
      Append4(",", w, Quote(q, table), tail, x);
      Append4("source(", w, Quote(q, schema), w + ("," + (w + (Quote(q, table) + tail))), x);
      Assoc(w, "," + (w + (Quote(q, table) + tail)), x);
      Assoc(w, Call(p, ""), x);
      Assoc("{{", w + Call(p, ""), x);
    case RefTag(w, q, pkg, model) =>
      CallEndFollowed(w, x);
      var tail := CallEnd(w, "");
      if pkg.None? {
        Append4("ref(", w, Quote(q, model), tail, x);
      } else {
        Append4(",", w, Quote(q, model), tail, x);
        Append4("ref(", w, Quote(q, pkg.value), w + ("," + (w + (Quote(q, model) + tail))), x);
        Assoc(w, "," + (w + (Quote(q, model) + tail)), x);
      }
      Assoc(w, Call(p, ""), x);
      Assoc("{{", w + Call(p, ""), x);
    case ConfigTag(w, args) =>
      Append4(args, ")", w, "}}" + "", x);
      Assoc("config(", args + (")" + (w + ("}}" + ""))), x);
      Assoc("}}", "", x);
      Assoc(w, Call(p, ""), x);
      Assoc("{{", w + Call(p, ""), x);
  }

  // ---- each pass on its own tags -------------------------------------------------------------

  lemma SourceMatches(p: Piece, x: string)
    requires WellFormed(p) && p.SourceTag?
    ensures MatchSource(Written(p) + x) == Matched(Meaning(p), x)
  {
    CallFollowed(p, x);
    var w, q := p.ws, p.quote;
    EatWritten("{{", w + Call(p, x));
    var s5 := CallEnd(w, x);
    var s4 := w + (Quote(q, p.table) + s5);
    var s3 := w + ("," + s4);
    var s2 := w + (Quote(q, p.schema) + s3);
    NextToken(w, "source(", s2);
    NextQuoted(w, q, p.schema, s3);
    NextToken(w, ",", s4);
    NextQuoted(w, q, p.table, s5);
    CallEndWritten(w, x);
  }

  lemma RefMatches(p: Piece, x: string)
    requires WellFormed(p) && p.RefTag?
    ensures MatchRef(Written(p) + x) == Matched(Meaning(p), x)
  {
    CallFollowed(p, x);
    var w, q := p.ws, p.quote;
    EatWritten("{{", w + Call(p, x));
    var s5 := CallEnd(w, x);
    CallEndWritten(w, x);
    if p.package.None? {
      NextToken(w, "ref(", w + (Quote(q, p.model) + s5));
      NextQuoted(w, q, p.model, s5);
      SkipWritten(w, ")" + (w + ("}}" + x)));
      EatOther(",", SkipBlanks(s5));
    } else {
      var s4 := w + (Quote(q, p.model) + s5);
      var s3 := w + ("," + s4);
      NextToken(w, "ref(", w + (Quote(q, p.package.value) + s3));
      NextQuoted(w, q, p.package.value, s3);
      NextToken(w, ",", s4);
      NextQuoted(w, q, p.model, s5);
    }
  }

  /** Whatever blanks a text starts with, a parenthesis behind it is no brace. */
  lemma {:induction false} NoBraceFirst(t: string, y: string)
    requires Lacks(t, '}') && |y| > 0 && y[0] == ')'
    ensures |SkipBlanks(t + y)| > 0 && SkipBlanks(t + y)[0] != '}'
  {
    if |t| == 0 {
      assert t + y == y && !IsBlank(y[0]);
      assert SkipBlanks(y) == y;
    } else if IsBlank(t[0]) {
      assert (t + y)[1..] == t[1..] + y;
      NoBraceFirst(t[1..], y);
    }
  }

  lemma {:induction false} CallEndFound(args: string, w: string, x: string)
    requires Lacks(args, '}') && Blank(w)
    ensures FindCallEnd(args + (")" + (w + ("}}" + x)))) == At(x)
  {
    var y := ")" + (w + ("}}" + x));
    var s := args + y;
    if |args| == 0 {
      assert s == y && y[1..] == w + ("}}" + x);
      NextToken(w, "}}", x);
    } else {
      assert s[1..] == args[1..] + y;
      NoBraceFirst(args[1..], y);
      EatOther("}}", SkipBlanks(s[1..]));
      CallEndFound(args[1..], w, x);
    }
  }

  lemma ConfigMatches(p: Piece, x: string)
    requires WellFormed(p) && p.ConfigTag?
    ensures MatchConfig(Written(p) + x) == Matched(Meaning(p), x)
  {
    CallFollowed(p, x);
    EatWritten("{{", p.ws + Call(p, x));
    NextToken(p.ws, "config(", p.args + (")" + (p.ws + ("}}" + x))));
    CallEndFound(p.args, p.ws, x);
  }

  lemma TagMatches(open: char, close: char, body: string, text: string, x: string)
    requires Lacks(body, '}')
    ensures MatchTag(open, close, text, (['{', open] + (body + [close, '}'])) + x) == Matched(text, x)
  {
    var s := (['{', open] + (body + [close, '}'])) + x;
    assert s == ['{', open] + (body + ([close, '}'] + x));
    EatWritten(['{', open], body + ([close, '}'] + x));
    FindWritten(close, body, x);
  }

  // ---- each pass on everything else -----------------------------------------------------------

  function PassIndex(p: Pass): nat {
    match p
    case Sources => 0
    case Refs => 1
    case Configs => 2
    case Blocks => 3
    case Exprs => 4
  }

  /** The pass that takes a piece; no pass takes plain text. */
  function KindIndex(p: Piece): nat {
    match p
    case SourceTag(_, _, _, _) => 0
    case RefTag(_, _, _, _) => 1
    case ConfigTag(_, _) => 2
    case BlockTag(_) => 3
    case ExprTag(_) => 4
    case Text(_) => 5
  }

  lemma {:induction false} CopyPlain(p: Pass, t: string, x: string)
    requires Lacks(t, '{')
    ensures ReplaceAll(p, t + x) == t + ReplaceAll(p, x)
  {
    hide MatchAt;
    if |t| == 0 {
      assert t + x == x;
    } else {
      assert (t + x)[0] == t[0] && (t + x)[1..] == t[1..] + x;
      if MatchAt(p, t + x).Matched? {
        MatchIsTag(p, t + x);
        assert false;
      }
      CopyPlain(p, t[1..], x);
      assert [t[0]] + (t[1..] + ReplaceAll(p, x)) == t + ReplaceAll(p, x);
    }
  }

  /** A tag this pass does not take: no match can start inside it either. */
  lemma InsideNoMatch(p: Pass, open: char, inside: string, x: string)
    requires Lacks(inside, '{')
    requires open == '%' || (open == '{' && |inside| > 0 && inside[0] != '%')
    ensures MatchAt(p, [open] + (inside + x)).NoMatch?
  {
    var s := [open] + (inside + x);
    assert s[0] == open && (|inside| > 0 ==> s[1] == inside[0]);
    if MatchAt(p, s).Matched? {
      MatchIsTag(p, s);
      assert false;
    }
  }

  lemma NoMatchCopies(p: Pass, c: char, rest: string)
    requires MatchAt(p, [c] + rest).NoMatch?
    ensures ReplaceAll(p, [c] + rest) == [c] + ReplaceAll(p, rest)
  {
    assert ([c] + rest)[1..] == rest;
  }

  lemma CopyTag(p: Pass, open: char, inside: string, x: string)
    requires Lacks(inside, '{') && MatchAt(p, (['{', open] + inside) + x).NoMatch?
    requires open == '%' || (open == '{' && |inside| > 0 && inside[0] != '%')
    ensures ReplaceAll(p, (['{', open] + inside) + x) == (['{', open] + inside) + ReplaceAll(p, x)
  {
    var rest := inside + x;
    assert (['{', open] + inside) + x == ['{'] + ([open] + rest);
    NoMatchCopies(p, '{', [open] + rest);
    InsideNoMatch(p, open, inside, x);
    NoMatchCopies(p, open, rest);
    CopyPlain(p, inside, x);
    assert ['{'] + ([open] + (inside + ReplaceAll(p, x))) == (['{', open] + inside) + ReplaceAll(p, x);
  }

  lemma LacksAppend(s: string, t: string, c: char)
    ensures Lacks(s + t, c) <==> Lacks(s, c) && Lacks(t, c)
  {
    if Lacks(s + t, c) {
      assert forall i :: 0 <= i < |s| ==> s[i] == (s + t)[i];
      assert forall i :: 0 <= i < |t| ==> t[i] == (s + t)[|s| + i];
    }
  }

  lemma CallEndLacksBrace(w: string)
    requires Blank(w)
    ensures Lacks(CallEnd(w, ""), '{')
  {
    LacksAppend(w, "}}", '{');
    LacksAppend(")", w + ("}}" + ""), '{');
    LacksAppend(w, ")" + (w + ("}}" + "")), '{');
  }

  lemma Lacks4(a: string, b: string, c: string, d: string, k: char)
    requires Lacks(a, k) && Lacks(b, k) && Lacks(c, k) && Lacks(d, k)
    ensures Lacks(a + (b + (c + d)), k)
  {
    LacksAppend(c, d, k);
    LacksAppend(b, c + d, k);
    LacksAppend(a, b + (c + d), k);
  }

  lemma CallLacksBrace(p: Piece)
    requires WellFormed(p) && (p.SourceTag? || p.RefTag? || p.ConfigTag?)
    ensures Lacks(p.ws + Call(p, ""), '{')
  {
    var w := p.ws;
    CallEndLacksBrace(w);
    match p
    case SourceTag(_, q, schema, table) =>
      Lacks4(",", w, Quote(q, table), CallEnd(w, ""), '{');
      var tail := "," + (w + (Quote(q, table) + CallEnd(w, "")));
      LacksAppend(w, tail, '{');
      Lacks4("source(", w, Quote(q, schema), w + tail, '{');
      LacksAppend(w, Call(p, ""), '{');
    case RefTag(_, q, pkg, model) =>
      if pkg.None? {
        Lacks4("ref(", w, Quote(q, model), CallEnd(w, ""), '{');
      } else {
        Lacks4(",", w, Quote(q, model), CallEnd(w, ""), '{');
        var tail := "," + (w + (Quote(q, model) + CallEnd(w, "")));
        LacksAppend(w, tail, '{');
        Lacks4("ref(", w, Quote(q, pkg.value), w + tail, '{');
      }
      LacksAppend(w, Call(p, ""), '{');
    case ConfigTag(_, args) =>
      Lacks4(args, ")", w, "}}" + "", '{');
      LacksAppend("config(", args + (")" + (w + ("}}" + ""))), '{');
      LacksAppend(w, Call(p, ""), '{');
  }

  /** A call by another name. */
  lemma CallNoMatch(p: Pass, piece: Piece, x: string)
    requires WellFormed(piece) && (piece.RefTag? || piece.ConfigTag?) && PassIndex(p) < KindIndex(piece)
    ensures MatchAt(p, Written(piece) + x).NoMatch?
  {
    CallFollowed(piece, x);
    var c := Call(piece, x);
    EatWritten("{{", piece.ws + c);
    assert c[0] == if piece.RefTag? then 'r' else 'c';
    SkipWritten(piece.ws, c);
    EatOther("source(", c);
    if piece.ConfigTag? {
      EatOther("ref(", c);
    }
  }

  lemma {:induction false} SkipBody(body: string, x: string)
    requires |x| > 0 && x[0] == '}'
    ensures SkipBlanks(body + x) == SkipBlanks(body) + x
  {
    if |body| == 0 {
      assert body + x == x;
    } else if IsBlank(body[0]) {
      assert (body + x)[1..] == body[1..] + x;
      SkipBody(body[1..], x);
    }
  }

  lemma NoTokenAcross(token: string, b: string, x: string)
    requires Lacks(token, '}') && |x| > 0 && x[0] == '}' && !(token <= b)
    ensures Eat(token, b + x) == Stop
  {
    if |token| <= |b| {
      assert (b + x)[..|token|] == b[..|token|];
    } else {
      assert (b + x)[|b|] == '}' && token[|b|] != '}';
    }
  }

  lemma ExprNoMatch(p: Pass, piece: Piece, x: string)
    requires WellFormed(piece) && piece.ExprTag? && p != Exprs
    ensures MatchAt(p, Written(piece) + x).NoMatch?
  {
    var body := piece.body;
    var s := Written(piece) + x;
    assert s == "{{" + (body + ("}}" + x));
    EatWritten("{{", body + ("}}" + x));
    SkipBody(body, "}}" + x);
    NoTokenAcross("source(", SkipBlanks(body), "}}" + x);
    NoTokenAcross("ref(", SkipBlanks(body), "}}" + x);
    NoTokenAcross("config(", SkipBlanks(body), "}}" + x);
    if p == Blocks && MatchAt(p, s).Matched? {
      MatchIsTag(p, s);
      assert false;
    }
  }

  lemma BlockNoMatch(p: Pass, piece: Piece, x: string)
    requires piece.BlockTag? && p != Blocks
    ensures MatchAt(p, Written(piece) + x).NoMatch?
  {
    assert (Written(piece) + x)[1] == '%';
    if MatchAt(p, Written(piece) + x).Matched? {
      MatchIsTag(p, Written(piece) + x);
      assert false;
    }
  }

  lemma UntouchedCall(p: Pass, piece: Piece, x: string)
    requires WellFormed(piece) && (piece.RefTag? || piece.ConfigTag?) && PassIndex(p) < KindIndex(piece)
    ensures ReplaceAll(p, Written(piece) + x) == Written(piece) + ReplaceAll(p, x)
  {
    CallNoMatch(p, piece, x);
    CallLacksBrace(piece);
    CopyTag(p, '{', piece.ws + Call(piece, ""), x);
  }

  /** A pass leaves the pieces of later passes as they are. */
  lemma Untouched(p: Pass, piece: Piece, x: string)
    requires WellFormed(piece) && PassIndex(p) < KindIndex(piece)
    ensures ReplaceAll(p, Written(piece) + x) == Written(piece) + ReplaceAll(p, x)
  {
    match piece
    case Text(t) => CopyPlain(p, t, x);
    case BlockTag(body) =>
      BlockNoMatch(p, piece, x);
      LacksAppend(body, "%}", '{');
      CopyTag(p, '%', body + "%}", x);
    case ExprTag(body) =>
      ExprNoMatch(p, piece, x);
      LacksAppend(body, "}}", '{');
      CopyTag(p, '{', body + "}}", x);
    case RefTag(_, _, _, _) => UntouchedCall(p, piece, x);
    case ConfigTag(_, _) => UntouchedCall(p, piece, x);
    case SourceTag(_, _, _, _) =>
  }

  /** A pass puts the meaning in the place of its own pieces. */
  lemma Taken(p: Pass, piece: Piece, x: string)
    requires WellFormed(piece) && PassIndex(p) == KindIndex(piece)
    ensures ReplaceAll(p, Written(piece) + x) == Meaning(piece) + ReplaceAll(p, x)
  {
    match piece
    case SourceTag(_, _, _, _) => SourceMatches(piece, x);
    case RefTag(_, _, _, _) => RefMatches(piece, x);
    case ConfigTag(_, _) => ConfigMatches(piece, x);
    case BlockTag(body) => TagMatches('%', '%', body, " ", x);
    case ExprTag(body) => TagMatches('{', '}', body, "null", x);
  }

  // ---- whole files -----------------------------------------------------------------------------

  /** The document with the pieces of the first n passes given their meaning. */
  ghost function Settled(doc: seq<Piece>, n: nat): seq<Piece> {
    seq(|doc|, i requires 0 <= i < |doc| => if KindIndex(doc[i]) < n then Text(Meaning(doc[i])) else doc[i])
  }

  ghost predicate AllWellFormed(doc: seq<Piece>) {
    forall i :: 0 <= i < |doc| ==> WellFormed(doc[i])
  }

  lemma MeaningIsPlain(p: Piece)
    requires WellFormed(p)
    ensures Lacks(Meaning(p), '{')
  {
    if p.SourceTag? {
      LacksAppend(p.schema, ".", '{');
      LacksAppend(p.schema + ".", p.table, '{');
    }
  }

  lemma PassOnPiece(p: Pass, piece: Piece, x: string)
    requires WellFormed(piece)
    ensures var before := Settled([piece], PassIndex(p))[0];
            var after := Settled([piece], PassIndex(p) + 1)[0];
            ReplaceAll(p, Written(before) + x) == Written(after) + ReplaceAll(p, x)
  {
    var k := KindIndex(piece);
    if k < PassIndex(p) {
      MeaningIsPlain(piece);
      Untouched(p, Text(Meaning(piece)), x);
    } else if k == PassIndex(p) {
      Taken(p, piece, x);
    } else {
      Untouched(p, piece, x);
    }
  }

  lemma {:induction false} PassOnFile(p: Pass, doc: seq<Piece>)
    requires AllWellFormed(doc)
    ensures ReplaceAll(p, File(Settled(doc, PassIndex(p)))) == File(Settled(doc, PassIndex(p) + 1))
  {
    hide ReplaceAll, Written;
    if |doc| == 0 {
      UntaggedUnchanged(p, "");
    } else {
      PassOnFile(p, doc[1..]);
      var n := PassIndex(p);
      PassOnPiece(p, doc[0], File(Settled(doc[1..], n)));
      assert Settled(doc, n)[1..] == Settled(doc[1..], n);
      assert Settled(doc, n + 1)[1..] == Settled(doc[1..], n + 1);
    }
  }

  lemma SettledNone(doc: seq<Piece>)
    ensures Settled(doc, 0) == doc
  {
  }

  lemma {:induction false} SettledFile(doc: seq<Piece>)
    ensures File(Settled(doc, 5)) == MeaningOf(doc)
  {
    if |doc| > 0 {
      SettledFile(doc[1..]);
      assert Settled(doc, 5)[1..] == Settled(doc[1..], 5);
    }
  }

  /** Main result: a file of plain text and well-formed tags, in any order and
      number, renders to the same text with every tag replaced by what it
      means. */
  lemma RenderMeansDocument(doc: seq<Piece>)
    requires AllWellFormed(doc)
    ensures RenderJinja(File(doc)).0 == MeaningOf(doc)
  {
    hide ReplaceAll, Settled, File, MeaningOf, AllWellFormed;
    SettledNone(doc);
    PassOnFile(Sources, doc);
    PassOnFile(Refs, doc);
    PassOnFile(Configs, doc);
    PassOnFile(Blocks, doc);
    PassOnFile(Exprs, doc);
    SettledFile(doc);
  }

  /** Between the braces and a call only blanks may stand: with any other character
      there a reference is just an expression. */
  lemma NonBlankHidesCall(c: char, model: string)
    requires c !in {' ', '\t', '\n', '\r', '\U{000C}'} && c !in {'{', '}', '%'}
    requires Lacks(model, '{') && Lacks(model, '}')
    ensures RenderJinja("{{" + ([c] + "ref('" + model + "')" + "}}")).0 == "null"
  {
    hide RenderJinja;
    var body := [c] + "ref('" + model + "')";
    var doc := [ExprTag(body)];
    LacksAppend([c] + "ref('", model, '{');
    LacksAppend([c] + "ref('" + model, "')", '{');
    LacksAppend([c] + "ref('", model, '}');
    LacksAppend([c] + "ref('" + model, "')", '}');
    assert body[0] == c && body[1] == 'r';
    assert SkipBlanks(body) == body;
    assert WellFormed(doc[0]);
    assert doc[1..] == [];
    assert File([]) == "" && MeaningOf([]) == "";
    assert File(doc) == Written(doc[0]) + "" == "{{" + (body + "}}");
    assert MeaningOf(doc) == "null" + "";
    assert [c] + "ref('" + model + "')" + "}}" == body + "}}";
    RenderMeansDocument(doc);
  }
}
