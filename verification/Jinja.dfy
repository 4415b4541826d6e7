/** internal/srcanalysis/dbt.go: the Jinja preprocessor. Each of the five regular
    expressions is a matcher at the start of a string; none of them has a choice
    a leftmost-first engine could make differently. */
module Jinja {

  /** Where a match ends, if there is one. */
  datatype Step = Stop | At(rest: string) {
    predicate IsFailure() { Stop? }
    function PropagateFailure(): Match { NoMatch }
    function Extract(): string
      requires At?
    { rest }
  }

  datatype Quoted = NotQuoted | Quoted(text: string, rest: string) {
    predicate IsFailure() { NotQuoted? }
    function PropagateFailure(): Match { NoMatch }
    function Extract(): (string, string)
      requires Quoted?
    { (text, rest) }
  }

  /** What a match is replaced by, and what follows it. */
  datatype Match = NoMatch | Matched(text: string, rest: string)

  /** The `\s` of Go's regular expressions. */
  predicate IsBlank(c: char) {
    c == ' ' || c == '\t' || c == '\n' || c == '\r' || c == '\U{000C}'
  }

  predicate IsQuote(c: char) {
    c == '\'' || c == '"'
  }

  function SkipBlanks(s: string): (r: string)
    ensures |r| <= |s|
  {
    if |s| > 0 && IsBlank(s[0]) then SkipBlanks(s[1..]) else s
  }

  function Eat(token: string, s: string): (r: Step)
    ensures r.At? ==> |s| == |token| + |r.rest|
  {
    if token <= s then At(s[|token|..]) else Stop
  }

  /** Up to the first quote: the text before it and what follows it. */
  function UntilQuote(s: string): (r: Quoted)
    ensures r.Quoted? ==> |r.text| + 1 + |r.rest| == |s|
  {
    if |s| == 0 then NotQuoted
    else if IsQuote(s[0]) then Quoted("", s[1..])
    else
      match UntilQuote(s[1..])
      case NotQuoted => NotQuoted
      case Quoted(t, rest) => Quoted([s[0]] + t, rest)
  }

  /** A nonempty quoted string; the two quotes need not be the same. */
  function EatQuoted(s: string): (r: Quoted)
    ensures r.Quoted? ==> |r.text| + 2 + |r.rest| == |s|
  {
    if |s| == 0 || !IsQuote(s[0]) then NotQuoted
    else
      var r := UntilQuote(s[1..]);
      if r.Quoted? && r.text == "" then NotQuoted else r
  }

  /** The first occurrence of a token, from here on. */
  function Find(token: string, s: string): (r: Step)
    ensures r.At? ==> |token| + |r.rest| <= |s|
  {
    if token <= s then At(s[|token|..])
    else if |s| == 0 then Stop
    else Find(token, s[1..])
  }

  /** The first closing parenthesis that only blanks keep from the closing braces. */
  function FindCallEnd(s: string): (r: Step)
    ensures r.At? ==> 3 + |r.rest| <= |s|
  {
    if |s| == 0 then Stop
    else if s[0] == ')' && Eat("}}", SkipBlanks(s[1..])).At? then Eat("}}", SkipBlanks(s[1..]))
    else FindCallEnd(s[1..])
  }

  function MatchSource(s: string): (m: Match)
    ensures m.Matched? ==> |m.rest| < |s|
  {
    var s1 :- Eat("{{", s);
    var s2 :- Eat("source(", SkipBlanks(s1));
    var (schema, s3) :- EatQuoted(SkipBlanks(s2));
    var s4 :- Eat(",", SkipBlanks(s3));
    var (table, s5) :- EatQuoted(SkipBlanks(s4));
    var s6 :- Eat(")", SkipBlanks(s5));
    var s7 :- Eat("}}", SkipBlanks(s6));
    Matched(schema + "." + table, s7)
  }

  function MatchRef(s: string): (m: Match)
    ensures m.Matched? ==> |m.rest| < |s|
  {
    var s1 :- Eat("{{", s);
    var s2 :- Eat("ref(", SkipBlanks(s1));
    var (first, s3) :- EatQuoted(SkipBlanks(s2));
    if Eat(",", SkipBlanks(s3)).At? then
      var s4 :- Eat(",", SkipBlanks(s3));
      var (second, s5) :- EatQuoted(SkipBlanks(s4));
      var s6 :- Eat(")", SkipBlanks(s5));
      var s7 :- Eat("}}", SkipBlanks(s6));
      Matched(second, s7)
    else
      var s6 :- Eat(")", SkipBlanks(s3));
      var s7 :- Eat("}}", SkipBlanks(s6));
      Matched(first, s7)
  }

  function MatchConfig(s: string): (m: Match)
    ensures m.Matched? ==> |m.rest| < |s|
  {
    var s1 :- Eat("{{", s);
    var s2 :- Eat("config(", SkipBlanks(s1));
    var s3 :- FindCallEnd(s2);
    Matched(" ", s3)
  }

  /** `{` and a mark, anything, a mark and `}`. */
  function MatchTag(open: char, close: char, text: string, s: string): (m: Match)
    ensures m.Matched? ==> |m.rest| < |s|
  {
    var s1 :- Eat(['{', open], s);
    var s2 :- Find([close, '}'], s1);
    Matched(text, s2)
  }

  datatype Pass = Sources | Refs | Configs | Blocks | Exprs

  function MatchAt(p: Pass, s: string): (m: Match)
    ensures m.Matched? ==> |m.rest| < |s|
  {
    match p
    case Sources => MatchSource(s)
    case Refs => MatchRef(s)
    case Configs => MatchConfig(s)
    case Blocks => MatchTag('%', '%', " ", s)
    case Exprs => MatchTag('{', '}', "null", s)
  }

  function ReplaceAll(p: Pass, s: string): string
    decreases |s|
  {
    match MatchAt(p, s)
    case Matched(text, rest) => text + ReplaceAll(p, rest)
    case NoMatch => if |s| == 0 then "" else [s[0]] + ReplaceAll(p, s[1..])
  }

  function RenderJinja(sql: string): (string, bool) {
    var o1 := ReplaceAll(Sources, sql);
    var o2 := ReplaceAll(Refs, o1);
    var o3 := ReplaceAll(Configs, o2);
    var o4 := ReplaceAll(Blocks, o3);
    var o5 := ReplaceAll(Exprs, o4);
    (o5, o1 != sql || o2 != o1 || o3 != o2 || o4 != o3 || o5 != o4)
  }

  // ---- complete tags --------------------------------------------------------------------

  ghost predicate Two(s: string, i: int, a: char, b: char) {
    0 <= i && i + 1 < |s| && s[i] == a && s[i + 1] == b
  }

  /** A complete tag: `{` and `open`, and behind them `close` and `}`. */
  ghost predicate HasTag(s: string, open: char, close: char) {
    exists i, j :: Two(s, i, '{', open) && Two(s, j, close, '}') && i + 2 <= j
  }

  ghost predicate HasExpr(s: string) {
    HasTag(s, '{', '}')
  }

  ghost predicate HasBlock(s: string) {
    HasTag(s, '%', '%')
  }

  /** The same by recursion on the string. */
  ghost predicate Closes(s: string, close: char) {
    Find([close, '}'], s).At?
  }

  ghost predicate OpensTag(s: string, open: char, close: char) {
    Two(s, 0, '{', open) && Closes(s[2..], close)
  }

  ghost predicate Tagged(s: string, open: char, close: char) {
    |s| > 0 && (OpensTag(s, open, close) || Tagged(s[1..], open, close))
  }

  lemma {:induction false} ClosesIff(s: string, close: char)
    ensures Closes(s, close) <==> exists j :: Two(s, j, close, '}')
  {
    if Two(s, 0, close, '}') {
      assert [close, '}'] <= s;
    } else if |s| > 0 {
      assert !([close, '}'] <= s);
      ClosesIff(s[1..], close);
      if j :| Two(s[1..], j, close, '}') {
        assert Two(s, j + 1, close, '}');
      }
      if j :| Two(s, j, close, '}') {
        assert Two(s[1..], j - 1, close, '}');
      }
    }
  }

  lemma {:induction false} TaggedIff(s: string, open: char, close: char)
    ensures Tagged(s, open, close) <==> HasTag(s, open, close)
  {
    if |s| > 0 {
      TaggedIff(s[1..], open, close);
      if Two(s, 0, '{', open) {
        ClosesIff(s[2..], close);
        if j :| Two(s[2..], j, close, '}') {
          assert Two(s, j + 2, close, '}');
        }
      }
      if i, j :| Two(s[1..], i, '{', open) && Two(s[1..], j, close, '}') && i + 2 <= j {
        assert Two(s, i + 1, '{', open) && Two(s, j + 1, close, '}');
      }
      if i, j :| Two(s, i, '{', open) && Two(s, j, close, '}') && i + 2 <= j {
        if i == 0 {
          assert Two(s[2..], j - 2, close, '}');
        } else {
          assert Two(s[1..], i - 1, '{', open) && Two(s[1..], j - 1, close, '}');
        }
      }
    }
  }

  // ---- every match is a complete tag ---------------------------------------------------------

  lemma {:induction false} ClosesLater(s: string, n: nat, c: char)
    requires n <= |s| && Closes(s[n..], c)
    ensures Closes(s, c)
  {
    if n > 0 {
      assert s[1..][n - 1..] == s[n..];
      ClosesLater(s[1..], n - 1, c);
    } else {
      assert s[0..] == s;
    }
  }

  lemma {:induction false} ClosesAfterBlanks(s: string, c: char)
    requires Closes(SkipBlanks(s), c)
    ensures Closes(s, c)
  {
    if |s| > 0 && IsBlank(s[0]) {
      ClosesAfterBlanks(s[1..], c);
      ClosesLater(s, 1, c);
    }
  }

  lemma ClosesAfterToken(token: string, s: string, c: char)
    requires Eat(token, s).At? && Closes(Eat(token, s).rest, c)
    ensures Closes(s, c)
  {
    ClosesLater(s, |token|, c);
  }

  lemma {:induction false} ClosesAfterText(s: string, c: char)
    requires UntilQuote(s).Quoted? && Closes(UntilQuote(s).rest, c)
    ensures Closes(s, c)
  {
    if !IsQuote(s[0]) {
      ClosesAfterText(s[1..], c);
    }
    ClosesLater(s, 1, c);
  }

  lemma ClosesAfterQuoted(s: string, c: char)
    requires EatQuoted(s).Quoted? && Closes(EatQuoted(s).rest, c)
    ensures Closes(s, c)
  {
    ClosesAfterText(s[1..], c);
    ClosesLater(s, 1, c);
  }

  lemma EatenCloses(s: string, c: char)
    requires Eat([c, '}'], s).At?
    ensures Closes(s, c)
  {
  }

  lemma {:induction false} CallEndCloses(s: string)
    requires FindCallEnd(s).At?
    ensures Closes(s, '}')
  {
    if s[0] == ')' && Eat("}}", SkipBlanks(s[1..])).At? {
      EatenCloses(SkipBlanks(s[1..]), '}');
      ClosesAfterBlanks(s[1..], '}');
    } else {
      CallEndCloses(s[1..]);
    }
    ClosesLater(s, 1, '}');
  }

  /** From a closing parenthesis to the closing braces. */
  lemma CallCloses(s: string)
    requires Eat(")", SkipBlanks(s)).At? && Eat("}}", SkipBlanks(Eat(")", SkipBlanks(s)).rest)).At?
    ensures Closes(s, '}')
  {
    var s6 := Eat(")", SkipBlanks(s)).rest;
    EatenCloses(SkipBlanks(s6), '}');
    ClosesAfterBlanks(s6, '}');
    ClosesAfterToken(")", SkipBlanks(s), '}');
    ClosesAfterBlanks(s, '}');
  }

  lemma QuotedCloses(s: string)
    requires EatQuoted(SkipBlanks(s)).Quoted? && Closes(EatQuoted(SkipBlanks(s)).rest, '}')
    ensures Closes(s, '}')
  {
    ClosesAfterQuoted(SkipBlanks(s), '}');
    ClosesAfterBlanks(s, '}');
  }

  lemma TokenCloses(token: string, s: string)
    requires Eat(token, SkipBlanks(s)).At? && Closes(Eat(token, SkipBlanks(s)).rest, '}')
    ensures Closes(s, '}')
  {
    ClosesAfterToken(token, SkipBlanks(s), '}');
    ClosesAfterBlanks(s, '}');
  }

  lemma SourceIsTag(s: string)
    requires MatchSource(s).Matched?
    ensures OpensTag(s, '{', '}')
  {
    var s1 := Eat("{{", s).rest;
    var s2 := Eat("source(", SkipBlanks(s1)).rest;
    var s3 := EatQuoted(SkipBlanks(s2)).rest;
    var s4 := Eat(",", SkipBlanks(s3)).rest;
    var s5 := EatQuoted(SkipBlanks(s4)).rest;
    CallCloses(s5);
    QuotedCloses(s4);
    TokenCloses(",", s3);
    QuotedCloses(s2);
    TokenCloses("source(", s1);
  }

  lemma RefIsTag(s: string)
    requires MatchRef(s).Matched?
    ensures OpensTag(s, '{', '}')
  {
    var s1 := Eat("{{", s).rest;
    var s2 := Eat("ref(", SkipBlanks(s1)).rest;
    var s3 := EatQuoted(SkipBlanks(s2)).rest;
    if Eat(",", SkipBlanks(s3)).At? {
      var s4 := Eat(",", SkipBlanks(s3)).rest;
      CallCloses(EatQuoted(SkipBlanks(s4)).rest);
      QuotedCloses(s4);
      TokenCloses(",", s3);
    } else {
      CallCloses(s3);
    }
    QuotedCloses(s2);
    TokenCloses("ref(", s1);
  }

  lemma ConfigIsTag(s: string)
    requires MatchConfig(s).Matched?
    ensures OpensTag(s, '{', '}')
  {
    var s1 := Eat("{{", s).rest;
    CallEndCloses(Eat("config(", SkipBlanks(s1)).rest);
    TokenCloses("config(", s1);
  }

  function OpenOf(p: Pass): char {
    if p == Blocks then '%' else '{'
  }

  function CloseOf(p: Pass): char {
    if p == Blocks then '%' else '}'
  }

  lemma MatchIsTag(p: Pass, s: string)
    requires MatchAt(p, s).Matched?
    ensures OpensTag(s, OpenOf(p), CloseOf(p))
  {
    match p
    case Sources => SourceIsTag(s);
    case Refs => RefIsTag(s);
    case Configs => ConfigIsTag(s);
    case _ =>
  }

  /** Main result: a pass leaves a string without its kind of tag as it is. */
  lemma {:induction false} UntaggedUnchanged(p: Pass, s: string)
    requires !Tagged(s, OpenOf(p), CloseOf(p))
    ensures ReplaceAll(p, s) == s
  {
    if MatchAt(p, s).Matched? {
      MatchIsTag(p, s);
      assert false;
    } else if |s| > 0 {
      UntaggedUnchanged(p, s[1..]);
    }
  }

  // ---- the last two passes -------------------------------------------------------------------

  predicate IsMark(c: char) {
    c == '{' || c == '}' || c == '%'
  }

  predicate SweepsAll(p: Pass) {
    p == Blocks || p == Exprs
  }

  /** A mark at the head of the output was copied from the head of the input. */
  lemma MarkIsCopied(p: Pass, s: string)
    requires SweepsAll(p) && |ReplaceAll(p, s)| > 0 && IsMark(ReplaceAll(p, s)[0])
    ensures |s| > 0 && MatchAt(p, s).NoMatch? && s[0] == ReplaceAll(p, s)[0]
    ensures ReplaceAll(p, s)[1..] == ReplaceAll(p, s[1..])
  {
  }

  lemma {:induction false} SkipPlain(text: string, out: string, c: char)
    requires IsMark(c) && forall i :: 0 <= i < |text| ==> !IsMark(text[i])
    ensures Closes(text + out, c) <==> Closes(out, c)
  {
    if |text| == 0 {
      assert text + out == out;
    } else {
      assert (text + out)[1..] == text[1..] + out;
      assert (text + out)[0] == text[0] && text[0] != c;
      assert !([c, '}'] <= text + out);
      SkipPlain(text[1..], out, c);
    }
  }

  lemma {:induction false} SkipPlainTagged(text: string, out: string, open: char, close: char)
    requires forall i :: 0 <= i < |text| ==> !IsMark(text[i])
    ensures Tagged(text + out, open, close) <==> Tagged(out, open, close)
  {
    if |text| == 0 {
      assert text + out == out;
    } else {
      assert (text + out)[1..] == text[1..] + out;
      SkipPlainTagged(text[1..], out, open, close);
    }
  }

  /** A sweep makes no closing mark that was not there. */
  lemma {:induction false} ClosesBefore(p: Pass, s: string, c: char)
    requires SweepsAll(p) && IsMark(c) && Closes(ReplaceAll(p, s), c)
    ensures Closes(s, c)
    decreases |s|
  {
    var out := ReplaceAll(p, s);
    match MatchAt(p, s)
    case Matched(text, rest) =>
      SkipPlain(text, ReplaceAll(p, rest), c);
      ClosesBefore(p, rest, c);
      RestCloses(p, s, c);
    case NoMatch =>
      if |s| > 0 {
        assert out[1..] == ReplaceAll(p, s[1..]);
        if [c, '}'] <= out {
          MarkIsCopied(p, s[1..]);
          assert [c, '}'] <= s;
        } else {
          ClosesBefore(p, s[1..], c);
        }
      }
  }

  /** What follows a match is part of the string. */
  lemma RestCloses(p: Pass, s: string, c: char)
    requires SweepsAll(p) && MatchAt(p, s).Matched? && Closes(MatchAt(p, s).rest, c)
    ensures Closes(s, c)
  {
    var n := SweepDrop(p, s);
    ClosesLater(s, n, c);
  }

  lemma {:induction false} FindDrops(token: string, s: string) returns (n: nat)
    requires Find(token, s).At?
    ensures n <= |s| && Find(token, s).rest == s[n..]
  {
    if token <= s {
      n := |token|;
    } else {
      n := FindDrops(token, s[1..]);
      n := n + 1;
    }
  }

  lemma SweepDrop(p: Pass, s: string) returns (n: nat)
    requires SweepsAll(p) && MatchAt(p, s).Matched?
    ensures n <= |s| && MatchAt(p, s).rest == s[n..]
  {
    var k := FindDrops([CloseOf(p), '}'], s[2..]);
    n := k + 2;
    assert s[2..][k..] == s[n..];
  }

  lemma {:induction false} TaggedLater(s: string, n: nat, open: char, close: char)
    requires n <= |s| && Tagged(s[n..], open, close)
    ensures Tagged(s, open, close)
  {
    if n > 0 {
      assert s[1..][n - 1..] == s[n..];
      TaggedLater(s[1..], n - 1, open, close);
    } else {
      assert s[0..] == s;
    }
  }

  /** A sweep makes no tag that was not there. */
  lemma {:induction false} TaggedBefore(p: Pass, s: string, open: char, close: char)
    requires SweepsAll(p) && IsMark(open) && IsMark(close) && Tagged(ReplaceAll(p, s), open, close)
    ensures Tagged(s, open, close)
    decreases |s|
  {
    var out := ReplaceAll(p, s);
    match MatchAt(p, s)
    case Matched(text, rest) =>
      SkipPlainTagged(text, ReplaceAll(p, rest), open, close);
      TaggedBefore(p, rest, open, close);
      var n := SweepDrop(p, s);
      TaggedLater(s, n, open, close);
    case NoMatch =>
      if |s| > 0 {
        if OpensTag(out, open, close) {
          OpenedBefore(p, s, open, close);
        } else {
          assert out[1..] == ReplaceAll(p, s[1..]);
          TaggedBefore(p, s[1..], open, close);
        }
      }
  }

  /** A tag opened at the head of the output is opened at the head of the input. */
  lemma OpenedBefore(p: Pass, s: string, open: char, close: char)
    requires SweepsAll(p) && IsMark(open) && IsMark(close) && OpensTag(ReplaceAll(p, s), open, close)
    ensures OpensTag(s, open, close)
  {
    var out := ReplaceAll(p, s);
    MarkIsCopied(p, s);
    assert out[1..] == ReplaceAll(p, s[1..]);
    MarkIsCopied(p, s[1..]);
    assert out[2..] == out[1..][1..];
    assert s[2..] == s[1..][1..];
    ClosesBefore(p, s[2..], close);
  }

  /** Main result: a sweep leaves no tag of its kind. */
  lemma {:induction false} SweptClean(p: Pass, s: string)
    requires SweepsAll(p)
    ensures !Tagged(ReplaceAll(p, s), OpenOf(p), CloseOf(p))
    decreases |s|
  {
    var out := ReplaceAll(p, s);
    match MatchAt(p, s)
    case Matched(text, rest) =>
      SweptClean(p, rest);
      SkipPlainTagged(text, ReplaceAll(p, rest), OpenOf(p), CloseOf(p));
    case NoMatch =>
      if |s| > 0 {
        SweptClean(p, s[1..]);
        assert out[1..] == ReplaceAll(p, s[1..]);
        if OpensTag(out, OpenOf(p), CloseOf(p)) {
          OpenedBefore(p, s, OpenOf(p), CloseOf(p));
          assert false;
        }
      }
  }

  // ---- the renderer ----------------------------------------------------------------------------

  /** Main result: the output has no complete expression and no complete block. */
  lemma RenderedIsPlain(sql: string)
    ensures !HasExpr(RenderJinja(sql).0) && !HasBlock(RenderJinja(sql).0)
  {
    var o4 := ReplaceAll(Blocks, ReplaceAll(Configs, ReplaceAll(Refs, ReplaceAll(Sources, sql))));
    SweptClean(Blocks, ReplaceAll(Configs, ReplaceAll(Refs, ReplaceAll(Sources, sql))));
    SweptClean(Exprs, o4);
    var out := ReplaceAll(Exprs, o4);
    if Tagged(out, '%', '%') {
      TaggedBefore(Exprs, o4, '%', '%');
    }
    TaggedIff(out, '{', '}');
    TaggedIff(out, '%', '%');
  }

  /** Main result: a string is left alone exactly when it has no complete tag. */
  lemma PlainIff(sql: string)
    ensures RenderJinja(sql).0 == sql <==> !HasExpr(sql) && !HasBlock(sql)
    ensures RenderJinja(sql).1 <==> HasExpr(sql) || HasBlock(sql)
  {
    if !HasExpr(sql) && !HasBlock(sql) {
      TaggedIff(sql, '{', '}');
      TaggedIff(sql, '%', '%');
      UntaggedUnchanged(Sources, sql);
      UntaggedUnchanged(Refs, sql);
      UntaggedUnchanged(Configs, sql);
      UntaggedUnchanged(Blocks, sql);
      UntaggedUnchanged(Exprs, sql);
    } else {
      RenderedIsPlain(sql);
    }
  }

  /** Main result: rendering what was rendered changes nothing and reports no
      Jinja, and the flag says exactly whether the output differs. */
  lemma RenderingIsAFixedPoint(sql: string)
    ensures var (out, had) := RenderJinja(sql);
            RenderJinja(out) == (out, false) && (had <==> out != sql)
  {
    RenderedIsPlain(sql);
    PlainIff(RenderJinja(sql).0);
    PlainIff(sql);
  }
}
