/** internal/api/query_diff.go: the greedy line diff. */
module LineDiff {
  import opened TextLines

  datatype Entry = Entry(tag: char, line: string)

  const BOTH := ' '
  const ONLY_A := '-'
  const ONLY_B := '+'

  // ---- the diff as a list of tagged lines --------------------------------------------------

  function IndexFrom(lines: seq<string>, target: string, start: nat): (k: int)
    ensures k == -1 || start <= k < |lines|
    decreases |lines| - start
  {
    if start >= |lines| then -1
    else if lines[start] == target then start
    else IndexFrom(lines, target, start + 1)
  }

  /** What is left to write with a from line i and b from line j. */
  function DiffFrom(la: seq<string>, lb: seq<string>, i: nat, j: nat): seq<Entry>
    requires i <= |la| && j <= |lb|
    decreases |la| - i + |lb| - j
  {
    if i < |la| && IndexFrom(lb, la[i], j) < 0 then [Entry(ONLY_A, la[i])] + DiffFrom(la, lb, i + 1, j)
    else if j == |lb| then []
    else if i < |la| && la[i] == lb[j] then [Entry(BOTH, la[i])] + DiffFrom(la, lb, i + 1, j + 1)
    else [Entry(ONLY_B, lb[j])] + DiffFrom(la, lb, i, j + 1)
  }

  function Render(es: seq<Entry>): string {
    if |es| == 0 then "" else Render(es[..|es| - 1]) + RenderOne(es[|es| - 1])
  }

  function RenderOne(e: Entry): string {
    [e.tag] + e.line + "\n"
  }

  // ---- the code ------------------------------------------------------------------------------

  method IndexOfFrom(lines: seq<string>, target: string, start: nat) returns (k: int)
    ensures k == IndexFrom(lines, target, start)
    ensures k == -1 ==> forall m :: start <= m < |lines| ==> lines[m] != target
    ensures k != -1 ==> start <= k < |lines| && lines[k] == target
                        && forall m :: start <= m < k ==> lines[m] != target
  {
    var n: nat := start;
    while n < |lines|
      invariant start <= n
      invariant IndexFrom(lines, target, start) == IndexFrom(lines, target, n)
      invariant forall m :: start <= m < n && m < |lines| ==> lines[m] != target
    {
      if lines[n] == target {
        return n;
      }
      n := n + 1;
    }
    k := -1;
  }

  /** Writing e, with rest still to come. */
  lemma Emit(es: seq<Entry>, e: Entry, rest: seq<Entry>)
    ensures es + ([e] + rest) == (es + [e]) + rest
    ensures Render(es + [e]) == Render(es) + RenderOne(e)
  {
    assert (es + [e])[..|es|] == es;
  }

  /** Written so far, and what is left is the rest of the same diff. */
  ghost predicate Progress(la: seq<string>, lb: seq<string>, i: nat, j: nat, es: seq<Entry>, text: string) {
    i <= |la| && j <= |lb| && es + DiffFrom(la, lb, i, j) == DiffFrom(la, lb, 0, 0) && text == Render(es)
  }

  lemma ProgressStep(la: seq<string>, lb: seq<string>, i: nat, j: nat, es: seq<Entry>, text: string,
                     e: Entry, i': nat, j': nat)
    requires Progress(la, lb, i, j, es, text) && i' <= |la| && j' <= |lb|
    requires DiffFrom(la, lb, i, j) == [e] + DiffFrom(la, lb, i', j')
    ensures Progress(la, lb, i', j', es + [e], text + RenderOne(e))
  {
    Emit(es, e, DiffFrom(la, lb, i', j'));
  }

  lemma WriteBoth(la: seq<string>, lb: seq<string>, i: nat, j: nat, es: seq<Entry>, text: string)
    requires Progress(la, lb, i, j, es, text) && i < |la| && j < |lb| && la[i] == lb[j]
    ensures Progress(la, lb, i + 1, j + 1, es + [Entry(BOTH, la[i])], text + (" " + la[i] + "\n"))
  {
    ProgressStep(la, lb, i, j, es, text, Entry(BOTH, la[i]), i + 1, j + 1);
  }

  lemma WriteA(la: seq<string>, lb: seq<string>, i: nat, j: nat, es: seq<Entry>, text: string)
    requires Progress(la, lb, i, j, es, text) && i < |la| && IndexFrom(lb, la[i], j) < 0
    ensures Progress(la, lb, i + 1, j, es + [Entry(ONLY_A, la[i])], text + ("-" + la[i] + "\n"))
  {
    ProgressStep(la, lb, i, j, es, text, Entry(ONLY_A, la[i]), i + 1, j);
  }

  lemma WriteB(la: seq<string>, lb: seq<string>, i: nat, j: nat, es: seq<Entry>, text: string)
    requires Progress(la, lb, i, j, es, text) && j < |lb|
    requires i < |la| ==> j < IndexFrom(lb, la[i], j)
    ensures Progress(la, lb, i, j + 1, es + [Entry(ONLY_B, lb[j])], text + ("+" + lb[j] + "\n"))
  {
    ProgressStep(la, lb, i, j, es, text, Entry(ONLY_B, lb[j]), i, j + 1);
  }

  lemma ProgressStart(la: seq<string>, lb: seq<string>)
    ensures Progress(la, lb, 0, 0, [], "")
  {
  }

  lemma ProgressEnd(la: seq<string>, lb: seq<string>, es: seq<Entry>, text: string)
    requires Progress(la, lb, |la|, |lb|, es, text)
    ensures text == Render(DiffFrom(la, lb, 0, 0))
  {
    assert es + DiffFrom(la, lb, |la|, |lb|) == es;
  }

  method UnifiedDiff(a: string, b: string) returns (text: string)
    ensures text == Render(DiffFrom(Split(a), Split(b), 0, 0))
  {
    var la, lb := Split(a), Split(b);
    text := "";
    var i, j: nat := 0, 0;
    ghost var es: seq<Entry> := [];
    ProgressStart(la, lb);
    while i < |la| && j < |lb|
      invariant i <= |la| && j <= |lb| && Progress(la, lb, i, j, es, text)
      decreases |la| - i, |lb| - j
    {
      if la[i] == lb[j] {
        WriteBoth(la, lb, i, j, es, text);
        es := es + [Entry(BOTH, la[i])];
        text := text + (" " + la[i] + "\n");
        i, j := i + 1, j + 1;
        continue;
      }
      var idx := IndexOfFrom(lb, la[i], j + 1);
      if idx >= 0 {
        while j < idx
          invariant j <= idx < |lb| && IndexFrom(lb, la[i], j) == idx
          invariant Progress(la, lb, i, j, es, text)
        {
          WriteB(la, lb, i, j, es, text);
          es := es + [Entry(ONLY_B, lb[j])];
          text := text + ("+" + lb[j] + "\n");
          j := j + 1;
        }
        continue;
      }
      WriteA(la, lb, i, j, es, text);
      es := es + [Entry(ONLY_A, la[i])];
      text := text + ("-" + la[i] + "\n");
      i := i + 1;
    }
    while i < |la|
      invariant i <= |la| && j <= |lb| && (i == |la| || j == |lb|) && Progress(la, lb, i, j, es, text)
    {
      WriteA(la, lb, i, j, es, text);
      es := es + [Entry(ONLY_A, la[i])];
      text := text + ("-" + la[i] + "\n");
      i := i + 1;
    }
    while j < |lb|
      invariant i == |la| && j <= |lb| && Progress(la, lb, i, j, es, text)
    {
      WriteB(la, lb, i, j, es, text);
      es := es + [Entry(ONLY_B, lb[j])];
      text := text + ("+" + lb[j] + "\n");
      j := j + 1;
    }
    ProgressEnd(la, lb, es, text);
  }

  // ---- reading a diff back --------------------------------------------------------------------

  /** The entries of a diff text: its lines, each split after the tag. */
  function Parse(text: string): seq<Entry> {
    var lines := Split(text);
    seq(|lines| - 1, i requires 0 <= i < |lines| - 1 =>
      if |lines[i]| == 0 then Entry(' ', "") else Entry(lines[i][0], lines[i][1..]))
  }

  /** The lines tagged ' ' or the given tag. */
  function Kept(es: seq<Entry>, tag: char): seq<string> {
    if |es| == 0 then []
    else
      var e := es[|es| - 1];
      Kept(es[..|es| - 1], tag) + if e.tag == BOTH || e.tag == tag then [e.line] else []
  }

  function Restore(text: string, tag: char): string {
    var lines := Kept(Parse(text), tag);
    if |lines| == 0 then "" else Join(lines)
  }

  ghost predicate Printable(es: seq<Entry>) {
    forall i :: 0 <= i < |es| ==> OneLine(es[i].line) && es[i].tag != '\n'
  }

  lemma {:induction false} SplitAppendLine(s: string, l: string)
    requires OneLine(l) && Split(s)[|Split(s)| - 1] == ""
    ensures Split(s + l + "\n") == Split(s)[..|Split(s)| - 1] + [l, ""]
  {
    if |s| == 0 {
      assert s + l + "\n" == l + "\n" + "";
      SplitCons(l, "");
    } else {
      var t := s + l + "\n";
      assert t[0] == s[0] && t[1..] == s[1..] + l + "\n";
      var rest := Split(s[1..]);
      if s[0] == '\n' {
        assert Split(s)[|Split(s)| - 1] == rest[|rest| - 1];
        SplitAppendLine(s[1..], l);
      } else {
        assert |rest| > 1;
        SplitAppendLine(s[1..], l);
        assert Split(t)[1..] == Split(s[1..] + l + "\n")[1..];
      }
    }
  }

  lemma {:induction false} ParseRender(es: seq<Entry>)
    requires Printable(es)
    ensures Parse(Render(es)) == es
    ensures Split(Render(es))[|es|..] == [""]
  {
    if |es| > 0 {
      var n := |es| - 1;
      ParseRender(es[..n]);
      var s, l := Render(es[..n]), [es[n].tag] + es[n].line;
      assert |Split(s)| == n + 1 && Split(s)[n] == Split(s)[n..][0];
      SplitAppendLine(s, l);
      assert s + l + "\n" == Render(es);
      assert Split(Render(es)) == Split(s)[..n] + [l, ""];
      assert forall i :: 0 <= i < n ==> Parse(Render(es))[i] == Parse(s)[i];
    }
  }

  lemma {:induction false} KeptAppend(xs: seq<Entry>, ys: seq<Entry>, tag: char)
    ensures Kept(xs + ys, tag) == Kept(xs, tag) + Kept(ys, tag)
    decreases |ys|
  {
    var n := |ys| - 1;
    if |ys| == 0 {
      assert xs + ys == xs;
    } else {
      KeptAppend(xs, ys[..n], tag);
      assert (xs + ys)[..|xs + ys| - 1] == xs + ys[..n];
    }
  }

  lemma KeptOne(e: Entry, keep: char)
    ensures Kept([e], keep) == if e.tag == BOTH || e.tag == keep then [e.line] else []
  {
    assert Kept([e][..0], keep) == [];
  }

  lemma KeptCons(e: Entry, rest: seq<Entry>, keep: char)
    ensures Kept([e] + rest, keep) == (if e.tag == BOTH || e.tag == keep then [e.line] else []) + Kept(rest, keep)
  {
    KeptOne(e, keep);
    KeptAppend([e], rest, keep);
  }

  lemma DropStep(lines: seq<string>, i: nat, i': nat, line: string)
    requires i <= i' <= i + 1 && i' <= |lines| && (i' > i ==> lines[i] == line)
    ensures (if i' > i then [line] else []) + lines[i'..] == lines[i..]
  {
  }

  /** Keeping one side of the entries gives back that side's lines. */
  lemma {:induction false} DiffKeepsSides(la: seq<string>, lb: seq<string>, i: nat, j: nat)
    requires i <= |la| && j <= |lb|
    ensures Kept(DiffFrom(la, lb, i, j), ONLY_A) == la[i..]
    ensures Kept(DiffFrom(la, lb, i, j), ONLY_B) == lb[j..]
    decreases |la| - i + |lb| - j
  {
    if i < |la| || j < |lb| {
      var e, i', j' := Next(la, lb, i, j);
      var rest := DiffFrom(la, lb, i', j');
      DiffKeepsSides(la, lb, i', j');
      KeptCons(e, rest, ONLY_A);
      KeptCons(e, rest, ONLY_B);
      DropStep(la, i, i', e.line);
      DropStep(lb, j, j', e.line);
    }
  }

  /** The next entry of a diff that is not over, and where it leaves the inputs. */
  lemma Next(la: seq<string>, lb: seq<string>, i: nat, j: nat) returns (e: Entry, i': nat, j': nat)
    requires i <= |la| && j <= |lb| && (i < |la| || j < |lb|)
    ensures i <= i' <= i + 1 && i' <= |la| && j <= j' <= j + 1 && j' <= |lb| && i' + j' > i + j
    ensures DiffFrom(la, lb, i, j) == [e] + DiffFrom(la, lb, i', j')
    ensures e.tag == BOTH || e.tag == ONLY_A || e.tag == ONLY_B
    ensures (e.tag == BOTH || e.tag == ONLY_A <==> i' == i + 1) && (e.tag == BOTH || e.tag == ONLY_B <==> j' == j + 1)
    ensures (i' > i ==> e.line == la[i]) && (j' > j ==> e.line == lb[j])
    ensures e.tag == ONLY_A ==> IndexFrom(lb, la[i], j) < 0
    ensures e.tag == ONLY_B && i < |la| ==> IndexFrom(lb, la[i], j) >= 0 && la[i] != lb[j]
  {
    if i < |la| && IndexFrom(lb, la[i], j) < 0 {
      e, i', j' := Entry(ONLY_A, la[i]), i + 1, j;
    } else if i < |la| && la[i] == lb[j] {
      e, i', j' := Entry(BOTH, la[i]), i + 1, j + 1;
    } else {
      e, i', j' := Entry(ONLY_B, lb[j]), i, j + 1;
    }
  }

  lemma PrintableAppend(xs: seq<Entry>, ys: seq<Entry>)
    requires Printable(xs) && Printable(ys)
    ensures Printable(xs + ys)
  {
  }

  lemma {:induction false} DiffIsPrintable(la: seq<string>, lb: seq<string>, i: nat, j: nat)
    requires i <= |la| && j <= |lb|
    requires (forall n :: 0 <= n < |la| ==> OneLine(la[n])) && (forall n :: 0 <= n < |lb| ==> OneLine(lb[n]))
    ensures Printable(DiffFrom(la, lb, i, j))
    decreases |la| - i + |lb| - j
  {
    if i < |la| || j < |lb| {
      var e, i', j' := Next(la, lb, i, j);
      DiffIsPrintable(la, lb, i', j');
      PrintableAppend([e], DiffFrom(la, lb, i', j'));
    }
  }

  ghost function DiffText(a: string, b: string): string {
    Render(DiffFrom(Split(a), Split(b), 0, 0))
  }

  /** Main result: the text alone gives back both inputs. */
  lemma DiffDeterminesInputs(a: string, b: string)
    ensures Restore(DiffText(a, b), ONLY_A) == a && Restore(DiffText(a, b), ONLY_B) == b
  {
    var la, lb := Split(a), Split(b);
    SplitIsOneLine(a);
    SplitIsOneLine(b);
    DiffIsPrintable(la, lb, 0, 0);
    ParseRender(DiffFrom(la, lb, 0, 0));
    DiffKeepsSides(la, lb, 0, 0);
    JoinSplit(a);
    JoinSplit(b);
  }

  // ---- the shared lines -------------------------------------------------------------------------

  /** xs can be got from ys by leaving lines out. */
  ghost predicate Subsequence(xs: seq<string>, ys: seq<string>) {
    if |xs| == 0 then true
    else if |ys| == 0 then false
    else Subsequence(xs, ys[1..]) || (xs[0] == ys[0] && Subsequence(xs[1..], ys[1..]))
  }

  lemma {:induction false} KeptIsSubsequence(es: seq<Entry>, keep: char)
    ensures Subsequence(Kept(es, BOTH), Kept(es, keep))
  {
    if |es| > 0 {
      var rest := es[1..];
      KeptIsSubsequence(rest, keep);
      assert es == [es[0]] + rest;
      KeptCons(es[0], rest, BOTH);
      KeptCons(es[0], rest, keep);
      AlsoPrepended(Kept(rest, BOTH), Kept(rest, keep), es[0].line);
    }
  }

  lemma AlsoPrepended(xs: seq<string>, ys: seq<string>, line: string)
    requires Subsequence(xs, ys)
    ensures Subsequence([line] + xs, [line] + ys) && Subsequence(xs, [line] + ys)
    ensures [] + xs == xs && [] + ys == ys
  {
    assert ([line] + ys)[1..] == ys && ([line] + xs)[1..] == xs;
  }

  /** Main result: the lines tagged ' ' are a common subsequence of the inputs. */
  lemma SharedLinesAreCommon(a: string, b: string)
    ensures var shared := Kept(DiffFrom(Split(a), Split(b), 0, 0), BOTH);
            Subsequence(shared, Split(a)) && Subsequence(shared, Split(b))
  {
    var es := DiffFrom(Split(a), Split(b), 0, 0);
    DiffKeepsSides(Split(a), Split(b), 0, 0);
    KeptIsSubsequence(es, ONLY_A);
    KeptIsSubsequence(es, ONLY_B);
  }

  ghost predicate AllShared(es: seq<Entry>) {
    forall i :: 0 <= i < |es| ==> es[i].tag == BOTH
  }

  lemma {:induction false} AllSharedKeptAlike(es: seq<Entry>)
    requires AllShared(es)
    ensures Kept(es, ONLY_A) == Kept(es, ONLY_B)
  {
    if |es| > 0 {
      AllSharedKeptAlike(es[..|es| - 1]);
    }
  }

  lemma {:induction false} SameLinesShared(la: seq<string>, i: nat)
    requires i <= |la|
    ensures AllShared(DiffFrom(la, la, i, i))
    decreases |la| - i
  {
    if i < |la| {
      SameLinesShared(la, i + 1);
    }
  }

  /** Main result: a diff without '-' and '+' lines means equal inputs, and only that. */
  lemma CleanDiffIff(a: string, b: string)
    ensures AllShared(DiffFrom(Split(a), Split(b), 0, 0)) <==> a == b
  {
    var es := DiffFrom(Split(a), Split(b), 0, 0);
    if AllShared(es) {
      AllSharedKeptAlike(es);
      DiffKeepsSides(Split(a), Split(b), 0, 0);
      JoinSplit(a);
      JoinSplit(b);
    }
    if a == b {
      SameLinesShared(Split(a), 0);
    }
  }

  // ---- when '-' means what it is documented to mean ----------------------------------------

  lemma {:induction false} DropHeadOf(xs: seq<string>, ys: seq<string>)
    requires |xs| > 0 && Subsequence(xs, ys)
    ensures Subsequence(xs[1..], ys)
    decreases |ys|
  {
    if Subsequence(xs, ys[1..]) {
      DropHeadOf(xs, ys[1..]);
    }
  }

  /** Equal heads may always be matched with each other. */
  lemma MatchHeads(xs: seq<string>, ys: seq<string>)
    requires |xs| > 0 && |ys| > 0 && xs[0] == ys[0]
    ensures Subsequence(xs, ys) <==> Subsequence(xs[1..], ys[1..])
  {
    if Subsequence(xs, ys[1..]) {
      DropHeadOf(xs, ys[1..]);
    }
  }

  lemma {:induction false} MemberOfBoth(xs: seq<string>, ys: seq<string>, line: string)
    requires Subsequence(xs, ys) && line in xs
    ensures line in ys
    decreases |ys|
  {
    if Subsequence(xs, ys[1..]) {
      MemberOfBoth(xs, ys[1..], line);
    } else if line != xs[0] {
      MemberOfBoth(xs[1..], ys[1..], line);
    }
  }

  /** The lines that occur in the other input, in order. */
  ghost function OccurringIn(la: seq<string>, lb: seq<string>): seq<string> {
    if |la| == 0 then []
    else (if la[0] in lb then [la[0]] else []) + OccurringIn(la[1..], lb)
  }

  /** No line of this tag occurs among the other input's. */
  ghost predicate Absent(es: seq<Entry>, tag: char, other: seq<string>) {
    forall i :: 0 <= i < |es| && es[i].tag == tag ==> es[i].line !in other
  }

  lemma AbsentCons(e: Entry, rest: seq<Entry>, tag: char, other: seq<string>)
    ensures Absent([e] + rest, tag, other) <==> (e.tag == tag ==> e.line !in other) && Absent(rest, tag, other)
  {
    var es := [e] + rest;
    assert es[0] == e && forall i :: 0 <= i < |rest| ==> es[i + 1] == rest[i];
    if Absent(rest, tag, other) && (e.tag == tag ==> e.line !in other) {
      forall i | 0 <= i < |es| && es[i].tag == tag ensures es[i].line !in other {
        assert i > 0 ==> es[i] == rest[i - 1];
      }
    }
  }

  lemma {:induction false} IndexFromMeans(lines: seq<string>, target: string, start: nat)
    requires start <= |lines|
    ensures IndexFrom(lines, target, start) < 0 <==> target !in lines[start..]
    decreases |lines| - start
  {
    if start < |lines| {
      assert lines[start..] == [lines[start]] + lines[start + 1..];
      if lines[start] != target {
        IndexFromMeans(lines, target, start + 1);
      }
    }
  }

  /** What is deleted from line i on is absent from b exactly when the lines
      still to come that occur in b can be found in the rest of b in order; all
      of them are then shared. */
  lemma {:induction false} DeletedFrom(la: seq<string>, lb: seq<string>, i: nat, j: nat)
    requires i <= |la| && j <= |lb|
    ensures Absent(DiffFrom(la, lb, i, j), ONLY_A, lb)
       <==> Subsequence(OccurringIn(la[i..], lb), lb[j..])
    ensures Absent(DiffFrom(la, lb, i, j), ONLY_A, lb)
        ==> Kept(DiffFrom(la, lb, i, j), BOTH) == OccurringIn(la[i..], lb)
    decreases |la| - i + |lb| - j
  {
    hide OccurringIn, Subsequence, Absent, IndexFrom, DiffFrom, Kept;
    NothingLeft(la, lb);
    if i < |la| || j < |lb| {
      var e, i', j' := Next(la, lb, i, j);
      var rest := DiffFrom(la, lb, i', j');
      DeletedFrom(la, lb, i', j');
      AbsentCons(e, rest, ONLY_A, lb);
      KeptCons(e, rest, BOTH);
      if i == |la| {
        assert la[i..] == [] && e.tag == ONLY_B;
      } else if e.tag == ONLY_A {
        DeletedLine(la, lb, i, j);
      } else if e.tag == BOTH {
        SharedLine(la, lb, i, j);
      } else {
        InsertedLine(la, lb, i, j);
      }
    } else {
      assert la[i..] == [] && lb[j..] == [];
      assert DiffFrom(la, lb, i, j) == [];
    }
  }

  lemma NothingLeft(la: seq<string>, lb: seq<string>)
    ensures OccurringIn([], lb) == [] && forall ys :: Subsequence([], ys)
    ensures DiffFrom(la, lb, |la|, |lb|) == [] && Absent([], ONLY_A, lb) && Kept([], BOTH) == []
  {
  }

  lemma DeletedLine(la: seq<string>, lb: seq<string>, i: nat, j: nat)
    requires i < |la| && j <= |lb| && IndexFrom(lb, la[i], j) < 0
    ensures la[i] in lb ==> !Subsequence(OccurringIn(la[i..], lb), lb[j..])
    ensures la[i] !in lb ==> OccurringIn(la[i..], lb) == OccurringIn(la[i + 1..], lb)
  {
    IndexFromMeans(lb, la[i], j);
    assert la[i..][1..] == la[i + 1..];
    var occurring := OccurringIn(la[i..], lb);
    if la[i] in lb && Subsequence(occurring, lb[j..]) {
      MemberOfBoth(occurring, lb[j..], la[i]);
    }
  }

  lemma SharedLine(la: seq<string>, lb: seq<string>, i: nat, j: nat)
    requires i < |la| && j < |lb| && la[i] == lb[j]
    ensures OccurringIn(la[i..], lb) == [la[i]] + OccurringIn(la[i + 1..], lb)
    ensures Subsequence(OccurringIn(la[i..], lb), lb[j..])
       <==> Subsequence(OccurringIn(la[i + 1..], lb), lb[j + 1..])
  {
    assert la[i..][1..] == la[i + 1..] && lb[j..][1..] == lb[j + 1..];
    var occurring := OccurringIn(la[i..], lb);
    MatchHeads(occurring, lb[j..]);
    assert occurring[1..] == OccurringIn(la[i + 1..], lb);
  }

  lemma InsertedLine(la: seq<string>, lb: seq<string>, i: nat, j: nat)
    requires i < |la| && j < |lb| && la[i] != lb[j] && IndexFrom(lb, la[i], j) >= 0
    ensures Subsequence(OccurringIn(la[i..], lb), lb[j..])
       <==> Subsequence(OccurringIn(la[i..], lb), lb[j + 1..])
  {
    IndexFromMeans(lb, la[i], j);
    assert lb[j..][1..] == lb[j + 1..];
    assert OccurringIn(la[i..], lb)[0] == la[i];
  }

  /** Main result: the '-' lines are unique to a, as documented, exactly when the
      lines of a that occur in b occur there in the same order. */
  lemma DeletedAreUniqueIff(a: string, b: string)
    ensures Absent(DiffFrom(Split(a), Split(b), 0, 0), ONLY_A, Split(b))
       <==> Subsequence(OccurringIn(Split(a), Split(b)), Split(b))
  {
    var la, lb := Split(a), Split(b);
    DeletedFrom(la, lb, 0, 0);
    assert la[0..] == la && lb[0..] == lb;
  }

  lemma {:induction false} CommonIsOccurring(cs: seq<string>, la: seq<string>, lb: seq<string>)
    requires Subsequence(cs, la) && forall i :: 0 <= i < |cs| ==> cs[i] in lb
    ensures |cs| <= |OccurringIn(la, lb)|
    decreases |la|
  {
    if |cs| > 0 {
      if Subsequence(cs, la[1..]) {
        CommonIsOccurring(cs, la[1..], lb);
      } else {
        CommonIsOccurring(cs[1..], la[1..], lb);
      }
    }
  }

  /** Main result: in that case no common subsequence is longer than the shared
      lines. */
  lemma SharedLinesAreLongest(a: string, b: string, cs: seq<string>)
    requires Subsequence(OccurringIn(Split(a), Split(b)), Split(b))
    requires Subsequence(cs, Split(a)) && Subsequence(cs, Split(b))
    ensures |cs| <= |Kept(DiffFrom(Split(a), Split(b), 0, 0), BOTH)|
  {
    var la, lb := Split(a), Split(b);
    DeletedFrom(la, lb, 0, 0);
    assert la[0..] == la && lb[0..] == lb;
    forall i | 0 <= i < |cs| ensures cs[i] in lb {
      MemberOfBoth(cs, lb, cs[i]);
    }
    CommonIsOccurring(cs, la, lb);
  }

  // ---- when '+' does too ------------------------------------------------------------------------

  ghost predicate SharedIn(es: seq<Entry>, la: seq<string>) {
    forall i :: 0 <= i < |es| && es[i].tag == BOTH ==> es[i].line in la
  }

  lemma {:induction false} SharedAreOfA(la: seq<string>, lb: seq<string>, i: nat, j: nat)
    requires i <= |la| && j <= |lb|
    ensures SharedIn(DiffFrom(la, lb, i, j), la)
    decreases |la| - i + |lb| - j
  {
    if i < |la| || j < |lb| {
      var e, i', j' := Next(la, lb, i, j);
      SharedAreOfA(la, lb, i', j');
    }
  }

  lemma OccurringCons(line: string, rest: seq<string>, other: seq<string>)
    ensures OccurringIn([line] + rest, other) == (if line in other then [line] else []) + OccurringIn(rest, other)
    ensures [] + rest == rest
  {
    assert ([line] + rest)[1..] == rest;
  }

  /** Of b's lines, those that occur in a are the shared ones and the '+' lines
      that should not be there. */
  lemma {:induction false} OccurringOfB(es: seq<Entry>, la: seq<string>)
    requires SharedIn(es, la)
    ensures var occurring := OccurringIn(Kept(es, ONLY_B), la);
            |occurring| >= |Kept(es, BOTH)|
            && (Absent(es, ONLY_B, la) ==> occurring == Kept(es, BOTH))
            && (|occurring| == |Kept(es, BOTH)| ==> Absent(es, ONLY_B, la))
  {
    hide OccurringIn, Absent, Kept;
    if |es| == 0 {
      NothingOccurs(la);
      assert es == [];
    } else {
      var e, rest := es[0], es[1..];
      assert es == [e] + rest;
      OccurringOfB(rest, la);
      KeptCons(e, rest, BOTH);
      KeptCons(e, rest, ONLY_B);
      AbsentCons(e, rest, ONLY_B, la);
      OccurringCons(e.line, Kept(rest, ONLY_B), la);
      assert [] + Kept(rest, BOTH) == Kept(rest, BOTH);
    }
  }

  lemma NothingOccurs(la: seq<string>)
    ensures OccurringIn(Kept([], ONLY_B), la) == [] && Kept([], BOTH) == [] && Absent([], ONLY_B, la)
  {
  }

  lemma {:induction false} OccurringIsSubsequence(lines: seq<string>, other: seq<string>)
    ensures Subsequence(OccurringIn(lines, other), lines)
  {
    if |lines| > 0 {
      OccurringIsSubsequence(lines[1..], other);
      assert lines == [lines[0]] + lines[1..];
      AlsoPrepended(OccurringIn(lines[1..], other), lines[1..], lines[0]);
    }
  }

  /** Main result: both documented tags are right, '-' lines unique to a and '+'
      lines unique to b, exactly when the lines the inputs have in common are the
      same sequence in both. */
  lemma TagsAreRightIff(a: string, b: string)
    ensures var es := DiffFrom(Split(a), Split(b), 0, 0);
            Absent(es, ONLY_A, Split(b)) && Absent(es, ONLY_B, Split(a))
            <==> OccurringIn(Split(a), Split(b)) == OccurringIn(Split(b), Split(a))
  {
    hide OccurringIn, Subsequence, Absent, DiffFrom, Kept, Split, SharedIn;
    var la, lb := Split(a), Split(b);
    var es := DiffFrom(la, lb, 0, 0);
    assert la[0..] == la && lb[0..] == lb;
    DeletedFrom(la, lb, 0, 0);
    DiffKeepsSides(la, lb, 0, 0);
    SharedAreOfA(la, lb, 0, 0);
    OccurringOfB(es, la);
    OccurringIsSubsequence(lb, la);
  }

  /** A line of a repeated in b: its second copy is tagged '+', though a has it. */
  lemma InsertedCanBeShared(x: string)
    requires OneLine(x)
    ensures var es := DiffFrom(Split(x), Split(x + "\n" + x), 0, 0);
            es == [Entry(BOTH, x), Entry(ONLY_B, x)] && !Absent(es, ONLY_B, Split(x))
  {
    hide Split;
    SplitJoin([x]);
    SplitJoin([x, x]);
    var la, lb := [x], [x, x];
    assert Join(la) == x && Join(lb) == x + "\n" + x;
    assert DiffFrom(la, lb, 1, 2) == [];
    assert DiffFrom(la, lb, 1, 1) == [Entry(ONLY_B, x)];
    var es := DiffFrom(la, lb, 0, 0);
    assert es == [Entry(BOTH, x)] + [Entry(ONLY_B, x)];
    assert es[1].tag == ONLY_B && es[1].line in la;
  }

  /** The diff is greedy, not shortest: three distinct lines whose first moved
      to the end share two lines in order, of which it keeps none. */
  lemma GreedyIsNotLongest(x: string, y: string, z: string)
    requires x != y && y != z && x != z
    ensures var la, lb := [x, y, z], [y, z, x];
            Kept(DiffFrom(la, lb, 0, 0), BOTH) == [x]
            && Subsequence([y, z], la) && Subsequence([y, z], lb)
  {
    var la, lb := [x, y, z], [y, z, x];
    assert la == [x] + [y, z] + [] && lb == [] + [y, z] + [x];
    assert IndexFrom(lb, x, 2) == 2 && IndexFrom(lb, x, 1) == 2 && IndexFrom(lb, x, 0) == 2;
    assert DiffFrom(la, lb, 2, 3) == [Entry(ONLY_A, z)];
    assert DiffFrom(la, lb, 1, 3) == [Entry(ONLY_A, y), Entry(ONLY_A, z)];
    assert DiffFrom(la, lb, 0, 2) == [Entry(BOTH, x), Entry(ONLY_A, y), Entry(ONLY_A, z)];
    assert DiffFrom(la, lb, 0, 1) == [Entry(ONLY_B, z)] + DiffFrom(la, lb, 0, 2);
    KeptCons(Entry(ONLY_A, z), [], BOTH);
    KeptCons(Entry(ONLY_A, y), [Entry(ONLY_A, z)], BOTH);
    KeptCons(Entry(BOTH, x), [Entry(ONLY_A, y), Entry(ONLY_A, z)], BOTH);
    KeptCons(Entry(ONLY_B, z), DiffFrom(la, lb, 0, 2), BOTH);
    KeptCons(Entry(ONLY_B, y), DiffFrom(la, lb, 0, 1), BOTH);
    assert [Entry(ONLY_A, z)] == [Entry(ONLY_A, z)] + [];
    PairIsSubsequence([x], [], y, z);
    PairIsSubsequence([], [x], y, z);
  }

  lemma {:induction false} PairIsSubsequence(before: seq<string>, behind: seq<string>, y: string, z: string)
    ensures Subsequence([y, z], before + [y, z] + behind)
    decreases |before|
  {
    var ys := before + [y, z] + behind;
    if |before| == 0 {
      assert ys[1..] == [z] + behind && [y, z][1..] == [z] && [z][1..] == [];
      assert Subsequence([z], [z] + behind);
    } else {
      assert ys[1..] == before[1..] + [y, z] + behind;
      PairIsSubsequence(before[1..], behind, y, z);
    }
  }

  /** Two one-line texts, as text: the same line, or one gone and one new. */
  lemma OneLineDiff(x: string, y: string)
    requires OneLine(x) && OneLine(y)
    ensures DiffText(x, y) == if x == y then " " + x + "\n" else "-" + x + "\n" + "+" + y + "\n"
  {
    hide Split;
    SplitOneLine(x);
    SplitOneLine(y);
    var la, lb := [x], [y];
    assert IndexFrom(lb, x, 0) == if x == y then 0 else -1;
    assert DiffFrom(la, lb, 1, 1) == [];
    if x == y {
      var es := [Entry(BOTH, x)];
      assert DiffFrom(la, lb, 0, 0) == es && es[..0] == [];
      assert Render(es) == "" + RenderOne(es[0]);
    } else {
      var es := [Entry(ONLY_A, x), Entry(ONLY_B, y)];
      assert DiffFrom(la, lb, 1, 0) == [Entry(ONLY_B, y)];
      assert DiffFrom(la, lb, 0, 0) == es && es[..1] == [es[0]] && [es[0]][..0] == [];
      assert Render([es[0]]) == "" + RenderOne(es[0]);
      assert Render(es) == Render(es[..1]) + RenderOne(es[1]);
    }
  }
}
