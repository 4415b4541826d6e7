/** extractViaScrape in internal/router/table_extractor.go: table names found
    behind keywords in SQL text. Upper-casing keeps lengths, as it does for
    ASCII. */
module TableScrape {
  import opened TableWalk
  import SliceDedupe
  import TextLines

  const KEYWORDS := [" FROM ", " JOIN ", " INTO ", " UPDATE ", " TABLE "]
  const MAX_SCRAPE_ITERATIONS := 4096

  function UpperChar(c: char): char {
    if 'a' <= c <= 'z' then c - ' ' else c
  }

  function ToUpper(s: string): (r: string)
    ensures |r| == |s|
  {
    seq(|s|, i requires 0 <= i < |s| => UpperChar(s[i]))
  }

  predicate OccursAt(s: string, word: string, p: nat) {
    p + |word| <= |s| && s[p..p + |word|] == word
  }

  /** The first occurrence at or after a position. */
  function IndexFrom(s: string, word: string, start: nat): (p: int)
    requires start <= |s|
    ensures p == -1 || start <= p
    ensures p >= 0 ==> OccursAt(s, word, p) && forall q :: start <= q < p ==> !OccursAt(s, word, q)
    ensures p == -1 ==> forall q :: start <= q <= |s| ==> !OccursAt(s, word, q)
    decreases |s| - start
  {
    if OccursAt(s, word, start) then start
    else if start == |s| then -1
    else IndexFrom(s, word, start + 1)
  }

  predicate IsOpening(c: char) {
    c == ' ' || c == '\t' || c == '\n' || c == '\r' || c == '('
  }

  function TrimOpening(s: string): (r: string)
    ensures |r| <= |s|
  {
    if |s| > 0 && IsOpening(s[0]) then TrimOpening(s[1..]) else s
  }

  predicate IsDelim(c: char) {
    c == ' ' || c == '\t' || c == '\n' || c == '\r' || c == ',' || c == ')' || c == ';' || c == '('
  }

  predicate IsQuoteMark(c: char) {
    c == '"' || c == '`' || c == '\''
  }

  function TrimQuotes(s: string): (r: string)
    ensures |r| <= |s|
    decreases |s|
  {
    if |s| > 0 && IsQuoteMark(s[0]) then TrimQuotes(s[1..])
    else if |s| > 0 && IsQuoteMark(s[|s| - 1]) then TrimQuotes(s[..|s| - 1])
    else s
  }

  function UntilDelim(s: string): (r: string)
    ensures |r| <= |s|
  {
    if |s| == 0 || IsDelim(s[0]) then "" else [s[0]] + UntilDelim(s[1..])
  }

  /** The identifier that stands behind a keyword ending at pos. */
  function IdentAt(sql: string, pos: nat): (ident: string)
    requires pos <= |sql|
    ensures pos + |ident| <= |sql|
  {
    TrimQuotes(UntilDelim(TrimOpening(sql[pos..])))
  }

  /** Two dotted parts are schema and table, three lose the project, any other
      number is left whole. */
  function RefOf(ident: string): TableRef {
    var parts := TextLines.Split(ident, '.');
    if |parts| == 2 then TableRef(parts[0], parts[1])
    else if |parts| == 3 then TableRef(parts[1], parts[2])
    else TableRef("", ident)
  }

  // ---- what the loop visits -------------------------------------------------------------

  /** The positions of a keyword the loop stops at, in order, at most `budget`. */
  ghost function Visits(sql: string, upper: string, kw: string, idx: nat, budget: nat): seq<nat>
    requires |upper| == |sql|
    requires idx <= |sql| && |kw| > 0
    decreases |sql| - idx
  {
    if budget == 0 then []
    else
      var p := IndexFrom(upper, kw, idx);
      if p < 0 then [] else [p] + Visits(sql, upper, kw, Resume(sql, kw, p), budget - 1)
  }

  /** Where the search goes on after a match. */
  function Resume(sql: string, kw: string, p: nat): (idx: nat)
    requires p + |kw| <= |sql| && |kw| > 0
    ensures p < idx <= |sql|
  {
    p + |kw| + |IdentAt(sql, p + |kw|)|
  }

  /** The ref of the identifier behind a keyword, if there is one. */
  function RefsBehind(sql: string, pos: nat): seq<TableRef>
    requires pos <= |sql|
  {
    var ident := IdentAt(sql, pos);
    if ident == "" then [] else [RefOf(ident)]
  }

  ghost function RefsAt(sql: string, kw: string, visits: seq<nat>): seq<TableRef>
    requires forall i :: 0 <= i < |visits| ==> visits[i] + |kw| <= |sql|
  {
    if |visits| == 0 then [] else RefsBehind(sql, visits[0] + |kw|) + RefsAt(sql, kw, visits[1..])
  }

  lemma {:induction false} VisitsFit(sql: string, upper: string, kw: string, idx: nat, budget: nat)
    requires |upper| == |sql|
    requires idx <= |sql| && |kw| > 0
    ensures var vs := Visits(sql, upper, kw, idx, budget);
            |vs| <= budget
            && forall i :: 0 <= i < |vs| ==> idx <= vs[i] && OccursAt(upper, kw, vs[i]) && vs[i] + |kw| <= |sql|
    decreases |sql| - idx
  {
    if budget > 0 {
      var p := IndexFrom(upper, kw, idx);
      if p >= 0 {
        VisitsFit(sql, upper, kw, Resume(sql, kw, p), budget - 1);
      }
    }
  }

  /** Main result: with budget to spare, every occurrence of a keyword is
      visited or starts inside the text the match before it took. */
  lemma {:induction false} NoOccurrenceMissed(sql: string, upper: string, kw: string, idx: nat, budget: nat,
                                              p: nat) returns (i: nat)
    requires |upper| == |sql|
    requires idx <= |sql| && |kw| > 0 && idx <= p && OccursAt(upper, kw, p)
    requires |Visits(sql, upper, kw, idx, budget)| < budget
    ensures var vs := Visits(sql, upper, kw, idx, budget);
            i < |vs| && vs[i] + |kw| <= |sql| && vs[i] <= p < Resume(sql, kw, vs[i])
    decreases |sql| - idx
  {
    var q := IndexFrom(upper, kw, idx);
    var next := Resume(sql, kw, q);
    if p < next {
      i := 0;
    } else {
      i := NoOccurrenceMissed(sql, upper, kw, next, budget - 1, p);
      i := i + 1;
    }
  }

  /** Iterations one keyword costs from idx on: one per visit and one to see the end. */
  ghost function Cost(sql: string, upper: string, kw: string, idx: nat, budget: nat): nat
    requires |upper| == |sql|
    requires idx <= |sql| && |kw| > 0
    ensures Cost(sql, upper, kw, idx, budget) <= budget
  {
    VisitsFit(sql, upper, kw, idx, budget);
    var n := |Visits(sql, upper, kw, idx, budget)|;
    if n < budget then n + 1 else n
  }

  ghost function RefsOfKeyword(sql: string, upper: string, kw: string, idx: nat, budget: nat): seq<TableRef>
    requires |upper| == |sql|
    requires idx <= |sql| && |kw| > 0
  {
    VisitsFit(sql, upper, kw, idx, budget);
    RefsAt(sql, kw, Visits(sql, upper, kw, idx, budget))
  }

  ghost predicate Words(kws: seq<string>) {
    forall i :: 0 <= i < |kws| ==> |kws[i]| > 0
  }

  /** All refs found, before deduping, keyword by keyword. */
  ghost function Found(sql: string, upper: string, kws: seq<string>, budget: nat): seq<TableRef>
    requires |upper| == |sql|
    requires Words(kws)
  {
    if |kws| == 0 then []
    else
      RefsOfKeyword(sql, upper, kws[0], 0, budget)
      + Found(sql, upper, kws[1..], budget - Cost(sql, upper, kws[0], 0, budget))
  }

  lemma {:induction false} RefsAtBound(sql: string, kw: string, visits: seq<nat>)
    requires forall i :: 0 <= i < |visits| ==> visits[i] + |kw| <= |sql|
    ensures |RefsAt(sql, kw, visits)| <= |visits|
  {
    if |visits| > 0 {
      RefsAtBound(sql, kw, visits[1..]);
    }
  }

  /** Main result: never more refs than iterations. */
  lemma {:induction false} FoundBound(sql: string, upper: string, kws: seq<string>, budget: nat)
    requires |upper| == |sql|
    requires Words(kws)
    ensures |Found(sql, upper, kws, budget)| <= budget
  {
    if |kws| > 0 {
      VisitsFit(sql, upper, kws[0], 0, budget);
      RefsAtBound(sql, kws[0], Visits(sql, upper, kws[0], 0, budget));
      FoundBound(sql, upper, kws[1..], budget - Cost(sql, upper, kws[0], 0, budget));
    }
  }

  /** A keyword stands at p and the ref is the identifier behind it. */
  ghost predicate Behind(sql: string, upper: string, kw: string, p: nat, t: TableRef)
    requires |upper| == |sql|
  {
    OccursAt(upper, kw, p) && p + |kw| <= |sql| && RefsBehind(sql, p + |kw|) == [t]
  }

  lemma {:induction false} RefsAtAreBehind(sql: string, upper: string, kw: string, visits: seq<nat>,
                                           t: TableRef) returns (p: nat)
    requires |upper| == |sql|
    requires forall i :: 0 <= i < |visits| ==> visits[i] + |kw| <= |sql| && OccursAt(upper, kw, visits[i])
    requires t in RefsAt(sql, kw, visits)
    ensures Behind(sql, upper, kw, p, t)
  {
    if t in RefsBehind(sql, visits[0] + |kw|) {
      p := visits[0];
    } else {
      p := RefsAtAreBehind(sql, upper, kw, visits[1..], t);
    }
  }

  /** Main result: every ref is the identifier behind some keyword of the text. */
  lemma {:induction false} FoundIsBehindKeyword(sql: string, upper: string, kws: seq<string>, budget: nat,
                                                t: TableRef) returns (k: nat, p: nat)
    requires |upper| == |sql|
    requires Words(kws) && t in Found(sql, upper, kws, budget)
    ensures k < |kws| && Behind(sql, upper, kws[k], p, t)
    decreases |kws|
  {
    hide RefsOfKeyword, Cost, Behind;
    if t in RefsOfKeyword(sql, upper, kws[0], 0, budget) {
      k := 0;
      p := KeywordIsBehind(sql, upper, kws[0], budget, t);
    } else {
      k, p := FoundIsBehindKeyword(sql, upper, kws[1..], budget - Cost(sql, upper, kws[0], 0, budget), t);
      k := k + 1;
    }
  }

  lemma KeywordIsBehind(sql: string, upper: string, kw: string, budget: nat, t: TableRef) returns (p: nat)
    requires |upper| == |sql| && |kw| > 0 && t in RefsOfKeyword(sql, upper, kw, 0, budget)
    ensures Behind(sql, upper, kw, p, t)
  {
    VisitsFit(sql, upper, kw, 0, budget);
    p := RefsAtAreBehind(sql, upper, kw, Visits(sql, upper, kw, 0, budget), t);
  }

  /** Iterations all keywords take together. */
  ghost function Spent(sql: string, upper: string, kws: seq<string>, budget: nat): (n: nat)
    requires |upper| == |sql| && Words(kws)
    ensures n <= budget
  {
    if |kws| == 0 then 0
    else
      var first := Cost(sql, upper, kws[0], 0, budget);
      first + Spent(sql, upper, kws[1..], budget - first)
  }

  lemma {:induction false} VisitedRefs(sql: string, kw: string, visits: seq<nat>, i: nat)
    requires forall j :: 0 <= j < |visits| ==> visits[j] + |kw| <= |sql|
    requires i < |visits|
    ensures forall t :: t in RefsBehind(sql, visits[i] + |kw|) ==> t in RefsAt(sql, kw, visits)
  {
    hide RefsBehind;
    if i > 0 {
      VisitedRefs(sql, kw, visits[1..], i - 1);
    }
  }

  /** The match that took the text an occurrence starts in, if not itself. */
  ghost predicate TakenAt(sql: string, upper: string, kw: string, q: nat, p: nat)
    requires |upper| == |sql| && |kw| > 0
  {
    OccursAt(upper, kw, q) && q + |kw| <= |sql| && q <= p < Resume(sql, kw, q)
  }

  lemma KeywordMissesNone(sql: string, upper: string, kw: string, budget: nat, p: nat) returns (q: nat)
    requires |upper| == |sql| && |kw| > 0 && OccursAt(upper, kw, p) && Cost(sql, upper, kw, 0, budget) < budget
    ensures TakenAt(sql, upper, kw, q, p)
    ensures forall t :: t in RefsBehind(sql, q + |kw|) ==> t in RefsOfKeyword(sql, upper, kw, 0, budget)
  {
    hide RefsBehind, Visits, RefsAt, IndexFrom, OccursAt, Resume;
    VisitsFit(sql, upper, kw, 0, budget);
    var i := NoOccurrenceMissed(sql, upper, kw, 0, budget, p);
    var visits := Visits(sql, upper, kw, 0, budget);
    q := visits[i];
    VisitedRefs(sql, kw, visits, i);
  }

  lemma SpentFirst(sql: string, upper: string, kws: seq<string>, budget: nat)
    requires |upper| == |sql| && Words(kws) && |kws| > 0 && Spent(sql, upper, kws, budget) < budget
    ensures var first := Cost(sql, upper, kws[0], 0, budget);
            first < budget && Words(kws[1..]) && Spent(sql, upper, kws[1..], budget - first) < budget - first
  {
    hide Cost;
  }

  lemma {:induction false} FoundMissesNone(sql: string, upper: string, kws: seq<string>, budget: nat,
                                           k: nat, p: nat) returns (q: nat)
    requires |upper| == |sql| && Words(kws) && k < |kws| && OccursAt(upper, kws[k], p)
    requires Spent(sql, upper, kws, budget) < budget
    ensures TakenAt(sql, upper, kws[k], q, p)
    ensures forall t :: t in RefsBehind(sql, q + |kws[k]|) ==> t in Found(sql, upper, kws, budget)
    decreases |kws|
  {
    hide RefsBehind, RefsOfKeyword, OccursAt, Cost, TakenAt;
    SpentFirst(sql, upper, kws, budget);
    var first := Cost(sql, upper, kws[0], 0, budget);
    if k == 0 {
      q := KeywordMissesNone(sql, upper, kws[0], budget, p);
    } else {
      assert kws[1..][k - 1] == kws[k];
      q := FoundMissesNone(sql, upper, kws[1..], budget - first, k - 1, p);
    }
  }

  /** Main result: below the cap, of every keyword in the text either the
      identifier behind it is among the refs returned, or it starts inside the
      text of an earlier match whose identifier is. */
  lemma ScrapeMissesNone(sql: string, refs: seq<TableRef>, k: nat, p: nat) returns (q: nat)
    requires Words(KEYWORDS) && k < |KEYWORDS| && OccursAt(ToUpper(sql), KEYWORDS[k], p)
    requires Spent(sql, ToUpper(sql), KEYWORDS, MAX_SCRAPE_ITERATIONS) < MAX_SCRAPE_ITERATIONS
    requires SliceDedupe.Deduped(Found(sql, ToUpper(sql), KEYWORDS, MAX_SCRAPE_ITERATIONS), SliceDedupe.Anything, refs)
    ensures TakenAt(sql, ToUpper(sql), KEYWORDS[k], q, p)
    ensures forall t :: t in RefsBehind(sql, q + |KEYWORDS[k]|) ==> t in refs
  {
    hide RefsBehind, Found, Spent, OccursAt, ToUpper;
    q := FoundMissesNone(sql, ToUpper(sql), KEYWORDS, MAX_SCRAPE_ITERATIONS, k, p);
  }

  // ---- the code ------------------------------------------------------------------------------

  method IndexAnyDelim(s: string) returns (n: nat)
    ensures n <= |s| && s[..n] == UntilDelim(s)
  {
    n := 0;
    while n < |s|
      invariant n <= |s| && UntilDelim(s) == s[..n] + UntilDelim(s[n..])
    {
      if IsDelim(s[n]) {
        return;
      }
      assert s[n..][1..] == s[n + 1..];
      n := n + 1;
    }
  }

  method Dedupe(found: seq<TableRef>) returns (refs: seq<TableRef>)
    ensures SliceDedupe.Deduped(found, SliceDedupe.Anything, refs) && |refs| <= |found|
  {
    var a := new TableRef[|found|](i requires 0 <= i < |found| => found[i]);
    assert a[..] == found;
    var n := SliceDedupe.DedupeTables(a);
    refs := a[..n];
  }

  /** Found so far, and what is left when the keyword's search stands at idx. */
  ghost predicate Progress(sql: string, upper: string, kw: string, kws: seq<string>, idx: nat, left: nat,
                           out: seq<TableRef>, all: seq<TableRef>)
    requires |upper| == |sql|
    requires idx <= |sql| && |kw| > 0 && Words(kws)
  {
    all == out + (RefsOfKeyword(sql, upper, kw, idx, left)
                  + Found(sql, upper, kws, left - Cost(sql, upper, kw, idx, left)))
  }

  lemma NextKeyword(sql: string, upper: string, kws: seq<string>, left: nat, out: seq<TableRef>, all: seq<TableRef>)
    requires |upper| == |sql| && Words(kws) && |kws| > 0 && all == out + Found(sql, upper, kws, left)
    ensures Words(kws[1..]) && Progress(sql, upper, kws[0], kws[1..], 0, left, out, all)
  {
    assert forall i :: 0 <= i < |kws| - 1 ==> kws[1..][i] == kws[i + 1];
  }

  lemma NoKeyword(sql: string, upper: string, left: nat, out: seq<TableRef>, all: seq<TableRef>)
    requires |upper| == |sql| && all == out + Found(sql, upper, [], left)
    ensures all == out
  {
  }

  lemma NoBudget(sql: string, upper: string, kw: string, kws: seq<string>, idx: nat, out: seq<TableRef>,
                 all: seq<TableRef>)
    requires |upper| == |sql|
    requires idx <= |sql| && |kw| > 0 && Words(kws) && Progress(sql, upper, kw, kws, idx, 0, out, all)
    ensures all == out
  {
    FoundBound(sql, upper, kws, 0);
  }

  lemma NoMore(sql: string, upper: string, kw: string, kws: seq<string>, idx: nat, left: nat,
               out: seq<TableRef>, all: seq<TableRef>)
    requires |upper| == |sql|
    requires idx <= |sql| && |kw| > 0 && Words(kws) && left > 0 && Progress(sql, upper, kw, kws, idx, left, out, all)
    requires IndexFrom(upper, kw, idx) < 0
    ensures all == out + Found(sql, upper, kws, left - 1)
  {
  }

  lemma VisitUnfolds(sql: string, upper: string, kw: string, idx: nat, left: nat)
    requires |upper| == |sql|
    requires idx <= |sql| && |kw| > 0 && left > 0 && IndexFrom(upper, kw, idx) >= 0
    ensures var p := IndexFrom(upper, kw, idx);
            var next := Resume(sql, kw, p);
            Cost(sql, upper, kw, idx, left) == Cost(sql, upper, kw, next, left - 1) + 1
            && RefsOfKeyword(sql, upper, kw, idx, left)
               == RefsBehind(sql, p + |kw|) + RefsOfKeyword(sql, upper, kw, next, left - 1)
  {
    hide RefsBehind;
    var p := IndexFrom(upper, kw, idx);
    var vs := Visits(sql, upper, kw, Resume(sql, kw, p), left - 1);
    assert ([p] + vs)[1..] == vs;
  }

  lemma OneVisit(sql: string, upper: string, kw: string, kws: seq<string>, idx: nat, left: nat,
                 out: seq<TableRef>, all: seq<TableRef>)
    requires |upper| == |sql|
    requires idx <= |sql| && |kw| > 0 && Words(kws) && left > 0
    requires Progress(sql, upper, kw, kws, idx, left, out, all)
    requires IndexFrom(upper, kw, idx) >= 0
    ensures var p := IndexFrom(upper, kw, idx);
            Progress(sql, upper, kw, kws, Resume(sql, kw, p), left - 1, out + RefsBehind(sql, p + |kw|), all)
  {
    hide RefsBehind, RefsOfKeyword, Cost, Found, IndexFrom;
    VisitUnfolds(sql, upper, kw, idx, left);
    var p := IndexFrom(upper, kw, idx);
    var next := Resume(sql, kw, p);
    Regroup(out, RefsBehind(sql, p + |kw|), RefsOfKeyword(sql, upper, kw, next, left - 1),
            Found(sql, upper, kws, left - 1 - Cost(sql, upper, kw, next, left - 1)));
  }

  lemma Regroup<T>(a: seq<T>, b: seq<T>, c: seq<T>, d: seq<T>)
    ensures a + ((b + c) + d) == (a + b) + (c + d)
  {
  }

  method Scrape(sql: string, keywords: seq<string>) returns (refs: seq<TableRef>)
    requires Words(keywords)
    ensures SliceDedupe.Deduped(Found(sql, ToUpper(sql), keywords, MAX_SCRAPE_ITERATIONS), SliceDedupe.Anything, refs)
    ensures |refs| <= MAX_SCRAPE_ITERATIONS
  {
    hide Progress, Found, RefsOfKeyword, Cost, IndexFrom, RefOf, ToUpper;
    var upper := ToUpper(sql);
    var out: seq<TableRef> := [];
    var iter: nat := 0;
    ghost var all := Found(sql, upper, keywords, MAX_SCRAPE_ITERATIONS);
    FoundBound(sql, upper, keywords, MAX_SCRAPE_ITERATIONS);
    for k := 0 to |keywords|
      invariant iter <= MAX_SCRAPE_ITERATIONS
      invariant all == out + Found(sql, upper, keywords[k..], MAX_SCRAPE_ITERATIONS - iter)
    {
      var kw := keywords[k];
      assert kw == keywords[k..][0];
      var idx: nat := 0;
      ghost var kws := keywords[k + 1..];
      assert keywords[k..][1..] == kws;
      NextKeyword(sql, upper, keywords[k..], MAX_SCRAPE_ITERATIONS - iter, out, all);
      while true
        invariant idx <= |sql| && iter <= MAX_SCRAPE_ITERATIONS
        invariant Progress(sql, upper, kw, kws, idx, MAX_SCRAPE_ITERATIONS - iter, out, all)
        decreases |sql| - idx, MAX_SCRAPE_ITERATIONS - iter
      {
        if iter >= MAX_SCRAPE_ITERATIONS {
          NoBudget(sql, upper, kw, kws, idx, out, all);
          refs := Dedupe(out);
          return;
        }
        ghost var left := MAX_SCRAPE_ITERATIONS - iter;
        iter := iter + 1;
        var p := IndexFrom(upper, kw, idx);
        if p < 0 {
          NoMore(sql, upper, kw, kws, idx, left, out, all);
          break;
        }
        OneVisit(sql, upper, kw, kws, idx, left, out, all);
        var pos := p + |kw|;
        var trimmed := TrimOpening(sql[pos..]);
        var end := IndexAnyDelim(trimmed);
        var ident := TrimQuotes(trimmed[..end]);
        if ident == "" {
          assert out + [] == out;
          idx := pos;
          continue;
        }
        out := out + [RefOf(ident)];
        idx := pos + |ident|;
      }
    }
    NoKeyword(sql, upper, MAX_SCRAPE_ITERATIONS - iter, out, all);
    refs := Dedupe(out);
  }

  method ExtractViaScrape(sql: string) returns (refs: seq<TableRef>)
    ensures SliceDedupe.Deduped(Found(sql, ToUpper(sql), KEYWORDS, MAX_SCRAPE_ITERATIONS), SliceDedupe.Anything, refs)
    ensures |refs| <= MAX_SCRAPE_ITERATIONS
  {
    refs := Scrape(sql, KEYWORDS);
  }

  // ---- what an identifier is read as ------------------------------------------------------

  ghost predicate Without(s: string, cs: set<char>) {
    forall i :: 0 <= i < |s| ==> s[i] !in cs
  }

  ghost predicate Only(s: string, cs: set<char>) {
    forall i :: 0 <= i < |s| ==> s[i] in cs
  }

  lemma {:induction false} SplitLast(part: string)
    requires Without(part, {'.'})
    ensures TextLines.Split(part, '.') == [part]
  {
    if |part| > 0 {
      SplitLast(part[1..]);
      assert [part[0]] + part[1..] == part;
    }
  }

  lemma {:induction false} SplitFirst(part: string, rest: string)
    requires Without(part, {'.'})
    ensures TextLines.Split(part + "." + rest, '.') == [part] + TextLines.Split(rest, '.')
  {
    var s := part + "." + rest;
    if |part| == 0 {
      assert s[1..] == rest;
    } else {
      assert s[0] == part[0] && s[1..] == part[1..] + "." + rest;
      SplitFirst(part[1..], rest);
      assert [part[0]] + part[1..] == part;
    }
  }

  lemma TwoParts(a: string, b: string)
    requires Without(a, {'.'}) && Without(b, {'.'})
    ensures TextLines.Split(a + "." + b, '.') == [a, b]
  {
    SplitFirst(a, b);
    SplitLast(b);
  }

  lemma ThreeParts(a: string, b: string, c: string)
    requires Without(a, {'.'}) && Without(b, {'.'}) && Without(c, {'.'})
    ensures TextLines.Split(a + "." + b + "." + c, '.') == [a, b, c]
  {
    hide TextLines.Split, Without;
    assert a + "." + b + "." + c == a + "." + (b + "." + c);
    SplitFirst(a, b + "." + c);
    TwoParts(b, c);
    assert [a] + [b, c] == [a, b, c];
  }

  lemma MoreParts(a: string, b: string, c: string, more: string)
    requires Without(a, {'.'}) && Without(b, {'.'}) && Without(c, {'.'})
    ensures |TextLines.Split(a + "." + b + "." + c + "." + more, '.')| > 3
  {
    hide TextLines.Split, Without;
    var tail := c + "." + more;
    assert a + "." + b + "." + c + "." + more == a + "." + (b + "." + tail);
    SplitFirst(a, b + "." + tail);
    SplitFirst(b, tail);
    SplitFirst(c, more);
  }

  /** Main result: schema.table and project.schema.table are read as table of that
      schema, a bare name as a table of none, and more parts are left whole. */
  lemma DottedParts(a: string, b: string, c: string, more: string)
    requires Without(a, {'.'}) && Without(b, {'.'}) && Without(c, {'.'})
    ensures RefOf(a) == TableRef("", a)
    ensures RefOf(a + "." + b) == TableRef(a, b)
    ensures RefOf(a + "." + b + "." + c) == TableRef(b, c)
    ensures var whole := a + "." + b + "." + c + "." + more; RefOf(whole) == TableRef("", whole)
  {
    hide TextLines.Split, Without;
    SplitLast(a);
    TwoParts(a, b);
    ThreeParts(a, b, c);
    MoreParts(a, b, c, more);
  }

  lemma {:induction false} OpeningsTrimmed(o: string, s: string)
    requires Only(o, {' ', '\t', '\n', '\r', '('}) && (|s| > 0 ==> s[0] !in {' ', '\t', '\n', '\r', '('})
    ensures TrimOpening(o + s) == s
  {
    if |o| == 0 {
      assert o + s == s;
    } else {
      assert (o + s)[1..] == o[1..] + s;
      OpeningsTrimmed(o[1..], s);
    }
  }

  lemma {:induction false} UpToDelim(ident: string, s: string)
    requires Without(ident, {' ', '\t', '\n', '\r', ',', ')', ';', '('})
    requires |s| > 0 ==> s[0] in {' ', '\t', '\n', '\r', ',', ')', ';', '('}
    ensures UntilDelim(ident + s) == ident
  {
    if |ident| == 0 {
      assert ident + s == s;
    } else {
      assert (ident + s)[1..] == ident[1..] + s;
      UpToDelim(ident[1..], s);
      assert [ident[0]] + ident[1..] == ident;
    }
  }

  lemma {:induction false} QuotesTrimmed(q: string, name: string, r: string)
    requires Only(q, {'"', '`', '\''}) && Only(r, {'"', '`', '\''})
    requires |name| > 0 && Without(name, {'"', '`', '\''})
    ensures TrimQuotes(q + name + r) == name
    decreases |q| + |r|
  {
    var s := q + name + r;
    if |q| > 0 {
      assert s[1..] == q[1..] + name + r;
      QuotesTrimmed(q[1..], name, r);
    } else if |r| > 0 {
      assert s[0] == name[0] && s[|s| - 1] == r[|r| - 1];
      assert s[..|s| - 1] == q + name + r[..|r| - 1];
      QuotesTrimmed(q, name, r[..|r| - 1]);
    } else {
      assert s == name;
    }
  }

  /** Main result: the identifier behind a keyword. Blanks and parentheses before
      it are skipped, it ends at a blank, comma, semicolon or parenthesis or at the
      end of the text, and quotes around it are dropped. */
  lemma IdentifierBehind(before: string, o: string, q: string, name: string, r: string, rest: string)
    requires Only(o, {' ', '\t', '\n', '\r', '('}) && Only(q, {'"', '`', '\''}) && Only(r, {'"', '`', '\''})
    requires |name| > 0 && Without(name, {' ', '\t', '\n', '\r', ',', ')', ';', '(', '"', '`', '\''})
    requires |rest| > 0 ==> rest[0] in {' ', '\t', '\n', '\r', ',', ')', ';', '('}
    ensures IdentAt(before + o + q + name + r + rest, |before|) == name
  {
    var sql := before + o + q + name + r + rest;
    assert sql[|before|..] == o + ((q + name + r) + rest);
    assert (q + name + r)[0] == if |q| > 0 then q[0] else name[0];
    OpeningsTrimmed(o, (q + name + r) + rest);
    UpToDelim(q + name + r, rest);
    QuotesTrimmed(q, name, r);
  }

  /** s is the upper-case word in any mixture of cases. */
  ghost predicate CaseOf(s: string, word: string) {
    |s| == |word|
    && forall i :: 0 <= i < |s| ==>
         if 'a' <= s[i] <= 'z' then s[i] as int - 32 == word[i] as int else s[i] == word[i]
  }

  /** The keywords are these five words between blanks, in any case, and no others. */
  lemma KeywordInAnyCase(sql: string, word: string, p: nat)
    ensures word in KEYWORDS <==> word in {" FROM ", " JOIN ", " INTO ", " UPDATE ", " TABLE "}
    ensures OccursAt(ToUpper(sql), word, p)
       <==> p + |word| <= |sql| && CaseOf(sql[p..p + |word|], word)
  {
    if p + |word| <= |sql| {
      var s, upper := sql[p..p + |word|], ToUpper(sql)[p..p + |word|];
      assert forall i :: 0 <= i < |s| ==> upper[i] == UpperChar(s[i]);
      if CaseOf(s, word) {
        forall i | 0 <= i < |s| ensures upper[i] == word[i] {
        }
      }
    }
  }
}
