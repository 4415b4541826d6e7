/** dedupeTables in internal/router/table_extractor.go, dedupeEdges and the loop
    that ends Extract in internal/lineage/lineage.go. A Go slice is an array and
    a length; the compacted slice is the front of the same array. */
module SliceDedupe {
  import ColumnLineage
  import LineageConfidence
  import SqlAst
  import TableWalk

  type Edge = ColumnLineage.Edge
  type TableRef = TableWalk.TableRef

  ghost predicate FirstAt<T>(s: seq<T>, x: T, i: int) {
    0 <= i < |s| && s[i] == x && x !in s[..i]
  }

  /** out lists the elements of s that satisfy keep, each once, in the order in
      which they first occur. */
  ghost predicate Deduped<T(!new)>(s: seq<T>, keep: T -> bool, out: seq<T>) {
    (forall x :: x in out <==> x in s && keep(x))
    && (forall m, n, i, j :: 0 <= m < n < |out| && FirstAt(s, out[m], i) && FirstAt(s, out[n], j) ==> i < j)
  }

  lemma {:induction false} HasFirst<T(!new)>(s: seq<T>, x: T) returns (i: nat)
    requires x in s
    ensures FirstAt(s, x, i)
  {
    if x in s[..|s| - 1] {
      i := HasFirst(s[..|s| - 1], x);
      assert s[..|s| - 1][..i] == s[..i];
    } else {
      i := |s| - 1;
    }
  }

  /** The elements of a deduped list are distinct. */
  lemma DedupedIsDistinct<T(!new)>(s: seq<T>, keep: T -> bool, out: seq<T>, m: nat, n: nat)
    requires Deduped(s, keep, out) && m < n < |out|
    ensures out[m] != out[n]
  {
    assert out[m] in out && out[n] in out;
    var i := HasFirst(s, out[m]);
    var j := HasFirst(s, out[n]);
    FirstsDiffer(s, out[m], out[n], i, j);
  }

  lemma FirstsDiffer<T(!new)>(s: seq<T>, x: T, y: T, i: nat, j: nat)
    requires FirstAt(s, x, i) && FirstAt(s, y, j) && i < j
    ensures x != y
  {
    assert s[..j][i] == x;
  }

  lemma EmptyOrMember<T(!new)>(s: seq<T>)
    ensures s == [] || exists x :: x in s
  {
    if |s| > 0 {
      assert s[0] in s;
    }
  }

  /** There is one such list. */
  lemma {:induction false} DedupedIsUnique<T(!new)>(s: seq<T>, keep: T -> bool, xs: seq<T>, ys: seq<T>)
    requires Deduped(s, keep, xs) && Deduped(s, keep, ys)
    ensures xs == ys
    decreases |s|
  {
    if |s| == 0 {
      EmptyOrMember(xs);
      EmptyOrMember(ys);
    } else {
      var n := |s| - 1;
      var xs', ys' := DropLast(s, keep, xs), DropLast(s, keep, ys);
      DropLastDeduped(s, keep, xs);
      DropLastDeduped(s, keep, ys);
      DedupedIsUnique(s[..n], keep, xs', ys');
    }
  }

  /** What a list was before the last element of s was seen. */
  ghost function DropLast<T(!new)>(s: seq<T>, keep: T -> bool, out: seq<T>): seq<T>
    requires |s| > 0
  {
    if keep(s[|s| - 1]) && s[|s| - 1] !in s[..|s| - 1] && |out| > 0 then out[..|out| - 1] else out
  }

  lemma FirstInFront<T(!new)>(s: seq<T>, x: T, i: int)
    requires |s| > 0 && x in s[..|s| - 1]
    ensures FirstAt(s[..|s| - 1], x, i) <==> FirstAt(s, x, i)
  {
    if 0 <= i < |s| - 1 {
      assert s[..|s| - 1][..i] == s[..i];
    } else if i == |s| - 1 {
      assert x in s[..i];
    }
  }

  lemma DropLastDeduped<T(!new)>(s: seq<T>, keep: T -> bool, out: seq<T>)
    requires |s| > 0 && Deduped(s, keep, out)
    ensures Deduped(s[..|s| - 1], keep, DropLast(s, keep, out))
    ensures keep(s[|s| - 1]) && s[|s| - 1] !in s[..|s| - 1] ==> out == DropLast(s, keep, out) + [s[|s| - 1]]
  {
    var n := |s| - 1;
    var last, front := s[n], s[..n];
    var before := DropLast(s, keep, out);
    assert s == front + [last];
    if keep(last) && last !in front {
      NewestIsLast(s, keep, out);
      assert out == before + [last];
      forall k | 0 <= k < |before| ensures before[k] != last {
        DedupedIsDistinct(s, keep, out, k, |out| - 1);
      }
    }
    forall x ensures x in before <==> x in front && keep(x) {
      assert x in s <==> x in front || x == last;
      assert x in out <==> x in s && keep(x);
      if keep(last) && last !in front {
        assert last !in before && (x in out <==> x in before || x == last);
      }
    }
    forall i, j, k, l | 0 <= k < l < |before| && FirstAt(front, before[k], i) && FirstAt(front, before[l], j)
      ensures i < j
    {
      FirstInFront(s, before[k], i);
      FirstInFront(s, before[l], j);
      assert before[k] == out[k] && before[l] == out[l];
    }
  }

  /** An element first seen at the end stands at the end. */
  lemma NewestIsLast<T(!new)>(s: seq<T>, keep: T -> bool, out: seq<T>)
    requires |s| > 0 && Deduped(s, keep, out) && keep(s[|s| - 1]) && s[|s| - 1] !in s[..|s| - 1]
    ensures |out| > 0 && out[|out| - 1] == s[|s| - 1]
  {
    var last := s[|s| - 1];
    assert last in s && last in out;
    var m :| 0 <= m < |out| && out[m] == last;
    assert FirstAt(s, last, |s| - 1);
    assert out[|out| - 1] in out;
    var i := HasFirst(s, out[|out| - 1]);
    assert m < |out| - 1 ==> |s| - 1 < i;
  }

  /** One more element, seen or left out. */
  lemma DedupedSkip<T(!new)>(s: seq<T>, keep: T -> bool, out: seq<T>, x: T)
    requires Deduped(s, keep, out) && (!keep(x) || x in s)
    ensures Deduped(s + [x], keep, out)
  {
    assert (s + [x])[..|s|] == s;
    forall m, n, i, j | 0 <= m < n < |out| && FirstAt(s + [x], out[m], i) && FirstAt(s + [x], out[n], j)
      ensures i < j
    {
      assert out[m] in s && out[n] in s;
      FirstInFront(s + [x], out[m], i);
      FirstInFront(s + [x], out[n], j);
    }
  }

  lemma DedupedTake<T(!new)>(s: seq<T>, keep: T -> bool, out: seq<T>, x: T)
    requires Deduped(s, keep, out) && keep(x) && x !in s
    ensures Deduped(s + [x], keep, out + [x])
  {
    var t, o := s + [x], out + [x];
    assert t[..|s|] == s;
    forall m, n, i, j | 0 <= m < n < |o| && FirstAt(t, o[m], i) && FirstAt(t, o[n], j)
      ensures i < j
    {
      assert o[m] == out[m] && out[m] in s;
      FirstInFront(t, o[m], i);
      if n < |out| {
        assert out[n] in s;
        FirstInFront(t, o[n], j);
      } else {
        assert FirstAt(t, x, |s|);
      }
    }
  }

  predicate Anything(t: TableRef) {
    true
  }

  predicate HasEnds(e: Edge) {
    e.upstream != "" && e.downstream != ""
  }

  /** out = in[:0], then an append per element that is new: the writes follow
      the reads through the same array. */
  method DedupeTables(a: array<TableRef>) returns (n: nat)
    modifies a
    ensures n <= a.Length && Deduped(old(a[..]), Anything, a[..n]) && a[n..] == old(a[n..])
  {
    ghost var s := a[..];
    var seen: set<TableRef> := {};
    n := 0;
    for i := 0 to a.Length
      invariant n <= i && a[n..] == s[n..]
      invariant forall x :: x in seen <==> x in s[..i]
      invariant Deduped(s[..i], Anything, a[..n])
    {
      var t := a[i];
      assert t == a[n..][i - n] && s[..i + 1] == s[..i] + [t];
      if t in seen {
        DedupedSkip(s[..i], Anything, a[..n], t);
        continue;
      }
      DedupedTake(s[..i], Anything, a[..n], t);
      seen := seen + {t};
      ghost var before := a[..n];
      a[n] := t;
      n := n + 1;
      assert a[..n] == before + [t];
    }
    assert s[..a.Length] == s;
  }

  /** The same over edges, skipping one with an empty end. */
  method DedupeEdges(a: array<Edge>) returns (n: nat)
    modifies a
    ensures n <= a.Length && Deduped(old(a[..]), HasEnds, a[..n]) && a[n..] == old(a[n..])
  {
    ghost var s := a[..];
    var seen: set<Edge> := {};
    n := 0;
    for i := 0 to a.Length
      invariant n <= i && a[n..] == s[n..]
      invariant forall x :: x in seen <==> x in s[..i] && HasEnds(x)
      invariant Deduped(s[..i], HasEnds, a[..n])
    {
      var e := a[i];
      assert e == a[n..][i - n] && s[..i + 1] == s[..i] + [e];
      if e.upstream == "" || e.downstream == "" {
        DedupedSkip(s[..i], HasEnds, a[..n], e);
        continue;
      }
      if e in seen {
        DedupedSkip(s[..i], HasEnds, a[..n], e);
        continue;
      }
      DedupedTake(s[..i], HasEnds, a[..n], e);
      seen := seen + {e};
      ghost var before := a[..n];
      a[n] := e;
      n := n + 1;
      assert a[..n] == before + [e];
    }
    assert s[..a.Length] == s;
  }

  // ---- the end of Extract -----------------------------------------------------------------

  function Filled(e: Edge): Edge {
    e.(origin := if e.origin == "" then "runtime" else e.origin,
       confidence := if e.confidence == "" then "exact" else e.confidence)
  }

  ghost function FilledAll(s: seq<Edge>): seq<Edge> {
    seq(|s|, i requires 0 <= i < |s| => Filled(s[i]))
  }

  /** Dedupe, then fill the defaults of what is left, all in one array. */
  method Finish(a: array<Edge>) returns (n: nat)
    modifies a
    ensures n <= a.Length
    ensures exists kept :: Deduped(old(a[..]), HasEnds, kept) && a[..n] == FilledAll(kept)
  {
    n := DedupeEdges(a);
    ghost var kept := a[..n];
    for i := 0 to n
      invariant a[..i] == FilledAll(kept[..i]) && a[i..n] == kept[i..]
    {
      assert a[i] == a[i..n][0] == kept[i];
      ghost var done := a[..i];
      if a[i].origin == "" {
        a[i] := a[i].(origin := "runtime");
      }
      if a[i].confidence == "" {
        a[i] := a[i].(confidence := "exact");
      }
      assert a[i] == Filled(kept[i]);
      assert a[..i + 1] == done + [a[i]];
      assert FilledAll(kept[..i + 1]) == FilledAll(kept[..i]) + [Filled(kept[i])];
    }
    assert kept[..n] == kept;
  }

  /** The edges edgesFromStmt makes: no origin yet, and a confidence on column
      edges alone. */
  ghost predicate FromStatement(e: Edge) {
    e.origin == "" && (e.edgeType == "table" <==> e.confidence == "")
  }

  /** Filling comes after deduping, so it could make equal what was different.
      On the edges of statements it never does. */
  lemma FilledStaysDistinct(s: seq<Edge>, kept: seq<Edge>, m: nat, n: nat)
    requires Deduped(s, HasEnds, kept) && m < n < |kept|
    requires forall e :: e in s ==> FromStatement(e)
    ensures FilledAll(kept)[m] != FilledAll(kept)[n]
  {
    DedupedIsDistinct(s, HasEnds, kept, m, n);
    assert kept[m] in kept && kept[n] in kept;
  }

  /** internal/lineage/lineage.go builds table edges without a confidence. */
  function TableEdge(upstream: string, downstream: string, hash: string): Edge {
    ColumnLineage.Edge.Edge(upstream, downstream, "table", "", "", hash)
  }

  /** Every column edge of a query is labelled, and none has an origin. */
  lemma ColumnEdgesAreLabelled(query: SqlAst.Select, downstream: string, hash: string, e: Edge)
    requires e in ColumnLineage.ColumnEdges(SqlAst.Some(query), downstream, hash)
    ensures FromStatement(e)
  {
    LineageConfidence.SelectLabels(query, map[], 0);
    assert LineageConfidence.LabelEnv(map[]) == map[];
    var proj := ColumnLineage.Project(query, map[], 0);
    var c: string, r: ColumnLineage.ColRef :| c in proj && r in proj[c] && e.confidence == r.conf
                                              && e.edgeType == "column" && e.origin == "";
    var history := LineageConfidence.HistoryOfSelect(query, map[], 0);
    assert r in LineageConfidence.Labels(history[c]);
  }

  /** An edge Extract collects: a table edge, or a column edge of some query. */
  ghost predicate Extracted(e: Edge) {
    e == TableEdge(e.upstream, e.downstream, e.queryHash)
    || exists query, downstream ::
         e in ColumnLineage.ColumnEdges(SqlAst.Some(query), downstream, e.queryHash)
  }

  /** Main result: so the edges Extract returns are distinct. */
  lemma ExtractedStaysDistinct(s: seq<Edge>, kept: seq<Edge>, m: nat, n: nat)
    requires Deduped(s, HasEnds, kept) && m < n < |kept|
    requires forall e :: e in s ==> Extracted(e)
    ensures FilledAll(kept)[m] != FilledAll(kept)[n]
  {
    forall e | e in s ensures FromStatement(e) {
      if e != TableEdge(e.upstream, e.downstream, e.queryHash) {
        var query, downstream :| e in ColumnLineage.ColumnEdges(SqlAst.Some(query), downstream, e.queryHash);
        ColumnEdgesAreLabelled(query, downstream, e.queryHash, e);
      }
    }
    FilledStaysDistinct(s, kept, m, n);
  }

  /** Main result: the evidence on what Extract returns. Every edge is of runtime
      origin; a table edge is exact, a column edge keeps the label of its query. */
  lemma ExtractedEvidence(s: seq<Edge>, kept: seq<Edge>, m: nat)
    requires Deduped(s, HasEnds, kept) && m < |kept|
    requires forall e :: e in s ==> Extracted(e)
    ensures var e := FilledAll(kept)[m];
            e.origin == "runtime" && e.upstream != "" && e.downstream != ""
            && (e.edgeType == "table" ==> e.confidence == "exact")
            && e == kept[m].(origin := "runtime", confidence := e.confidence)
            && (e.edgeType != "table" ==> e.confidence == kept[m].confidence && e.confidence != "")
  {
    var e := kept[m];
    assert e in kept;
    if e != TableEdge(e.upstream, e.downstream, e.queryHash) {
      var query, downstream :| e in ColumnLineage.ColumnEdges(SqlAst.Some(query), downstream, e.queryHash);
      ColumnEdgesAreLabelled(query, downstream, e.queryHash, e);
    }
  }
}
