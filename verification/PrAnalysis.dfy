/** internal/githubapp/analysis.go and report.go: merging the blast radii of a
    pull request's changes, and the check-run conclusion. The diff parser, the
    GitHub client and the write of the result are inputs or elsewhere. */
module PrAnalysis {
  import opened SqlAst
  import opened Paths
  import opened Impact

  datatype DQRef = DQRef(table: string, status: string)
  datatype Report = Report(hits: seq<Hit>, dqRefs: seq<DQRef>, conclusion: string)

  // ---- merging ----------------------------------------------------------------

  ghost function ChangeGraph(st: Store, ch: Change): Graph {
    GraphOf(st.rows, if ch.kind in COLUMN_KINDS then "column" else "table")
  }

  ghost function SeverityOf(ch: Change): string {
    if ch.kind in BREAKING_KINDS then "breaking" else "warning"
  }

  /** The change reaches v, at shortest distance n, within the depth of the bot. */
  ghost predicate ReachedBy(st: Store, ch: Change, v: string, n: nat) {
    Distance(ChangeGraph(st, ch), ch.fqn, v, n) && 0 < n <= 5
  }

  ghost predicate ReachedBySome(st: Store, changes: seq<Change>, v: string, n: nat) {
    exists i :: 0 <= i < |changes| && ReachedBy(st, changes[i], v, n)
  }

  ghost predicate BrokenBySome(st: Store, changes: seq<Change>, v: string) {
    exists i, n :: 0 <= i < |changes| && ReachedBy(st, changes[i], v, n)
                   && changes[i].kind in BREAKING_KINDS
  }

  /** The reason is an edge into v that one of the changes follows. */
  ghost predicate ExplainedBySome(st: Store, changes: seq<Change>, v: string, why: string) {
    exists i, u :: 0 <= i < |changes| && (u, v) in ChangeGraph(st, changes[i]) && why == u + ARROW + v
  }

  /** One hit per reached node: least hops over all changes, breaking exactly
      when some breaking change reaches it. */
  ghost predicate Merged(st: Store, changes: seq<Change>, merged: map<string, Hit>) {
    forall v :: MergedAt(st, changes, merged, v)
  }

  ghost predicate MergedAt(st: Store, changes: seq<Change>, merged: map<string, Hit>, v: string) {
    (forall n :: ReachedBySome(st, changes, v, n) ==> v in merged && merged[v].hops <= n)
    && (v in merged ==>
          merged[v].fqn == v
          && ReachedBySome(st, changes, v, merged[v].hops)
          && ExplainedBySome(st, changes, v, merged[v].why)
          && (merged[v].severity == BREAKING || merged[v].severity == WARNING)
          && (merged[v].severity == BREAKING <==> BrokenBySome(st, changes, v)))
  }

  function MergeHit(merged: map<string, Hit>, h: Hit): map<string, Hit> {
    if h.fqn in merged then
      var prev := merged[h.fqn];
      merged[h.fqn := prev.(
        hops := if h.hops < prev.hops then h.hops else prev.hops,
        severity := if h.severity == BREAKING then BREAKING else prev.severity)]
    else merged[h.fqn := h]
  }

  lemma ReachedBySomeSnoc(st: Store, changes: seq<Change>, ch: Change, v: string, n: nat)
    ensures ReachedBySome(st, changes + [ch], v, n) <==> ReachedBySome(st, changes, v, n) || ReachedBy(st, ch, v, n)
  {
    var all := changes + [ch];
    if ReachedBy(st, ch, v, n) {
      assert ReachedBy(st, all[|changes|], v, n);
    }
    if i :| 0 <= i < |changes| && ReachedBy(st, changes[i], v, n) {
      assert ReachedBy(st, all[i], v, n);
    }
  }

  lemma ExplainedStays(st: Store, changes: seq<Change>, ch: Change, v: string, why: string)
    requires ExplainedBySome(st, changes, v, why)
    ensures ExplainedBySome(st, changes + [ch], v, why)
  {
    var i, u :| 0 <= i < |changes| && (u, v) in ChangeGraph(st, changes[i]) && why == u + ARROW + v;
    assert (changes + [ch])[i] == changes[i];
  }

  lemma ExplainedByLast(st: Store, changes: seq<Change>, ch: Change, h: Hit)
    requires Explained(ChangeGraph(st, ch), ch.fqn, h)
    ensures ExplainedBySome(st, changes + [ch], h.fqn, h.why)
  {
    var u :| (u, h.fqn) in ChangeGraph(st, ch) && h.why == u + ARROW + h.fqn;
    assert (changes + [ch])[|changes|] == ch;
  }

  lemma BrokenBySomeSnoc(st: Store, changes: seq<Change>, ch: Change, v: string)
    ensures BrokenBySome(st, changes + [ch], v)
       <==> BrokenBySome(st, changes, v)
            || ((exists n :: ReachedBy(st, ch, v, n)) && ch.kind in BREAKING_KINDS)
  {
    var all := changes + [ch];
    if n :| ReachedBy(st, ch, v, n) && ch.kind in BREAKING_KINDS {
      assert ReachedBy(st, all[|changes|], v, n);
    }
    if i, n :| 0 <= i < |changes| && ReachedBy(st, changes[i], v, n)
               && changes[i].kind in BREAKING_KINDS {
      assert ReachedBy(st, all[i], v, n);
    }
  }

  /** What the inner loop makes of one node when it has seen hits[..k]. */
  ghost predicate MergedUpTo(before: map<string, Hit>, hits: seq<Hit>, k: nat, after: map<string, Hit>)
    requires k <= |hits|
  {
    (forall v :: v in after <==> v in before || exists i :: 0 <= i < k && hits[i].fqn == v)
    && (forall v :: v in before && !(exists i :: 0 <= i < k && hits[i].fqn == v) ==> after[v] == before[v])
    && (forall i :: 0 <= i < k ==>
          after[hits[i].fqn] == MergeHit(before, hits[i])[hits[i].fqn])
  }

  lemma MergeOne(m: map<string, Hit>, h: Hit)
    ensures MergeHit(m, h).Keys == m.Keys + {h.fqn}
    ensures forall v :: v in m && v != h.fqn ==> MergeHit(m, h)[v] == m[v]
  {
  }

  lemma MergeOneMore(before: map<string, Hit>, hits: seq<Hit>, k: nat, after: map<string, Hit>)
    requires k < |hits| && MergedUpTo(before, hits, k, after)
    requires forall i, j :: 0 <= i < j < |hits| ==> hits[i].fqn != hits[j].fqn
    ensures MergedUpTo(before, hits, k + 1, MergeHit(after, hits[k]))
  {
    var h := hits[k];
    var next := MergeHit(after, h);
    MergeOne(after, h);
    assert h.fqn in after <==> h.fqn in before;
    assert h.fqn in before ==> after[h.fqn] == before[h.fqn];
    forall i | 0 <= i < k + 1 ensures next[hits[i].fqn] == MergeHit(before, hits[i])[hits[i].fqn] {
      if i < k {
        assert hits[i].fqn != h.fqn;
      }
    }
    forall v ensures v in next <==> v in before || exists i :: 0 <= i < k + 1 && hits[i].fqn == v {
      if v == h.fqn {
        assert hits[k].fqn == v;
      }
    }
  }

  method MergeHits(before: map<string, Hit>, hits: seq<Hit>) returns (merged: map<string, Hit>)
    requires forall i, j :: 0 <= i < j < |hits| ==> hits[i].fqn != hits[j].fqn
    ensures MergedUpTo(before, hits, |hits|, merged)
  {
    merged := before;
    for k := 0 to |hits|
      invariant MergedUpTo(before, hits, k, merged)
    {
      MergeOneMore(before, hits, k, merged);
      merged := MergeHit(merged, hits[k]);
    }
  }

  lemma NotAtRoot(g: Graph, root: string, v: string, n: nat)
    requires Distance(g, root, v, n) && n > 0
    ensures v != root
  {
    Trivial(g, root);
  }

  lemma HitIffReached(st: Store, ch: Change, hits: seq<Hit>, v: string)
    requires BlastRadius(ChangeGraph(st, ch), ch.fqn, 5, SeverityOf(ch), hits)
    ensures forall i :: 0 <= i < |hits| && hits[i].fqn == v ==> ReachedBy(st, ch, v, hits[i].hops)
    ensures forall n :: ReachedBy(st, ch, v, n) ==> exists i :: 0 <= i < |hits| && hits[i].fqn == v && hits[i].hops == n
  {
    var g := ChangeGraph(st, ch);
    assert forall i :: 0 <= i < |hits| ==> Genuine(g, ch.fqn, 5, SeverityOf(ch), hits[i]);
    forall n | ReachedBy(st, ch, v, n) ensures exists i :: 0 <= i < |hits| && hits[i].fqn == v && hits[i].hops == n {
      BallIsReach(g, ch.fqn, v, 5);
      NotAtRoot(g, ch.fqn, v, n);
      assert HasHit(hits, v);
      var i :| 0 <= i < |hits| && hits[i].fqn == v;
      DistanceUnique(g, ch.fqn, v, hits[i].hops, n);
    }
  }

  /** A node the change does not reach keeps its entry. */
  lemma MergeUnreached(st: Store, changes: seq<Change>, ch: Change, before: map<string, Hit>,
                       after: map<string, Hit>, v: string)
    requires MergedAt(st, changes, before, v) && (v in after <==> v in before) && (v in after ==> after[v] == before[v])
    requires forall n :: !ReachedBy(st, ch, v, n)
    ensures MergedAt(st, changes + [ch], after, v)
  {
    forall n ensures ReachedBySome(st, changes + [ch], v, n) <==> ReachedBySome(st, changes, v, n) {
      ReachedBySomeSnoc(st, changes, ch, v, n);
    }
    BrokenBySomeSnoc(st, changes, ch, v);
    if v in before {
      ExplainedStays(st, changes, ch, v, before[v].why);
    }
  }

  /** A node it reaches takes the lesser distance and the graver severity. */
  lemma MergeReached(st: Store, changes: seq<Change>, ch: Change, before: map<string, Hit>,
                     after: map<string, Hit>, h: Hit)
    requires MergedAt(st, changes, before, h.fqn)
    requires h.fqn in after && after[h.fqn] == MergeHit(before, h)[h.fqn]
    requires ReachedBy(st, ch, h.fqn, h.hops) && h.severity == SeverityOf(ch)
    requires Explained(ChangeGraph(st, ch), ch.fqn, h)
    ensures MergedAt(st, changes + [ch], after, h.fqn)
  {
    hide ExplainedBySome, Explained;
    var v := h.fqn;
    ExplainedByLast(st, changes, ch, h);
    if v in before {
      ExplainedStays(st, changes, ch, v, before[v].why);
    }
    forall n ensures ReachedBySome(st, changes + [ch], v, n) <==> ReachedBySome(st, changes, v, n) || n == h.hops {
      ReachedBySomeSnoc(st, changes, ch, v, n);
      if ReachedBy(st, ch, v, n) {
        DistanceUnique(ChangeGraph(st, ch), ch.fqn, v, n, h.hops);
      }
    }
    BrokenBySomeSnoc(st, changes, ch, v);
    if v !in before {
      BrokenIsReached(st, changes, v);
    }
  }

  /** Folding one more change's blast radius in keeps the merge exact. */
  lemma MergeChange(st: Store, changes: seq<Change>, ch: Change, before: map<string, Hit>,
                    hits: seq<Hit>, after: map<string, Hit>)
    requires Merged(st, changes, before)
    requires BlastRadius(ChangeGraph(st, ch), ch.fqn, 5, SeverityOf(ch), hits)
    requires MergedUpTo(before, hits, |hits|, after)
    ensures Merged(st, changes + [ch], after)
  {
    forall v ensures MergedAt(st, changes + [ch], after, v) {
      assert MergedAt(st, changes, before, v);
      HitIffReached(st, ch, hits, v);
      if i :| 0 <= i < |hits| && hits[i].fqn == v {
        assert Genuine(ChangeGraph(st, ch), ch.fqn, 5, SeverityOf(ch), hits[i]);
        MergeReached(st, changes, ch, before, after, hits[i]);
      } else {
        MergeUnreached(st, changes, ch, before, after, v);
      }
    }
  }

  /** The merge does not depend on the order of the changes, nor on repeats. */
  lemma MergeOrderIrrelevant(st: Store, xs: seq<Change>, ys: seq<Change>, m: map<string, Hit>, n: map<string, Hit>)
    requires Merged(st, xs, m) && Merged(st, ys, n)
    requires forall ch :: ch in xs <==> ch in ys
    ensures m.Keys == n.Keys
    ensures forall v :: v in m ==> m[v].hops == n[v].hops && m[v].severity == n[v].severity
  {
    forall v ensures v in m <==> v in n
             ensures v in m ==> m[v].hops == n[v].hops && m[v].severity == n[v].severity {
      assert MergedAt(st, xs, m, v) && MergedAt(st, ys, n, v);
      if v in m {
        SameReach(st, xs, ys, v, m[v].hops);
      }
      if v in n {
        SameReach(st, ys, xs, v, n[v].hops);
      }
      SameBreaks(st, xs, ys, v);
      SameBreaks(st, ys, xs, v);
    }
  }

  lemma SameReach(st: Store, xs: seq<Change>, ys: seq<Change>, v: string, n: nat)
    requires forall ch :: ch in xs ==> ch in ys
    requires ReachedBySome(st, xs, v, n)
    ensures ReachedBySome(st, ys, v, n)
  {
    var i :| 0 <= i < |xs| && ReachedBy(st, xs[i], v, n);
    assert xs[i] in xs;
    var j :| 0 <= j < |ys| && ys[j] == xs[i];
  }

  lemma SameBreaks(st: Store, xs: seq<Change>, ys: seq<Change>, v: string)
    requires forall ch :: ch in xs ==> ch in ys
    ensures BrokenBySome(st, xs, v) ==> BrokenBySome(st, ys, v)
  {
    if BrokenBySome(st, xs, v) {
      var i, n :| 0 <= i < |xs| && ReachedBy(st, xs[i], v, n) && xs[i].kind in BREAKING_KINDS;
      assert xs[i] in xs;
      var j :| 0 <= j < |ys| && ys[j] == xs[i];
      assert ReachedBy(st, ys[j], v, n);
    }
  }

  // ---- tables of fully qualified names ---------------------------------------------

  function Dots(s: string): nat {
    if s == "" then 0 else Dots(s[..|s| - 1]) + if s[|s| - 1] == '.' then 1 else 0
  }

  function DropLastPart(s: string): string {
    if s == "" then "" else if s[|s| - 1] == '.' then s[..|s| - 1] else DropLastPart(s[..|s| - 1])
  }

  /** At least three dotted parts: drop the last; otherwise keep the name. */
  function TableOf(fqn: string): string {
    if Dots(fqn) >= 2 then DropLastPart(fqn) else fqn
  }

  lemma DotsAppend(s: string, t: string)
    ensures Dots(s + t) == Dots(s) + Dots(t)
  {
    if t == "" {
      assert s + t == s;
    } else {
      assert (s + t)[..|s + t| - 1] == s + t[..|t| - 1];
      DotsAppend(s, t[..|t| - 1]);
    }
  }

  lemma DropUndotted(s: string, t: string)
    requires Dots(t) == 0
    ensures DropLastPart(s + "." + t) == s
  {
    if t == "" {
      assert s + "." + t == s + ".";
      assert (s + ".")[..|s|] == s;
    } else {
      var all := s + "." + t;
      assert all[..|all| - 1] == s + "." + t[..|t| - 1];
      DropUndotted(s, t[..|t| - 1]);
    }
  }

  /** The last part is dropped when two or more are before it. */
  lemma LastPartDropped(prefix: string, part: string)
    requires Dots(part) == 0
    ensures TableOf(prefix + "." + part) == if Dots(prefix) >= 1 then prefix else prefix + "." + part
    ensures TableOf(part) == part
  {
    assert Dots(".") == 1 by {
      assert Dots("."[..0]) == 0;
    }
    DotsAppend(prefix, ".");
    DotsAppend(prefix + ".", part);
    DropUndotted(prefix, part);
  }

  /** A column schema.table.col belongs to schema.table, so column-level hits
      meet the table-keyed data-quality results. */
  lemma ColumnBelongsToTable(schema: string, table: string, col: string)
    requires Dots(schema) == 0 && Dots(table) == 0 && Dots(col) == 0
    ensures TableOf(schema + "." + table + "." + col) == schema + "." + table
    ensures TableOf(schema + "." + table) == schema + "." + table
  {
    assert Dots(".") == 1 by {
      assert Dots("."[..0]) == 0;
    }
    DotsAppend(schema, ".");
    DotsAppend(schema + ".", table);
    DotsAppend(schema + "." + table, ".");
    DotsAppend(schema + "." + table + ".", col);
    DropUndotted(schema + "." + table, col);
  }

  // ---- conclusion -----------------------------------------------------------------

  predicate Failing(d: DQRef) {
    d.status == "fail" || d.status == "error"
  }

  ghost function ConclusionOf(hits: seq<Hit>, dq: seq<DQRef>): string {
    if (exists d :: d in dq && Failing(d)) then "action_required"
    else if |hits| == 0 then "success"
    else if (exists h :: h in hits && h.severity == BREAKING) || |hits| >= 3 then "action_required"
    else "neutral"
  }

  method Conclusion(hits: seq<Hit>, dq: seq<DQRef>) returns (c: string)
    ensures c == ConclusionOf(hits, dq)
  {
    for i := 0 to |dq|
      invariant forall j :: 0 <= j < i ==> !Failing(dq[j])
    {
      if Failing(dq[i]) {
        return "action_required";
      }
    }
    var breaking := false;
    for i := 0 to |hits|
      invariant breaking <==> exists j :: 0 <= j < i && hits[j].severity == BREAKING
    {
      if hits[i].severity == BREAKING {
        breaking := true;
      }
    }
    if |hits| == 0 {
      return "success";
    }
    if breaking || |hits| >= 3 {
      return "action_required";
    }
    c := "neutral";
  }

  ghost function Gravity(conclusion: string): nat {
    if conclusion == "success" then 0 else if conclusion == "neutral" then 1 else 2
  }

  /** More hits or more data-quality refs never make the conclusion milder. */
  lemma ConclusionIsMonotone(hits: seq<Hit>, dq: seq<DQRef>, more: seq<Hit>, moreDq: seq<DQRef>)
    requires multiset(hits) <= multiset(more) && multiset(dq) <= multiset(moreDq)
    ensures Gravity(ConclusionOf(hits, dq)) <= Gravity(ConclusionOf(more, moreDq))
  {
    assert |hits| == |multiset(hits)| && |more| == |multiset(more)|;
    SubMultisetSize(multiset(hits), multiset(more));
    forall h | h in hits ensures h in more {
      assert h in multiset(hits);
    }
    forall d | d in dq ensures d in moreDq {
      assert d in multiset(dq);
    }
  }

  lemma SubMultisetSize<T>(a: multiset<T>, b: multiset<T>)
    requires a <= b
    ensures |a| <= |b|
  {
    assert b == a + (b - a);
  }

  // ---- the pipeline ---------------------------------------------------------------

  ghost predicate DqRefsExact(dqStatus: string -> Option<string>, tables: set<string>, refs: seq<DQRef>) {
    forall d :: d in refs <==> d.table in tables && dqStatus(d.table) == Some(d.status) && d.status != ""
  }

  ghost function TouchedTables(hits: seq<Hit>, changes: seq<Change>): set<string> {
    (set h | h in hits :: TableOf(h.fqn)) + (set ch | ch in changes :: TableOf(ch.fqn))
  }

  method AnalyzePR(st: Store, changes: seq<Change>, dqStatus: string -> Option<string>)
      returns (report: Option<Report>, ghost merged: map<string, Hit>)
    requires Serves(st)
    ensures report.None? ==> exists fqn :: st.downstream(fqn).None?
    ensures report.Some? ==>
      Merged(st, changes, merged)
      && |report.value.hits| == |merged| && Exactly(report.value.hits, merged)
      && DqRefsExact(dqStatus, TouchedTables(report.value.hits, changes), report.value.dqRefs)
      && report.value.conclusion == ConclusionOf(report.value.hits, report.value.dqRefs)
  {
    var all: map<string, Hit> := map[];
    for i := 0 to |changes|
      invariant Merged(st, changes[..i], all)
    {
      var hits := Preview(st, changes[i], 5);
      if hits.None? {
        return None, map[];
      }
      var next := MergeHits(all, hits.value);
      MergeChange(st, changes[..i], changes[i], all, hits.value, next);
      assert changes[..i + 1] == changes[..i] + [changes[i]];
      all := next;
    }
    assert changes[..|changes|] == changes;
    merged := all;
    assert forall v :: v in all ==> MergedAt(st, changes, all, v);
    var hits := ListHits(all);
    var tables := set h | h in hits :: TableOf(h.fqn);
    tables := tables + set ch | ch in changes :: TableOf(ch.fqn);
    var dqRefs := CollectDq(dqStatus, tables);
    var conclusion := Conclusion(hits, dqRefs);
    report := Some(Report(hits, dqRefs, conclusion));
  }

  method ListHits(merged: map<string, Hit>) returns (hits: seq<Hit>)
    requires forall v :: v in merged ==> merged[v].fqn == v
    ensures |hits| == |merged|
    ensures forall h :: h in hits <==> h.fqn in merged && merged[h.fqn] == h
  {
    hits := [];
    var todo := merged.Keys;
    while todo != {}
      invariant todo <= merged.Keys && |hits| + |todo| == |merged|
      invariant forall h :: h in hits <==> h.fqn in merged && h.fqn !in todo && merged[h.fqn] == h
    {
      var v :| v in todo;
      hits := hits + [merged[v]];
      todo := todo - {v};
    }
  }

  method CollectDq(dqStatus: string -> Option<string>, tables: set<string>) returns (refs: seq<DQRef>)
    ensures DqRefsExact(dqStatus, tables, refs)
  {
    refs := [];
    var todo := tables;
    while todo != {}
      invariant todo <= tables
      invariant DqRefsExact(dqStatus, tables - todo, refs)
    {
      var t :| t in todo;
      var status := dqStatus(t);
      if status.Some? && status.value != "" {
        refs := refs + [DQRef(t, status.value)];
      }
      todo := todo - {t};
    }
    assert tables - todo == tables;
  }

  /** What a conclusion says about the pull request: a breaking change that
      reaches anything asks for action, and success means no change reaches
      anything. */
  lemma ConclusionReflectsImpact(st: Store, changes: seq<Change>, merged: map<string, Hit>,
                                 hits: seq<Hit>, dq: seq<DQRef>)
    requires Merged(st, changes, merged)
    requires forall h :: h in hits <==> h.fqn in merged && merged[h.fqn] == h
    ensures (exists v :: BrokenBySome(st, changes, v)) ==> ConclusionOf(hits, dq) == "action_required"
    ensures ConclusionOf(hits, dq) == "success" ==> forall v, n :: !ReachedBySome(st, changes, v, n)
  {
    forall v | v in merged ensures merged[v] in hits {
      assert MergedAt(st, changes, merged, v);
    }
    if v :| BrokenBySome(st, changes, v) {
      var i, n :| 0 <= i < |changes| && ReachedBy(st, changes[i], v, n);
      assert ReachedBySome(st, changes, v, n);
      assert MergedAt(st, changes, merged, v);
    }
    if ConclusionOf(hits, dq) == "success" {
      forall v, n ensures !ReachedBySome(st, changes, v, n) {
        assert MergedAt(st, changes, merged, v);
      }
    }
  }

  // ---- the report, from the stored rows -----------------------------------------------

  /** The change puts v at n hops: n edges from the changed thing by the shortest
      way, at most five. Dropping, renaming or retyping a column follows the rows
      between columns only, any other change the rows between tables only. */
  ghost predicate Affects(rows: set<Edge>, ch: Change, v: string, n: nat) {
    var edgeType := if ch.kind in {"drop_column", "rename_column", "type_change"} then "column" else "table";
    0 < n <= 5 && Distance(set e | e in rows && e.edgeType == edgeType :: (e.upstream, e.downstream), ch.fqn, v, n)
  }

  ghost predicate IsBreaking(ch: Change) {
    ch.kind in {"drop_column", "drop_table", "rename_column", "rename_table", "type_change"}
  }

  lemma AffectsIsReached(st: Store, ch: Change, v: string, n: nat)
    ensures Affects(st.rows, ch, v, n) <==> ReachedBy(st, ch, v, n)
    ensures IsBreaking(ch) <==> ch.kind in BREAKING_KINDS
  {
    var edgeType := if ch.kind in {"drop_column", "rename_column", "type_change"} then "column" else "table";
    assert GraphOf(st.rows, edgeType)
        == set e | e in st.rows && e.edgeType == edgeType :: (e.upstream, e.downstream);
  }

  ghost predicate Exactly(hits: seq<Hit>, merged: map<string, Hit>) {
    forall h :: h in hits <==> h.fqn in merged && merged[h.fqn] == h
  }

  ghost predicate AffectedBySome(rows: set<Edge>, changes: seq<Change>, v: string, n: nat) {
    exists ch :: ch in changes && Affects(rows, ch, v, n)
  }

  ghost predicate BreaksUnder(rows: set<Edge>, changes: seq<Change>, v: string) {
    exists ch, n :: ch in changes && IsBreaking(ch) && Affects(rows, ch, v, n)
  }

  lemma AffectedIsReached(st: Store, changes: seq<Change>, v: string)
    ensures forall n :: AffectedBySome(st.rows, changes, v, n) <==> ReachedBySome(st, changes, v, n)
    ensures BreaksUnder(st.rows, changes, v) <==> BrokenBySome(st, changes, v)
  {
    hide Affects, ReachedBy, IsBreaking;
    forall ch, n ensures Affects(st.rows, ch, v, n) <==> ReachedBy(st, ch, v, n)
                 ensures IsBreaking(ch) <==> ch.kind in BREAKING_KINDS {
      AffectsIsReached(st, ch, v, n);
    }
    forall n ensures AffectedBySome(st.rows, changes, v, n) <==> ReachedBySome(st, changes, v, n) {
      if i :| 0 <= i < |changes| && ReachedBy(st, changes[i], v, n) {
        assert changes[i] in changes && Affects(st.rows, changes[i], v, n);
      }
    }
    if i, n :| 0 <= i < |changes| && ReachedBy(st, changes[i], v, n) && changes[i].kind in BREAKING_KINDS {
      assert changes[i] in changes && Affects(st.rows, changes[i], v, n);
    }
  }

  /** Main result: the merged report told from the stored rows and the changes
      alone. v is in it with n hops exactly when n is the least number any change
      puts it at, and as breaking exactly when a breaking change affects it. */
  lemma ReportedIff(st: Store, changes: seq<Change>, merged: map<string, Hit>, hits: seq<Hit>, v: string, n: nat)
    requires Merged(st, changes, merged) && Exactly(hits, merged)
    ensures (exists h :: h in hits && h.fqn == v && h.hops == n)
       <==> AffectedBySome(st.rows, changes, v, n)
            && forall m :: AffectedBySome(st.rows, changes, v, m) ==> n <= m
    ensures forall h :: h in hits && h.fqn == v ==>
              h.severity == if BreaksUnder(st.rows, changes, v) then "breaking" else "warning"
  {
    AffectedIsReached(st, changes, v);
    assert MergedAt(st, changes, merged, v);
    if v in merged {
      assert merged[v] in hits;
    }
  }

  /** The table of an affected node or of a changed thing. */
  ghost predicate Touched(rows: set<Edge>, changes: seq<Change>, t: string) {
    (exists v, n :: AffectedBySome(rows, changes, v, n) && t == TableOf(v))
    || exists ch :: ch in changes && t == TableOf(ch.fqn)
  }

  lemma TouchedIff(st: Store, changes: seq<Change>, merged: map<string, Hit>, hits: seq<Hit>, t: string)
    requires Merged(st, changes, merged) && Exactly(hits, merged)
    ensures Touched(st.rows, changes, t) <==> t in TouchedTables(hits, changes)
  {
    hide TableOf, AffectedBySome;
    forall v ensures (exists n :: AffectedBySome(st.rows, changes, v, n)) <==> v in merged
             ensures v in merged ==> merged[v] in hits && merged[v].fqn == v {
      AffectedIsReached(st, changes, v);
      assert MergedAt(st, changes, merged, v);
    }
    if h :| h in hits && t == TableOf(h.fqn) {
      var n :| AffectedBySome(st.rows, changes, h.fqn, n);
    }
    if v, n :| AffectedBySome(st.rows, changes, v, n) && t == TableOf(v) {
      assert merged[v] in hits;
    }
  }

  /** A touched table's latest data-quality run failed. */
  ghost predicate QualityFails(dqStatus: string -> Option<string>, rows: set<Edge>, changes: seq<Change>) {
    exists t :: Touched(rows, changes, t) && dqStatus(t) in {Some("fail"), Some("error")}
  }

  ghost predicate ThreeReached(rows: set<Edge>, changes: seq<Change>) {
    exists u, v, w, l, m, n ::
      u != v && v != w && w != u && AffectedBySome(rows, changes, u, l)
      && AffectedBySome(rows, changes, v, m) && AffectedBySome(rows, changes, w, n)
  }

  lemma ThreeKeys(merged: map<string, Hit>)
    requires |merged| >= 3
    ensures exists u, v, w :: u in merged && v in merged && w in merged && u != v && v != w && w != u
  {
    var keys := merged.Keys;
    assert |keys| == |merged|;
    var u :| u in keys;
    assert |keys - {u}| >= 2;
    var v :| v in keys - {u};
    assert |keys - {u} - {v}| >= 1;
    var w :| w in keys - {u} - {v};
  }

  lemma FewKeys(merged: map<string, Hit>, u: string, v: string, w: string)
    requires u in merged && v in merged && w in merged && u != v && v != w && w != u
    ensures |merged| >= 3
  {
    assert |merged.Keys| == |merged|;
    SubsetSize({u, v, w}, merged.Keys);
  }

  lemma SubsetSize<T>(s: set<T>, t: set<T>)
    requires s <= t
    ensures |s| <= |t|
  {
    assert t == s + (t - s);
  }

  lemma ThreeIff(st: Store, changes: seq<Change>, merged: map<string, Hit>)
    requires Merged(st, changes, merged)
    ensures ThreeReached(st.rows, changes) <==> |merged| >= 3
  {
    hide AffectedBySome, ReachedBySome;
    forall v ensures v in merged <==> exists n :: AffectedBySome(st.rows, changes, v, n) {
      AffectedIsReached(st, changes, v);
      assert MergedAt(st, changes, merged, v);
    }
    if |merged| >= 3 {
      ThreeKeys(merged);
    }
    if u, v, w, l, m, n :|
      u != v && v != w && w != u && AffectedBySome(st.rows, changes, u, l)
      && AffectedBySome(st.rows, changes, v, m) && AffectedBySome(st.rows, changes, w, n)
    {
      FewKeys(merged, u, v, w);
    }
  }

  lemma FailingIff(st: Store, changes: seq<Change>, dqStatus: string -> Option<string>, merged: map<string, Hit>,
                   hits: seq<Hit>, refs: seq<DQRef>)
    requires Merged(st, changes, merged) && Exactly(hits, merged)
    requires DqRefsExact(dqStatus, TouchedTables(hits, changes), refs)
    ensures (exists d :: d in refs && Failing(d)) <==> QualityFails(dqStatus, st.rows, changes)
  {
    hide Touched, TouchedTables, Merged;
    if t :| Touched(st.rows, changes, t) && dqStatus(t) in {Some("fail"), Some("error")} {
      TouchedIff(st, changes, merged, hits, t);
      assert DQRef(t, dqStatus(t).value) in refs;
    }
    if d :| d in refs && Failing(d) {
      TouchedIff(st, changes, merged, hits, d.table);
    }
  }

  /** Main result: the check run's conclusion told from the inputs. Action is
      required exactly when a touched table's tests fail or break, a breaking
      change affects anything, or three nodes are affected; it is a success
      exactly when no test fails and nothing is affected. */
  lemma ConclusionIff(st: Store, changes: seq<Change>, dqStatus: string -> Option<string>,
                      merged: map<string, Hit>, hits: seq<Hit>, refs: seq<DQRef>)
    requires Merged(st, changes, merged) && Exactly(hits, merged) && |hits| == |merged|
    requires DqRefsExact(dqStatus, TouchedTables(hits, changes), refs)
    ensures var c, rows := ConclusionOf(hits, refs), st.rows;
            (c == "action_required" <==>
               QualityFails(dqStatus, rows, changes)
               || (exists v :: BreaksUnder(rows, changes, v)) || ThreeReached(rows, changes))
            && (c == "success" <==>
                  !QualityFails(dqStatus, rows, changes)
                  && forall v, n :: !AffectedBySome(rows, changes, v, n))
            && c in {"action_required", "success", "neutral"}
  {
    hide AffectedBySome, BreaksUnder, ThreeReached, QualityFails, DqRefsExact, TouchedTables, Failing;
    FailingIff(st, changes, dqStatus, merged, hits, refs);
    ThreeIff(st, changes, merged);
    forall v
      ensures v in merged <==> exists n :: AffectedBySome(st.rows, changes, v, n)
      ensures v in merged ==> merged[v] in hits
                              && (merged[v].severity == BREAKING <==> BreaksUnder(st.rows, changes, v))
      ensures BreaksUnder(st.rows, changes, v) ==> v in merged
    {
      AffectedIsReached(st, changes, v);
      assert MergedAt(st, changes, merged, v);
      BrokenIsReached(st, changes, v);
    }
    if |hits| == 0 {
      forall v, n ensures !AffectedBySome(st.rows, changes, v, n) {
        assert v !in merged;
      }
    } else {
      assert hits[0] in hits && hits[0].fqn in merged;
    }
  }

  lemma BrokenIsReached(st: Store, changes: seq<Change>, v: string)
    ensures BrokenBySome(st, changes, v) ==> exists n :: ReachedBySome(st, changes, v, n)
  {
    if i, n :| 0 <= i < |changes| && ReachedBy(st, changes[i], v, n) && changes[i].kind in BREAKING_KINDS {
      assert ReachedBySome(st, changes, v, n);
    }
  }
}
