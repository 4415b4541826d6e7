/** A second resolver, which binds a name only where a single item of the FROM
    clause can hold it and has no scopes, counts or labels. It lists exactly what
    is certain, so it tells which exact labels of internal/lineage/columns.go are
    deserved. */
module StrictLineage {
  import opened Identifiers
  import opened SqlAst
  import opened ColumnLineage
  import opened LineageConfidence
  import LineageCertainty

  /** Output column name -> upstream base columns. */
  type Columns = map<string, set<string>>
  type StrictEnv = map<string, Columns>

  ghost function Column(p: Columns, key: string): set<string> {
    if key in p then p[key] else {}
  }

  ghost function OfBothArms(l: Columns, r: Columns, key: string): set<string> {
    Column(l, key) + Column(r, key)
  }

  ghost function JoinColumns(l: Columns, r: Columns): Columns {
    map k | k in l.Keys + r.Keys :: OfBothArms(l, r, k)
  }

  ghost function Strict(sel: Select, outer: StrictEnv, depth: nat): Columns
    decreases sel, 1
  {
    if depth > MAX_COL_DEPTH then map[]
    else if sel.larg.Some? || sel.rarg.Some? then
      JoinColumns(if sel.larg.Some? then Strict(sel.larg.value, outer, depth + 1) else map[],
                  if sel.rarg.Some? then Strict(sel.rarg.value, outer, depth + 1) else map[])
    else StrictTargets(sel.targets, sel.from, StrictCtes(sel.ctes, outer, depth), depth)
  }

  ghost function StrictCtes(ctes: seq<Cte>, outer: StrictEnv, depth: nat): StrictEnv
    decreases ctes, 0
  {
    if |ctes| == 0 then outer
    else
      var env := StrictCtes(ctes[..|ctes| - 1], outer, depth);
      var cte := ctes[|ctes| - 1];
      if cte.query.Some? then env[Lower(cte.name) := Strict(cte.query.value, env, depth + 1)] else env
  }

  ghost function StrictTargets(targets: seq<Target>, fs: seq<From>, env: StrictEnv, depth: nat): Columns
    decreases fs, 3, |targets|
  {
    if |targets| == 0 then map[]
    else
      var p := StrictTargets(targets[..|targets| - 1], fs, env, depth);
      var t := targets[|targets| - 1];
      match TargetName(t)
      case None => p
      case Some(name) =>
        p[Lower(name) := Column(p, Lower(name)) + StrictRefs(ColumnRefsIn(t.val, 0), fs, env, depth)]
  }

  ghost function StrictRefs(refs: seq<seq<Field>>, fs: seq<From>, env: StrictEnv, depth: nat): set<string>
    decreases fs, 2, |refs|
  {
    if |refs| == 0 then {}
    else StrictRefs(refs[..|refs| - 1], fs, env, depth) + StrictRef(refs[|refs| - 1], fs, env, depth)
  }

  /** Nothing unless a single item has the qualifier, or there is only one item. */
  ghost function StrictRef(fields: seq<Field>, fs: seq<From>, env: StrictEnv, depth: nat): set<string>
    decreases fs, 1
  {
    var (parts, star) := FieldNames(fields);
    if star || |parts| == 0 then {}
    else
      var col := parts[|parts| - 1];
      if |parts| >= 2 then
        var qual := Lower(parts[|parts| - 2]);
        if ItemsNamed(fs, qual) == 1 then HeldByAny(fs, Some(qual), col, env, depth) else {}
      else if Items(fs) == 1 then HeldByAny(fs, None, col, env, depth)
      else {}
  }

  /** What the items of this name, or all of them, hold under a column name. */
  ghost function HeldByAny(fs: seq<From>, qual: Option<string>, col: string, env: StrictEnv, depth: nat): set<string>
    decreases fs, 0
  {
    if |fs| == 0 then {}
    else HeldByAny(fs[..|fs| - 1], qual, col, env, depth) + HeldBy(fs[|fs| - 1], qual, col, env, depth)
  }

  ghost function HeldBy(f: From, qual: Option<string>, col: string, env: StrictEnv, depth: nat): set<string>
    decreases f
  {
    match f
    case RangeVar(schema, rel, _) =>
      if qual.Some? && qual.value != Lower(AliasOf(f)) then {}
      else if Lower(rel) in env && schema == "" then Column(env[Lower(rel)], Lower(col))
      else {ColumnFqn(RelationName(schema, rel), col)}
    case RangeSubselect(sub, alias) =>
      if alias == "" || sub.None? || (qual.Some? && qual.value != Lower(alias)) then {}
      else Column(Strict(sub.value, env, depth + 1), Lower(col))
    case JoinExpr(l, r) => HeldBy(l, qual, col, env, depth) + HeldBy(r, qual, col, env, depth)
    case FromOther => {}
  }

  // ---- the certain derivations -------------------------------------------------------------

  /** The columns some certain derivation starts from. */
  ghost function Sure(ds: set<Derivation>): set<string> {
    set d | d in ds && Certain(d) :: d.fqn
  }

  ghost function SureAll(h: History): Columns {
    map k | k in h :: Sure(h[k])
  }

  ghost function SureEnv(env: map<string, History>): StrictEnv {
    map k | k in env :: SureAll(env[k])
  }

  lemma SureUnion(x: set<Derivation>, y: set<Derivation>)
    ensures Sure(x + y) == Sure(x) + Sure(y)
  {
  }

  lemma CertainLonger(d: Derivation, b: Binding)
    ensures Certain(Derivation(d.fqn, d.bindings + [b])) <==> Certain(d) && b.items == 1
  {
    var longer := Derivation(d.fqn, d.bindings + [b]);
    assert longer.bindings[|d.bindings|] == b;
    assert forall i :: 0 <= i < |d.bindings| ==> longer.bindings[i] == d.bindings[i];
  }

  lemma SureThrough(ds: set<Derivation>, b: Binding)
    ensures Sure(Through(ds, b)) == if b.items == 1 then Sure(ds) else {}
  {
    hide Certain;
    forall d | d in ds
      ensures Derivation(d.fqn, d.bindings + [b]) in Through(ds, b)
      ensures Certain(Derivation(d.fqn, d.bindings + [b])) <==> Certain(d) && b.items == 1
    {
      CertainLonger(d, b);
    }
    forall c | c in Sure(ds) && b.items == 1 ensures c in Sure(Through(ds, b)) {
      var d :| d in ds && Certain(d) && d.fqn == c;
      assert Derivation(d.fqn, d.bindings + [b]).fqn == c;
    }
  }

  // ---- one scope ---------------------------------------------------------------------------

  /** What a scope has under a name, before the binding is noted. */
  ghost function Under(sc: HistoryScope, qual: string, col: string): set<Derivation> {
    if qual in sc.tables then {Derivation(ColumnFqn(sc.tables[qual], col), [])}
    else if qual in sc.derived then At(sc.derived[qual], Lower(col))
    else {}
  }

  ghost predicate Unnamed(sc: HistoryScope, qual: string) {
    qual !in sc.tables && qual !in sc.derived
  }

  ghost function Times(names: seq<string>, name: string): nat {
    multiset(names)[name]
  }

  lemma TimesAppend(a: seq<string>, b: seq<string>, name: string)
    ensures Times(a + b, name) == Times(a, name) + Times(b, name)
  {
  }

  /** Adding items that have the name this often: none leaves alone what is under
      it, the only one decides it. */
  ghost predicate Decides(sc: HistoryScope, after: HistoryScope, times: nat, held: set<string>,
                          qual: string, col: string) {
    (times == 0 ==> held == {} && Under(after, qual, col) == Under(sc, qual, col)
                    && (Unnamed(sc, qual) ==> Unnamed(after, qual)))
    && (times == 1 && Unnamed(sc, qual) ==> Sure(Under(after, qual, col)) == held)
  }

  lemma {:induction false} ItemUnder(sc: HistoryScope, f: From, env: map<string, History>, depth: nat,
                                     qual: string, col: string)
    ensures Decides(sc, AddSource(sc, f, env, depth), Times(ItemNamesOf(f), qual),
                    HeldBy(f, Some(qual), col, SureEnv(env), depth), qual, col)
    decreases f, 0
  {
    hide Decides, Under, Unnamed, Sure, Lower, Times, SureAll, Strict, HistoryOfSelect;
    IgnoredDecides(sc, Times(ItemNamesOf(f), qual), qual, col);
    match f {
      case RangeVar(_, _, _) => TableUnder(sc, f, env, depth, qual, col);
      case RangeSubselect(sub, alias) =>
        if sub.Some? {
          SelectSure(sub.value, env, depth + 1);
          DerivedUnder(sc, Lower(alias), HistoryOfSelect(sub.value, env, depth + 1), qual, col);
        }
      case JoinExpr(l, r) =>
        var middle := AddSource(sc, l, env, depth);
        TimesAppend(ItemNamesOf(l), ItemNamesOf(r), qual);
        ItemUnder(sc, l, env, depth, qual, col);
        ItemUnder(middle, r, env, depth, qual, col);
        DecideTogether(sc, middle, AddSource(middle, r, env, depth),
                       Times(ItemNamesOf(l), qual), HeldBy(l, Some(qual), col, SureEnv(env), depth),
                       Times(ItemNamesOf(r), qual), HeldBy(r, Some(qual), col, SureEnv(env), depth), qual, col);
      case FromOther =>
    }
  }

  lemma IgnoredDecides(sc: HistoryScope, times: nat, qual: string, col: string)
    ensures Decides(sc, sc, times, {}, qual, col)
  {
  }

  lemma DecideTogether(sc: HistoryScope, middle: HistoryScope, after: HistoryScope, m: nat, held: set<string>,
                       n: nat, more: set<string>, qual: string, col: string)
    requires Decides(sc, middle, m, held, qual, col) && Decides(middle, after, n, more, qual, col)
    ensures Decides(sc, after, m + n, held + more, qual, col)
  {
    hide Under, Unnamed, Sure;
  }

  lemma DerivedUnder(sc: HistoryScope, alias: string, h: History, qual: string, col: string)
    ensures Decides(sc, sc.(derived := sc.derived[alias := h]), Times([alias], qual),
                    if qual == alias then Column(SureAll(h), Lower(col)) else {}, qual, col)
  {
    hide Lower, Sure;
    SureAt(h, Lower(col));
  }

  lemma TableUnder(sc: HistoryScope, f: From, env: map<string, History>, depth: nat, qual: string, col: string)
    requires f.RangeVar?
    ensures Decides(sc, AddSource(sc, f, env, depth), Times(ItemNamesOf(f), qual),
                    HeldBy(f, Some(qual), col, SureEnv(env), depth), qual, col)
  {
    hide Lower, Sure;
    if Lower(f.rel) in env && f.schema == "" {
      DerivedUnder(sc, Lower(AliasOf(f)), env[Lower(f.rel)], qual, col);
    } else {
      SureOfOne(RelationName(f.schema, f.rel), col);
    }
  }

  lemma SureOfOne(t: string, col: string)
    ensures Sure({Derivation(ColumnFqn(t, col), [])}) == {ColumnFqn(t, col)}
  {
    var d := Derivation(ColumnFqn(t, col), []);
    assert Certain(d) && d in {d};
  }

  lemma SureAt(h: History, key: string)
    ensures Column(SureAll(h), key) == Sure(At(h, key))
  {
  }

  lemma {:induction false} ItemsUnder(fs: seq<From>, env: map<string, History>, depth: nat, qual: string, col: string)
    ensures var sc := AddSources(NO_SOURCES, fs, env, depth);
            var held := HeldByAny(fs, Some(qual), col, SureEnv(env), depth);
            (ItemsNamed(fs, qual) == 0 ==> held == {} && Unnamed(sc, qual))
            && (ItemsNamed(fs, qual) == 1 ==> Sure(Under(sc, qual, col)) == held)
    decreases fs, 0
  {
    if |fs| > 0 {
      var n := |fs| - 1;
      ItemsUnder(fs[..n], env, depth, qual, col);
      ItemUnder(AddSources(NO_SOURCES, fs[..n], env, depth), fs[n], env, depth, qual, col);
      TimesAppend(ItemNames(fs[..n]), ItemNamesOf(fs[n]), qual);
    }
  }

  lemma {:induction false} SomeItem(f: From)
    ensures ItemsOf(f) >= 1
    decreases f
  {
    if f.JoinExpr? {
      SomeItem(f.left);
      SomeItem(f.right);
    }
  }

  /** One item: the clause is that item. */
  lemma {:induction false} SoleItem(fs: seq<From>)
    requires Items(fs) == 1
    ensures |fs| == 1 && !fs[0].JoinExpr?
  {
    var n := |fs| - 1;
    SomeItem(fs[n]);
    if n > 0 {
      SomeItem(fs[n - 1]);
    }
    if fs[n].JoinExpr? {
      SomeItem(fs[n].left);
      SomeItem(fs[n].right);
    }
  }

  lemma OneSource(fs: seq<From>, env: map<string, History>, depth: nat, col: string)
    requires Items(fs) == 1
    ensures var sc := AddSources(NO_SOURCES, fs, env, depth);
            Sure(FromBases(sc.bases, col) + FromDerived(sc.derived, Lower(col)))
            == HeldByAny(fs, None, col, SureEnv(env), depth)
    decreases fs, 0
  {
    SoleItem(fs);
    var f := fs[0];
    assert fs[..0] == [];
    assert HeldByAny(fs[..0], None, col, SureEnv(env), depth) == {};
    if f.RangeSubselect? && f.sub.Some? {
      SelectSure(f.sub.value, env, depth + 1);
    }
    LeafHeld(f, env, depth, col);
  }

  lemma LeafHeld(f: From, env: map<string, History>, depth: nat, col: string)
    requires !f.JoinExpr?
    requires f.RangeSubselect? && f.sub.Some? ==>
               SureAll(HistoryOfSelect(f.sub.value, env, depth + 1)) == Strict(f.sub.value, SureEnv(env), depth + 1)
    ensures var sc := AddSource(NO_SOURCES, f, env, depth);
            Sure(FromBases(sc.bases, col) + FromDerived(sc.derived, Lower(col)))
            == HeldBy(f, None, col, SureEnv(env), depth)
  {
    hide Lower, HistoryOfSelect, Strict, Certain, FromBases, FromDerived, Sure;
    var sc := AddSource(NO_SOURCES, f, env, depth);
    var b, d := FromBases(sc.bases, col), FromDerived(sc.derived, Lower(col));
    SureUnion(b, d);
    NoneHeld(col);
    match f {
      case RangeVar(schema, rel, _) =>
        if Lower(rel) in env && schema == "" {
          OneDerived(Lower(AliasOf(f)), env[Lower(rel)], Lower(col));
          SureAt(env[Lower(rel)], Lower(col));
        } else {
          assert sc.bases == [RelationName(schema, rel)];
          LineageCertainty.OneBase(RelationName(schema, rel), col);
          SureOfOne(RelationName(schema, rel), col);
        }
      case RangeSubselect(sub, alias) =>
        if alias != "" && sub.Some? {
          OneDerived(Lower(alias), HistoryOfSelect(sub.value, env, depth + 1), Lower(col));
          SureAt(HistoryOfSelect(sub.value, env, depth + 1), Lower(col));
        }
      case FromOther =>
    }
  }

  lemma NoneHeld(col: string)
    ensures FromBases([], col) == {} && FromDerived(map[], Lower(col)) == {} && Sure({}) == {}
  {
  }

  lemma OneDerived(alias: string, h: History, key: string)
    ensures FromDerived(map[alias := h], key) == At(h, key)
  {
    var derived := map[alias := h];
    assert alias in derived && derived[alias] == h;
  }

  lemma RefSure(fs: seq<From>, env: map<string, History>, depth: nat, fields: seq<Field>)
    ensures Sure(Bind(AddSources(NO_SOURCES, fs, env, depth), Clause(fs, env.Keys), fields))
         == StrictRef(fields, fs, SureEnv(env), depth)
    decreases fs, 2
  {
    hide Lower, AddSources, HeldByAny, Items, ItemsNamed, Bind, Sure;
    var (parts, star) := FieldNames(fields);
    if star || |parts| == 0 {
      NothingBound(AddSources(NO_SOURCES, fs, env, depth), Clause(fs, env.Keys), fields);
    } else if |parts| >= 2 {
      QualifiedSure(fs, env, depth, fields);
    } else {
      UnqualifiedSure(fs, env, depth, fields);
    }
  }

  lemma NothingBound(sc: HistoryScope, cl: Clause, fields: seq<Field>)
    requires var (parts, star) := FieldNames(fields); star || |parts| == 0
    ensures Sure(Bind(sc, cl, fields)) == {}
  {
  }

  lemma QualifiedSure(fs: seq<From>, env: map<string, History>, depth: nat, fields: seq<Field>)
    requires var (parts, star) := FieldNames(fields); !star && |parts| >= 2
    ensures var parts := FieldNames(fields).0;
            var qual := Lower(parts[|parts| - 2]);
            Sure(Bind(AddSources(NO_SOURCES, fs, env, depth), Clause(fs, env.Keys), fields))
            == if ItemsNamed(fs, qual) == 1
               then HeldByAny(fs, Some(qual), parts[|parts| - 1], SureEnv(env), depth) else {}
    decreases fs, 1
  {
    hide Lower, AddSources, HeldByAny, ItemsNamed, Through, Bind, Sure;
    var parts := FieldNames(fields).0;
    var qual, col := Lower(parts[|parts| - 2]), parts[|parts| - 1];
    var sc, cl := AddSources(NO_SOURCES, fs, env, depth), Clause(fs, env.Keys);
    ItemsUnder(fs, env, depth, qual, col);
    NamedIsThrough(sc, cl, fields);
    SureThrough(Under(sc, qual, col), Binding(1, ItemsNamed(fs, qual), cl, Some(qual)));
  }

  lemma UnqualifiedSure(fs: seq<From>, env: map<string, History>, depth: nat, fields: seq<Field>)
    requires var (parts, star) := FieldNames(fields); !star && |parts| == 1
    ensures Sure(Bind(AddSources(NO_SOURCES, fs, env, depth), Clause(fs, env.Keys), fields))
         == if Items(fs) == 1 then HeldByAny(fs, None, FieldNames(fields).0[0], SureEnv(env), depth) else {}
    decreases fs, 1
  {
    hide Lower, AddSources, HeldByAny, Items, Through, FromBases, FromDerived, Sure;
    var col := FieldNames(fields).0[0];
    var sc, cl := AddSources(NO_SOURCES, fs, env, depth), Clause(fs, env.Keys);
    if Items(fs) == 1 {
      OneSource(fs, env, depth, col);
    }
    SureThrough(FromBases(sc.bases, col) + FromDerived(sc.derived, Lower(col)),
                Binding(|sc.bases| + |sc.derived|, Items(fs), cl, None));
  }

  lemma NamedIsThrough(sc: HistoryScope, cl: Clause, fields: seq<Field>)
    requires var (parts, star) := FieldNames(fields); !star && |parts| >= 2
    ensures var parts := FieldNames(fields).0;
            var qual := Lower(parts[|parts| - 2]);
            Bind(sc, cl, fields) == Through(Under(sc, qual, parts[|parts| - 1]),
                                            Binding(1, ItemsNamed(cl.from, qual), cl, Some(qual)))
  {
    hide Lower, ItemsNamed;
    var parts := FieldNames(fields).0;
    var qual, col := Lower(parts[|parts| - 2]), parts[|parts| - 1];
    var b := Binding(1, ItemsNamed(cl.from, qual), cl, Some(qual));
    if qual in sc.tables {
      LineageCertainty.ThroughOne(Derivation(ColumnFqn(sc.tables[qual], col), []), b);
      assert [] + [b] == [b];
    }
  }

  lemma {:induction false} RefsSure(fs: seq<From>, env: map<string, History>, depth: nat, refs: seq<seq<Field>>)
    ensures Sure(BindAll(AddSources(NO_SOURCES, fs, env, depth), Clause(fs, env.Keys), refs))
         == StrictRefs(refs, fs, SureEnv(env), depth)
    decreases fs, 3, |refs|
  {
    hide AddSources, Bind, StrictRef, Sure, Certain;
    var sc, cl := AddSources(NO_SOURCES, fs, env, depth), Clause(fs, env.Keys);
    if |refs| == 0 {
      NoneHeld("");
    } else {
      var n := |refs| - 1;
      RefsSure(fs, env, depth, refs[..n]);
      RefSure(fs, env, depth, refs[n]);
      SureUnion(BindAll(sc, cl, refs[..n]), Bind(sc, cl, refs[n]));
    }
  }

  lemma SureAppend(h: History, key: string, ds: set<Derivation>)
    ensures SureAll(h[key := At(h, key) + ds]) == SureAll(h)[key := Column(SureAll(h), key) + Sure(ds)]
  {
    SureUnion(At(h, key), ds);
    SureAt(h, key);
  }

  lemma {:induction false} TargetsSure(targets: seq<Target>, fs: seq<From>, env: map<string, History>, depth: nat)
    ensures SureAll(HistoryOfTargets(targets, AddSources(NO_SOURCES, fs, env, depth), Clause(fs, env.Keys)))
         == StrictTargets(targets, fs, SureEnv(env), depth)
    decreases fs, 4, |targets|
  {
    hide AddSources, BindAll, StrictRefs, Sure, Certain, Lower, ColumnRefsIn;
    if |targets| > 0 {
      var n := |targets| - 1;
      var sc, cl := AddSources(NO_SOURCES, fs, env, depth), Clause(fs, env.Keys);
      TargetsSure(targets[..n], fs, env, depth);
      if TargetName(targets[n]).Some? {
        var refs := ColumnRefsIn(targets[n].val, 0);
        RefsSure(fs, env, depth, refs);
        SureAppend(HistoryOfTargets(targets[..n], sc, cl), Lower(TargetName(targets[n]).value), BindAll(sc, cl, refs));
      }
    }
  }

  lemma SureEnvUpdate(env: map<string, History>, key: string, h: History)
    ensures SureEnv(env[key := h]) == SureEnv(env)[key := SureAll(h)]
  {
  }

  lemma {:induction false} CtesSure(ctes: seq<Cte>, env: map<string, History>, depth: nat)
    ensures SureEnv(HistoryOfCtes(ctes, env, depth)) == StrictCtes(ctes, SureEnv(env), depth)
    decreases ctes, 0
  {
    hide Lower, SureAll;
    if |ctes| > 0 {
      var n := |ctes| - 1;
      var before := HistoryOfCtes(ctes[..n], env, depth);
      CtesSure(ctes[..n], env, depth);
      if ctes[n].query.Some? {
        SelectSure(ctes[n].query.value, before, depth + 1);
        SureEnvUpdate(before, Lower(ctes[n].name), HistoryOfSelect(ctes[n].query.value, before, depth + 1));
      }
    }
  }

  lemma ArmsSure(l: History, r: History)
    ensures SureAll(JoinHistories(l, r)) == JoinColumns(SureAll(l), SureAll(r))
  {
    hide Sure, BothArms, OfBothArms;
    var x, y := SureAll(JoinHistories(l, r)), JoinColumns(SureAll(l), SureAll(r));
    assert x.Keys == y.Keys;
    forall k | k in x ensures x[k] == y[k] {
      ArmSure(l, r, k);
    }
  }

  lemma ArmSure(l: History, r: History, k: string)
    ensures Sure(BothArms(l, r, k)) == OfBothArms(SureAll(l), SureAll(r), k)
  {
    hide Sure, At;
    SureUnion(At(l, k), At(r, k));
    SureAt(l, k);
    SureAt(r, k);
  }

  /** Through any nesting: the strict resolver lists what certain derivations
      start from. */
  lemma SelectSure(sel: Select, env: map<string, History>, depth: nat)
    ensures SureAll(HistoryOfSelect(sel, env, depth)) == Strict(sel, SureEnv(env), depth)
    decreases sel, 1
  {
    hide SureAll, JoinHistories, JoinColumns, HistoryOfTargets, StrictTargets, AddSources;
    NothingSure();
    if depth > MAX_COL_DEPTH {
    } else if sel.larg.Some? || sel.rarg.Some? {
      if sel.larg.Some? {
        SelectSure(sel.larg.value, env, depth + 1);
      }
      if sel.rarg.Some? {
        SelectSure(sel.rarg.value, env, depth + 1);
      }
      ArmsSure(if sel.larg.Some? then HistoryOfSelect(sel.larg.value, env, depth + 1) else map[],
               if sel.rarg.Some? then HistoryOfSelect(sel.rarg.value, env, depth + 1) else map[]);
    } else {
      CtesSure(sel.ctes, env, depth);
      TargetsSure(sel.targets, sel.from, HistoryOfCtes(sel.ctes, env, depth), depth);
    }
  }

  lemma NothingSure()
    ensures SureAll(map[]) == map[] && SureEnv(map[]) == map[]
  {
  }

  // ---- the labels --------------------------------------------------------------------------

  ghost function StrictlyListed(query: Select, col: string): set<string> {
    Column(Strict(query, map[], 0), col)
  }

  /** Main result, every query: a column has a certain derivation exactly when the
      strict resolver lists it, and then its edge is labelled exact. So an exact
      edge is deserved exactly when it is strictly listed. */
  lemma ExactIsDeservedIff(query: Select, downstream: string, hash: string, fqn: string, col: string)
    requires fqn != ""
    ensures (exists d :: LineageCertainty.DerivationFor(query, col, d) && d.fqn == fqn && Certain(d))
       <==> fqn in StrictlyListed(query, col)
    ensures fqn in StrictlyListed(query, col)
        ==> EdgeOf(fqn, downstream, col, CONF_EXACT, hash) in ColumnEdges(Some(query), downstream, hash)
  {
    hide Strict, Certain;
    SelectSure(query, map[], 0);
    NothingSure();
    var h := HistoryOfSelect(query, map[], 0);
    SureAt(h, col);
    if fqn in StrictlyListed(query, col) {
      var d :| d in At(h, col) && Certain(d) && d.fqn == fqn;
      assert LineageCertainty.DerivationFor(query, col, d);
      LineageCertainty.CertainIff(query, col, d);
      assert Label(d) == ColRef(fqn, CONF_EXACT);
      EdgesAreLabels(query, downstream, hash, fqn, col, CONF_EXACT);
    }
  }
}
