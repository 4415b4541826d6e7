/** walkProto in internal/router/table_extractor.go: every relation a SELECT
    names, in walking order. The source appends through a pointer; so do the
    methods, to a RefList. */
module TableWalk {
  import opened SqlAst

  datatype TableRef = TableRef(schema: string, table: string)

  function TablesOfSelect(sel: Select): seq<TableRef>
    decreases sel, 1
  {
    TablesOfFroms(sel.from) + TablesOfCtes(sel.ctes)
    + (if sel.larg.Some? then TablesOfSelect(sel.larg.value) else [])
    + (if sel.rarg.Some? then TablesOfSelect(sel.rarg.value) else [])
  }

  function TablesOfFroms(fs: seq<From>): seq<TableRef>
    decreases fs, 0
  {
    if |fs| == 0 then [] else TablesOfFroms(fs[..|fs| - 1]) + TablesOfFrom(fs[|fs| - 1])
  }

  function TablesOfFrom(f: From): seq<TableRef>
    decreases f, 0
  {
    match f
    case RangeVar(schema, rel, _) => if rel != "" then [TableRef(schema, rel)] else []
    case RangeSubselect(sub, _) => if sub.Some? then TablesOfSelect(sub.value) else []
    case JoinExpr(l, r) => TablesOfFrom(l) + TablesOfFrom(r)
    case FromOther => []
  }

  function TablesOfCtes(ctes: seq<Cte>): seq<TableRef>
    decreases ctes, 0
  {
    if |ctes| == 0 then []
    else
      var cte := ctes[|ctes| - 1];
      TablesOfCtes(ctes[..|ctes| - 1])
      + if cte.query.Some? then TablesOfSelect(cte.query.value) else []
  }

  class RefList {
    var items: seq<TableRef>

    constructor ()
      ensures items == []
    {
      items := [];
    }
  }

  method WalkSelect(sel: Select, out: RefList)
    modifies out
    ensures out.items == old(out.items) + TablesOfSelect(sel)
    decreases sel, 1
  {
    WalkFroms(sel.from, out);
    WalkCtes(sel.ctes, out);
    ghost var core := TablesOfFroms(sel.from) + TablesOfCtes(sel.ctes);
    assert out.items == old(out.items) + core;
    if sel.larg.Some? {
      WalkSelect(sel.larg.value, out);
    }
    assert out.items == old(out.items) + (core + if sel.larg.Some? then TablesOfSelect(sel.larg.value) else []);
    if sel.rarg.Some? {
      WalkSelect(sel.rarg.value, out);
    }
  }

  method WalkFroms(fs: seq<From>, out: RefList)
    modifies out
    ensures out.items == old(out.items) + TablesOfFroms(fs)
    decreases fs, 0
  {
    for i := 0 to |fs|
      invariant out.items == old(out.items) + TablesOfFroms(fs[..i])
    {
      assert fs[..i + 1][..i] == fs[..i];
      WalkFrom(fs[i], out);
    }
    assert fs[..|fs|] == fs;
  }

  method WalkCtes(ctes: seq<Cte>, out: RefList)
    modifies out
    ensures out.items == old(out.items) + TablesOfCtes(ctes)
    decreases ctes, 0
  {
    for i := 0 to |ctes|
      invariant out.items == old(out.items) + TablesOfCtes(ctes[..i])
    {
      assert ctes[..i + 1][..i] == ctes[..i];
      if ctes[i].query.Some? {
        WalkSelect(ctes[i].query.value, out);
      }
    }
    assert ctes[..|ctes|] == ctes;
  }

  method WalkFrom(f: From, out: RefList)
    modifies out
    ensures out.items == old(out.items) + TablesOfFrom(f)
    decreases f, 0
  {
    match f {
      case RangeVar(schema, rel, _) =>
        if rel != "" {
          out.items := out.items + [TableRef(schema, rel)];
        }
      case RangeSubselect(sub, _) =>
        if sub.Some? {
          WalkSelect(sub.value, out);
        }
      case JoinExpr(l, r) =>
        WalkFrom(l, out);
        WalkFrom(r, out);
      case FromOther =>
    }
  }

  // ---- the order ----------------------------------------------------------------------------

  ghost function Over(from: seq<From>): Select {
    Select(None, None, false, [], from, [])
  }

  lemma OneWalked(schema: string, rel: string, alias: string)
    ensures TablesOfSelect(Over([RangeVar(schema, rel, alias)])) == if rel == "" then [] else [TableRef(schema, rel)]
  {
    var fs := [RangeVar(schema, rel, alias)];
    assert fs[..0] == [];
    assert TablesOfFroms(fs) == TablesOfFroms(fs[..0]) + TablesOfFrom(fs[0]);
  }

  /** A WITH clause x AS (SELECT FROM t), then FROM s.a JOIN (SELECT FROM u) AS q: each
      relation once, as written and with its schema, FROM before WITH, left before
      right, whatever the aliases. */
  lemma WalkedInOrder(s: string, a: string, alias: string, q: string, u: string, x: string, t: string)
    requires a != "" && u != "" && t != ""
    ensures var sub, body := Over([RangeVar("", u, "")]), Over([RangeVar("", t, "")]);
            var from := [JoinExpr(RangeVar(s, a, alias), RangeSubselect(Some(sub), q))];
            TablesOfSelect(Select(None, None, false, [Cte(x, Some(body))], from, []))
            == [TableRef(s, a), TableRef("", u), TableRef("", t)]
  {
    var sub, body := Over([RangeVar("", u, "")]), Over([RangeVar("", t, "")]);
    var from := [JoinExpr(RangeVar(s, a, alias), RangeSubselect(Some(sub), q))];
    var ctes := [Cte(x, Some(body))];
    OneWalked("", u, "");
    OneWalked("", t, "");
    assert from[..0] == [] && ctes[..0] == [];
    assert TablesOfFroms(from) == TablesOfFroms(from[..0]) + TablesOfFrom(from[0]);
    assert TablesOfCtes(ctes) == TablesOfCtes(ctes[..0]) + TablesOfSelect(body);
  }

  /** Of a set operation the left arm comes before the right one. */
  lemma ArmsInOrder(l: Select, r: Select)
    ensures TablesOfSelect(Select(Some(l), Some(r), false, [], [], [])) == TablesOfSelect(l) + TablesOfSelect(r)
  {
    var empty: seq<TableRef> := [];
    assert TablesOfFroms([]) == empty && TablesOfCtes([]) == empty;
    assert empty + empty + TablesOfSelect(l) == TablesOfSelect(l);
  }
}
