/** internal/api/schema_diff.go: the difference of two schema snapshots. The
    order in which Go walks a map is arbitrary here as there. */
module SchemaDiff {

  datatype Column = Column(name: string, typ: string, nullable: bool)
  datatype Table = Table(schema: string, name: string, rowCount: int, columns: seq<Column>)

  datatype ColRef = ColRef(table: string, column: string, typ: string)
  datatype TypeChange = TypeChange(table: string, column: string, oldType: string, newType: string)
  datatype Diff = Diff(
    addedTables: seq<string>,
    droppedTables: seq<string>,
    addedColumns: seq<ColRef>,
    droppedColumns: seq<ColRef>,
    typeChanges: seq<TypeChange>)

  // ---- snapshots as maps ----------------------------------------------------------------

  function Fqn(t: Table): string {
    if t.schema != "" then t.schema + "." + t.name else t.name
  }

  ghost function Index(s: seq<Table>): map<string, Table> {
    if |s| == 0 then map[] else Index(s[..|s| - 1])[Fqn(s[|s| - 1]) := s[|s| - 1]]
  }

  ghost function ColumnIndex(cols: seq<Column>): map<string, Column> {
    if |cols| == 0 then map[] else ColumnIndex(cols[..|cols| - 1])[cols[|cols| - 1].name := cols[|cols| - 1]]
  }

  type Columns = map<string, string>
  type Schema = map<string, Columns>

  ghost function TypesOf(cols: map<string, Column>): Columns {
    map c | c in cols :: cols[c].typ
  }

  ghost function TableTypes(t: Table): Columns {
    TypesOf(ColumnIndex(t.columns))
  }

  /** Table to column to type: all that a diff looks at. */
  ghost function SchemaOf(s: seq<Table>): Schema {
    map t | t in Index(s) :: TableTypes(Index(s)[t])
  }

  lemma {:induction false} IndexHas(s: seq<Table>, name: string)
    ensures name in Index(s) <==> exists i :: 0 <= i < |s| && Fqn(s[i]) == name
  {
    if |s| > 0 {
      var n := |s| - 1;
      IndexHas(s[..n], name);
      assert forall i :: 0 <= i < n ==> s[..n][i] == s[i];
    }
  }

  /** The last table of a name is the one that counts. */
  lemma {:induction false} IndexIsLast(s: seq<Table>, i: nat)
    requires i < |s| && forall j :: i < j < |s| ==> Fqn(s[j]) != Fqn(s[i])
    ensures Fqn(s[i]) in Index(s) && Index(s)[Fqn(s[i])] == s[i]
  {
    var n := |s| - 1;
    if i < n {
      assert forall j :: i < j < n ==> s[..n][j] == s[j];
      IndexIsLast(s[..n], i);
    }
  }

  // ---- what a diff says -------------------------------------------------------------------

  /** No element twice. */
  ghost predicate Distinct<T>(s: seq<T>) {
    forall i, j :: 0 <= i < j < |s| ==> s[i] != s[j]
  }

  ghost predicate IsNewTable(x: Schema, y: Schema, t: string) {
    t in y && t !in x
  }

  ghost predicate IsNewColumn(x: Schema, y: Schema, r: ColRef) {
    r.table in x && r.table in y && r.column in y[r.table] && r.column !in x[r.table]
    && r.typ == y[r.table][r.column]
  }

  ghost predicate IsTypeChange(x: Schema, y: Schema, c: TypeChange) {
    c.table in x && c.table in y && c.column in x[c.table] && c.column in y[c.table]
    && c.oldType == x[c.table][c.column] && c.newType == y[c.table][c.column] && c.oldType != c.newType
  }

  ghost predicate IsDiff(x: Schema, y: Schema, d: Diff) {
    Distinct(d.addedTables) && (forall t :: t in d.addedTables <==> IsNewTable(x, y, t))
    && Distinct(d.droppedTables) && (forall t :: t in d.droppedTables <==> IsNewTable(y, x, t))
    && Distinct(d.addedColumns) && (forall r :: r in d.addedColumns <==> IsNewColumn(x, y, r))
    && Distinct(d.droppedColumns) && (forall r :: r in d.droppedColumns <==> IsNewColumn(y, x, r))
    && Distinct(d.typeChanges) && (forall c :: c in d.typeChanges <==> IsTypeChange(x, y, c))
  }

  // ---- the code ----------------------------------------------------------------------------

  method IndexSnapshot(s: seq<Table>) returns (out: map<string, Table>)
    ensures out == Index(s)
  {
    out := map[];
    for i := 0 to |s|
      invariant out == Index(s[..i])
    {
      assert s[..i + 1][..i] == s[..i];
      var t := s[i];
      var fqn := t.name;
      if t.schema != "" {
        fqn := t.schema + "." + t.name;
      }
      out := out[fqn := t];
    }
    assert s[..|s|] == s;
  }

  method ColMap(cols: seq<Column>) returns (out: map<string, Column>)
    ensures out == ColumnIndex(cols)
  {
    out := map[];
    for i := 0 to |cols|
      invariant out == ColumnIndex(cols[..i])
    {
      assert cols[..i + 1][..i] == cols[..i];
      out := out[cols[i].name := cols[i]];
    }
    assert cols[..|cols|] == cols;
  }

  lemma DistinctSnoc<T>(s: seq<T>, x: T)
    requires Distinct(s) && x !in s
    ensures Distinct(s + [x])
  {
  }

  lemma DistinctAppend<T>(s: seq<T>, t: seq<T>)
    requires Distinct(s) && Distinct(t) && forall x :: x in s ==> x !in t
    ensures Distinct(s + t)
  {
    forall i, j | 0 <= i < j < |s + t| ensures (s + t)[i] != (s + t)[j] {
      if i < |s| <= j {
        assert s[i] in s && t[j - |s|] in t;
      }
    }
  }

  /** The tables of one index that the other has not. */
  method TablesOnlyIn(here: map<string, Table>, there: map<string, Table>) returns (names: seq<string>)
    ensures Distinct(names) && forall t :: t in names <==> t in here && t !in there
  {
    names := [];
    var todo := here.Keys;
    while todo != {}
      invariant todo <= here.Keys && Distinct(names)
      invariant forall t :: t in names <==> t in here && t !in todo && t !in there
      decreases |todo|
    {
      var fqn :| fqn in todo;
      if fqn !in there {
        DistinctSnoc(names, fqn);
        names := names + [fqn];
      }
      todo := todo - {fqn};
    }
  }

  ghost predicate OnlyHere(fqn: string, here: map<string, Column>, there: map<string, Column>, r: ColRef) {
    r.table == fqn && r.column in here && r.column !in there && r.typ == here[r.column].typ
  }

  /** The columns of one version of a table that the other has not. */
  method ColumnsOnlyIn(fqn: string, here: map<string, Column>, there: map<string, Column>) returns (refs: seq<ColRef>)
    ensures Distinct(refs) && forall r :: r in refs <==> OnlyHere(fqn, here, there, r)
  {
    refs := [];
    var todo := here.Keys;
    while todo != {}
      invariant todo <= here.Keys && Distinct(refs)
      invariant forall r :: r in refs <==> r.column !in todo && OnlyHere(fqn, here, there, r)
      decreases |todo|
    {
      var name :| name in todo;
      if name !in there {
        var r := ColRef(fqn, name, here[name].typ);
        DistinctSnoc(refs, r);
        refs := refs + [r];
      }
      todo := todo - {name};
    }
  }

  ghost predicate ChangedHere(fqn: string, old': map<string, Column>, new': map<string, Column>, c: TypeChange) {
    c.table == fqn && c.column in old' && c.column in new' && old'[c.column].typ != new'[c.column].typ
    && c.oldType == old'[c.column].typ && c.newType == new'[c.column].typ
  }

  method ChangesOf(fqn: string, old': map<string, Column>, new': map<string, Column>) returns (changes: seq<TypeChange>)
    ensures Distinct(changes) && forall c :: c in changes <==> ChangedHere(fqn, old', new', c)
  {
    changes := [];
    var todo := old'.Keys;
    while todo != {}
      invariant todo <= old'.Keys && Distinct(changes)
      invariant forall c :: c in changes <==> c.column !in todo && ChangedHere(fqn, old', new', c)
      decreases |todo|
    {
      var name :| name in todo;
      if name in new' && old'[name].typ != new'[name].typ {
        var c := TypeChange(fqn, name, old'[name].typ, new'[name].typ);
        DistinctSnoc(changes, c);
        changes := changes + [c];
      }
      todo := todo - {name};
    }
  }

  /** The column lists when the tables in todo are still to come. */
  ghost predicate ColumnsSoFar(x: Schema, y: Schema, todo: set<string>, added: seq<ColRef>,
                               dropped: seq<ColRef>, changed: seq<TypeChange>) {
    Distinct(added) && (forall r :: r in added <==> r.table !in todo && IsNewColumn(x, y, r))
    && Distinct(dropped) && (forall r :: r in dropped <==> r.table !in todo && IsNewColumn(y, x, r))
    && Distinct(changed) && (forall c :: c in changed <==> c.table !in todo && IsTypeChange(x, y, c))
  }

  lemma FirstTables(x: Schema, y: Schema)
    ensures ColumnsSoFar(x, y, x.Keys, [], [], [])
  {
  }

  lemma SkipTable(x: Schema, y: Schema, todo: set<string>, fqn: string, added: seq<ColRef>,
                  dropped: seq<ColRef>, changed: seq<TypeChange>)
    requires ColumnsSoFar(x, y, todo, added, dropped, changed) && fqn !in y
    ensures ColumnsSoFar(x, y, todo - {fqn}, added, dropped, changed)
  {
  }

  lemma NextTable(x: Schema, y: Schema, todo: set<string>, fqn: string,
                  aCols: map<string, Column>, bCols: map<string, Column>,
                  added: seq<ColRef>, dropped: seq<ColRef>, changed: seq<TypeChange>,
                  moreAdded: seq<ColRef>, moreDropped: seq<ColRef>, moreChanged: seq<TypeChange>)
    requires ColumnsSoFar(x, y, todo, added, dropped, changed) && fqn in todo && fqn in x && fqn in y
    requires x[fqn] == TypesOf(aCols) && y[fqn] == TypesOf(bCols)
    requires Distinct(moreAdded) && forall r :: r in moreAdded <==> OnlyHere(fqn, bCols, aCols, r)
    requires Distinct(moreDropped) && forall r :: r in moreDropped <==> OnlyHere(fqn, aCols, bCols, r)
    requires Distinct(moreChanged) && forall c :: c in moreChanged <==> ChangedHere(fqn, aCols, bCols, c)
    ensures ColumnsSoFar(x, y, todo - {fqn}, added + moreAdded, dropped + moreDropped, changed + moreChanged)
  {
    DistinctAppend(added, moreAdded);
    DistinctAppend(dropped, moreDropped);
    DistinctAppend(changed, moreChanged);
  }

  lemma AllTables(x: Schema, y: Schema, d: Diff)
    requires Distinct(d.addedTables) && forall t :: t in d.addedTables <==> t in y && t !in x
    requires Distinct(d.droppedTables) && forall t :: t in d.droppedTables <==> t in x && t !in y
    requires ColumnsSoFar(x, y, {}, d.addedColumns, d.droppedColumns, d.typeChanges)
    ensures IsDiff(x, y, d)
  {
  }

  method DiffSnapshots(a: seq<Table>, b: seq<Table>) returns (d: Diff)
    ensures IsDiff(SchemaOf(a), SchemaOf(b), d)
  {
    ghost var x, y := SchemaOf(a), SchemaOf(b);
    var ai := IndexSnapshot(a);
    var bi := IndexSnapshot(b);
    var addedTables := TablesOnlyIn(bi, ai);
    var droppedTables := TablesOnlyIn(ai, bi);
    var added: seq<ColRef>, dropped: seq<ColRef>, changed: seq<TypeChange> := [], [], [];
    var todo := ai.Keys;
    FirstTables(x, y);
    assert todo == x.Keys && bi.Keys == y.Keys;
    while todo != {}
      invariant todo <= ai.Keys && ColumnsSoFar(x, y, todo, added, dropped, changed)
      decreases |todo|
    {
      var fqn :| fqn in todo;
      if fqn in bi {
        var aCols := ColMap(ai[fqn].columns);
        var bCols := ColMap(bi[fqn].columns);
        var moreAdded := ColumnsOnlyIn(fqn, bCols, aCols);
        var moreDropped := ColumnsOnlyIn(fqn, aCols, bCols);
        var moreChanged := ChangesOf(fqn, aCols, bCols);
        NextTable(x, y, todo, fqn, aCols, bCols, added, dropped, changed, moreAdded, moreDropped, moreChanged);
        added, dropped, changed := added + moreAdded, dropped + moreDropped, changed + moreChanged;
      } else {
        SkipTable(x, y, todo, fqn, added, dropped, changed);
      }
      todo := todo - {fqn};
    }
    d := Diff(addedTables, droppedTables, added, dropped, changed);
    AllTables(x, y, d);
  }

  // ---- what the diff is worth -----------------------------------------------------------------

  /** The columns of one table that a list names. */
  ghost function NamesIn(refs: seq<ColRef>, t: string): set<string> {
    set r | r in refs && r.table == t :: r.column
  }

  /** No column is listed with two types. */
  ghost predicate OneTypeEach(refs: seq<ColRef>) {
    forall r, q :: r in refs && q in refs && r.table == q.table && r.column == q.column ==> r == q
  }

  ghost predicate OneChangeEach(changes: seq<TypeChange>) {
    forall r, q :: r in changes && q in changes && r.table == q.table && r.column == q.column ==> r == q
  }

  lemma ListsAreMaps(x: Schema, y: Schema, d: Diff)
    requires IsDiff(x, y, d)
    ensures OneTypeEach(d.addedColumns) && OneChangeEach(d.typeChanges)
  {
  }

  /** The types a list gives to columns of one table. */
  ghost function Additions(refs: seq<ColRef>, t: string): Columns
    requires OneTypeEach(refs)
  {
    map r | r in refs && r.table == t :: r.column := r.typ
  }

  ghost function Retypings(changes: seq<TypeChange>, t: string): Columns
    requires OneChangeEach(changes)
  {
    map r | r in changes && r.table == t :: r.column := r.newType
  }

  /** The old columns of a table without the dropped, with the added and with
      the changed types, as the diff alone says. */
  ghost function Patched(before: Columns, d: Diff, t: string): Columns
    requires OneTypeEach(d.addedColumns) && OneChangeEach(d.typeChanges)
  {
    (before - NamesIn(d.droppedColumns, t)) + Additions(d.addedColumns, t) + Retypings(d.typeChanges, t)
  }

  /** Main result: for every table both snapshots have, patching the old columns
      gives exactly the new ones. */
  lemma PatchIsExact(x: Schema, y: Schema, d: Diff, t: string)
    requires IsDiff(x, y, d) && t in x && t in y
    ensures OneTypeEach(d.addedColumns) && OneChangeEach(d.typeChanges)
    ensures Patched(x[t], d, t) == y[t]
  {
    ListsAreMaps(x, y, d);
    var p := Patched(x[t], d, t);
    forall c ensures c in p <==> c in y[t] {
      PatchAt(x, y, d, t, c);
    }
    forall c | c in p ensures p[c] == y[t][c] {
      PatchAt(x, y, d, t, c);
    }
  }

  lemma PatchAt(x: Schema, y: Schema, d: Diff, t: string, c: string)
    requires IsDiff(x, y, d) && t in x && t in y
    ensures OneTypeEach(d.addedColumns) && OneChangeEach(d.typeChanges)
    ensures var p := Patched(x[t], d, t);
            (c in p <==> c in y[t]) && (c in p ==> p[c] == y[t][c])
  {
    ListsAreMaps(x, y, d);
    if c in x[t] && c in y[t] {
      assert TypeChange(t, c, x[t][c], y[t][c]) in d.typeChanges <==> x[t][c] != y[t][c];
    } else if c in x[t] {
      assert ColRef(t, c, x[t][c]) in d.droppedColumns;
      assert c in NamesIn(d.droppedColumns, t);
    } else if c in y[t] {
      assert ColRef(t, c, y[t][c]) in d.addedColumns;
      assert c in Additions(d.addedColumns, t);
    }
  }

  ghost predicate IsEmpty(d: Diff) {
    d == Diff([], [], [], [], [])
  }

  /** Main result: the diff is empty exactly when the snapshots agree on tables,
      columns and types; nullability and row counts do not show. */
  lemma EmptyIff(x: Schema, y: Schema, d: Diff)
    requires IsDiff(x, y, d)
    ensures IsEmpty(d) <==> x == y
  {
    if IsEmpty(d) {
      forall t ensures t in x <==> t in y {
        assert t in d.addedTables <==> IsNewTable(x, y, t);
        assert t in d.droppedTables <==> IsNewTable(y, x, t);
      }
      forall t | t in x ensures x[t] == y[t] {
        PatchIsExact(x, y, d, t);
        assert NamesIn(d.droppedColumns, t) == {};
      }
    }
    if x == y {
      assert forall t :: !IsNewTable(x, y, t) && !IsNewTable(y, x, t);
      assert forall r :: !IsNewColumn(x, y, r) && !IsNewColumn(y, x, r);
      assert forall c :: !IsTypeChange(x, y, c);
      EmptyOrListed(d.addedTables);
      EmptyOrListed(d.droppedTables);
      EmptyOrListed(d.addedColumns);
      EmptyOrListed(d.droppedColumns);
      EmptyOrListed(d.typeChanges);
    }
  }

  lemma EmptyOrListed<T>(s: seq<T>)
    ensures s == [] || exists x :: x in s
  {
    if |s| > 0 {
      assert s[0] in s;
    }
  }

  ghost function Reversed(c: TypeChange): TypeChange {
    TypeChange(c.table, c.column, c.newType, c.oldType)
  }

  ghost function ReversedAll(cs: seq<TypeChange>): seq<TypeChange> {
    seq(|cs|, i requires 0 <= i < |cs| => Reversed(cs[i]))
  }

  ghost function Swapped(d: Diff): Diff {
    Diff(d.droppedTables, d.addedTables, d.droppedColumns, d.addedColumns, ReversedAll(d.typeChanges))
  }

  /** Main result: swapping the snapshots swaps added with dropped and old
      types with new ones. */
  lemma SwapSwaps(x: Schema, y: Schema, d: Diff)
    requires IsDiff(x, y, d)
    ensures IsDiff(y, x, Swapped(d))
  {
    var cs, rs := d.typeChanges, ReversedAll(d.typeChanges);
    forall c ensures c in rs <==> IsTypeChange(y, x, c) {
      assert IsTypeChange(y, x, c) <==> IsTypeChange(x, y, Reversed(c));
      if Reversed(c) in cs {
        var i :| 0 <= i < |cs| && cs[i] == Reversed(c);
        assert rs[i] == c;
      }
      if i :| 0 <= i < |rs| && rs[i] == c {
        assert cs[i] == Reversed(c);
      }
    }
    forall i, j | 0 <= i < j < |rs| ensures rs[i] != rs[j] {
      assert cs[i] != cs[j];
    }
  }

  /** Two diffs of the same snapshots differ in the order of their lists only. */
  lemma DiffIsUnique(x: Schema, y: Schema, d: Diff, e: Diff)
    requires IsDiff(x, y, d) && IsDiff(x, y, e)
    ensures multiset(d.addedTables) == multiset(e.addedTables)
    ensures multiset(d.droppedTables) == multiset(e.droppedTables)
    ensures multiset(d.addedColumns) == multiset(e.addedColumns)
    ensures multiset(d.droppedColumns) == multiset(e.droppedColumns)
    ensures multiset(d.typeChanges) == multiset(e.typeChanges)
  {
    SameMultiset(d.addedTables, e.addedTables);
    SameMultiset(d.droppedTables, e.droppedTables);
    SameMultiset(d.addedColumns, e.addedColumns);
    SameMultiset(d.droppedColumns, e.droppedColumns);
    SameMultiset(d.typeChanges, e.typeChanges);
  }

  lemma {:induction false} OnceEach<T>(s: seq<T>, x: T)
    requires Distinct(s)
    ensures multiset(s)[x] == if x in s then 1 else 0
  {
    if |s| > 0 {
      var n := |s| - 1;
      OnceEach(s[..n], x);
      assert s == s[..n] + [s[n]];
    }
  }

  lemma SameMultiset<T>(s: seq<T>, t: seq<T>)
    requires Distinct(s) && Distinct(t) && forall x :: x in s <==> x in t
    ensures multiset(s) == multiset(t)
  {
    forall x ensures multiset(s)[x] == multiset(t)[x] {
      OnceEach(s, x);
      OnceEach(t, x);
    }
  }

  // ---- names ------------------------------------------------------------------------------

  ghost predicate Undotted(s: string) {
    '.' !in s
  }

  /** Undotted names keep tables apart by schema and name. */
  lemma QualifiedApart(a: Table, b: Table)
    requires Undotted(a.schema) && Undotted(a.name) && Undotted(b.schema) && Undotted(b.name)
    ensures Fqn(a) == Fqn(b) <==> a.schema == b.schema && a.name == b.name
  {
    var x, y := Fqn(a), Fqn(b);
    if x == y && a.schema != "" && b.schema != "" {
      assert x[|a.schema|] == '.' && y[|b.schema|] == '.';
      assert |a.schema| == |b.schema| by {
        assert forall i :: 0 <= i < |a.schema| ==> x[i] == a.schema[i];
        assert forall i :: 0 <= i < |b.schema| ==> y[i] == b.schema[i];
      }
      assert a.schema == x[..|a.schema|] && b.schema == y[..|b.schema|];
      assert a.name == x[|a.schema| + 1..] && b.name == y[|b.schema| + 1..];
    } else if a.schema != "" && b.schema == "" {
      assert '.' in x by {
        assert x[|a.schema|] == '.';
      }
    } else if b.schema != "" && a.schema == "" {
      assert '.' in y by {
        assert y[|b.schema|] == '.';
      }
    }
  }

  /** Main result: a table moved to another schema is dropped there and added here
      under its qualified names, and no column is compared. */
  lemma MovedTable(from: string, to: string, name: string, columns: seq<Column>, rows: int, d: Diff)
    requires Undotted(from) && Undotted(to) && Undotted(name) && from != to && from != "" && to != ""
    requires IsDiff(SchemaOf([Table(from, name, rows, columns)]), SchemaOf([Table(to, name, rows, columns)]), d)
    ensures d == Diff([to + "." + name], [from + "." + name], [], [], [])
  {
    var a, b := Table(from, name, rows, columns), Table(to, name, rows, columns);
    QualifiedApart(a, b);
    OneTableSchema(a);
    OneTableSchema(b);
    var x, y := SchemaOf([a]), SchemaOf([b]);
    assert forall t :: IsNewTable(x, y, t) <==> t == Fqn(b);
    assert forall t :: IsNewTable(y, x, t) <==> t == Fqn(a);
    OneElement(d.addedTables, Fqn(b));
    OneElement(d.droppedTables, Fqn(a));
    NoElement(d.addedColumns);
    NoElement(d.droppedColumns);
    NoElement(d.typeChanges);
  }

  /** Main result: a column given another type is one type change, from the old
      type to the new, under the qualified name; the rest of the column and the
      row count do not matter. */
  lemma RetypedColumn(schema: string, name: string, col: string, was: string, now: string,
                      rows: int, rows': int, nullable: bool, nullable': bool, d: Diff)
    requires IsDiff(SchemaOf([Table(schema, name, rows, [Column(col, was, nullable)])]),
                    SchemaOf([Table(schema, name, rows', [Column(col, now, nullable')])]), d)
    ensures var q := if schema == "" then name else schema + "." + name;
            d == Diff([], [], [], [], if was == now then [] else [TypeChange(q, col, was, now)])
  {
    var a := Table(schema, name, rows, [Column(col, was, nullable)]);
    var b := Table(schema, name, rows', [Column(col, now, nullable')]);
    OneColumnSchema(a, col, was);
    OneColumnSchema(b, col, now);
    var x, y := SchemaOf([a]), SchemaOf([b]);
    NoElement(d.addedTables);
    NoElement(d.droppedTables);
    NoElement(d.addedColumns);
    NoElement(d.droppedColumns);
    if was == now {
      NoElement(d.typeChanges);
    } else {
      assert forall c :: IsTypeChange(x, y, c) <==> c == TypeChange(Fqn(a), col, was, now);
      OneElement(d.typeChanges, TypeChange(Fqn(a), col, was, now));
    }
  }

  lemma OneColumnSchema(t: Table, col: string, typ: string)
    requires |t.columns| == 1 && t.columns[0].name == col && t.columns[0].typ == typ
    ensures SchemaOf([t]) == map[Fqn(t) := map[col := typ]]
  {
    OneTableSchema(t);
    assert [t][..0] == [] && t.columns[..0] == [];
    assert Index([t]) == map[][Fqn(t) := t];
    assert ColumnIndex(t.columns) == map[][col := t.columns[0]];
    assert TableTypes(t) == map[col := typ];
    assert SchemaOf([t])[Fqn(t)] == TableTypes(t);
  }

  lemma OneTableSchema(t: Table)
    ensures SchemaOf([t]).Keys == {Fqn(t)}
  {
    assert [t][..0] == [];
    assert Index([t]) == map[][Fqn(t) := t];
  }

  lemma FirstTwo<T>(s: seq<T>)
    requires Distinct(s)
    ensures |s| > 0 ==> s[0] in s
    ensures |s| > 1 ==> s[1] in s && s[0] != s[1]
  {
  }

  lemma OneElement<T(!new)>(s: seq<T>, x: T)
    requires Distinct(s) && forall y :: y in s <==> y == x
    ensures s == [x]
  {
    FirstTwo(s);
    assert x in s;
  }

  lemma NoElement<T(!new)>(s: seq<T>)
    requires Distinct(s) && forall y :: y !in s
    ensures s == []
  {
    FirstTwo(s);
  }
}
