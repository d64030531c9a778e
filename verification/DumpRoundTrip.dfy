/** The whole-database round trip: dump, import into an empty database, dump again. */
module DumpRoundTrip {
  import opened Wrappers
  import opened Text
  import opened SqlText
  import opened SqlRoundTrip
  import opened Sorting
  import opened Dump
  import opened DumpRows
  import H = ProjectionHeader

  // ----------------------------------------------------------- schema and database

  /** The tables that rows of `t` may point into. */
  function References(t: Table): set<TableId> {
    if t.id == Aliases then {Epochs, Phases, Goals, Tasks}
    else if t.fk.Some? then {t.fk.value.target}
    else {}
  }

  ghost predicate DistinctTables(order: seq<Table>) {
    forall i, j :: 0 <= i < j < |order| ==> order[i].id != order[j].id
  }

  ghost predicate ParentsFirst(order: seq<Table>) {
    forall k, target :: 0 <= k < |order| && target in References(order[k]) ==>
      exists j :: 0 <= j < k && order[j].id == target && order[j].entity
  }

  ghost predicate GoodOrder(mapping: Mapping, order: seq<Table>) {
    && (forall k :: 0 <= k < |order| ==> GoodTable(mapping, order[k]))
    && DistinctTables(order)
    && ParentsFirst(order)
  }

  /** The table can be imported, or there is nothing in it to import. */
  predicate Loads(mapping: Mapping, t: Table, tables: Tables)
    requires GoodTable(mapping, t)
  {
    Importable(mapping, t) || RowsOf(tables, t.id) == []
  }

  ghost predicate AllLoad(mapping: Mapping, order: seq<Table>, tables: Tables)
    requires GoodOrder(mapping, order)
  {
    forall k :: 0 <= k < |order| ==> Loads(mapping, order[k], tables)
  }

  /** The tables the importer cannot fill are those whose dumped foreign key it does
      not know. */
  ghost predicate ImportableOrNot(mapping: Mapping, order: seq<Table>)
    requires GoodOrder(mapping, order)
  {
    forall k :: 0 <= k < |order| ==> Importable(mapping, order[k]) || Unimportable(mapping, order[k])
  }

  predicate ValidRows(t: Table, rows: seq<Row>) {
    forall k :: 0 <= k < |rows| ==> ValidRow(t, rows[k])
  }

  ghost predicate ValidTables(order: seq<Table>, tables: Tables) {
    forall k :: 0 <= k < |order| ==> ValidRows(order[k], RowsOf(tables, order[k].id))
  }

  lemma ValidIsFull(order: seq<Table>, tables: Tables)
    requires ValidTables(order, tables)
    ensures FullTables(order, tables)
  {
    forall k | 0 <= k < |order| ensures FullRows(order[k], RowsOf(tables, order[k].id)) {
      assert ValidRows(order[k], RowsOf(tables, order[k].id));
    }
  }

  // ------------------------------------------------------------- dump, table by table

  /** The portable rows of every table. */
  ghost predicate PortablesAre(order: seq<Table>, tables: Tables, ps: seq<seq<NamedRow>>)
    requires FullTables(order, tables)
  {
    |ps| == |order| && forall k :: 0 <= k < |order| ==> Portable(order[k], tables) == Done(ps[k])
  }

  function Texts(order: seq<Table>, ps: seq<seq<NamedRow>>, generation: int): seq<string>
    requires |ps| == |order| && H.InRange(generation)
  {
    seq(|order|, k requires 0 <= k < |order| => TableText(order[k], ps[k], generation))
  }

  lemma FullTail(order: seq<Table>, tables: Tables)
    requires FullTables(order, tables) && order != []
    ensures FullTables(order[1..], tables)
  {
    assert forall k :: 0 <= k < |order[1..]| ==> order[1..][k] == order[k + 1];
  }

  lemma PortablesTail(order: seq<Table>, tables: Tables, ps: seq<seq<NamedRow>>)
    requires FullTables(order, tables) && order != [] && PortablesAre(order, tables, ps)
    ensures FullTables(order[1..], tables) && PortablesAre(order[1..], tables, ps[1..])
  {
    FullTail(order, tables);
    forall k | 0 <= k < |order[1..]| ensures Portable(order[1..][k], tables) == Done(ps[1..][k]) {
      assert order[1..][k] == order[k + 1] && ps[1..][k] == ps[k + 1];
    }
  }

  lemma TextsUnfold(order: seq<Table>, ps: seq<seq<NamedRow>>, generation: int)
    requires |ps| == |order| && H.InRange(generation) && order != []
    ensures Texts(order, ps, generation) ==
            [TableText(order[0], ps[0], generation)] + Texts(order[1..], ps[1..], generation)
  {
  }

  lemma {:induction false} DumpOfPortables(order: seq<Table>, db: Db, ps: seq<seq<NamedRow>>)
    requires FullTables(order, db.tables) && H.InRange(db.generation) && PortablesAre(order, db.tables, ps)
    ensures DumpTables(order, db) == Done(Texts(order, ps, db.generation))
  {
    if order != [] {
      PortablesTail(order, db.tables, ps);
      assert Portable(order[0], db.tables) == Done(ps[0]);
      DumpOfPortables(order[1..], db, ps[1..]);
      TextsUnfold(order, ps, db.generation);
    }
  }

  lemma {:induction false} PortablesOfDump(order: seq<Table>, db: Db) returns (ps: seq<seq<NamedRow>>)
    requires FullTables(order, db.tables) && H.InRange(db.generation) && DumpTables(order, db).Done?
    ensures PortablesAre(order, db.tables, ps)
    ensures DumpTables(order, db).value == Texts(order, ps, db.generation)
  {
    if order == [] {
      ps := [];
    } else {
      FullTail(order, db.tables);
      var rest := PortablesOfDump(order[1..], db);
      ps := [Portable(order[0], db.tables).value] + rest;
      forall k | 0 <= k < |order| ensures Portable(order[k], db.tables) == Done(ps[k]) {
        if k > 0 {
          assert order[k] == order[1..][k - 1];
        }
      }
      DumpOfPortables(order, db, ps);
    }
  }

  predicate HasRow(rows: seq<Row>, id: int) {
    exists k :: 0 <= k < |rows| && rows[k].id == id
  }

  lemma {:induction false} TextIdsHasRow(rows: seq<Row>, id: int)
    ensures id in TextIds(rows) <==> HasRow(rows, id)
  {
    if rows != [] {
      var n := |rows| - 1;
      TextIdsHasRow(rows[..n], id);
      if HasRow(rows[..n], id) {
        var k :| 0 <= k < n && rows[..n][k].id == id;
        assert rows[k].id == id;
      }
      if HasRow(rows, id) && rows[n].id != id {
        var k :| 0 <= k < |rows| && rows[k].id == id;
        assert rows[..n][k].id == id;
      }
    }
  }

  /** The foreign key of the row is a rowid that its table does not have. */
  predicate Dangles(t: Table, row: Row, tables: Tables) {
    && t.id != Aliases && t.fk.Some? && t.fk.value.at < |row.values|
    && row.values[t.fk.value.at].SqlInt?
    && !HasRow(RowsOf(tables, t.fk.value.target), row.values[t.fk.value.at].i)
  }

  /** A well-formed alias of an entity type that there is not. */
  predicate StrangeAlias(t: Table, row: Row) {
    && t.id == Aliases && |row.values| == 3 && row.values[0].SqlStr? && row.values[1].SqlInt?
    && row.values[0].s !in {"epoch", "phase", "goal", "task"}
  }

  lemma FailsIff(mapping: Mapping, t: Table, row: Row, tables: Tables)
    requires GoodTable(mapping, t) && |row.values| == |t.columns|
    ensures Resolve(t, row, tables).Fail? <==> Dangles(t, row, tables) || StrangeAlias(t, row)
  {
    if t.id != Aliases && t.fk.Some? && row.values[t.fk.value.at].SqlInt? {
      TextIdsHasRow(RowsOf(tables, t.fk.value.target), row.values[t.fk.value.at].i);
    }
  }

  /** Every row of the table can be resolved. */
  predicate Resolvable(t: Table, rows: seq<Row>, tables: Tables) {
    forall k :: 0 <= k < |rows| ==> !Dangles(t, rows[k], tables) && !StrangeAlias(t, rows[k])
  }

  lemma {:induction false} ResolvesIff(mapping: Mapping, t: Table, rows: seq<Row>, tables: Tables)
    requires GoodTable(mapping, t) && FullRows(t, rows)
    ensures ResolveAll(t, rows, tables).Done? <==> Resolvable(t, rows, tables)
  {
    if rows != [] {
      FailsIff(mapping, t, rows[0], tables);
      ResolvesIff(mapping, t, rows[1..], tables);
      assert forall k :: 0 < k < |rows| ==> rows[k] == rows[1..][k - 1];
    }
  }

  /** A dump succeeds exactly when no foreign key dangles and no alias has an unknown
      type, in any table. */
  lemma {:induction false} DumpSucceedsIff(mapping: Mapping, order: seq<Table>, db: Db)
    requires FullTables(order, db.tables) && H.InRange(db.generation)
    requires forall k :: 0 <= k < |order| ==> GoodTable(mapping, order[k])
    ensures DumpTables(order, db).Done? <==>
            forall k :: 0 <= k < |order| ==> Resolvable(order[k], RowsOf(db.tables, order[k].id), db.tables)
  {
    if order != [] {
      FullTail(order, db.tables);
      DumpSucceedsIff(mapping, order[1..], db);
      ResolvesIff(mapping, order[0], RowsOf(db.tables, order[0].id), db.tables);
      assert forall k :: 0 < k < |order| ==> order[k] == order[1..][k - 1];
    }
  }

  // --------------------------------------------------------- where portable rows come from

  lemma {:induction false} ResolvedFrom(t: Table, rows: seq<Row>, tables: Tables, p: NamedRow) returns (row: Row)
    requires FullRows(t, rows) && ResolveAll(t, rows, tables).Done? && p in ResolveAll(t, rows, tables).value
    ensures row in rows && |row.values| == |t.columns| && Resolve(t, row, tables) == Keep(p)
  {
    if Resolve(t, rows[0], tables) == Keep(p) {
      row := rows[0];
    } else {
      row := ResolvedFrom(t, rows[1..], tables, p);
    }
  }

  lemma {:induction false} ResolvedTo(t: Table, rows: seq<Row>, tables: Tables, row: Row)
    requires FullRows(t, rows) && ResolveAll(t, rows, tables).Done? && row in rows
    ensures |row.values| == |t.columns| && !Resolve(t, row, tables).Fail?
    ensures Resolve(t, row, tables).Keep? ==> Resolve(t, row, tables).row in ResolveAll(t, rows, tables).value
  {
    if rows[0] != row {
      ResolvedTo(t, rows[1..], tables, row);
    }
  }

  lemma {:induction false} TextIdsFrom(rows: seq<Row>, id: int) returns (row: Row)
    requires id in TextIds(rows)
    ensures row in rows && row.id == id && TextIdOf(row) == TextIds(rows)[id]
  {
    var n := |rows| - 1;
    if rows[n].id == id {
      row := rows[n];
    } else {
      row := TextIdsFrom(rows[..n], id);
    }
  }

  lemma PortableFrom(mapping: Mapping, t: Table, tables: Tables, ps: seq<NamedRow>, p: NamedRow) returns (row: Row)
    requires GoodTable(mapping, t) && ValidRows(t, RowsOf(tables, t.id))
    requires Portable(t, tables) == Done(ps) && p in ps
    ensures row in RowsOf(tables, t.id) && ValidRow(t, row) && Resolve(t, row, tables) == Keep(p)
    ensures PortableRow(t, p)
  {
    var rows := RowsOf(tables, t.id);
    SortMembers(ResolveAll(t, rows, tables).value, SortKey(t), p);
    row := ResolvedFrom(t, rows, tables, p);
    ResolvedIsPortable(mapping, t, row, tables);
  }

  lemma PortableTo(mapping: Mapping, t: Table, tables: Tables, ps: seq<NamedRow>, row: Row) returns (p: NamedRow)
    requires GoodTable(mapping, t) && ValidRows(t, RowsOf(tables, t.id)) && t.entity
    requires Portable(t, tables) == Done(ps) && row in RowsOf(tables, t.id)
    ensures p in ps && p != [] && p[0].1 == SqlStr(TextIdOf(row))
  {
    var rows := RowsOf(tables, t.id);
    ResolvedTo(t, rows, tables, row);
    ResolvedIsPortable(mapping, t, row, tables);
    p := Resolve(t, row, tables).row;
    SortMembers(ResolveAll(t, rows, tables).value, SortKey(t), p);
  }

  /** A reference in a portable row names a row that its own table prints. */
  lemma ReferenceIsPrinted(mapping: Mapping, t: Table, parent: Table, tables: Tables,
                           ps: seq<NamedRow>, parents: seq<NamedRow>, p: NamedRow) returns (q: NamedRow)
    requires GoodTable(mapping, t) && GoodTable(mapping, parent) && parent.entity
    requires ValidRows(t, RowsOf(tables, t.id)) && ValidRows(parent, RowsOf(tables, parent.id))
    requires Portable(t, tables) == Done(ps) && Portable(parent, tables) == Done(parents)
    requires p in ps && Ref(t, p).Some? && Ref(t, p).value.0 == parent.id
    ensures q in parents && q != [] && q[0].1 == SqlStr(Ref(t, p).value.1)
  {
    var row := PortableFrom(mapping, t, tables, ps, p);
    var rowid := row.values[RefColumn(t)].i;
    var target := TextIdsFrom(RowsOf(tables, parent.id), rowid);
    q := PortableTo(mapping, parent, tables, parents, target);
  }

  // ------------------------------------------------------------- importing one table

  ghost predicate AllKnown(t: Table, ps: seq<NamedRow>, ids: Ids) {
    forall k :: 0 <= k < |ps| ==> PortableRow(t, ps[k]) && Known(t, ps[k], ids)
  }

  /** The rows that importing `ps` creates: numbered from one. */
  ghost function RestoredRows(t: Table, ps: seq<NamedRow>, ids: Ids): seq<Row>
    requires AllKnown(t, ps, ids)
  {
    seq(|ps|, k requires 0 <= k < |ps| => Row(k + 1, RestoredValues(t, ps[k], ids)))
  }

  lemma ImportOneStatement(mapping: Mapping, t: Table, ps: seq<NamedRow>, i: nat, ids: Ids)
    requires GoodTable(mapping, t) && Importable(mapping, t) && AllKnown(t, ps, ids) && i < |ps|
    ensures ImportLine(mapping, t, RowToInsert(t.name, ps[i]), RestoredRows(t, ps, ids)[..i], ids) ==
            Imported(RestoredRows(t, ps, ids)[..i + 1])
  {
    var rows := RestoredRows(t, ps, ids);
    assert PortableRow(t, ps[i]) && Known(t, ps[i], ids);
    ImportStatement(mapping, t, ps[i], rows[..i], ids);
    ImportPortableRow(mapping, t, ps[i], rows[..i], ids);
    NextRestored(t, ps, i, ids);
  }

  lemma NextRestored(t: Table, ps: seq<NamedRow>, i: nat, ids: Ids)
    requires AllKnown(t, ps, ids) && i < |ps|
    ensures var rows := RestoredRows(t, ps, ids);
            rows[..i] + [Row(NextId(rows[..i]), RestoredValues(t, ps[i], ids))] == rows[..i + 1]
  {
    var rows := RestoredRows(t, ps, ids);
    assert NextId(rows[..i]) == i + 1;
    assert rows[..i + 1] == rows[..i] + [rows[i]];
  }

  lemma {:induction false} ImportStatements(mapping: Mapping, t: Table, ps: seq<NamedRow>, i: nat, ids: Ids)
    requires GoodTable(mapping, t) && Importable(mapping, t) && AllKnown(t, ps, ids) && i <= |ps|
    ensures ImportLines(mapping, t, Statements(t, ps)[i..], RestoredRows(t, ps, ids)[..i], ids) ==
            Imported(RestoredRows(t, ps, ids))
    decreases |ps| - i
  {
    var lines, rows := Statements(t, ps), RestoredRows(t, ps, ids);
    if i < |ps| {
      assert lines[i] == RowToInsert(t.name, ps[i]);
      ImportOneStatement(mapping, t, ps, i, ids);
      ImportLinesFrom(mapping, t, lines, i, rows[..i], ids);
      ImportStatements(mapping, t, ps, i + 1, ids);
    } else {
      assert rows[..i] == rows;
    }
  }

  lemma StatementsAreLines(mapping: Mapping, t: Table, ps: seq<NamedRow>)
    requires GoodTable(mapping, t) && forall k :: 0 <= k < |ps| ==> PortableRow(t, ps[k])
    ensures Lines(Unlines(Statements(t, ps))) == Statements(t, ps)
    ensures H.Body(Unlines(Statements(t, ps))) == Unlines(Statements(t, ps))
  {
    var lines := Statements(t, ps);
    forall k | 0 <= k < |lines| ensures OneLine(lines[k]) {
      PortableIsPlain(mapping, t, ps[k]);
      InsertIsOneLine(t.name, ps[k]);
    }
    LinesRoundTrip(lines);
    if lines != [] {
      StatementTrimmed(t, ps[0]);
      assert H.PREFIX[0] == '-';
      assert lines[0][0] == 'I';
    }
  }

  lemma {:induction false} StartsSolid(s: string)
    requires s != [] && !IsSpace(s[0])
    ensures TrimEnd(s) != []
  {
    if IsSpace(s[|s| - 1]) {
      StartsSolid(s[..|s| - 1]);
    }
  }

  /** A table's text is blank only when it has neither header nor rows. */
  lemma BlankText(t: Table, ps: seq<NamedRow>, generation: int)
    requires H.InRange(generation)
    ensures Trim(TableText(t, ps, generation)) == [] <==> t.id != Epochs && ps == []
  {
    var text := TableText(t, ps, generation);
    if t.id == Epochs {
      assert text[0] == '-';
      StartsSolid(text);
    } else if ps != [] {
      StatementTrimmed(t, ps[0]);
      assert text[0] == 'I';
      StartsSolid(text);
    }
  }

  lemma CommentSkipped(mapping: Mapping, t: Table, line: string, rows: seq<Row>, ids: Ids)
    requires Trimmed(line) && StartsWith(line, "--")
    ensures ImportLine(mapping, t, line, rows, ids) == Imported(rows)
  {
    TrimPadded(line);
  }

  lemma HeaderIsComment(generation: int)
    requires H.InRange(generation)
    ensures Trimmed(H.PREFIX + Decimal(generation)) && StartsWith(H.PREFIX + Decimal(generation), "--")
  {
    var line := H.PREFIX + Decimal(generation);
    assert line[0] == '-' && line[1] == '-' && IsDigit(line[|line| - 1]);
    assert line[..2] == "--";
  }

  /** Importing a table's text creates exactly the restored rows. */
  lemma ImportTextOf(mapping: Mapping, t: Table, ps: seq<NamedRow>, generation: int, ids: Ids)
    requires GoodTable(mapping, t) && Importable(mapping, t) && AllKnown(t, ps, ids) && H.InRange(generation)
    ensures ImportLines(mapping, t, Lines(TableText(t, ps, generation)), [], ids) == Imported(RestoredRows(t, ps, ids))
  {
    var lines := Statements(t, ps);
    StatementsAreLines(mapping, t, ps);
    ImportStatements(mapping, t, ps, 0, ids);
    assert lines[0..] == lines && RestoredRows(t, ps, ids)[..0] == [];
    if t.id == Epochs {
      var header := H.PREFIX + Decimal(generation);
      H.HeaderRoundTrip(Unlines(lines), generation);
      HeaderIsComment(generation);
      CommentSkipped(mapping, t, header, [], ids);
      assert ([header] + lines)[1..] == lines;
    }
  }

  // --------------------------------------------------------------- text ids and rowids

  predicate Numbered(rows: seq<Row>) {
    forall k :: 0 <= k < |rows| ==> rows[k].id == k + 1
  }

  lemma {:induction false} NumberedTextIds(rows: seq<Row>, k: nat)
    requires Numbered(rows) && k < |rows|
    ensures k + 1 in TextIds(rows) && TextIds(rows)[k + 1] == TextIdOf(rows[k])
  {
    var n := |rows| - 1;
    if k < n {
      NumberedTextIds(rows[..n], k);
    }
  }

  lemma {:induction false} RowIdsFrom(rows: seq<Row>, text: string) returns (k: nat)
    requires text in RowIds(rows)
    ensures k < |rows| && RowIds(rows)[text] == rows[k].id && TextIdOf(rows[k]) == text
  {
    var n := |rows| - 1;
    if TextIdOf(rows[n]) == text {
      k := n;
    } else {
      k := RowIdsFrom(rows[..n], text);
    }
  }

  lemma {:induction false} RowIdsHas(rows: seq<Row>, k: nat)
    requires k < |rows|
    ensures TextIdOf(rows[k]) in RowIds(rows)
  {
    var n := |rows| - 1;
    if k < n {
      RowIdsHas(rows[..n], k);
    }
  }

  /** Adding a table nothing knew about keeps the lookups inverse. */
  lemma InverseExtends(ids: Ids, tables: Tables, t: TableId, rows: seq<Row>)
    requires Inverse(ids, tables) && t !in ids && Numbered(rows)
    ensures Inverse(ids, tables[t := rows]) && Inverse(ids[t := RowIds(rows)], tables[t := rows])
  {
    var tables', ids' := tables[t := rows], ids[t := RowIds(rows)];
    forall u, text | u in ids && text in ids[u]
      ensures ids[u][text] in TextIds(RowsOf(tables', u)) && TextIds(RowsOf(tables', u))[ids[u][text]] == text
    {
      assert RowsOf(tables', u) == RowsOf(tables, u);
    }
    forall u, text | u in ids' && text in ids'[u]
      ensures ids'[u][text] in TextIds(RowsOf(tables', u)) && TextIds(RowsOf(tables', u))[ids'[u][text]] == text
    {
      if u == t {
        var k := RowIdsFrom(rows, text);
        NumberedTextIds(rows, k);
      }
    }
  }

  // ------------------------------------------------------------- dumping what was imported

  /** Resolving looks only at the tables a row may point into. */
  lemma {:induction false} ResolveFrame(t: Table, rows: seq<Row>, tables: Tables, tables': Tables)
    requires FullRows(t, rows) && (t.id == Aliases ==> |t.columns| == 3)
    requires forall target :: target in References(t) ==> RowsOf(tables, target) == RowsOf(tables', target)
    ensures ResolveAll(t, rows, tables) == ResolveAll(t, rows, tables')
  {
    if rows != [] {
      ResolveFrame(t, rows[1..], tables, tables');
      ResolveRowFrame(t, rows[0], tables, tables');
    }
  }

  lemma ResolveRowFrame(t: Table, row: Row, tables: Tables, tables': Tables)
    requires |row.values| == |t.columns| && (t.id == Aliases ==> |t.columns| == 3)
    requires forall target :: target in References(t) ==> RowsOf(tables, target) == RowsOf(tables', target)
    ensures Resolve(t, row, tables) == Resolve(t, row, tables')
  {
    if t.id == Aliases {
      var named := Named(t, row);
      if named[0].1.SqlStr? && EntityTable(named[0].1.s).Some? {
        assert EntityTable(named[0].1.s).value in References(t);
      }
    } else if t.fk.Some? {
      assert t.fk.value.target in References(t);
    }
  }

  lemma {:induction false} ResolvePointwise(t: Table, rows: seq<Row>, tables: Tables, ps: seq<NamedRow>)
    requires FullRows(t, rows) && |ps| == |rows|
    requires forall k :: 0 <= k < |rows| ==> Resolve(t, rows[k], tables) == Keep(ps[k])
    ensures ResolveAll(t, rows, tables) == Done(ps)
  {
    if rows != [] {
      ResolvePointwise(t, rows[1..], tables, ps[1..]);
      assert ps == [ps[0]] + ps[1..];
    }
  }

  lemma ResolveRestoredRows(mapping: Mapping, t: Table, ps: seq<NamedRow>, ids: Ids, tables: Tables)
    requires GoodTable(mapping, t) && AllKnown(t, ps, ids) && Inverse(ids, tables)
    ensures FullRows(t, RestoredRows(t, ps, ids))
    ensures ResolveAll(t, RestoredRows(t, ps, ids), tables) == Done(ps)
  {
    var rows := RestoredRows(t, ps, ids);
    forall k | 0 <= k < |rows|
      ensures |rows[k].values| == |t.columns| && Resolve(t, rows[k], tables) == Keep(ps[k])
    {
      assert PortableRow(t, ps[k]);
      ResolveRestored(mapping, t, ps[k], k + 1, ids, tables);
    }
    ResolvePointwise(t, rows, tables, ps);
  }

  // ------------------------------------------------------------------- the whole import

  /** After `i` tables: each of them dumps to the rows it was imported from, their
      text ids can be looked up, and the rest is untouched. */
  ghost predicate ImportedSoFar(order: seq<Table>, ps: seq<seq<NamedRow>>, i: nat, state: Importer)
    requires i <= |order| == |ps|
  {
    && FullTables(order, state.tables)
    && (forall k :: 0 <= k < i ==> ResolveAll(order[k], RowsOf(state.tables, order[k].id), state.tables) == Done(ps[k]))
    && AllListed(order, ps, i, state.ids)
    && (forall k :: 0 <= k < i ==> StoredWell(order[k], RowsOf(state.tables, order[k].id), |ps[k]|))
    && (forall k :: i <= k < |order| ==> order[k].id !in state.tables && order[k].id !in state.ids)
    && Inverse(state.ids, state.tables)
  }

  /** As many rows as were printed, numbered from one, with references as rowids. */
  predicate StoredWell(t: Table, rows: seq<Row>, count: nat) {
    |rows| == count && Numbered(rows) && forall m :: 0 <= m < |rows| ==> RefStored(t, rows[m])
  }

  /** The text id of an entity's row can be looked up. */
  ghost predicate Listed(ids: Ids, t: Table, p: NamedRow) {
    p != [] && p[0].1.SqlStr? && FindId(ids, t.id, p[0].1.s).Some?
  }

  ghost predicate AllListed(order: seq<Table>, ps: seq<seq<NamedRow>>, i: nat, ids: Ids)
    requires i <= |order| == |ps|
  {
    forall k, p :: 0 <= k < i && order[k].entity && p in ps[k] ==> Listed(ids, order[k], p)
  }

  /** What the source database and its portable rows satisfy throughout. */
  ghost predicate Source(mapping: Mapping, order: seq<Table>, tables: Tables, ps: seq<seq<NamedRow>>) {
    && GoodOrder(mapping, order) && ValidTables(order, tables)
    && FullTables(order, tables) && PortablesAre(order, tables, ps)
  }

  lemma KnownByParent(mapping: Mapping, t: Table, parent: Table, tables: Tables,
                      ps: seq<NamedRow>, parents: seq<NamedRow>, ids: Ids, p: NamedRow)
    requires GoodTable(mapping, t) && GoodTable(mapping, parent) && parent.entity
    requires ValidRows(t, RowsOf(tables, t.id)) && ValidRows(parent, RowsOf(tables, parent.id))
    requires Portable(t, tables) == Done(ps) && Portable(parent, tables) == Done(parents)
    requires p in ps && Ref(t, p).Some? && Ref(t, p).value.0 == parent.id
    requires forall q :: q in parents ==> Listed(ids, parent, q)
    ensures Known(t, p, ids)
  {
    var q := ReferenceIsPrinted(mapping, t, parent, tables, ps, parents, p);
    assert Listed(ids, parent, q);
  }

  lemma RefIsReference(t: Table, p: NamedRow)
    requires Ref(t, p).Some?
    ensures Ref(t, p).value.0 in References(t)
  {
  }

  lemma RowIsKnown(mapping: Mapping, order: seq<Table>, tables: Tables, ps: seq<seq<NamedRow>>, i: nat,
                   ids: Ids, p: NamedRow)
    requires Source(mapping, order, tables, ps) && i < |order| && AllListed(order, ps, i, ids)
    requires p in ps[i] && Ref(order[i], p).Some?
    ensures Known(order[i], p, ids)
  {
    RefIsReference(order[i], p);
    var j :| 0 <= j < i && order[j].id == Ref(order[i], p).value.0 && order[j].entity;
    assert Portable(order[i], tables) == Done(ps[i]) && Portable(order[j], tables) == Done(ps[j]);
    KnownByParent(mapping, order[i], order[j], tables, ps[i], ps[j], ids, p);
  }

  /** Every reference of the next table can be looked up. */
  lemma NextIsKnown(
    mapping: Mapping, order: seq<Table>, tables: Tables, ps: seq<seq<NamedRow>>, i: nat, state: Importer)
    requires Source(mapping, order, tables, ps) && i < |order| && ImportedSoFar(order, ps, i, state)
    ensures AllKnown(order[i], ps[i], state.ids)
  {
    var t := order[i];
    assert ValidRows(t, RowsOf(tables, t.id)) && Portable(t, tables) == Done(ps[i]);
    forall n | 0 <= n < |ps[i]| ensures PortableRow(t, ps[i][n]) && Known(t, ps[i][n], state.ids) {
      var row := PortableFrom(mapping, t, tables, ps[i], ps[i][n]);
      if Ref(t, ps[i][n]).Some? {
        RowIsKnown(mapping, order, tables, ps, i, state.ids, ps[i][n]);
      }
    }
  }

  /** A non-blank text adds its table and leaves the earlier ones as they were. */
  function AfterTable(t: Table, rows: seq<Row>, state: Importer): Importer {
    Importer(state.tables[t.id := rows], if t.entity then state.ids[t.id := RowIds(rows)] else state.ids)
  }

  lemma EarlierUnchanged(mapping: Mapping, order: seq<Table>, ps: seq<seq<NamedRow>>, i: nat, state: Importer,
                         rows: seq<Row>, k: nat)
    requires GoodOrder(mapping, order) && k < i < |order| == |ps| && ImportedSoFar(order, ps, i, state)
    requires FullRows(order[i], rows)
    ensures var after := AfterTable(order[i], rows, state).tables;
            && RowsOf(after, order[k].id) == RowsOf(state.tables, order[k].id)
            && ResolveAll(order[k], RowsOf(state.tables, order[k].id), after) == Done(ps[k])
  {
    var after := AfterTable(order[i], rows, state).tables;
    forall target | target in References(order[k]) ensures RowsOf(after, target) == RowsOf(state.tables, target) {
      var j :| 0 <= j < k && order[j].id == target && order[j].entity;
    }
    ResolveFrame(order[k], RowsOf(state.tables, order[k].id), state.tables, after);
  }

  lemma NewlyListed(t: Table, ps: seq<NamedRow>, ids: Ids, k: nat)
    requires AllKnown(t, ps, ids) && t.entity && RefColumn(t) > 0 && k < |ps|
    ensures Listed(ids[t.id := RowIds(RestoredRows(t, ps, ids))], t, ps[k])
  {
    var rows := RestoredRows(t, ps, ids);
    RowIdsHas(rows, k);
    assert PortableRow(t, ps[k]);
    assert TextIdOf(rows[k]) == ps[k][0].1.s;
  }

  lemma StepKeepsListed(mapping: Mapping, order: seq<Table>, ps: seq<seq<NamedRow>>, i: nat, state: Importer,
                        k: nat, p: NamedRow)
    requires GoodOrder(mapping, order) && k <= i < |order| == |ps| && ImportedSoFar(order, ps, i, state)
    requires AllKnown(order[i], ps[i], state.ids) && order[k].entity && p in ps[k]
    ensures Listed(AfterTable(order[i], RestoredRows(order[i], ps[i], state.ids), state).ids, order[k], p)
  {
    if k < i {
      assert Listed(state.ids, order[k], p);
      assert order[k].id != order[i].id;
    } else {
      var n :| 0 <= n < |ps[i]| && ps[i][n] == p;
      NewlyListed(order[i], ps[i], state.ids, n);
    }
  }

  lemma StepKeepsRows(mapping: Mapping, order: seq<Table>, ps: seq<seq<NamedRow>>, i: nat, state: Importer,
                      rows: seq<Row>)
    requires GoodOrder(mapping, order) && i < |order| == |ps| && ImportedSoFar(order, ps, i, state)
    requires FullRows(order[i], rows)
    requires ResolveAll(order[i], rows, AfterTable(order[i], rows, state).tables) == Done(ps[i])
    ensures var after := AfterTable(order[i], rows, state).tables;
            && FullTables(order, after)
            && forall k :: 0 <= k < i + 1 ==> ResolveAll(order[k], RowsOf(after, order[k].id), after) == Done(ps[k])
  {
    var after := AfterTable(order[i], rows, state).tables;
    forall k | 0 <= k < |order| ensures FullRows(order[k], RowsOf(after, order[k].id)) {
      assert FullRows(order[k], RowsOf(state.tables, order[k].id));
    }
    forall k | 0 <= k < i + 1 ensures ResolveAll(order[k], RowsOf(after, order[k].id), after) == Done(ps[k]) {
      if k < i {
        EarlierUnchanged(mapping, order, ps, i, state, rows, k);
      }
    }
  }

  lemma StepKeepsStored(mapping: Mapping, order: seq<Table>, ps: seq<seq<NamedRow>>, i: nat, state: Importer,
                        rows: seq<Row>, k: nat)
    requires GoodOrder(mapping, order) && k <= i < |order| == |ps| && ImportedSoFar(order, ps, i, state)
    requires StoredWell(order[i], rows, |ps[i]|)
    ensures StoredWell(order[k], RowsOf(AfterTable(order[i], rows, state).tables, order[k].id), |ps[k]|)
  {
    if k < i {
      assert StoredWell(order[k], RowsOf(state.tables, order[k].id), |ps[k]|);
      assert order[k].id != order[i].id;
    }
  }

  /** The rest of the invariant follows from what the new rows are. */
  lemma StepKeepsIfRestored(mapping: Mapping, order: seq<Table>, ps: seq<seq<NamedRow>>, i: nat, state: Importer,
                            rows: seq<Row>)
    requires GoodOrder(mapping, order) && i < |order| == |ps| && ImportedSoFar(order, ps, i, state)
    requires AllKnown(order[i], ps[i], state.ids) && rows == RestoredRows(order[i], ps[i], state.ids)
    requires FullRows(order[i], rows) && StoredWell(order[i], rows, |ps[i]|)
    requires var after := AfterTable(order[i], rows, state);
             ResolveAll(order[i], rows, after.tables) == Done(ps[i]) && Inverse(after.ids, after.tables)
    ensures ImportedSoFar(order, ps, i + 1, AfterTable(order[i], rows, state))
  {
    var after := AfterTable(order[i], rows, state);
    StepKeepsRows(mapping, order, ps, i, state, rows);
    forall k, p | 0 <= k < i + 1 && order[k].entity && p in ps[k] ensures Listed(after.ids, order[k], p) {
      StepKeepsListed(mapping, order, ps, i, state, k, p);
    }
    forall k | 0 <= k < i + 1 ensures StoredWell(order[k], RowsOf(after.tables, order[k].id), |ps[k]|) {
      StepKeepsStored(mapping, order, ps, i, state, rows, k);
    }
    assert forall k :: i + 1 <= k < |order| ==> order[k].id != order[i].id;
  }

  lemma StepKeepsImported(mapping: Mapping, order: seq<Table>, ps: seq<seq<NamedRow>>, i: nat, state: Importer)
    requires GoodOrder(mapping, order) && i < |order| == |ps| && ImportedSoFar(order, ps, i, state)
    requires AllKnown(order[i], ps[i], state.ids)
    ensures ImportedSoFar(order, ps, i + 1, AfterTable(order[i], RestoredRows(order[i], ps[i], state.ids), state))
  {
    var t := order[i];
    var rows := RestoredRows(t, ps[i], state.ids);
    InverseExtends(state.ids, state.tables, t.id, rows);
    ResolveRestoredRows(mapping, t, ps[i], state.ids, AfterTable(t, rows, state).tables);
    StepKeepsIfRestored(mapping, order, ps, i, state, rows);
  }

  /** Outside the alias table every row is printed. */
  lemma {:induction false} NoRowsDropped(t: Table, rows: seq<Row>, tables: Tables)
    requires FullRows(t, rows) && t.id != Aliases && ResolveAll(t, rows, tables).Done?
    ensures |ResolveAll(t, rows, tables).value| == |rows|
  {
    if rows != [] {
      NoRowsDropped(t, rows[1..], tables);
    }
  }

  lemma PortableCount(mapping: Mapping, t: Table, tables: Tables, ps: seq<NamedRow>)
    requires GoodTable(mapping, t) && ValidRows(t, RowsOf(tables, t.id)) && t.id != Aliases
    requires Portable(t, tables) == Done(ps)
    ensures |ps| == |RowsOf(tables, t.id)|
  {
    var rows := ResolveAll(t, RowsOf(tables, t.id), tables).value;
    NoRowsDropped(t, RowsOf(tables, t.id), tables);
    SortSorts(rows, SortKey(t));
    assert |multiset(ps)| == |multiset(rows)|;
  }

  lemma ImportFilled(mapping: Mapping, order: seq<Table>, tables: Tables, ps: seq<seq<NamedRow>>, i: nat,
                     state: Importer, generation: int)
    requires Source(mapping, order, tables, ps) && H.InRange(generation)
    requires i < |order| && ImportedSoFar(order, ps, i, state) && Importable(mapping, order[i])
    requires order[i].id == Epochs || ps[i] != []
    ensures var next := ImportTable(mapping, state, order[i], TableText(order[i], ps[i], generation));
            next.Imported? && ImportedSoFar(order, ps, i + 1, next.value)
  {
    var t := order[i];
    NextIsKnown(mapping, order, tables, ps, i, state);
    BlankText(t, ps[i], generation);
    assert RowsOf(state.tables, t.id) == [];
    ImportTextOf(mapping, t, ps[i], generation, state.ids);
    StepKeepsImported(mapping, order, ps, i, state);
  }

  lemma ImportBlank(
    mapping: Mapping, order: seq<Table>, ps: seq<seq<NamedRow>>, i: nat, state: Importer, generation: int)
    requires |ps| == |order| && H.InRange(generation)
    requires i < |order| && ImportedSoFar(order, ps, i, state) && order[i].id != Epochs && ps[i] == []
    ensures ImportTable(mapping, state, order[i], TableText(order[i], ps[i], generation)) == Imported(state)
    ensures ImportedSoFar(order, ps, i + 1, state)
  {
    BlankText(order[i], ps[i], generation);
    assert RowsOf(state.tables, order[i].id) == [];
  }

  lemma ImportNext(mapping: Mapping, order: seq<Table>, tables: Tables, ps: seq<seq<NamedRow>>, i: nat,
                   state: Importer, generation: int)
    requires Source(mapping, order, tables, ps) && ImportableOrNot(mapping, order) && H.InRange(generation)
    requires i < |order| && ImportedSoFar(order, ps, i, state) && Loads(mapping, order[i], tables)
    ensures var next := ImportTable(mapping, state, order[i], TableText(order[i], ps[i], generation));
            next.Imported? && ImportedSoFar(order, ps, i + 1, next.value)
  {
    assert Portable(order[i], tables) == Done(ps[i]);
    if order[i].id == Epochs || ps[i] != [] {
      ImportFilled(mapping, order, tables, ps, i, state, generation);
    } else {
      ImportBlank(mapping, order, ps, i, state, generation);
    }
  }

  /** The first row of a table with an unknown foreign key stops the import. */
  lemma ImportStops(mapping: Mapping, order: seq<Table>, tables: Tables, ps: seq<seq<NamedRow>>, i: nat,
                    state: Importer, generation: int)
    requires Source(mapping, order, tables, ps) && ImportableOrNot(mapping, order) && H.InRange(generation)
    requires i < |order| && !Loads(mapping, order[i], tables)
    ensures ImportTable(mapping, state, order[i], TableText(order[i], ps[i], generation)) == Rejected(UnknownColumn)
  {
    var t, rows := order[i], RowsOf(state.tables, order[i].id);
    assert ValidRows(t, RowsOf(tables, t.id)) && Portable(t, tables) == Done(ps[i]);
    PortableCount(mapping, t, tables, ps[i]);
    forall n | 0 <= n < |ps[i]| ensures PortableRow(t, ps[i][n]) {
      var row := PortableFrom(mapping, t, tables, ps[i], ps[i][n]);
    }
    BlankText(t, ps[i], generation);
    StatementsAreLines(mapping, t, ps[i]);
    ImportStatement(mapping, t, ps[i][0], rows, state.ids);
    UnimportableRow(mapping, t, ps[i][0], rows, state.ids);
  }

  lemma {:induction false} ImportRest(mapping: Mapping, order: seq<Table>, tables: Tables, ps: seq<seq<NamedRow>>,
                                      i: nat, state: Importer, generation: int)
    requires Source(mapping, order, tables, ps) && ImportableOrNot(mapping, order) && H.InRange(generation)
    requires i <= |order| && ImportedSoFar(order, ps, i, state)
    ensures var all := ImportTables(mapping, state, order[i..], Texts(order, ps, generation)[i..]);
            && (all.Imported? <==> forall k :: i <= k < |order| ==> Loads(mapping, order[k], tables))
            && (all.Imported? ==> ImportedSoFar(order, ps, |order|, all.value))
    decreases |order| - i
  {
    if i < |order| {
      var texts := Texts(order, ps, generation);
      ImportTablesFrom(mapping, state, order, texts, i);
      assert texts[i] == TableText(order[i], ps[i], generation);
      if Loads(mapping, order[i], tables) {
        ImportNext(mapping, order, tables, ps, i, state, generation);
        var next := ImportTable(mapping, state, order[i], texts[i]).value;
        ImportRest(mapping, order, tables, ps, i + 1, next, generation);
      } else {
        ImportStops(mapping, order, tables, ps, i, state, generation);
      }
    }
  }

  lemma NothingImported(mapping: Mapping, order: seq<Table>, ps: seq<seq<NamedRow>>)
    requires GoodOrder(mapping, order) && |ps| == |order|
    ensures ImportedSoFar(order, ps, 0, EmptyImporter)
  {
  }

  lemma SortedAgain(t: Table, tables: Tables, ps: seq<NamedRow>)
    requires FullRows(t, RowsOf(tables, t.id)) && Portable(t, tables) == Done(ps)
    ensures Sort(ps, SortKey(t)) == ps
  {
    SortSorts(ResolveAll(t, RowsOf(tables, t.id), tables).value, SortKey(t));
    SortOfSorted(ps, SortKey(t));
  }

  lemma RedumpIsSame(order: seq<Table>, db: Db, ps: seq<seq<NamedRow>>, state: Importer)
    requires FullTables(order, db.tables) && PortablesAre(order, db.tables, ps) && H.InRange(db.generation)
    requires ImportedSoFar(order, ps, |order|, state)
    ensures DumpTables(order, Db(state.tables, db.generation)) == Done(Texts(order, ps, db.generation))
  {
    forall k | 0 <= k < |order| ensures Portable(order[k], state.tables) == Done(ps[k]) {
      SortedAgain(order[k], db.tables, ps[k]);
    }
    DumpOfPortables(order, Db(state.tables, db.generation), ps);
  }

  /** Dump and import into an empty database: the import succeeds exactly when no
      table with a foreign key unknown to the importer has rows, and dumping the
      result gives the same texts.  Tied sort keys keep their order; orphaned aliases
      are gone after the first dump. */
  lemma RoundTrip(mapping: Mapping, order: seq<Table>, db: Db)
    requires GoodOrder(mapping, order) && ImportableOrNot(mapping, order)
    requires ValidTables(order, db.tables) && FullTables(order, db.tables) && H.InRange(db.generation)
    requires DumpTables(order, db).Done?
    ensures var back := ImportTables(mapping, EmptyImporter, order, DumpTables(order, db).value);
            && (back.Imported? <==> AllLoad(mapping, order, db.tables))
            && (back.Imported? ==>
                  && FullTables(order, back.value.tables)
                  && DumpTables(order, Db(back.value.tables, db.generation)) == DumpTables(order, db))
  {
    var ps := PortablesOfDump(order, db);
    NothingImported(mapping, order, ps);
    ImportRest(mapping, order, db.tables, ps, 0, EmptyImporter, db.generation);
    var texts := Texts(order, ps, db.generation);
    assert order[0..] == order && texts[0..] == texts;
    var back := ImportTables(mapping, EmptyImporter, order, texts);
    if back.Imported? {
      RedumpIsSame(order, db, ps, back.value);
    }
  }

  /** The epochs text always carries the generation it was printed with. */
  lemma GenerationIsPrinted(order: seq<Table>, db: Db, k: nat)
    requires FullTables(order, db.tables) && H.InRange(db.generation) && DumpTables(order, db).Done?
    requires k < |order| && order[k].id == Epochs
    ensures |DumpTables(order, db).value| == |order|
    ensures H.Parse(DumpTables(order, db).value[k]) == H.Known(db.generation)
  {
    var ps := PortablesOfDump(order, db);
    H.HeaderRoundTrip(Unlines(Statements(order[k], ps[k])), db.generation);
  }
}
