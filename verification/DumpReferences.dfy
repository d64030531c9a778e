/** Which entity a reference means, on the way out and on the way back: each alias type with
    its own table, and each foreign key with the table it points into. */
module DumpReferences {
  import opened Wrappers
  import opened Text
  import opened SqlText
  import opened Dump
  import opened DumpRows
  import opened DumpRoundTrip
  import opened DumpDeterminism
  import opened DumpIdentity

  /** What an alias type says. */
  predicate Means(kind: string, target: TableId) {
    || (kind == "epoch" && target == Epochs)
    || (kind == "phase" && target == Phases)
    || (kind == "goal" && target == Goals)
    || (kind == "task" && target == Tasks)
  }

  predicate AliasTable(t: Table) {
    t.id == Aliases && t.columns == ["entity_type", "entity_id", "alias"]
  }

  /** A stored entity with a text id. */
  predicate Entity(rows: seq<Row>, e: Row, text: string) {
    e in rows && e.values != [] && e.values[0] == SqlStr(text)
  }

  function PrintedAlias(kind: string, text: string, name: SqlValue): NamedRow {
    [("entity_type", SqlStr(kind)), ("entity_text_id", SqlStr(text)), ("alias", name)]
  }

  lemma RowAmong(rows: seq<Row>, id: int)
    ensures HasRow(rows, id) <==> exists e :: e in rows && e.id == id
  {
    if e :| e in rows && e.id == id {
      var k :| 0 <= k < |rows| && rows[k] == e;
    }
    if HasRow(rows, id) {
      var k :| 0 <= k < |rows| && rows[k].id == id;
      assert rows[k] in rows;
    }
  }

  lemma LookedUp(rows: seq<Row>, e: Row, text: string)
    requires DistinctIds(rows) && Entity(rows, e, text)
    ensures e.id in TextIds(rows) && TextIds(rows)[e.id] == text
  {
    TextIdOfRow(rows, e);
  }

  // -------------------------------------------------------------------------- aliases

  /** An alias is printed exactly when the table of its type has the row, and left out
      otherwise; it is printed with the text id of that row. */
  lemma AliasPrinted(t: Table, row: Row, tables: Tables, kind: string, target: TableId, n: int, name: SqlValue)
    requires AliasTable(t) && Means(kind, target) && row.values == [SqlStr(kind), SqlInt(n), name]
    ensures Resolve(t, row, tables).Keep? <==> exists e :: e in RowsOf(tables, target) && e.id == n
    ensures !Resolve(t, row, tables).Keep? ==> Resolve(t, row, tables).Skip?
    ensures DistinctIds(RowsOf(tables, target)) ==>
              forall e, text :: Entity(RowsOf(tables, target), e, text) && e.id == n ==>
                Resolve(t, row, tables) == Keep(PrintedAlias(kind, text, name))
  {
    var rows := RowsOf(tables, target);
    TextIdsHasRow(rows, n);
    RowAmong(rows, n);
    assert Named(t, row) == [("entity_type", SqlStr(kind)), ("entity_id", SqlInt(n)), ("alias", name)];
    forall e, text | DistinctIds(rows) && Entity(rows, e, text) && e.id == n
      ensures Resolve(t, row, tables) ==
              Keep(PrintedAlias(kind, text, name))
    {
      LookedUp(rows, e, text);
    }
  }

  /** A row without a type or a rowid is left out, whatever is in the database. */
  lemma MalformedAliasLeftOut(t: Table, row: Row, tables: Tables)
    requires AliasTable(t) && |row.values| == 3 && (!row.values[0].SqlStr? || !row.values[1].SqlInt?)
    ensures Resolve(t, row, tables) == Skip
  {
    assert Named(t, row)[0].1 == row.values[0] && Named(t, row)[1].1 == row.values[1];
  }

  /** Any other type stops the dump. */
  lemma AliasOfUnknownType(t: Table, row: Row, tables: Tables, kind: string, n: int, name: SqlValue)
    requires AliasTable(t) && row.values == [SqlStr(kind), SqlInt(n), name]
    ensures Resolve(t, row, tables) == Fail(UnknownEntityType(kind)) <==> kind !in {"epoch", "phase", "goal", "task"}
  {
    assert Named(t, row)[0].1 == SqlStr(kind) && Named(t, row)[1].1 == SqlInt(n);
  }

  lemma RowIdOf(rows: seq<Row>, e: Row, text: string)
    requires UniqueTextIds(rows) && Entity(rows, e, text)
    ensures text in RowIds(rows) && RowIds(rows)[text] == e.id
  {
    var k :| 0 <= k < |rows| && rows[k] == e;
    RowIdsHas(rows, k);
    var j := RowIdsFrom(rows, text);
    assert j == k;
  }

  /** The printed alias, imported: it gets the rowid of the row of its type's table that has
      the text id. */
  lemma AliasImported(mapping: Mapping, t: Table, kind: string, target: TableId, text: string, name: SqlValue,
                      rows: seq<Row>, entities: seq<Row>, ids: Ids)
    requires GoodTable(mapping, t) && AliasTable(t) && Means(kind, target) && Representable(name)
    requires target in ids && ids[target] == RowIds(entities) && UniqueTextIds(entities)
    ensures var p := PrintedAlias(kind, text, name);
            && (forall e :: Entity(entities, e, text) ==>
                  ImportRow(mapping, t, p, rows, ids) ==
                  Imported(rows + [Row(NextId(rows), [SqlStr(kind), SqlInt(e.id), name])]))
            && ((forall e :: e in entities ==> TextIdOf(e) != text) ==>
                  ImportRow(mapping, t, p, rows, ids) == Rejected(FkUnresolved("entity_text_id", text)))
  {
    var p := PrintedAlias(kind, text, name);
    AliasPositions(p);
    forall e | Entity(entities, e, text)
      ensures ImportRow(mapping, t, p, rows, ids) ==
              Imported(rows + [Row(NextId(rows), [SqlStr(kind), SqlInt(e.id), name])])
    {
      RowIdOf(entities, e, text);
      ImportPortableRow(mapping, t, p, rows, ids);
      assert RestoredValues(t, p, ids) == [SqlStr(kind), SqlInt(e.id), name];
    }
    if forall e :: e in entities ==> TextIdOf(e) != text {
      if text in RowIds(entities) {
        var k := RowIdsFrom(entities, text);
      }
    }
  }

  /** An alias of any other type is refused. */
  lemma StrangeAliasRefused(mapping: Mapping, t: Table, kind: string, text: SqlValue, name: SqlValue,
                            rows: seq<Row>, ids: Ids)
    requires AliasTable(t) && kind !in {"epoch", "phase", "goal", "task"}
    ensures var p := [("entity_type", SqlStr(kind)), ("entity_text_id", text), ("alias", name)];
            ImportRow(mapping, t, p, rows, ids) == Rejected(MalformedAlias)
  {
    AliasPositions([("entity_type", SqlStr(kind)), ("entity_text_id", text), ("alias", name)]);
  }

  /** In a database that comes back from the dump, every alias that was printed is there and
      points, in the table of its type, to where that row has gone. */
  lemma AliasesRestored(order: seq<Table>, source: Tables, imported: Tables, f: Renumbering, k: nat,
                        row: Row, kind: string, target: TableId, n: int, name: SqlValue)
    requires FullTables(order, source) && Restores(order, source, imported, f)
    requires k < |order| && AliasTable(order[k]) && row in RowsOf(source, Aliases)
    requires Means(kind, target) && row.values == [SqlStr(kind), SqlInt(n), name]
    requires exists e :: e in RowsOf(source, target) && e.id == n
    ensures Row(f(Aliases, row.id), [SqlStr(kind), SqlInt(f(target, n)), name]) in RowsOf(imported, Aliases)
  {
    var t := order[k];
    AliasPrinted(t, row, source, kind, target, n, name);
    AliasRenumbered(t, row, f, kind, target, n, name);
    KeptComesBack(t, source, RowsOf(imported, Aliases), f, row);
  }

  lemma AliasRenumbered(t: Table, row: Row, f: Renumbering, kind: string, target: TableId, n: int, name: SqlValue)
    requires AliasTable(t) && Means(kind, target) && row.values == [SqlStr(kind), SqlInt(n), name]
    ensures Renumbered(t, row, f) == Row(f(Aliases, row.id), [SqlStr(kind), SqlInt(f(target, n)), name])
  {
  }

  lemma KeptComesBack(t: Table, source: Tables, imported: seq<Row>, f: Renumbering, row: Row)
    requires FullRows(t, RowsOf(source, t.id)) && row in RowsOf(source, t.id)
    requires |row.values| == |t.columns| && Resolve(t, row, source).Keep?
    requires multiset(RenumberedAll(t, KeptRows(t, RowsOf(source, t.id), source), f)) == multiset(imported)
    ensures Renumbered(t, row, f) in imported
  {
    var kept := KeptRows(t, RowsOf(source, t.id), source);
    KeptHas(t, RowsOf(source, t.id), source, row);
    var m :| 0 <= m < |kept| && kept[m] == row;
    var moved := RenumberedAll(t, kept, f);
    assert moved[m] == Renumbered(t, row, f) && moved[m] in multiset(moved);
  }

  lemma {:induction false} KeptHas(t: Table, rows: seq<Row>, tables: Tables, row: Row)
    requires FullRows(t, rows) && row in rows
    ensures |row.values| == |t.columns| && (Resolve(t, row, tables).Keep? ==> row in KeptRows(t, rows, tables))
  {
    if rows[0] != row {
      KeptHas(t, rows[1..], tables, row);
    }
  }

  // --------------------------------------------------------------------- foreign keys

  /** A foreign key is printed under its dumped name, with the text id of the row of its
      table that it names; a rowid that the table does not have stops the dump, and null
      stays null. */
  lemma ForeignKeyPrinted(mapping: Mapping, t: Table, fk: Fk, row: Row, tables: Tables)
    requires GoodTable(mapping, t) && t.id != Aliases && t.fk == Some(fk) && |row.values| == |t.columns|
    ensures row.values[fk.at].SqlNull? ==> Resolve(t, row, tables) == Keep(Named(t, row)[fk.at := (fk.dumped, SqlNull)])
    ensures row.values[fk.at].SqlStr? ==> Resolve(t, row, tables) == Keep(Named(t, row))
    ensures row.values[fk.at].SqlInt? ==>
              var n, rows := row.values[fk.at].i, RowsOf(tables, fk.target);
              && (Resolve(t, row, tables) == Fail(FkResolution(t.id, n)) <==> forall e :: e in rows ==> e.id != n)
              && (forall e, text :: DistinctIds(rows) && Entity(rows, e, text) && e.id == n ==>
                    Resolve(t, row, tables) == Keep(Named(t, row)[fk.at := (fk.dumped, SqlStr(text))]))
  {
    if row.values[fk.at].SqlInt? {
      var n, rows := row.values[fk.at].i, RowsOf(tables, fk.target);
      TextIdsHasRow(rows, n);
      RowAmong(rows, n);
      forall e, text | DistinctIds(rows) && Entity(rows, e, text) && e.id == n
        ensures Resolve(t, row, tables) == Keep(Named(t, row)[fk.at := (fk.dumped, SqlStr(text))])
      {
        LookedUp(rows, e, text);
      }
    }
  }

  /** Read back, it becomes the rowid of the row of that table with the text id, under the
      column's own name. */
  lemma ForeignKeyImported(mapping: Mapping, t: Table, fk: Fk, text: string, entities: seq<Row>, ids: Ids)
    requires GoodTable(mapping, t) && Importable(mapping, t) && t.fk == Some(fk)
    requires fk.target in ids && ids[fk.target] == RowIds(entities) && UniqueTextIds(entities)
    ensures forall e :: Entity(entities, e, text) ==>
              RestoreColumn(mapping, fk.dumped, SqlStr(text), ids) == Imported((t.columns[fk.at], SqlInt(e.id)))
    ensures (forall e :: e in entities ==> TextIdOf(e) != text) ==>
              RestoreColumn(mapping, fk.dumped, SqlStr(text), ids) == Rejected(FkUnresolved(fk.dumped, text))
  {
    forall e | Entity(entities, e, text)
      ensures RestoreColumn(mapping, fk.dumped, SqlStr(text), ids) == Imported((t.columns[fk.at], SqlInt(e.id)))
    {
      RowIdOf(entities, e, text);
    }
    if forall e :: e in entities ==> TextIdOf(e) != text {
      if text in RowIds(entities) {
        var k := RowIdsFrom(entities, text);
      }
    }
  }
}
