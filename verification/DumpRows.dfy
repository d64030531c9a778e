/** Row by row: what a portable row looks like, and why importing its statement and
    resolving the imported row gives the same portable row again. */
module DumpRows {
  import opened Wrappers
  import opened Text
  import opened SqlText
  import opened SqlRoundTrip
  import opened Sorting
  import opened Dump

  // ------------------------------------------------------- what a schema must be

  /** Plain column names that are not mistaken for dumped foreign keys, a foreign key
      inside the row, and the fixed shape of the alias table. */
  predicate GoodTable(mapping: Mapping, t: Table) {
    && PlainName(t.name)
    && t.columns != []
    && (forall k :: 0 <= k < |t.columns| ==> PlainName(t.columns[k]) && t.columns[k] !in mapping)
    && (t.fk.Some? ==> t.fk.value.at < |t.columns| && PlainName(t.fk.value.dumped))
    && (t.fk.Some? && t.entity ==> t.fk.value.at > 0)
    && (t.id == Aliases ==> t.columns == ["entity_type", "entity_id", "alias"] && t.fk.None? && !t.entity)
  }

  /** The importer maps the dumped foreign key back to its column. */
  predicate Importable(mapping: Mapping, t: Table)
    requires GoodTable(mapping, t)
  {
    t.fk.Some? ==>
      && t.fk.value.dumped in mapping
      && mapping[t.fk.value.dumped] == (t.columns[t.fk.value.at], t.fk.value.target)
  }

  /** The importer leaves the dumped foreign key as it is, and the table has no such
      column. */
  predicate Unimportable(mapping: Mapping, t: Table) {
    t.fk.Some? && t.id != Aliases && t.id != Epochs && t.fk.value.dumped !in mapping && t.fk.value.dumped !in t.columns
  }

  /** Rows as the schema admits them: all columns there, 64-bit integers, entities
      with a text id, foreign keys that are rowids or null. */
  predicate ValidRow(t: Table, row: Row) {
    && |row.values| == |t.columns|
    && (forall k :: 0 <= k < |row.values| ==> Representable(row.values[k]))
    && (t.entity ==> row.values != [] && row.values[0].SqlStr?)
    && (t.fk.Some? && t.fk.value.at < |row.values| ==> !row.values[t.fk.value.at].SqlStr?)
  }

  // ------------------------------------------------------------- portable rows

  /** The column that holds the reference to another entity, if any. */
  function RefColumn(t: Table): nat {
    if t.id == Aliases then 1 else if t.fk.Some? then t.fk.value.at else |t.columns|
  }

  /** The reference column holds a rowid or null, as the importer and the schema have it. */
  predicate RefStored(t: Table, row: Row) {
    RefColumn(t) < |row.values| ==> !row.values[RefColumn(t)].SqlStr?
  }

  function DumpedRefName(t: Table): string {
    if t.id == Aliases then "entity_text_id" else if t.fk.Some? then t.fk.value.dumped else ""
  }

  /** The entity that a portable row refers to, by table and text id. */
  function Ref(t: Table, p: NamedRow): Option<(TableId, string)> {
    if t.id == Aliases then
      if |p| == 3 && p[0].1.SqlStr? && p[1].1.SqlStr? && EntityTable(p[0].1.s).Some?
      then Some((EntityTable(p[0].1.s).value, p[1].1.s)) else None
    else if t.fk.Some? && t.fk.value.at < |p| && p[t.fk.value.at].1.SqlStr?
    then Some((t.fk.value.target, p[t.fk.value.at].1.s)) else None
  }

  predicate PortableRow(t: Table, p: NamedRow) {
    && |p| == |t.columns|
    && (forall k :: 0 <= k < |p| ==> Representable(p[k].1))
    && (forall k :: 0 <= k < |p| && k != RefColumn(t) ==> p[k].0 == t.columns[k])
    && (RefColumn(t) < |p| ==> p[RefColumn(t)].0 == DumpedRefName(t) && !p[RefColumn(t)].1.SqlInt?)
    && (t.id == Aliases ==> Ref(t, p).Some?)
    && (t.entity ==> p != [] && p[0].1.SqlStr?)
  }

  lemma AliasNames()
    ensures PlainName("entity_text_id")
    ensures "entity_text_id" != "entity_type" && "entity_text_id" != "alias" && "entity_text_id" != "entity_id"
  {
  }

  /** Resolving a valid row that is kept gives a portable row; only alias rows are
      ever left out. */
  lemma ResolvedIsPortable(mapping: Mapping, t: Table, row: Row, tables: Tables)
    requires GoodTable(mapping, t) && ValidRow(t, row)
    ensures Resolve(t, row, tables).Keep? ==> PortableRow(t, Resolve(t, row, tables).row)
    ensures Resolve(t, row, tables).Keep? && t.entity ==> Resolve(t, row, tables).row[0].1 == SqlStr(TextIdOf(row))
    ensures Resolve(t, row, tables).Skip? ==> t.id == Aliases
  {
  }

  lemma PortableIsPlain(mapping: Mapping, t: Table, p: NamedRow)
    requires GoodTable(mapping, t) && PortableRow(t, p)
    ensures PlainRow(p)
  {
    AliasNames();
  }

  // ------------------------------------------------------------- restored rows

  /** The reference of the row can be looked up. */
  predicate Known(t: Table, p: NamedRow, ids: Ids) {
    Ref(t, p).Some? ==> FindId(ids, Ref(t, p).value.0, Ref(t, p).value.1).Some?
  }

  /** The stored reference of an imported row: the rowid, or the null that was there. */
  function RestoredRef(t: Table, p: NamedRow, ids: Ids): SqlValue
    requires Known(t, p, ids)
  {
    if Ref(t, p).None? then SqlNull else SqlInt(FindId(ids, Ref(t, p).value.0, Ref(t, p).value.1).value)
  }

  function RestoredValues(t: Table, p: NamedRow, ids: Ids): seq<SqlValue>
    requires Known(t, p, ids)
  {
    seq(|p|, k requires 0 <= k < |p| => if k == RefColumn(t) then RestoredRef(t, p, ids) else p[k].1)
  }

  function RestoredRow(t: Table, p: NamedRow, ids: Ids): NamedRow
    requires |p| == |t.columns| && Known(t, p, ids)
  {
    seq(|p|, k requires 0 <= k < |p| => (t.columns[k], RestoredValues(t, p, ids)[k]))
  }

  lemma RestoredAt(t: Table, p: NamedRow, ids: Ids, k: nat)
    requires |p| == |t.columns| && Known(t, p, ids) && k < |p|
    ensures RestoredRow(t, p, ids)[k] ==
            (t.columns[k], if k == RefColumn(t) then RestoredRef(t, p, ids) else p[k].1)
  {
    assert RestoredRow(t, p, ids)[k] == (t.columns[k], RestoredValues(t, p, ids)[k]);
  }

  lemma {:induction false} RestorePointwise(mapping: Mapping, row: NamedRow, restored: NamedRow, ids: Ids)
    requires |restored| == |row|
    requires forall k :: 0 <= k < |row| ==> RestoreColumn(mapping, row[k].0, row[k].1, ids) == Imported(restored[k])
    ensures RestoreRegular(mapping, row, ids) == Imported(restored)
  {
    if row != [] {
      RestorePointwise(mapping, row[1..], restored[1..], ids);
      assert restored == [restored[0]] + restored[1..];
    }
  }

  lemma RestoreOneColumn(mapping: Mapping, t: Table, p: NamedRow, ids: Ids, k: nat)
    requires GoodTable(mapping, t) && Importable(mapping, t) && t.id != Aliases
    requires PortableRow(t, p) && Known(t, p, ids) && k < |p|
    ensures RestoreColumn(mapping, p[k].0, p[k].1, ids) == Imported(RestoredRow(t, p, ids)[k])
  {
    RestoredAt(t, p, ids, k);
    if k == RefColumn(t) {
      assert p[k].0 == t.fk.value.dumped;
    }
  }

  lemma RestoreRegularRow(mapping: Mapping, t: Table, p: NamedRow, ids: Ids)
    requires GoodTable(mapping, t) && Importable(mapping, t) && t.id != Aliases
    requires PortableRow(t, p) && Known(t, p, ids)
    ensures RestoreRegular(mapping, p, ids) == Imported(RestoredRow(t, p, ids))
  {
    var restored := RestoredRow(t, p, ids);
    forall k | 0 <= k < |p| ensures RestoreColumn(mapping, p[k].0, p[k].1, ids) == Imported(restored[k]) {
      RestoreOneColumn(mapping, t, p, ids, k);
    }
    RestorePointwise(mapping, p, restored, ids);
  }

  lemma AliasPositions(p: NamedRow)
    requires |p| == 3 && p[0].0 == "entity_type" && p[1].0 == "entity_text_id"
    ensures PositionOf(p, "entity_type") == Some(0) && PositionOf(p, "entity_text_id") == Some(1)
  {
    AliasNames();
    assert PositionOf(p[1..], "entity_text_id") == Some(0);
  }

  lemma RestoreAliasRow(mapping: Mapping, t: Table, p: NamedRow, ids: Ids)
    requires GoodTable(mapping, t) && t.id == Aliases
    requires PortableRow(t, p) && Known(t, p, ids)
    ensures RestoreAlias(p, ids) == Imported(RestoredRow(t, p, ids))
  {
    AliasNames();
    AliasPositions(p);
    var restored, rowid := RestoredRow(t, p, ids), FindId(ids, Ref(t, p).value.0, Ref(t, p).value.1).value;
    RestoredAt(t, p, ids, 0);
    RestoredAt(t, p, ids, 1);
    RestoredAt(t, p, ids, 2);
    assert p[0].0 == t.columns[0] && p[2].0 == t.columns[2];
    var rebuilt := seq(|p|, k requires 0 <= k < |p| =>
                         if p[k].0 == "entity_text_id" then ("entity_id", SqlInt(rowid)) else p[k]);
    assert rebuilt == restored;
  }

  /** Importing the statement of a portable row appends its restored values. */
  lemma ImportPortableRow(mapping: Mapping, t: Table, p: NamedRow, rows: seq<Row>, ids: Ids)
    requires GoodTable(mapping, t) && Importable(mapping, t)
    requires PortableRow(t, p) && Known(t, p, ids)
    ensures ImportRow(mapping, t, p, rows, ids) == Imported(rows + [Row(NextId(rows), RestoredValues(t, p, ids))])
  {
    var restored := RestoredRow(t, p, ids);
    if t.id == Aliases {
      RestoreAliasRow(mapping, t, p, ids);
    } else {
      RestoreRegularRow(mapping, t, p, ids);
    }
    InsertRestored(t, p, rows, ids);
  }

  lemma InsertRestored(t: Table, p: NamedRow, rows: seq<Row>, ids: Ids)
    requires |p| == |t.columns| && Known(t, p, ids)
    ensures ExecuteInsert(t, RestoredRow(t, p, ids), rows) ==
            Imported(rows + [Row(NextId(rows), RestoredValues(t, p, ids))])
  {
    var restored := RestoredRow(t, p, ids);
    assert ColumnsExist(t, restored);
    assert seq(|t.columns|, k requires 0 <= k < |t.columns| => InsertedValue(t, restored, k))
        == RestoredValues(t, p, ids);
  }

  /** A row of a table whose foreign key the importer does not know is refused. */
  lemma UnimportableRow(mapping: Mapping, t: Table, p: NamedRow, rows: seq<Row>, ids: Ids)
    requires GoodTable(mapping, t) && Unimportable(mapping, t) && PortableRow(t, p)
    ensures ImportRow(mapping, t, p, rows, ids) == Rejected(UnknownColumn)
  {
    forall k | 0 <= k < |p| ensures RestoreColumn(mapping, p[k].0, p[k].1, ids) == Imported(p[k]) {
    }
    RestorePointwise(mapping, p, p, ids);
    assert p[t.fk.value.at].0 !in t.columns;
  }

  lemma StatementTrimmed(t: Table, p: NamedRow)
    ensures RowToInsert(t.name, p) != [] && RowToInsert(t.name, p)[0] == 'I'
    ensures Trim(RowToInsert(t.name, p)) == RowToInsert(t.name, p)
    ensures !StartsWith(RowToInsert(t.name, p), "--")
  {
    var line := RowToInsert(t.name, p);
    assert line[0] == 'I' && line[|line| - 1] == ';';
    TrimPadded(line);
  }

  lemma ZipRow(p: NamedRow)
    ensures Zip(Insert(Names(p), Values(p))) == p
  {
  }

  lemma ImportStatement(mapping: Mapping, t: Table, p: NamedRow, rows: seq<Row>, ids: Ids)
    requires GoodTable(mapping, t) && PortableRow(t, p)
    ensures ImportLine(mapping, t, RowToInsert(t.name, p), rows, ids) == ImportRow(mapping, t, p, rows, ids)
  {
    StatementTrimmed(t, p);
    PortableIsPlain(mapping, t, p);
    InsertRoundTrip(t.name, p);
    ZipRow(p);
  }

  /** The rowids known for a table lead back to the text ids. */
  ghost predicate Inverse(ids: Ids, tables: Tables) {
    forall t, text :: t in ids && text in ids[t] ==>
      ids[t][text] in TextIds(RowsOf(tables, t)) && TextIds(RowsOf(tables, t))[ids[t][text]] == text
  }

  /** Dumping the imported row gives the portable row it came from. */
  lemma ResolveRestored(mapping: Mapping, t: Table, p: NamedRow, id: int, ids: Ids, tables: Tables)
    requires GoodTable(mapping, t) && PortableRow(t, p) && Known(t, p, ids) && Inverse(ids, tables)
    ensures Resolve(t, Row(id, RestoredValues(t, p, ids)), tables) == Keep(p)
  {
    var named := Named(t, Row(id, RestoredValues(t, p, ids)));
    if RefColumn(t) < |p| {
      assert named[RefColumn(t) := p[RefColumn(t)]] == p;
    } else {
      assert named == p;
    }
  }
}
