/** The sorted-SQL projection of the whole database and its importer.

    Tables are sequences of rows in rowid order.  Dumping rewrites foreign rowids to
    the text ids of the rows they point to and sorts; importing appends rows and
    rewrites text ids back to the rowids of the new database. */
module Dump {
  import opened Wrappers
  import opened Text
  import opened SqlText
  import opened Sorting
  import H = ProjectionHeader

  datatype TableId =
    | Epochs | Phases | Goals | Tasks | Ideas | Inbox | Rfcs | Lanes | Axioms
    | TaskLogs | TaskVerifications | PhaseRfcs | Aliases | AxiomImplications | AxiomTags
    | IdeaTags | IdeaTaskRefs | RfcRelations

  /** A foreign key: its column position, its name in the dump and the table it
      points into. */
  datatype Fk = Fk(at: nat, dumped: string, target: TableId)

  /** A table as the projection sees it; an entity table starts with its text id. */
  datatype Table = Table(
    id: TableId, name: string, columns: seq<string>, fk: Option<Fk>, sortColumns: seq<string>, entity: bool)

  /** The importer's table of dumped foreign-key columns: the real column and the
      table to look the text id up in. */
  type Mapping = map<string, (string, TableId)>

  function EntityTable(entityType: string): Option<TableId> {
    if entityType == "epoch" then Some(Epochs)
    else if entityType == "phase" then Some(Phases)
    else if entityType == "goal" then Some(Goals)
    else if entityType == "task" then Some(Tasks)
    else None
  }

  // ------------------------------------------------------------------ database

  datatype Row = Row(id: int, values: seq<SqlValue>)

  type Tables = map<TableId, seq<Row>>

  datatype Db = Db(tables: Tables, generation: int)

  function RowsOf(tables: Tables, t: TableId): seq<Row> {
    if t in tables then tables[t] else []
  }

  /** The text id of a row; the schema declares the column TEXT NOT NULL. */
  function TextIdOf(row: Row): string {
    if row.values != [] && row.values[0].SqlStr? then row.values[0].s else ""
  }

  /** rowid to text id */
  function TextIds(rows: seq<Row>): map<int, string> {
    if rows == [] then map[]
    else TextIds(rows[..|rows| - 1])[rows[|rows| - 1].id := TextIdOf(rows[|rows| - 1])]
  }

  /** text id to rowid */
  function RowIds(rows: seq<Row>): map<string, int> {
    if rows == [] then map[]
    else RowIds(rows[..|rows| - 1])[TextIdOf(rows[|rows| - 1]) := rows[|rows| - 1].id]
  }

  // ------------------------------------------------------------------- dumping

  datatype DumpError = FkResolution(table: TableId, rowid: int) | UnknownEntityType(name: string)

  /** What becomes of one row: printed, left out with a warning, or fatal. */
  datatype Resolved = Keep(row: NamedRow) | Skip | Fail(error: DumpError)

  datatype DumpResult<+T> = Done(value: T) | Failed(error: DumpError)

  function Named(t: Table, row: Row): NamedRow
    requires |row.values| == |t.columns|
  {
    seq(|row.values|, k requires 0 <= k < |row.values| => (t.columns[k], row.values[k]))
  }

  /** Replace a foreign rowid by the text id it stands for and rename the column; a
      null only renames, and a text value is left alone. */
  function ResolveFk(t: Table, fk: Fk, row: NamedRow, ids: map<int, string>): Resolved
    requires fk.at < |row|
  {
    match row[fk.at].1
    case SqlInt(rowid) =>
      if rowid in ids then Keep(row[fk.at := (fk.dumped, SqlStr(ids[rowid]))])
      else Fail(FkResolution(t.id, rowid))
    case SqlNull => Keep(row[fk.at := (fk.dumped, SqlNull)])
    case SqlStr(_) => Keep(row)
  }

  /** Aliases point into the table their type names.  Rows that are malformed or whose
      entity is gone are left out; an unknown type aborts the dump. */
  function ResolveAlias(row: NamedRow, tables: Tables): Resolved
    requires |row| == 3
  {
    if !row[0].1.SqlStr? || !row[1].1.SqlInt? then Skip
    else
      var target := EntityTable(row[0].1.s);
      if target.None? then Fail(UnknownEntityType(row[0].1.s))
      else
        var ids := TextIds(RowsOf(tables, target.value));
        if row[1].1.i in ids then Keep(row[1 := ("entity_text_id", SqlStr(ids[row[1].1.i]))]) else Skip
  }

  function Resolve(t: Table, row: Row, tables: Tables): Resolved
    requires |row.values| == |t.columns|
  {
    if t.id == Aliases && |t.columns| == 3 then ResolveAlias(Named(t, row), tables)
    else if t.fk.Some? && t.fk.value.at < |t.columns| then
      ResolveFk(t, t.fk.value, Named(t, row), TextIds(RowsOf(tables, t.fk.value.target)))
    else Keep(Named(t, row))
  }

  predicate FullRows(t: Table, rows: seq<Row>) {
    forall k :: 0 <= k < |rows| ==> |rows[k].values| == |t.columns|
  }

  function ResolveAll(t: Table, rows: seq<Row>, tables: Tables): DumpResult<seq<NamedRow>>
    requires FullRows(t, rows)
  {
    if rows == [] then Done([])
    else
      match Resolve(t, rows[0], tables)
      case Fail(e) => Failed(e)
      case Skip => ResolveAll(t, rows[1..], tables)
      case Keep(r) =>
        var rest := ResolveAll(t, rows[1..], tables);
        if rest.Failed? then rest else Done([r] + rest.value)
  }

  /** Sort keys are text: integers by their digits, null and missing columns empty. */
  function SortText(row: NamedRow, column: string): string {
    if row == [] then ""
    else if row[0].0 == column then
      match row[0].1
      case SqlStr(s) => s
      case SqlInt(i) => IntText(i)
      case SqlNull => ""
    else SortText(row[1..], column)
  }

  function SortKey(t: Table): NamedRow -> Key {
    (row: NamedRow) =>
      seq(|t.sortColumns|, k requires 0 <= k < |t.sortColumns| => SortText(row, t.sortColumns[k]))
  }

  function Statements(t: Table, rows: seq<NamedRow>): seq<string> {
    seq(|rows|, k requires 0 <= k < |rows| => RowToInsert(t.name, rows[k]))
  }

  /** The portable rows of a table, in the order they are printed. */
  function Portable(t: Table, tables: Tables): DumpResult<seq<NamedRow>>
    requires FullRows(t, RowsOf(tables, t.id))
  {
    var rows := ResolveAll(t, RowsOf(tables, t.id), tables);
    if rows.Failed? then rows else Done(Sort(rows.value, SortKey(t)))
  }

  ghost predicate FullTables(order: seq<Table>, tables: Tables) {
    forall k :: 0 <= k < |order| ==> FullRows(order[k], RowsOf(tables, order[k].id))
  }

  /** The text of one table; the epochs table carries the generation header. */
  function TableText(t: Table, rows: seq<NamedRow>, generation: int): string
    requires H.InRange(generation)
  {
    var body := Unlines(Statements(t, rows));
    if t.id == Epochs then H.WithGeneration(body, generation).value else body
  }

  /** The texts of all tables, in the given order. */
  function DumpTables(order: seq<Table>, db: Db): DumpResult<seq<string>>
    requires FullTables(order, db.tables) && H.InRange(db.generation)
  {
    if order == [] then Done([])
    else
      var rows := Portable(order[0], db.tables);
      if rows.Failed? then Failed(rows.error)
      else
        assert forall k :: 0 <= k < |order[1..]| ==> order[1..][k] == order[k + 1];
        var rest := DumpTables(order[1..], db);
        if rest.Failed? then rest
        else Done([TableText(order[0], rows.value, db.generation)] + rest.value)
  }

  // ----------------------------------------------------------------- importing

  datatype ImportError =
    | Parse(error: ParseError)
    | FkUnresolved(column: string, textId: string)
    | UnknownColumn
    | MalformedAlias

  datatype ImportResult<+T> = Imported(value: T) | Rejected(error: ImportError)

  /** For each imported entity table: text id to rowid. */
  type Ids = map<TableId, map<string, int>>

  /** What the importer holds: the tables so far, and for each imported entity table
      its text ids. */
  datatype Importer = Importer(tables: Tables, ids: Ids)

  function FindId(ids: Ids, target: TableId, textId: string): Option<int> {
    if target in ids && textId in ids[target] then Some(ids[target][textId]) else None
  }

  /** One column of a statement, with its foreign key resolved if it is one. */
  function RestoreColumn(mapping: Mapping, column: string, v: SqlValue, ids: Ids): ImportResult<(string, SqlValue)> {
    if column !in mapping then Imported((column, v))
    else
      var (stored, target) := mapping[column];
      if v.SqlStr? then
        var rowid := FindId(ids, target, v.s);
        if rowid.None? then Rejected(FkUnresolved(column, v.s)) else Imported((stored, SqlInt(rowid.value)))
      else Imported((stored, v))
  }

  function RestoreRegular(mapping: Mapping, row: NamedRow, ids: Ids): ImportResult<NamedRow> {
    if row == [] then Imported([])
    else
      var first := RestoreColumn(mapping, row[0].0, row[0].1, ids);
      if first.Rejected? then Rejected(first.error)
      else
        var rest := RestoreRegular(mapping, row[1..], ids);
        if rest.Rejected? then rest else Imported([first.value] + rest.value)
  }

  function PositionOf(row: NamedRow, column: string): (r: Option<nat>)
    ensures r.Some? ==> r.value < |row| && row[r.value].0 == column
  {
    if row == [] then None
    else if row[0].0 == column then Some(0)
    else
      var rest := PositionOf(row[1..], column);
      if rest.None? then None else Some(rest.value + 1)
  }

  function RestoreAlias(row: NamedRow, ids: Ids): ImportResult<NamedRow> {
    var typeAt, textAt := PositionOf(row, "entity_type"), PositionOf(row, "entity_text_id");
    if typeAt.None? || textAt.None? || !row[typeAt.value].1.SqlStr? || !row[textAt.value].1.SqlStr? then
      Rejected(MalformedAlias)
    else
      var target := EntityTable(row[typeAt.value].1.s);
      if target.None? then Rejected(MalformedAlias)
      else
        var textId := row[textAt.value].1.s;
        var rowid := FindId(ids, target.value, textId);
        if rowid.None? then Rejected(FkUnresolved("entity_text_id", textId))
        else Imported(seq(|row|, k requires 0 <= k < |row| =>
                            if row[k].0 == "entity_text_id" then ("entity_id", SqlInt(rowid.value)) else row[k]))
  }

  /** The value an INSERT gives to the k-th column of the table. */
  function InsertedValue(t: Table, row: NamedRow, k: nat): SqlValue
    requires k < |t.columns|
  {
    if k < |row| && row[k].0 == t.columns[k] then row[k].1
    else
      var at := PositionOf(row, t.columns[k]);
      if at.None? then SqlNull else row[at.value].1
  }

  /** SQLite refuses an INSERT that names a column the table does not have. */
  predicate ColumnsExist(t: Table, row: NamedRow) {
    forall k :: 0 <= k < |row| ==> row[k].0 in t.columns
  }

  function NextId(rows: seq<Row>): int {
    if rows == [] then 1 else rows[|rows| - 1].id + 1
  }

  function ExecuteInsert(t: Table, row: NamedRow, rows: seq<Row>): ImportResult<seq<Row>> {
    if !ColumnsExist(t, row) then Rejected(UnknownColumn)
    else
      Imported(rows + [Row(NextId(rows),
                           seq(|t.columns|, k requires 0 <= k < |t.columns| => InsertedValue(t, row, k)))])
  }

  function Zip(insert: Insert): NamedRow {
    var n := if |insert.columns| <= |insert.values| then |insert.columns| else |insert.values|;
    seq(n, k requires 0 <= k < n => (insert.columns[k], insert.values[k]))
  }

  function ImportRow(mapping: Mapping, t: Table, row: NamedRow, rows: seq<Row>, ids: Ids): ImportResult<seq<Row>> {
    var restored := if t.id == Aliases then RestoreAlias(row, ids) else RestoreRegular(mapping, row, ids);
    if restored.Rejected? then Rejected(restored.error) else ExecuteInsert(t, restored.value, rows)
  }

  function ImportLine(mapping: Mapping, t: Table, line: string, rows: seq<Row>, ids: Ids): ImportResult<seq<Row>> {
    var trimmed := Trim(line);
    if trimmed == [] || StartsWith(trimmed, "--") then Imported(rows)
    else
      var parsed := ParseInsert(trimmed);
      if parsed.Err? then Rejected(Parse(parsed.error)) else ImportRow(mapping, t, Zip(parsed.value), rows, ids)
  }

  function ImportLines(mapping: Mapping, t: Table, lines: seq<string>, rows: seq<Row>, ids: Ids)
    : ImportResult<seq<Row>>
    decreases |lines|
  {
    if lines == [] then Imported(rows)
    else
      var next := ImportLine(mapping, t, lines[0], rows, ids);
      if next.Rejected? then next else ImportLines(mapping, t, lines[1..], next.value, ids)
  }

  /** A blank file is skipped altogether; an imported entity table becomes available
      for lookups. */
  function ImportTable(mapping: Mapping, state: Importer, t: Table, text: string): ImportResult<Importer> {
    if Trim(text) == [] then Imported(state)
    else
      var rows := ImportLines(mapping, t, Lines(text), RowsOf(state.tables, t.id), state.ids);
      if rows.Rejected? then Rejected(rows.error)
      else
        Imported(Importer(state.tables[t.id := rows.value],
                          if t.entity then state.ids[t.id := RowIds(rows.value)] else state.ids))
  }

  /** Import the texts of the tables, in the given order, on top of `state`. */
  function ImportTables(mapping: Mapping, state: Importer, order: seq<Table>, texts: seq<string>)
    : ImportResult<Importer>
    decreases |order|
  {
    if order == [] || texts == [] then Imported(state)
    else
      var next := ImportTable(mapping, state, order[0], texts[0]);
      if next.Rejected? then next else ImportTables(mapping, next.value, order[1..], texts[1..])
  }

  lemma ImportLinesFrom(mapping: Mapping, t: Table, lines: seq<string>, k: nat, rows: seq<Row>, ids: Ids)
    requires k < |lines|
    ensures ImportLines(mapping, t, lines[k..], rows, ids) ==
            var next := ImportLine(mapping, t, lines[k], rows, ids);
            if next.Rejected? then next else ImportLines(mapping, t, lines[k + 1..], next.value, ids)
  {
    assert lines[k..][1..] == lines[k + 1..];
  }

  lemma ImportTablesFrom(mapping: Mapping, state: Importer, order: seq<Table>, texts: seq<string>, k: nat)
    requires k < |order| == |texts|
    ensures ImportTables(mapping, state, order[k..], texts[k..]) ==
            var next := ImportTable(mapping, state, order[k], texts[k]);
            if next.Rejected? then next else ImportTables(mapping, next.value, order[k + 1..], texts[k + 1..])
  {
    assert order[k..][1..] == order[k + 1..] && texts[k..][1..] == texts[k + 1..];
  }

  /** An empty, freshly migrated database. */
  const EmptyImporter := Importer(map[], map[])
}
