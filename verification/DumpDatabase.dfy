/** The database that is dumped and filled in place, with the loops of the dump and of
    the importer. */
module DumpDatabase {
  import opened Wrappers
  import opened Text
  import opened SqlText
  import opened Sorting
  import opened Dump
  import opened DumpRoundTrip
  import H = ProjectionHeader

  lemma TextIdsStep(rows: seq<Row>, k: nat)
    requires k < |rows|
    ensures TextIds(rows[..k + 1]) == TextIds(rows[..k])[rows[k].id := TextIdOf(rows[k])]
    ensures RowIds(rows[..k + 1]) == RowIds(rows[..k])[TextIdOf(rows[k]) := rows[k].id]
  {
    assert rows[..k + 1][..k] == rows[..k];
  }

  method BuildTextIdMap(rows: seq<Row>) returns (ids: map<int, string>)
    ensures ids == TextIds(rows)
  {
    ids := map[];
    for k := 0 to |rows|
      invariant ids == TextIds(rows[..k])
    {
      TextIdsStep(rows, k);
      ids := ids[rows[k].id := TextIdOf(rows[k])];
    }
    assert rows[..|rows|] == rows;
  }

  method BuildReverseTextIdMap(rows: seq<Row>) returns (ids: map<string, int>)
    ensures ids == RowIds(rows)
  {
    ids := map[];
    for k := 0 to |rows|
      invariant ids == RowIds(rows[..k])
    {
      TextIdsStep(rows, k);
      ids := ids[TextIdOf(rows[k]) := rows[k].id];
    }
    assert rows[..|rows|] == rows;
  }

  /** The rows resolved so far in front of what resolving the rest gives. */
  function Preceded(before: seq<NamedRow>, r: DumpResult<seq<NamedRow>>): DumpResult<seq<NamedRow>> {
    if r.Failed? then r else Done(before + r.value)
  }

  lemma ResolveStep(t: Table, rows: seq<Row>, k: nat, tables: Tables, before: seq<NamedRow>)
    requires FullRows(t, rows) && k < |rows|
    ensures Preceded(before, ResolveAll(t, rows[k..], tables)) ==
            match Resolve(t, rows[k], tables)
            case Fail(e) => Failed(e)
            case Skip => Preceded(before, ResolveAll(t, rows[k + 1..], tables))
            case Keep(row) => Preceded(before + [row], ResolveAll(t, rows[k + 1..], tables))
  {
    assert rows[k..][1..] == rows[k + 1..];
    var rest := ResolveAll(t, rows[k + 1..], tables);
    if Resolve(t, rows[k], tables).Keep? && rest.Done? {
      var row := Resolve(t, rows[k], tables).row;
      assert before + ([row] + rest.value) == before + [row] + rest.value;
    }
  }

  /** The rowid to text id maps of the given tables. */
  method BuildTextIdMaps(tables: Tables, targets: set<TableId>) returns (maps: map<TableId, map<int, string>>)
    ensures MapsOf(tables, targets, maps)
  {
    maps := map[];
    var todo := targets;
    while todo != {}
      invariant todo <= targets && maps.Keys == targets - todo
      invariant forall t :: t in maps ==> maps[t] == TextIds(RowsOf(tables, t))
      decreases |todo|
    {
      var t :| t in todo;
      var ids := BuildTextIdMap(RowsOf(tables, t));
      maps, todo := maps[t := ids], todo - {t};
    }
  }

  ghost predicate MapsOf(tables: Tables, targets: set<TableId>, maps: map<TableId, map<int, string>>) {
    maps.Keys == targets && forall t :: t in maps ==> maps[t] == TextIds(RowsOf(tables, t))
  }

  /** One row of the table, with the maps built beforehand. */
  method ResolveRow(t: Table, row: Row, ghost tables: Tables, maps: map<TableId, map<int, string>>)
    returns (r: Resolved)
    requires |row.values| == |t.columns| && (t.id == Aliases ==> |t.columns| == 3)
    requires MapsOf(tables, References(t), maps)
    ensures r == Resolve(t, row, tables)
  {
    var named := Named(t, row);
    if t.id == Aliases {
      if !named[0].1.SqlStr? || !named[1].1.SqlInt? {
        return Skip;
      }
      var target := EntityTable(named[0].1.s);
      if target.None? {
        return Fail(UnknownEntityType(named[0].1.s));
      }
      var ids := maps[target.value];
      if named[1].1.i !in ids {
        return Skip;
      }
      return Keep(named[1 := ("entity_text_id", SqlStr(ids[named[1].1.i]))]);
    }
    if t.fk.Some? && t.fk.value.at < |t.columns| {
      return ResolveFk(t, t.fk.value, named, maps[t.fk.value.target]);
    }
    return Keep(named);
  }

  method ResolveRows(t: Table, rows: seq<Row>, tables: Tables) returns (r: DumpResult<seq<NamedRow>>)
    requires FullRows(t, rows) && (t.id == Aliases ==> |t.columns| == 3)
    ensures r == ResolveAll(t, rows, tables)
  {
    var maps := BuildTextIdMaps(tables, References(t));
    var kept := [];
    ghost var all := ResolveAll(t, rows, tables);
    PrecededByNone(all);
    assert rows[0..] == rows;
    for k := 0 to |rows|
      invariant all == Preceded(kept, ResolveAll(t, rows[k..], tables))
    {
      ResolveStep(t, rows, k, tables, kept);
      var resolved := ResolveRow(t, rows[k], tables, maps);
      match resolved {
        case Fail(e) => return Failed(e);
        case Skip =>
        case Keep(row) => kept := kept + [row];
      }
    }
    assert kept + [] == kept;
    return Done(kept);
  }

  lemma PrecededByNone(r: DumpResult<seq<NamedRow>>)
    ensures Preceded([], r) == r
  {
    if r.Done? {
      assert [] + r.value == r.value;
    }
  }

  lemma {:induction false} UnlinesAppend(lines: seq<string>, line: string)
    ensures Unlines(lines + [line]) == Unlines(lines) + line + "\n"
  {
    if lines == [] {
      assert lines + [line] == [line] && [line][1..] == [];
    } else {
      UnlinesAppend(lines[1..], line);
      assert (lines + [line])[1..] == lines[1..] + [line];
    }
  }

  method PrintValue(v: SqlValue) returns (text: string)
    ensures text == ValueToSql(v)
  {
    match v
    case SqlNull => text := "NULL";
    case SqlInt(i) => text := IntText(i);
    case SqlStr(s) =>
      var escaped := SqlEscape(s);
      text := "'" + escaped + "'";
  }

  method PrintRow(table: string, row: NamedRow) returns (line: string)
    ensures line == RowToInsert(table, row)
  {
    var names: seq<string>, literals: seq<string> := [], [];
    for k := 0 to |row|
      invariant |names| == |literals| == k
      invariant forall j :: 0 <= j < k ==> names[j] == row[j].0 && literals[j] == ValueToSql(row[j].1)
    {
      var literal := PrintValue(row[k].1);
      names, literals := names + [row[k].0], literals + [literal];
    }
    assert names == Names(row) && literals == Literals(Values(row));
    return "INSERT INTO " + table + "(" + Join(names, ", ") + ") VALUES(" + Join(literals, ", ") + ");";
  }

  method PrintRows(t: Table, rows: seq<NamedRow>) returns (output: string)
    ensures output == Unlines(Statements(t, rows))
  {
    output := "";
    ghost var lines := Statements(t, rows);
    for k := 0 to |rows|
      invariant output == Unlines(lines[..k])
    {
      UnlinesAppend(lines[..k], lines[k]);
      assert lines[..k + 1] == lines[..k] + [lines[k]];
      var line := PrintRow(t.name, rows[k]);
      output := output + line + "\n";
    }
    assert lines[..|rows|] == lines;
  }

  /** One line of a file: skipped, or parsed and inserted. */
  method InsertLine(mapping: Mapping, t: Table, line: string, rows: seq<Row>, ids: Ids)
    returns (r: ImportResult<seq<Row>>)
    ensures r == ImportLine(mapping, t, line, rows, ids)
  {
    var trimmed := Trim(line);
    if trimmed == [] || StartsWith(trimmed, "--") {
      return Imported(rows);
    }
    var parsed := ParseInsertLine(trimmed);
    if parsed.Err? {
      return Rejected(Parse(parsed.error));
    }
    return ImportRow(mapping, t, Zip(parsed.value), rows, ids);
  }

  lemma FullSuffix(order: seq<Table>, k: nat, tables: Tables)
    requires FullTables(order, tables) && k <= |order|
    ensures FullTables(order[k..], tables)
  {
    var suffix := order[k..];
    forall j | 0 <= j < |suffix| ensures FullRows(suffix[j], RowsOf(tables, suffix[j].id)) {
      assert suffix[j] == order[k + j];
    }
  }

  lemma DumpStep(order: seq<Table>, k: nat, db: Db, before: seq<string>)
    requires FullTables(order, db.tables) && H.InRange(db.generation) && k < |order|
    ensures FullTables(order[k..], db.tables) && FullTables(order[k + 1..], db.tables)
    ensures After(before, DumpTables(order[k..], db)) ==
            var rows := Portable(order[k], db.tables);
            if rows.Failed? then Failed(rows.error)
            else After(before + [TableText(order[k], rows.value, db.generation)], DumpTables(order[k + 1..], db))
  {
    FullSuffix(order, k, db.tables);
    FullSuffix(order, k + 1, db.tables);
    assert order[k..][1..] == order[k + 1..];
    var rows, rest := Portable(order[k], db.tables), DumpTables(order[k + 1..], db);
    if rows.Done? && rest.Done? {
      var text := TableText(order[k], rows.value, db.generation);
      assert before + ([text] + rest.value) == before + [text] + rest.value;
    }
  }

  function After(before: seq<string>, r: DumpResult<seq<string>>): DumpResult<seq<string>> {
    if r.Failed? then r else Done(before + r.value)
  }

  /** Line by line, up to the end or to the first error. */
  method InsertEach(mapping: Mapping, t: Table, lines: seq<string>, start: seq<Row>, ids: Ids)
    returns (rows: seq<Row>, r: Option<ImportError>)
    ensures var all := ImportLines(mapping, t, lines, start, ids);
            if r.None? then all == Imported(rows) else all == Rejected(r.value)
  {
    rows := start;
    ghost var all := ImportLines(mapping, t, lines, start, ids);
    assert lines[0..] == lines;
    for k := 0 to |lines|
      invariant all == ImportLines(mapping, t, lines[k..], rows, ids)
    {
      ImportLinesFrom(mapping, t, lines, k, rows, ids);
      var next := InsertLine(mapping, t, lines[k], rows, ids);
      if next.Rejected? {
        return rows, Some(next.error);
      }
      rows := next.value;
    }
    return rows, None;
  }

  class Database {
    var tables: Tables
    var generation: int

    /** An empty, freshly migrated database. */
    constructor ()
      ensures tables == map[] && generation == 0
    {
      tables, generation := map[], 0;
    }

    method DumpTable(t: Table) returns (r: DumpResult<string>)
      requires FullRows(t, RowsOf(tables, t.id)) && H.InRange(generation)
      requires t.id == Aliases ==> |t.columns| == 3
      ensures r == var rows := Portable(t, tables);
                   if rows.Failed? then Failed(rows.error) else Done(TableText(t, rows.value, generation))
    {
      var rows := ResolveRows(t, RowsOf(tables, t.id), tables);
      if rows.Failed? {
        return Failed(rows.error);
      }
      var output := PrintRows(t, Sort(rows.value, SortKey(t)));
      if t.id == Epochs {
        return Done(H.WithGeneration(output, generation).value);
      }
      return Done(output);
    }

    method DumpAll(order: seq<Table>) returns (r: DumpResult<seq<string>>)
      requires FullTables(order, tables) && H.InRange(generation)
      requires forall k :: 0 <= k < |order| && order[k].id == Aliases ==> |order[k].columns| == 3
      ensures r == DumpTables(order, Db(tables, generation))
    {
      var results: seq<string> := [];
      ghost var db := Db(tables, generation);
      ghost var all := DumpTables(order, db);
      assert order[0..] == order;
      assert all.Done? ==> [] + all.value == all.value;
      for k := 0 to |order|
        invariant FullTables(order[k..], tables)
        invariant all == After(results, DumpTables(order[k..], db))
      {
        DumpStep(order, k, db, results);
        var text := DumpTable(order[k]);
        if text.Failed? {
          return Failed(text.error);
        }
        results := results + [text.value];
      }
      assert results + [] == results;
      return Done(results);
    }

    /** Insert the rows of one text; what was inserted before an error stays. */
    method InsertLines(mapping: Mapping, t: Table, lines: seq<string>, ids: Ids) returns (r: Option<ImportError>)
      modifies this`tables
      ensures var all := ImportLines(mapping, t, lines, RowsOf(old(tables), t.id), ids);
              && (r.None? ==> all.Imported? && tables == old(tables)[t.id := all.value])
              && (r.Some? ==> all == Rejected(r.value))
      ensures t.id in tables && tables == old(tables)[t.id := tables[t.id]]
    {
      var rows;
      rows, r := InsertEach(mapping, t, lines, RowsOf(tables, t.id), ids);
      tables := tables[t.id := rows];
    }

    /** Import one text on top of what the table holds; the text ids of the tables
        imported so far come with it. */
    method ImportSingleTable(mapping: Mapping, t: Table, text: string, ids: Ids) returns (r: ImportResult<Ids>)
      requires Trim(text) != []
      modifies this`tables
      ensures var all := ImportTable(mapping, Importer(old(tables), ids), t, text);
              && (r.Imported? ==> all == Imported(Importer(tables, r.value)))
              && (r.Rejected? ==> all == Rejected(r.error))
    {
      var error := InsertLines(mapping, t, Lines(text), ids);
      if error.Some? {
        return Rejected(error.value);
      }
      if t.entity {
        var reverse := BuildReverseTextIdMap(RowsOf(tables, t.id));
        return Imported(ids[t.id := reverse]);
      }
      return Imported(ids);
    }

    /** Fill the database from the texts of its tables, in order. */
    method ImportAll(mapping: Mapping, order: seq<Table>, texts: seq<string>) returns (r: Option<ImportError>)
      requires |texts| == |order|
      modifies this`tables
      ensures var all := ImportTables(mapping, Importer(old(tables), map[]), order, texts);
              && (r.None? <==> all.Imported?)
              && (r.None? ==> tables == all.value.tables)
              && (r.Some? ==> all == Rejected(r.value))
    {
      var ids: Ids := map[];
      ghost var all := ImportTables(mapping, Importer(tables, ids), order, texts);
      assert order[0..] == order && texts[0..] == texts;
      for k := 0 to |order|
        invariant all == ImportTables(mapping, Importer(tables, ids), order[k..], texts[k..])
      {
        ImportTablesFrom(mapping, Importer(tables, ids), order, texts, k);
        if Trim(texts[k]) != [] {
          var next := ImportSingleTable(mapping, order[k], texts[k], ids);
          if next.Rejected? {
            return Some(next.error);
          }
          ids := next.value;
        }
      }
      return None;
    }
  }
}
