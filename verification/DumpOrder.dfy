/** What a dumped file looks like, line by line: one statement a row, naming its table, in the
    order of the sort columns. */
module DumpOrder {
  import opened Wrappers
  import opened Text
  import opened SqlText
  import opened SqlRoundTrip
  import opened Sorting
  import opened Dump
  import opened DumpRows
  import opened DumpRoundTrip
  import H = ProjectionHeader

  // ------------------------------------------------------------------------ the order

  /** Text comes before another when it is shorter and the other begins with it, or when the
      first character in which they differ is smaller. */
  ghost predicate Precedes(a: string, b: string) {
    exists k :: 0 <= k <= |a| && PrecedesFrom(a, b, k)
  }

  predicate PrecedesFrom(a: string, b: string, k: nat)
    requires k <= |a|
  {
    k <= |b| && (forall i :: 0 <= i < k ==> a[i] == b[i]) && (k == |a| || (k < |b| && a[k] < b[k]))
  }

  /** How a value is compared: text as it is, integers by their digits, null as nothing. */
  function Shown(v: SqlValue): string {
    match v
    case SqlStr(s) => s
    case SqlInt(i) => IntText(i)
    case SqlNull => ""
  }

  /** The first column of this name shows `text`; a missing one shows nothing. */
  ghost predicate Shows(p: NamedRow, column: string, text: string) {
    || (text == "" && forall k :: 0 <= k < |p| ==> p[k].0 != column)
    || (exists k :: 0 <= k < |p| && ShownAt(p, column, text, k))
  }

  predicate ShownAt(p: NamedRow, column: string, text: string, k: nat)
    requires k < |p|
  {
    p[k].0 == column && Shown(p[k].1) == text && forall l :: 0 <= l < k ==> p[l].0 != column
  }

  ghost predicate Agree(p: NamedRow, q: NamedRow, column: string) {
    exists text :: Shows(p, column, text) && Shows(q, column, text)
  }

  ghost predicate Before(p: NamedRow, q: NamedRow, column: string) {
    exists a, b :: Shows(p, column, a) && Shows(q, column, b) && a != b && Precedes(a, b)
  }

  /** The first column in which the rows differ puts `p` first, if there is one. */
  ghost predicate InOrder(columns: seq<string>, p: NamedRow, q: NamedRow) {
    exists d :: 0 <= d <= |columns| && DecidedAt(columns, p, q, d)
  }

  ghost predicate DecidedAt(columns: seq<string>, p: NamedRow, q: NamedRow, d: nat)
    requires d <= |columns|
  {
    && (forall e :: 0 <= e < d ==> Agree(p, q, columns[e]))
    && (d < |columns| ==> Before(p, q, columns[d]))
  }

  lemma PrecedesTail(a: string, b: string, k: nat)
    requires a != [] && b != [] && a[0] == b[0] && k <= |a[1..]|
    ensures PrecedesFrom(a, b, k + 1) <==> PrecedesFrom(a[1..], b[1..], k)
  {
    assert forall i :: 0 < i < |a| ==> a[i] == a[1..][i - 1];
    assert forall i :: 0 < i < |b| ==> b[i] == b[1..][i - 1];
    if PrecedesFrom(a[1..], b[1..], k) {
      forall i | 0 <= i < k + 1 ensures a[i] == b[i] {
        if i > 0 {
          assert a[1..][i - 1] == b[1..][i - 1];
        }
      }
    }
    if PrecedesFrom(a, b, k + 1) {
      forall i | 0 <= i < k ensures a[1..][i] == b[1..][i] {
        assert a[i + 1] == b[i + 1];
      }
    }
  }

  lemma {:induction false} LeqPrecedes(a: string, b: string)
    ensures TextLeq(a, b) <==> Precedes(a, b)
  {
    if a == [] {
      assert PrecedesFrom(a, b, 0);
    } else if b != [] && a[0] == b[0] {
      LeqPrecedes(a[1..], b[1..]);
      if k :| 0 <= k <= |a[1..]| && PrecedesFrom(a[1..], b[1..], k) {
        PrecedesTail(a, b, k);
      }
      if k :| 0 <= k <= |a| && PrecedesFrom(a, b, k) {
        PrecedesTail(a, b, k - 1);
      }
    } else if b != [] && a[0] < b[0] {
      assert PrecedesFrom(a, b, 0);
    }
  }

  lemma {:induction false} SortTextShown(p: NamedRow, column: string)
    ensures Shows(p, column, SortText(p, column))
  {
    if p != [] {
      if p[0].0 == column {
        assert ShownAt(p, column, SortText(p, column), 0);
      } else {
        SortTextShown(p[1..], column);
        if k :| 0 <= k < |p[1..]| && ShownAt(p[1..], column, SortText(p[1..], column), k) {
          assert forall l :: 0 < l < |p| ==> p[l] == p[1..][l - 1];
          assert ShownAt(p, column, SortText(p, column), k + 1);
        } else {
          assert forall l :: 0 < l < |p| ==> p[l] == p[1..][l - 1];
        }
      }
    }
  }

  /** Where composite keys of one length differ first. */
  lemma {:induction false} KeyDecides(a: Key, b: Key) returns (d: nat)
    requires |a| == |b| && Leq(a, b)
    ensures d <= |a| && (forall e :: 0 <= e < d ==> a[e] == b[e])
    ensures d < |a| ==> a[d] != b[d] && TextLeq(a[d], b[d])
  {
    if a == [] || a[0] != b[0] {
      d := 0;
    } else {
      var rest := KeyDecides(a[1..], b[1..]);
      d := rest + 1;
      assert forall e :: 0 < e < |a| ==> a[e] == a[1..][e - 1] && b[e] == b[1..][e - 1];
    }
  }

  lemma SortedInOrder(t: Table, p: NamedRow, q: NamedRow)
    requires Leq(SortKey(t)(p), SortKey(t)(q))
    ensures InOrder(t.sortColumns, p, q)
  {
    var a, b := SortKey(t)(p), SortKey(t)(q);
    var d := KeyDecides(a, b);
    forall e | 0 <= e < |t.sortColumns|
      ensures Shows(p, t.sortColumns[e], a[e]) && Shows(q, t.sortColumns[e], b[e])
    {
      SortTextShown(p, t.sortColumns[e]);
      SortTextShown(q, t.sortColumns[e]);
    }
    forall e | 0 <= e < d ensures Agree(p, q, t.sortColumns[e]) {
      assert Shows(p, t.sortColumns[e], a[e]) && Shows(q, t.sortColumns[e], a[e]);
    }
    if d < |t.sortColumns| {
      LeqPrecedes(a[d], b[d]);
      assert Before(p, q, t.sortColumns[d]);
    }
    assert DecidedAt(t.sortColumns, p, q, d);
  }

  /** The printed rows of a table are in the order of its sort columns. */
  lemma PrintedInOrder(t: Table, tables: Tables, ps: seq<NamedRow>, i: nat, j: nat)
    requires FullRows(t, RowsOf(tables, t.id)) && Portable(t, tables) == Done(ps) && i < j < |ps|
    ensures InOrder(t.sortColumns, ps[i], ps[j])
  {
    SortSorts(ResolveAll(t, RowsOf(tables, t.id), tables).value, SortKey(t));
    SortedInOrder(t, ps[i], ps[j]);
  }

  // ------------------------------------------------------------------------ the lines

  /** A line is the statement of a row: it names the table, and reads back as the row. */
  predicate StatementOf(line: string, table: string, p: NamedRow) {
    && StartsWith(line, "INSERT INTO " + table + "(")
    && ParseInsert(line) == Ok(Insert(Names(p), Values(p)))
  }

  /** A dumped file is one statement a row, each naming its table; the epochs file has the
      generation header before them. */
  lemma PrintedLines(mapping: Mapping, order: seq<Table>, db: Db, k: nat) returns (ps: seq<NamedRow>)
    requires GoodOrder(mapping, order) && ValidTables(order, db.tables) && FullTables(order, db.tables)
    requires H.InRange(db.generation) && DumpTables(order, db).Done? && k < |order|
    ensures |DumpTables(order, db).value| == |order| && Portable(order[k], db.tables) == Done(ps)
    ensures var lines := Lines(DumpTables(order, db).value[k]);
            var first := if order[k].id == Epochs then 1 else 0;
            && |lines| == first + |ps|
            && (first == 1 ==> lines[0] == "-- exo:minimum-writer-generation=" + Decimal(db.generation))
            && (forall m :: 0 <= m < |ps| ==> StatementOf(lines[first + m], order[k].name, ps[m]))
    ensures forall i, j :: 0 <= i < j < |ps| ==> InOrder(order[k].sortColumns, ps[i], ps[j])
  {
    var all := PortablesOfDump(order, db);
    ps := all[k];
    var t := order[k];
    assert Portable(t, db.tables) == Done(ps) && ValidRows(t, RowsOf(db.tables, t.id));
    forall m | 0 <= m < |ps| ensures PortableRow(t, ps[m]) && StatementOf(RowToInsert(t.name, ps[m]), t.name, ps[m]) {
      var row := PortableFrom(mapping, t, db.tables, ps, ps[m]);
      RowIsStatement(mapping, t, ps[m]);
    }
    StatementsAreLines(mapping, t, ps);
    if t.id == Epochs {
      H.HeaderRoundTrip(Unlines(Statements(t, ps)), db.generation);
    }
    forall i, j | 0 <= i < j < |ps| ensures InOrder(t.sortColumns, ps[i], ps[j]) {
      PrintedInOrder(t, db.tables, ps, i, j);
    }
  }

  lemma RowIsStatement(mapping: Mapping, t: Table, p: NamedRow)
    requires GoodTable(mapping, t) && PortableRow(t, p)
    ensures StatementOf(RowToInsert(t.name, p), t.name, p)
  {
    PortableIsPlain(mapping, t, p);
    InsertRoundTrip(t.name, p);
    BeginsWith("INSERT INTO " + t.name + "(", Join(Names(p), ", "), ") VALUES(", Join(Literals(Values(p)), ", "), ");");
  }

  lemma BeginsWith(start: string, a: string, b: string, c: string, d: string)
    ensures StartsWith(start + a + b + c + d, start)
  {
  }

  // ------------------------------------------------------------------ reading it back

  /** Nothing but white space, or a comment behind white space. */
  ghost predicate Ignorable(line: string) {
    exists k :: 0 <= k <= |line| && IgnorableFrom(line, k)
  }

  predicate IgnorableFrom(line: string, k: nat)
    requires k <= |line|
  {
    && (forall i :: 0 <= i < k ==> IsSpace(line[i]))
    && (k == |line| || (k + 2 <= |line| && line[k] == '-' && line[k + 1] == '-'))
  }

  lemma {:induction false} SpacesStripped(line: string, k: nat)
    requires k <= |line| && (forall i :: 0 <= i < k ==> IsSpace(line[i])) && (k < |line| ==> !IsSpace(line[k]))
    ensures TrimStart(line) == line[k..]
  {
    if k > 0 {
      SpacesStripped(line[1..], k - 1);
      assert line[1..][k - 1..] == line[k..];
    } else {
      assert line[0..] == line;
    }
  }

  lemma {:induction false} DashesStay(s: string)
    requires |s| >= 2 && s[0] == '-' && s[1] == '-'
    ensures StartsWith(TrimEnd(s), "--")
    decreases |s|
  {
    if IsSpace(s[|s| - 1]) {
      DashesStay(s[..|s| - 1]);
    } else {
      assert s[..2] == "--";
    }
  }

  lemma IgnorableIsSkipped(mapping: Mapping, t: Table, line: string, rows: seq<Row>, ids: Ids)
    requires Ignorable(line)
    ensures ImportLine(mapping, t, line, rows, ids) == Imported(rows)
  {
    var k :| 0 <= k <= |line| && IgnorableFrom(line, k);
    SpacesStripped(line, k);
    if k < |line| {
      DashesStay(line[k..]);
    }
  }

  ghost function Meant(lines: seq<string>): seq<string> {
    if lines == [] then [] else (if Ignorable(lines[0]) then [] else [lines[0]]) + Meant(lines[1..])
  }

  /** Blank lines and comments may stand anywhere in a file. */
  lemma {:induction false} ImportIgnores(mapping: Mapping, t: Table, lines: seq<string>, rows: seq<Row>, ids: Ids)
    ensures ImportLines(mapping, t, lines, rows, ids) == ImportLines(mapping, t, Meant(lines), rows, ids)
    decreases |lines|
  {
    if lines != [] {
      var next := ImportLine(mapping, t, lines[0], rows, ids);
      if Ignorable(lines[0]) {
        IgnorableIsSkipped(mapping, t, lines[0], rows, ids);
        assert Meant(lines) == Meant(lines[1..]);
        ImportIgnores(mapping, t, lines[1..], rows, ids);
      } else {
        assert Meant(lines)[0] == lines[0] && Meant(lines)[1..] == Meant(lines[1..]);
        if next.Imported? {
          ImportIgnores(mapping, t, lines[1..], next.value, ids);
        }
      }
    }
  }
}
