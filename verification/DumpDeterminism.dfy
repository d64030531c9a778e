/** The dump does not depend on rowids or on the order of rows. */
module DumpDeterminism {
  import opened Wrappers
  import opened Text
  import opened SqlText
  import opened Sorting
  import opened Dump
  import opened DumpRows
  import opened DumpRoundTrip
  import H = ProjectionHeader

  /** New rowids for old ones, table by table. */
  type Renumbering = (TableId, int) -> int

  ghost predicate Injective(f: Renumbering) {
    forall t: TableId, a: int, b: int :: f(t, a) == f(t, b) ==> a == b
  }

  predicate DistinctIds(rows: seq<Row>) {
    forall i, j :: 0 <= i < j < |rows| ==> rows[i].id != rows[j].id
  }

  /** The table that the reference of a row points into. */
  function RefTarget(t: Table, row: Row): Option<TableId> {
    if t.id == Aliases then
      if |row.values| == 3 && row.values[0].SqlStr? then EntityTable(row.values[0].s) else None
    else if t.fk.Some? then Some(t.fk.value.target)
    else None
  }

  /** The row after renumbering: its own rowid and the one it refers to. */
  function Renumbered(t: Table, row: Row, f: Renumbering): Row {
    var at, target := RefColumn(t), RefTarget(t, row);
    Row(f(t.id, row.id),
        if target.Some? && at < |row.values| && row.values[at].SqlInt?
        then row.values[at := SqlInt(f(target.value, row.values[at].i))]
        else row.values)
  }

  function RenumberedAll(t: Table, rows: seq<Row>, f: Renumbering): seq<Row> {
    seq(|rows|, k requires 0 <= k < |rows| => Renumbered(t, rows[k], f))
  }

  /** Equal up to renumbering and row order. */
  ghost predicate SameUpTo(order: seq<Table>, a: Tables, b: Tables, f: Renumbering) {
    forall k :: 0 <= k < |order| ==>
      multiset(RenumberedAll(order[k], RowsOf(a, order[k].id), f)) == multiset(RowsOf(b, order[k].id))
  }

  // --------------------------------------------------------------------- lookups

  lemma {:induction false} TextIdOfRow(rows: seq<Row>, row: Row)
    requires DistinctIds(rows) && row in rows
    ensures row.id in TextIds(rows) && TextIds(rows)[row.id] == TextIdOf(row)
  {
    var n := |rows| - 1;
    if row != rows[n] {
      TextIdOfRow(rows[..n], row);
    }
  }

  /** Both databases know the same text id under corresponding rowids. */
  ghost predicate SameLookups(target: TableId, a: Tables, b: Tables, f: Renumbering) {
    var before, after := TextIds(RowsOf(a, target)), TextIds(RowsOf(b, target));
    forall id: int ::
      && (f(target, id) in after <==> id in before)
      && (id in before ==> f(target, id) in after && after[f(target, id)] == before[id])
  }

  lemma LookupRenumbered(mapping: Mapping, t: Table, before: seq<Row>, after: seq<Row>, f: Renumbering, id: int)
    requires GoodTable(mapping, t) && t.entity && DistinctIds(before) && DistinctIds(after)
    requires multiset(RenumberedAll(t, before, f)) == multiset(after) && id in TextIds(before)
    ensures f(t.id, id) in TextIds(after) && TextIds(after)[f(t.id, id)] == TextIds(before)[id]
  {
    var renumbered := RenumberedAll(t, before, f);
    var row := TextIdsFrom(before, id);
    TextIdOfRow(before, row);
    var k :| 0 <= k < |before| && before[k] == row;
    assert renumbered[k] in multiset(renumbered);
    TextIdOfRow(after, renumbered[k]);
  }

  lemma LookupFromRenumbered(t: Table, before: seq<Row>, after: seq<Row>, f: Renumbering, id: int)
    requires Injective(f) && DistinctIds(before)
    requires multiset(RenumberedAll(t, before, f)) == multiset(after) && f(t.id, id) in TextIds(after)
    ensures id in TextIds(before)
  {
    var renumbered := RenumberedAll(t, before, f);
    var row := TextIdsFrom(after, f(t.id, id));
    assert row in multiset(after) && row in multiset(renumbered);
    var k :| 0 <= k < |renumbered| && renumbered[k] == row;
    TextIdOfRow(before, before[k]);
  }

  lemma LookupsFollow(mapping: Mapping, t: Table, a: Tables, b: Tables, f: Renumbering)
    requires GoodTable(mapping, t) && t.entity && Injective(f)
    requires DistinctIds(RowsOf(a, t.id)) && DistinctIds(RowsOf(b, t.id))
    requires multiset(RenumberedAll(t, RowsOf(a, t.id), f)) == multiset(RowsOf(b, t.id))
    ensures SameLookups(t.id, a, b, f)
  {
    var before, after := RowsOf(a, t.id), RowsOf(b, t.id);
    forall id: int
      ensures f(t.id, id) in TextIds(after) <==> id in TextIds(before)
      ensures id in TextIds(before) ==> TextIds(after)[f(t.id, id)] == TextIds(before)[id]
    {
      if id in TextIds(before) {
        LookupRenumbered(mapping, t, before, after, f, id);
      } else if f(t.id, id) in TextIds(after) {
        LookupFromRenumbered(t, before, after, f, id);
      }
    }
  }

  // ------------------------------------------------------------------- resolving

  lemma ResolveRenumbered(mapping: Mapping, t: Table, row: Row, a: Tables, b: Tables, f: Renumbering)
    requires GoodTable(mapping, t) && ValidRow(t, row)
    requires forall target :: target in References(t) ==> SameLookups(target, a, b, f)
    ensures |Renumbered(t, row, f).values| == |t.columns|
    ensures Resolve(t, row, a).Fail? <==> Resolve(t, Renumbered(t, row, f), b).Fail?
    ensures !Resolve(t, row, a).Fail? ==> Resolve(t, row, a) == Resolve(t, Renumbered(t, row, f), b)
  {
    var at, target, renumbered := RefColumn(t), RefTarget(t, row), Renumbered(t, row, f);
    if target.Some? {
      assert target.value in References(t);
    }
    if target.Some? && at < |row.values| && row.values[at].SqlInt? {
      assert SameLookups(target.value, a, b, f);
      var ids, text := TextIds(RowsOf(a, target.value)), DumpedRefName(t);
      if row.values[at].i in ids {
        var entry := (text, SqlStr(ids[row.values[at].i]));
        assert Named(t, row)[at := entry] == Named(t, renumbered)[at := entry];
      }
    } else {
      assert Named(t, row) == Named(t, renumbered);
    }
  }

  lemma {:induction false} ResolveAllRenumbered(
    mapping: Mapping, t: Table, rows: seq<Row>, a: Tables, b: Tables, f: Renumbering)
    requires GoodTable(mapping, t) && ValidRows(t, rows)
    requires forall target :: target in References(t) ==> SameLookups(target, a, b, f)
    ensures FullRows(t, RenumberedAll(t, rows, f))
    ensures ResolveAll(t, rows, a).Done? <==> ResolveAll(t, RenumberedAll(t, rows, f), b).Done?
    ensures ResolveAll(t, rows, a).Done? ==> ResolveAll(t, rows, a) == ResolveAll(t, RenumberedAll(t, rows, f), b)
  {
    if rows != [] {
      ResolveRenumbered(mapping, t, rows[0], a, b, f);
      ResolveAllRenumbered(mapping, t, rows[1..], a, b, f);
      assert RenumberedAll(t, rows, f)[1..] == RenumberedAll(t, rows[1..], f);
    }
  }

  lemma {:induction false} ResolveConcat(t: Table, x: seq<Row>, y: seq<Row>, tables: Tables)
    requires FullRows(t, x) && FullRows(t, y)
    ensures FullRows(t, x + y)
    ensures ResolveAll(t, x + y, tables).Done? <==> ResolveAll(t, x, tables).Done? && ResolveAll(t, y, tables).Done?
    ensures ResolveAll(t, x + y, tables).Done? ==>
              ResolveAll(t, x + y, tables).value == ResolveAll(t, x, tables).value + ResolveAll(t, y, tables).value
  {
    if x == [] {
      assert x + y == y;
    } else {
      ResolveConcat(t, x[1..], y, tables);
      assert (x + y)[1..] == x[1..] + y;
    }
  }

  /** Pulling one row to the front changes only the order of what is resolved. */
  lemma ResolvePulled(t: Table, rows: seq<Row>, k: nat, tables: Tables)
    requires FullRows(t, rows) && k < |rows|
    ensures var pulled := [rows[k]] + (rows[..k] + rows[k + 1..]);
            && FullRows(t, pulled)
            && (ResolveAll(t, rows, tables).Done? <==> ResolveAll(t, pulled, tables).Done?)
            && (ResolveAll(t, rows, tables).Done? ==>
                  multiset(ResolveAll(t, rows, tables).value) == multiset(ResolveAll(t, pulled, tables).value))
  {
    var x, r, y := rows[..k], [rows[k]], rows[k + 1..];
    assert rows == x + (r + y);
    ResolveConcat(t, r, y, tables);
    ResolveConcat(t, x, r + y, tables);
    ResolveConcat(t, x, y, tables);
    ResolveConcat(t, r, x + y, tables);
  }

  lemma {:induction false} ResolvePermuted(t: Table, a: seq<Row>, b: seq<Row>, tables: Tables)
    requires FullRows(t, a) && multiset(a) == multiset(b)
    ensures FullRows(t, b)
    ensures ResolveAll(t, a, tables).Done? <==> ResolveAll(t, b, tables).Done?
    ensures ResolveAll(t, a, tables).Done? ==>
              multiset(ResolveAll(t, a, tables).value) == multiset(ResolveAll(t, b, tables).value)
    decreases |a|
  {
    PermutedFull(t, a, b);
    if a == [] {
      assert |multiset(b)| == 0;
    } else {
      assert a[0] in multiset(b);
      var k :| 0 <= k < |b| && b[k] == a[0];
      var rest := b[..k] + b[k + 1..];
      ResolvePulled(t, b, k, tables);
      SameRest(a, b, k);
      ResolvePermuted(t, a[1..], rest, tables);
      var pulled := [b[k]] + rest;
      assert pulled[1..] == rest;
    }
  }

  lemma SameRest(a: seq<Row>, b: seq<Row>, k: nat)
    requires a != [] && k < |b| && b[k] == a[0] && multiset(a) == multiset(b)
    ensures multiset(a[1..]) == multiset(b[..k] + b[k + 1..])
  {
    assert a == [a[0]] + a[1..];
    assert b == b[..k] + [b[k]] + b[k + 1..];
    assert multiset(a[1..]) == multiset(a) - multiset{a[0]};
    assert multiset(b[..k] + b[k + 1..]) == multiset(b) - multiset{b[k]};
  }

  lemma PermutedFull(t: Table, a: seq<Row>, b: seq<Row>)
    requires FullRows(t, a) && multiset(a) == multiset(b)
    ensures FullRows(t, b)
  {
    forall k | 0 <= k < |b| ensures |b[k].values| == |t.columns| {
      assert b[k] in multiset(a);
      var j :| 0 <= j < |a| && a[j] == b[k];
    }
  }

  // --------------------------------------------------------------------- the dump

  /** No two rows that a table prints share a sort key. */
  ghost predicate NoTies(t: Table, tables: Tables)
    requires FullRows(t, RowsOf(tables, t.id))
  {
    var rows := ResolveAll(t, RowsOf(tables, t.id), tables);
    rows.Done? ==> DistinctKeys(rows.value, SortKey(t))
  }

  predicate UniqueTextIds(rows: seq<Row>) {
    forall i, j :: 0 <= i < j < |rows| ==> TextIdOf(rows[i]) != TextIdOf(rows[j])
  }

  lemma {:induction false} EntityRowAt(mapping: Mapping, t: Table, rows: seq<Row>, tables: Tables, k: nat)
    requires GoodTable(mapping, t) && ValidRows(t, rows) && t.entity && ResolveAll(t, rows, tables).Done?
    requires k < |ResolveAll(t, rows, tables).value|
    ensures k < |rows|
    ensures var p := ResolveAll(t, rows, tables).value[k];
            PortableRow(t, p) && p[0] == (t.columns[0], SqlStr(TextIdOf(rows[k])))
  {
    ResolvedIsPortable(mapping, t, rows[0], tables);
    if k > 0 {
      EntityRowAt(mapping, t, rows[1..], tables, k - 1);
    }
  }

  /** Entities sorted by their unique text id never tie. */
  lemma EntitiesDoNotTie(mapping: Mapping, t: Table, tables: Tables)
    requires GoodTable(mapping, t) && ValidRows(t, RowsOf(tables, t.id)) && t.entity
    requires t.sortColumns == [t.columns[0]] && UniqueTextIds(RowsOf(tables, t.id))
    ensures NoTies(t, tables)
  {
    var rows := ResolveAll(t, RowsOf(tables, t.id), tables);
    if rows.Done? {
      forall i, j | 0 <= i < j < |rows.value| ensures SortKey(t)(rows.value[i]) != SortKey(t)(rows.value[j]) {
        EntityRowAt(mapping, t, RowsOf(tables, t.id), tables, i);
        EntityRowAt(mapping, t, RowsOf(tables, t.id), tables, j);
        assert SortKey(t)(rows.value[i])[0] == TextIdOf(RowsOf(tables, t.id)[i]);
        assert SortKey(t)(rows.value[j])[0] == TextIdOf(RowsOf(tables, t.id)[j]);
      }
    }
  }

  lemma SamePortable(mapping: Mapping, t: Table, a: Tables, b: Tables, f: Renumbering)
    requires GoodTable(mapping, t) && ValidRows(t, RowsOf(a, t.id)) && NoTies(t, a)
    requires forall target :: target in References(t) ==> SameLookups(target, a, b, f)
    requires multiset(RenumberedAll(t, RowsOf(a, t.id), f)) == multiset(RowsOf(b, t.id))
    ensures FullRows(t, RowsOf(b, t.id))
    ensures Portable(t, a).Done? <==> Portable(t, b).Done?
    ensures Portable(t, a).Done? ==> Portable(t, a) == Portable(t, b)
  {
    var rowsA, rowsB := RowsOf(a, t.id), RowsOf(b, t.id);
    ResolveAllRenumbered(mapping, t, rowsA, a, b, f);
    ResolvePermuted(t, RenumberedAll(t, rowsA, f), rowsB, b);
    if Portable(t, a).Done? {
      SortIgnoresOrder(ResolveAll(t, rowsA, a).value, ResolveAll(t, rowsB, b).value, SortKey(t));
    }
  }

  /** The conditions on two databases that should dump alike. */
  ghost predicate Comparable(mapping: Mapping, order: seq<Table>, a: Tables, b: Tables, f: Renumbering) {
    && GoodOrder(mapping, order) && ValidTables(order, a) && FullTables(order, a)
    && Injective(f) && SameUpTo(order, a, b, f)
    && forall k :: 0 <= k < |order| ==>
         DistinctIds(RowsOf(a, order[k].id)) && DistinctIds(RowsOf(b, order[k].id)) && NoTies(order[k], a)
  }

  lemma TablePrintsSame(mapping: Mapping, order: seq<Table>, a: Tables, b: Tables, f: Renumbering, k: nat)
    requires Comparable(mapping, order, a, b, f) && k < |order|
    ensures FullRows(order[k], RowsOf(b, order[k].id))
    ensures Portable(order[k], a).Done? <==> Portable(order[k], b).Done?
    ensures Portable(order[k], a).Done? ==> Portable(order[k], a) == Portable(order[k], b)
  {
    var t := order[k];
    forall target | target in References(t) ensures SameLookups(target, a, b, f) {
      var j :| 0 <= j < k && order[j].id == target && order[j].entity;
      LookupsFollow(mapping, order[j], a, b, f);
    }
    assert ValidRows(t, RowsOf(a, t.id));
    SamePortable(mapping, t, a, b, f);
  }

  lemma {:induction false} DumpsAgree(order: seq<Table>, a: Db, b: Db)
    requires FullTables(order, a.tables) && FullTables(order, b.tables)
    requires H.InRange(a.generation) && b.generation == a.generation
    requires forall k :: 0 <= k < |order| ==>
               (Portable(order[k], a.tables).Done? <==> Portable(order[k], b.tables).Done?)
    requires forall k :: 0 <= k < |order| && Portable(order[k], a.tables).Done? ==>
               Portable(order[k], a.tables) == Portable(order[k], b.tables)
    ensures DumpTables(order, a).Done? <==> DumpTables(order, b).Done?
    ensures DumpTables(order, a).Done? ==> DumpTables(order, a) == DumpTables(order, b)
  {
    if order != [] {
      FullTail(order, a.tables);
      FullTail(order, b.tables);
      assert forall k :: 0 <= k < |order[1..]| ==> order[1..][k] == order[k + 1];
      DumpsAgree(order[1..], a, b);
    }
  }

  /** Databases equal up to rowids and row order dump alike: one dump succeeds when the
      other does, with the same texts. */
  lemma DumpIgnoresRowIds(mapping: Mapping, order: seq<Table>, a: Db, b: Db, f: Renumbering)
    requires Comparable(mapping, order, a.tables, b.tables, f)
    requires H.InRange(a.generation) && b.generation == a.generation
    ensures FullTables(order, b.tables)
    ensures DumpTables(order, a).Done? <==> DumpTables(order, b).Done?
    ensures DumpTables(order, a).Done? ==> DumpTables(order, a) == DumpTables(order, b)
  {
    forall k | 0 <= k < |order|
      ensures FullRows(order[k], RowsOf(b.tables, order[k].id))
      ensures Portable(order[k], a.tables).Done? <==> Portable(order[k], b.tables).Done?
      ensures Portable(order[k], a.tables).Done? ==> Portable(order[k], a.tables) == Portable(order[k], b.tables)
    {
      TablePrintsSame(mapping, order, a.tables, b.tables, f, k);
    }
    DumpsAgree(order, a, b);
  }
}
