/** The dump loses nothing but rowids, row order and orphaned aliases: databases that
    print the same are the same up to a renumbering. */
module DumpIdentity {
  import opened Wrappers
  import opened Text
  import opened SqlText
  import opened Sorting
  import opened Dump
  import opened DumpRows
  import opened DumpRoundTrip
  import opened DumpDeterminism
  import H = ProjectionHeader

  /** The rows that are printed; only orphaned and malformed aliases are not. */
  function KeptRows(t: Table, rows: seq<Row>, tables: Tables): seq<Row>
    requires FullRows(t, rows)
  {
    if rows == [] then []
    else (if Resolve(t, rows[0], tables).Keep? then [rows[0]] else []) + KeptRows(t, rows[1..], tables)
  }

  /** Rows and what they print. */
  ghost predicate Prints(t: Table, rows: seq<Row>, tables: Tables, printed: seq<NamedRow>) {
    && |rows| == |printed|
    && forall m :: 0 <= m < |rows| ==>
         |rows[m].values| == |t.columns| && Resolve(t, rows[m], tables) == Keep(printed[m])
  }

  lemma PrintsFirst(t: Table, first: Row, rows: seq<Row>, tables: Tables, p: NamedRow, printed: seq<NamedRow>)
    requires |first.values| == |t.columns| && Resolve(t, first, tables) == Keep(p) && Prints(t, rows, tables, printed)
    ensures Prints(t, [first] + rows, tables, [p] + printed)
  {
    var all, ps := [first] + rows, [p] + printed;
    forall m | 0 <= m < |all| ensures |all[m].values| == |t.columns| && Resolve(t, all[m], tables) == Keep(ps[m]) {
      if m > 0 {
        assert all[m] == rows[m - 1] && ps[m] == printed[m - 1];
      }
    }
  }

  lemma {:induction false} KeptAreRows(t: Table, rows: seq<Row>, tables: Tables)
    requires FullRows(t, rows)
    ensures forall row :: row in KeptRows(t, rows, tables) ==> row in rows
  {
    if rows != [] {
      KeptAreRows(t, rows[1..], tables);
    }
  }

  lemma {:induction false} KeptOnce(t: Table, rows: seq<Row>, tables: Tables, row: Row)
    requires FullRows(t, rows) && row in KeptRows(t, rows, tables)
    ensures |row.values| == |t.columns| && Resolve(t, row, tables).Keep?
  {
    if row in KeptRows(t, rows[1..], tables) {
      KeptOnce(t, rows[1..], tables, row);
    }
  }

  lemma {:induction false} KeptResolved(t: Table, rows: seq<Row>, tables: Tables)
    requires FullRows(t, rows) && ResolveAll(t, rows, tables).Done?
    ensures Prints(t, KeptRows(t, rows, tables), tables, ResolveAll(t, rows, tables).value)
  {
    if rows != [] {
      KeptResolved(t, rows[1..], tables);
      if Resolve(t, rows[0], tables).Keep? {
        PrintsFirst(t, rows[0], KeptRows(t, rows[1..], tables), tables, Resolve(t, rows[0], tables).row,
                    ResolveAll(t, rows[1..], tables).value);
      }
    }
  }

  lemma {:induction false} KeptDistinct(t: Table, rows: seq<Row>, tables: Tables)
    requires FullRows(t, rows) && DistinctIds(rows) && ResolveAll(t, rows, tables).Done?
    ensures DistinctIds(KeptRows(t, rows, tables))
  {
    if rows != [] {
      KeptDistinct(t, rows[1..], tables);
      KeptAreRows(t, rows[1..], tables);
      var rest := KeptRows(t, rows[1..], tables);
      forall m | 0 <= m < |rest| ensures rest[m].id != rows[0].id {
        assert rest[m] in rest && rest[m] in rows[1..];
        var k :| 0 <= k < |rows[1..]| && rows[1..][k] == rest[m];
        assert rows[k + 1] == rest[m];
      }
    }
  }

  lemma {:induction false} AllKeptByCount(t: Table, rows: seq<Row>, tables: Tables)
    requires FullRows(t, rows) && ResolveAll(t, rows, tables).Done?
    ensures |ResolveAll(t, rows, tables).value| <= |rows|
    ensures |ResolveAll(t, rows, tables).value| == |rows| ==> KeptRows(t, rows, tables) == rows
  {
    if rows != [] {
      AllKeptByCount(t, rows[1..], tables);
      assert rows == [rows[0]] + rows[1..];
    }
  }

  /** Outside the alias table nothing is left out. */
  lemma AllKept(t: Table, rows: seq<Row>, tables: Tables)
    requires FullRows(t, rows) && t.id != Aliases && ResolveAll(t, rows, tables).Done?
    ensures KeptRows(t, rows, tables) == rows
  {
    NoRowsDropped(t, rows, tables);
    AllKeptByCount(t, rows, tables);
  }

  // -------------------------------------------------------------------- matching rows

  /** Each row has a partner that prints the same, and the partners are all there is. */
  ghost predicate Matched(t: Table, rows: seq<Row>, a: Tables, partners: seq<Row>, b: Tables) {
    && |partners| == |rows|
    && forall m :: 0 <= m < |rows| ==>
         && |rows[m].values| == |t.columns| && |partners[m].values| == |t.columns|
         && Resolve(t, rows[m], a).Keep? && Resolve(t, partners[m], b) == Resolve(t, rows[m], a)
  }

  lemma WithoutOne<T>(s: seq<T>, k: nat)
    requires k < |s|
    ensures multiset(s[..k] + s[k + 1..]) == multiset(s) - multiset{s[k]}
  {
    assert s == s[..k] + [s[k]] + s[k + 1..];
  }

  lemma PrintsWithoutOne(t: Table, rows: seq<Row>, tables: Tables, printed: seq<NamedRow>, k: nat)
    requires Prints(t, rows, tables, printed) && k < |rows|
    ensures Prints(t, rows[..k] + rows[k + 1..], tables, printed[..k] + printed[k + 1..])
  {
    var rest, left := rows[..k] + rows[k + 1..], printed[..k] + printed[k + 1..];
    forall m | 0 <= m < |rest|
      ensures |rest[m].values| == |t.columns| && Resolve(t, rest[m], tables) == Keep(left[m])
    {
      var n := if m < k then m else m + 1;
      assert rest[m] == rows[n] && left[m] == printed[n];
    }
  }

  lemma {:induction false} MatchRows(
    t: Table, rows: seq<Row>, a: Tables, p: seq<NamedRow>, others: seq<Row>, b: Tables, q: seq<NamedRow>)
    returns (partners: seq<Row>)
    requires Prints(t, rows, a, p) && Prints(t, others, b, q) && multiset(p) == multiset(q)
    ensures Matched(t, rows, a, partners, b) && multiset(partners) == multiset(others)
    decreases |rows|
  {
    assert |p| == |multiset(p)| == |multiset(q)| == |q|;
    if rows == [] {
      partners := [];
    } else {
      var k := SamePrint(p, q);
      PrintsWithoutOne(t, others, b, q, k);
      var rest := MatchRows(t, rows[1..], a, p[1..], others[..k] + others[k + 1..], b, q[..k] + q[k + 1..]);
      partners := [others[k]] + rest;
      WithoutOne(others, k);
      MatchedFirst(t, rows, a, others[k], rest, b);
    }
  }

  lemma SamePrint(p: seq<NamedRow>, q: seq<NamedRow>) returns (k: nat)
    requires p != [] && multiset(p) == multiset(q)
    ensures k < |q| && q[k] == p[0] && multiset(p[1..]) == multiset(q[..k] + q[k + 1..])
  {
    assert p[0] in multiset(q);
    k :| 0 <= k < |q| && q[k] == p[0];
    WithoutOne(q, k);
    assert p == [p[0]] + p[1..];
  }

  lemma MatchedFirst(t: Table, rows: seq<Row>, a: Tables, first: Row, rest: seq<Row>, b: Tables)
    requires rows != [] && |rows[0].values| == |t.columns| && |first.values| == |t.columns|
    requires Resolve(t, rows[0], a).Keep? && Resolve(t, first, b) == Resolve(t, rows[0], a)
    requires Matched(t, rows[1..], a, rest, b)
    ensures Matched(t, rows, a, [first] + rest, b)
  {
    forall m | 0 <= m < |rows|
      ensures |rows[m].values| == |t.columns| && |([first] + rest)[m].values| == |t.columns|
      ensures Resolve(t, rows[m], a).Keep? && Resolve(t, ([first] + rest)[m], b) == Resolve(t, rows[m], a)
    {
      if m > 0 {
        assert rows[m] == rows[1..][m - 1] && ([first] + rest)[m] == rest[m - 1];
      }
    }
  }

  // --------------------------------------------------------- what equal print says of rows

  /** The rowid in the reference column, if there is one. */
  function RefId(t: Table, row: Row): Option<int> {
    if RefTarget(t, row).Some? && RefColumn(t) < |row.values| && row.values[RefColumn(t)].SqlInt?
    then Some(row.values[RefColumn(t)].i) else None
  }

  /** The text id that a rowid stands for. */
  function TextAt(tables: Tables, target: TableId, id: int): Option<string> {
    if id in TextIds(RowsOf(tables, target)) then Some(TextIds(RowsOf(tables, target))[id]) else None
  }

  lemma OtherColumnsEqual(mapping: Mapping, t: Table, x: Row, a: Tables, y: Row, b: Tables, c: nat)
    requires GoodTable(mapping, t) && |x.values| == |t.columns| && |y.values| == |t.columns|
    requires Resolve(t, x, a).Keep? && Resolve(t, y, b) == Resolve(t, x, a)
    requires c < |t.columns| && c != RefColumn(t)
    ensures x.values[c] == y.values[c]
  {
    var p := Resolve(t, x, a).row;
    assert p[c] == Named(t, x)[c] && p[c] == Named(t, y)[c];
  }

  lemma ReferencesCorrespond(mapping: Mapping, t: Table, x: Row, a: Tables, y: Row, b: Tables)
    requires GoodTable(mapping, t) && |x.values| == |t.columns| && |y.values| == |t.columns|
    requires Resolve(t, x, a).Keep? && Resolve(t, y, b) == Resolve(t, x, a)
    requires RefStored(t, x) && RefStored(t, y)
    ensures RefTarget(t, y) == RefTarget(t, x)
    ensures RefId(t, x).Some? <==> RefId(t, y).Some?
    ensures RefId(t, x).None? && RefColumn(t) < |t.columns| ==> x.values[RefColumn(t)] == y.values[RefColumn(t)]
    ensures RefId(t, x).Some? ==>
              var target := RefTarget(t, x).value;
              && target in References(t) && TextAt(a, target, RefId(t, x).value).Some?
              && TextAt(a, target, RefId(t, x).value) == TextAt(b, target, RefId(t, y).value)
  {
    var p, at := Resolve(t, x, a).row, RefColumn(t);
    if t.id == Aliases {
      OtherColumnsEqual(mapping, t, x, a, y, b, 0);
      assert p[1].1 == SqlStr(TextIds(RowsOf(a, EntityTable(x.values[0].s).value))[x.values[1].i]);
      assert p[1].1 == SqlStr(TextIds(RowsOf(b, EntityTable(y.values[0].s).value))[y.values[1].i]);
    } else if t.fk.Some? {
      assert p[at].1 == if x.values[at].SqlNull? then SqlNull
                        else SqlStr(TextIds(RowsOf(a, t.fk.value.target))[x.values[at].i]);
      assert p[at].1 == if y.values[at].SqlNull? then SqlNull
                        else SqlStr(TextIds(RowsOf(b, t.fk.value.target))[y.values[at].i]);
    }
  }

  // ------------------------------------------------------------------ the renumbering

  /** The rowid of the partner. */
  function PartnerId(rows: seq<Row>, partners: seq<Row>, id: int): Option<int>
    requires |partners| == |rows|
    decreases |rows|
  {
    if rows == [] then None
    else if rows[0].id == id then Some(partners[0].id)
    else PartnerId(rows[1..], partners[1..], id)
  }

  lemma {:induction false} PartnerIdAt(rows: seq<Row>, partners: seq<Row>, m: nat)
    requires |partners| == |rows| && DistinctIds(rows) && m < |rows|
    ensures PartnerId(rows, partners, rows[m].id) == Some(partners[m].id)
    decreases |rows|
  {
    if m > 0 {
      PartnerIdAt(rows[1..], partners[1..], m - 1);
      assert rows[1..][m - 1] == rows[m] && partners[1..][m - 1] == partners[m];
    }
  }

  lemma {:induction false} PartnerIdFrom(rows: seq<Row>, partners: seq<Row>, id: int) returns (m: nat)
    requires |partners| == |rows| && PartnerId(rows, partners, id).Some?
    ensures m < |rows| && rows[m].id == id && PartnerId(rows, partners, id).value == partners[m].id
    decreases |rows|
  {
    if rows[0].id == id {
      m := 0;
    } else {
      var n := PartnerIdFrom(rows[1..], partners[1..], id);
      m := n + 1;
    }
  }

  function Top(rows: seq<Row>): (top: int)
    ensures forall k :: 0 <= k < |rows| ==> rows[k].id <= top
  {
    if rows == [] then 0
    else
      var rest := Top(rows[1..]);
      assert forall k :: 0 < k < |rows| ==> rows[k] == rows[1..][k - 1];
      if rows[0].id > rest then rows[0].id else rest
  }

  /** Integers in a row: 0, -1, 1, -2, 2, ... */
  function Enumerated(id: int): nat {
    if id >= 0 then 2 * id else -2 * id - 1
  }

  /** Kept rows and their partners, table by table. */
  type Pairing = map<TableId, (seq<Row>, seq<Row>)>

  ghost predicate EqualLengths(pairs: Pairing) {
    forall t :: t in pairs ==> |pairs[t].0| == |pairs[t].1|
  }

  /** Rows get the rowids of their partners; rowids that no row has go out of the way. */
  function Renumber(pairs: Pairing, t: TableId, id: int): int {
    if t in pairs && |pairs[t].0| == |pairs[t].1| && PartnerId(pairs[t].0, pairs[t].1, id).Some?
    then PartnerId(pairs[t].0, pairs[t].1, id).value
    else (if t in pairs then Top(pairs[t].1) else 0) + 1 + Enumerated(id)
  }

  function RenumberingOf(pairs: Pairing): Renumbering {
    (t: TableId, id: int) => Renumber(pairs, t, id)
  }

  lemma RenumberInjective(pairs: Pairing, t: TableId, a: int, b: int)
    requires EqualLengths(pairs) && (t in pairs ==> DistinctIds(pairs[t].1))
    requires Renumber(pairs, t, a) == Renumber(pairs, t, b)
    ensures a == b
  {
    if t in pairs {
      var rows, partners := pairs[t].0, pairs[t].1;
      if PartnerId(rows, partners, a).Some? {
        var m := PartnerIdFrom(rows, partners, a);
        if PartnerId(rows, partners, b).Some? {
          var n := PartnerIdFrom(rows, partners, b);
          assert m == n;
        }
      } else if PartnerId(rows, partners, b).Some? {
        var n := PartnerIdFrom(rows, partners, b);
      }
    }
  }

  lemma {:induction false} DistinctOnce(rows: seq<Row>, row: Row)
    requires DistinctIds(rows)
    ensures multiset(rows)[row] <= 1
  {
    if rows != [] {
      assert rows == [rows[0]] + rows[1..];
      DistinctOnce(rows[1..], row);
      forall k | 0 <= k < |rows[1..]| ensures rows[1..][k] != rows[0] {
        assert rows[1..][k] == rows[k + 1];
      }
    }
  }

  lemma PermutedDistinct(rows: seq<Row>, others: seq<Row>)
    requires DistinctIds(rows) && multiset(rows) == multiset(others)
    ensures DistinctIds(others)
  {
    forall i, j | 0 <= i < j < |others| ensures others[i].id != others[j].id {
      if others[i].id == others[j].id {
        assert others[i] in multiset(rows) && others[j] in multiset(rows);
        var p :| 0 <= p < |rows| && rows[p] == others[i];
        var q :| 0 <= q < |rows| && rows[q] == others[j];
        assert p == q;
        TwiceThere(others, i, j);
        DistinctOnce(rows, others[i]);
      }
    }
  }

  lemma TwiceThere(rows: seq<Row>, i: nat, j: nat)
    requires i < j < |rows| && rows[i] == rows[j]
    ensures multiset(rows)[rows[i]] >= 2
  {
    assert rows == rows[..i] + [rows[i]] + rows[i + 1..j] + [rows[j]] + rows[j + 1..];
  }

  // -------------------------------------------------------------------- the theorem

  /** Two databases whose tables print the same rows, in whatever order. */
  ghost predicate PrintSame(order: seq<Table>, a: Tables, b: Tables)
    requires FullTables(order, a) && FullTables(order, b)
  {
    forall k :: 0 <= k < |order| ==> SameRows(order[k], a, b)
  }

  ghost predicate SameRows(t: Table, a: Tables, b: Tables)
    requires FullRows(t, RowsOf(a, t.id)) && FullRows(t, RowsOf(b, t.id))
  {
    var p, q := ResolveAll(t, RowsOf(a, t.id), a), ResolveAll(t, RowsOf(b, t.id), b);
    p.Done? && q.Done? && multiset(p.value) == multiset(q.value)
  }

  /** The kept rows of `a` in the first component, their partners in `b` in the second. */
  ghost predicate PairedTable(t: Table, a: Tables, b: Tables, pair: (seq<Row>, seq<Row>))
    requires FullRows(t, RowsOf(a, t.id)) && FullRows(t, RowsOf(b, t.id))
  {
    && pair.0 == KeptRows(t, RowsOf(a, t.id), a)
    && multiset(pair.1) == multiset(KeptRows(t, RowsOf(b, t.id), b))
    && Matched(t, pair.0, a, pair.1, b)
  }

  ghost predicate Paired(order: seq<Table>, a: Tables, b: Tables, pairs: Pairing, n: nat)
    requires FullTables(order, a) && FullTables(order, b) && n <= |order|
  {
    && EqualLengths(pairs)
    && forall k :: 0 <= k < n ==> order[k].id in pairs && PairedTable(order[k], a, b, pairs[order[k].id])
  }

  lemma PairOne(t: Table, a: Tables, b: Tables) returns (pair: (seq<Row>, seq<Row>))
    requires FullRows(t, RowsOf(a, t.id)) && FullRows(t, RowsOf(b, t.id)) && SameRows(t, a, b)
    ensures PairedTable(t, a, b, pair)
  {
    var rows, others := RowsOf(a, t.id), RowsOf(b, t.id);
    KeptResolved(t, rows, a);
    KeptResolved(t, others, b);
    var kept, rest := KeptRows(t, rows, a), KeptRows(t, others, b);
    var partners := MatchRows(t, kept, a, ResolveAll(t, rows, a).value, rest, b, ResolveAll(t, others, b).value);
    pair := (kept, partners);
  }

  lemma PairedNext(order: seq<Table>, a: Tables, b: Tables, before: Pairing, n: nat, pair: (seq<Row>, seq<Row>))
    requires FullTables(order, a) && FullTables(order, b) && DistinctTables(order) && n < |order|
    requires Paired(order, a, b, before, n) && PairedTable(order[n], a, b, pair)
    ensures Paired(order, a, b, before[order[n].id := pair], n + 1)
  {
    var pairs := before[order[n].id := pair];
    forall k | 0 <= k < n + 1 ensures order[k].id in pairs && PairedTable(order[k], a, b, pairs[order[k].id]) {
      if k < n {
        assert order[k].id != order[n].id && PairedTable(order[k], a, b, before[order[k].id]);
      }
    }
  }

  lemma {:induction false} PairAll(order: seq<Table>, a: Tables, b: Tables, n: nat) returns (pairs: Pairing)
    requires FullTables(order, a) && FullTables(order, b) && PrintSame(order, a, b)
    requires DistinctTables(order) && n <= |order|
    ensures Paired(order, a, b, pairs, n)
    ensures forall t :: t in pairs ==> exists k :: 0 <= k < n && order[k].id == t
  {
    if n == 0 {
      pairs := map[];
    } else {
      var before := PairAll(order, a, b, n - 1);
      assert SameRows(order[n - 1], a, b);
      var pair := PairOne(order[n - 1], a, b);
      pairs := before[order[n - 1].id := pair];
      PairedNext(order, a, b, before, n - 1, pair);
    }
  }

  /** Everything the two databases must satisfy. */
  ghost predicate Alike(mapping: Mapping, order: seq<Table>, a: Tables, b: Tables) {
    && GoodOrder(mapping, order) && ValidTables(order, a) && FullTables(order, a) && FullTables(order, b)
    && PrintSame(order, a, b)
    && (forall k :: 0 <= k < |order| ==> ComparableRows(order[k], RowsOf(a, order[k].id), RowsOf(b, order[k].id)))
  }

  /** Rowids are unique, in the first database text ids too, and references are stored. */
  predicate ComparableRows(t: Table, rows: seq<Row>, others: seq<Row>) {
    && DistinctIds(rows) && DistinctIds(others)
    && (t.entity ==> UniqueTextIds(rows))
    && (t.id != Aliases ==> forall m :: 0 <= m < |rows| ==> RefStored(t, rows[m]))
    && (t.id != Aliases ==> forall m :: 0 <= m < |others| ==> RefStored(t, others[m]))
  }

  /** Entities with the same text id are partners. */
  lemma PartnerByText(mapping: Mapping, t: Table, a: Tables, b: Tables, pair: (seq<Row>, seq<Row>), id: int, other: int)
    requires GoodTable(mapping, t) && t.entity && ValidRows(t, RowsOf(a, t.id)) && FullRows(t, RowsOf(b, t.id))
    requires SameRows(t, a, b) && ComparableRows(t, RowsOf(a, t.id), RowsOf(b, t.id))
    requires PairedTable(t, a, b, pair)
    requires TextAt(a, t.id, id).Some? && TextAt(a, t.id, id) == TextAt(b, t.id, other)
    ensures |pair.0| == |pair.1| && PartnerId(pair.0, pair.1, id) == Some(other)
  {
    var rows, others := RowsOf(a, t.id), RowsOf(b, t.id);
    AllKept(t, rows, a);
    AllKept(t, others, b);
    var x := TextIdsFrom(rows, id);
    var y := TextIdsFrom(others, other);
    TextIdOfRow(rows, x);
    TextIdOfRow(others, y);
    assert y in multiset(pair.1);
    var m :| 0 <= m < |rows| && rows[m] == x;
    var n :| 0 <= n < |pair.1| && pair.1[n] == y;
    SameTextId(mapping, t, pair.0[n], a, pair.1[n], b);
    assert m == n;
    PartnerIdAt(pair.0, pair.1, m);
  }

  lemma SameTextId(mapping: Mapping, t: Table, x: Row, a: Tables, y: Row, b: Tables)
    requires GoodTable(mapping, t) && t.entity && |x.values| == |t.columns| && |y.values| == |t.columns|
    requires Resolve(t, x, a).Keep? && Resolve(t, y, b) == Resolve(t, x, a)
    ensures TextIdOf(x) == TextIdOf(y)
  {
    OtherColumnsEqual(mapping, t, x, a, y, b, 0);
  }

  /** What is known of a row and its partner. */
  ghost predicate PartnersFit(t: Table, x: Row, a: Tables, y: Row, b: Tables) {
    && |x.values| == |t.columns| && |y.values| == |t.columns|
    && Resolve(t, x, a).Keep? && Resolve(t, y, b) == Resolve(t, x, a)
    && RefStored(t, x) && RefStored(t, y)
  }

  lemma PartnersAreFit(mapping: Mapping, t: Table, a: Tables, b: Tables, pair: (seq<Row>, seq<Row>), m: nat)
    requires GoodTable(mapping, t) && FullRows(t, RowsOf(a, t.id)) && FullRows(t, RowsOf(b, t.id)) && SameRows(t, a, b)
    requires ComparableRows(t, RowsOf(a, t.id), RowsOf(b, t.id)) && PairedTable(t, a, b, pair) && m < |pair.0|
    ensures |pair.0| == |pair.1| && PartnersFit(t, pair.0[m], a, pair.1[m], b)
    ensures PartnerId(pair.0, pair.1, pair.0[m].id) == Some(pair.1[m].id)
  {
    KeptDistinct(t, RowsOf(a, t.id), a);
    PartnerIdAt(pair.0, pair.1, m);
    KeptRowIsStored(mapping, t, RowsOf(a, t.id), a, pair.0[m]);
    assert pair.1[m] in multiset(pair.1);
    KeptRowIsStored(mapping, t, RowsOf(b, t.id), b, pair.1[m]);
  }

  lemma KeptRowIsStored(mapping: Mapping, t: Table, rows: seq<Row>, tables: Tables, row: Row)
    requires GoodTable(mapping, t) && FullRows(t, rows) && ResolveAll(t, rows, tables).Done?
    requires t.id != Aliases ==> forall m :: 0 <= m < |rows| ==> RefStored(t, rows[m])
    requires row in multiset(KeptRows(t, rows, tables))
    ensures RefStored(t, row)
  {
    KeptAreRows(t, rows, tables);
    assert row in KeptRows(t, rows, tables) && row in rows;
    if t.id == Aliases {
      KeptOnce(t, rows, tables, row);
      KeptIsStored(mapping, t, row, tables);
    } else {
      var m :| 0 <= m < |rows| && rows[m] == row;
      assert RefStored(t, rows[m]);
    }
  }

  /** The renumbered row is the partner. */
  lemma PartnerIsRenumbered(mapping: Mapping, order: seq<Table>, a: Tables, b: Tables, pairs: Pairing, k: nat, m: nat)
    requires Alike(mapping, order, a, b) && Paired(order, a, b, pairs, |order|) && k < |order|
    requires m < |pairs[order[k].id].0|
    ensures Renumbered(order[k], pairs[order[k].id].0[m], RenumberingOf(pairs)) == pairs[order[k].id].1[m]
  {
    var t, pair := order[k], pairs[order[k].id];
    assert PairedTable(t, a, b, pair) && ComparableRows(t, RowsOf(a, t.id), RowsOf(b, t.id)) && SameRows(t, a, b);
    PartnersAreFit(mapping, t, a, b, pair, m);
    var x, y := pair.0[m], pair.1[m];
    FitReference(mapping, order, a, b, pairs, k, x, y);
    RenumberedValues(mapping, t, x, a, y, b, RenumberingOf(pairs));
  }

  lemma FitReference(mapping: Mapping, order: seq<Table>, a: Tables, b: Tables, pairs: Pairing, k: nat, x: Row, y: Row)
    requires Alike(mapping, order, a, b) && Paired(order, a, b, pairs, |order|) && k < |order|
    requires PartnersFit(order[k], x, a, y, b)
    ensures RefId(order[k], x).Some? ==>
              RefId(order[k], y) == Some(Renumber(pairs, RefTarget(order[k], x).value, RefId(order[k], x).value))
  {
    var t := order[k];
    ReferencesCorrespond(mapping, t, x, a, y, b);
    if RefId(t, x).Some? {
      ReferenceRenumbered(mapping, order, a, b, pairs, k, RefTarget(t, x).value, RefId(t, x).value, RefId(t, y).value);
    }
  }

  lemma KeptIsStored(mapping: Mapping, t: Table, row: Row, tables: Tables)
    requires GoodTable(mapping, t) && |row.values| == |t.columns| && Resolve(t, row, tables).Keep?
    requires t.id != Aliases ==> RefStored(t, row)
    ensures RefStored(t, row)
  {
  }

  lemma ReferenceRenumbered(mapping: Mapping, order: seq<Table>, a: Tables, b: Tables, pairs: Pairing, k: nat,
                            target: TableId, id: int, other: int)
    requires Alike(mapping, order, a, b) && Paired(order, a, b, pairs, |order|) && k < |order|
    requires target in References(order[k])
    requires TextAt(a, target, id).Some? && TextAt(a, target, id) == TextAt(b, target, other)
    ensures Renumber(pairs, target, id) == other
  {
    var j :| 0 <= j < k && order[j].id == target && order[j].entity;
    assert ValidRows(order[j], RowsOf(a, target)) && FullRows(order[j], RowsOf(b, target));
    assert PairedTable(order[j], a, b, pairs[target]) && SameRows(order[j], a, b);
    assert ComparableRows(order[j], RowsOf(a, target), RowsOf(b, target));
    PartnerByText(mapping, order[j], a, b, pairs[target], id, other);
  }

  lemma RenumberedValues(mapping: Mapping, t: Table, x: Row, a: Tables, y: Row, b: Tables, f: Renumbering)
    requires GoodTable(mapping, t) && |x.values| == |t.columns| && |y.values| == |t.columns|
    requires Resolve(t, x, a).Keep? && Resolve(t, y, b) == Resolve(t, x, a)
    requires RefStored(t, x) && RefStored(t, y) && f(t.id, x.id) == y.id
    requires RefId(t, x).Some? ==> RefId(t, y) == Some(f(RefTarget(t, x).value, RefId(t, x).value))
    ensures Renumbered(t, x, f) == y
  {
    ReferencesCorrespond(mapping, t, x, a, y, b);
    var r := Renumbered(t, x, f);
    forall c | 0 <= c < |t.columns| ensures r.values[c] == y.values[c] {
      if c != RefColumn(t) {
        OtherColumnsEqual(mapping, t, x, a, y, b, c);
      }
    }
    assert r.values == y.values;
  }

  /** The kept rows of `a`, renumbered, are those of `b`. */
  ghost predicate SameKept(order: seq<Table>, a: Tables, b: Tables, f: Renumbering)
    requires FullTables(order, a) && FullTables(order, b)
  {
    forall k :: 0 <= k < |order| ==>
      multiset(RenumberedAll(order[k], KeptRows(order[k], RowsOf(a, order[k].id), a), f)) ==
      multiset(KeptRows(order[k], RowsOf(b, order[k].id), b))
  }

  lemma RenumberingIsInjective(mapping: Mapping, order: seq<Table>, a: Tables, b: Tables, pairs: Pairing)
    requires Alike(mapping, order, a, b) && Paired(order, a, b, pairs, |order|)
    requires forall t :: t in pairs ==> exists k :: 0 <= k < |order| && order[k].id == t
    ensures Injective(RenumberingOf(pairs))
  {
    forall t: TableId, x: int, y: int | Renumber(pairs, t, x) == Renumber(pairs, t, y) ensures x == y {
      if t in pairs {
        var k :| 0 <= k < |order| && order[k].id == t;
        assert SameRows(order[k], a, b) && ComparableRows(order[k], RowsOf(a, t), RowsOf(b, t));
        PartnersDistinct(order[k], a, b, pairs[t]);
      }
      RenumberInjective(pairs, t, x, y);
    }
  }

  lemma TableRenumbered(mapping: Mapping, order: seq<Table>, a: Tables, b: Tables, pairs: Pairing, k: nat)
    requires Alike(mapping, order, a, b) && Paired(order, a, b, pairs, |order|) && k < |order|
    ensures RenumberedAll(order[k], KeptRows(order[k], RowsOf(a, order[k].id), a), RenumberingOf(pairs))
         == pairs[order[k].id].1
  {
    var pair, f := pairs[order[k].id], RenumberingOf(pairs);
    assert PairedTable(order[k], a, b, pair);
    forall m | 0 <= m < |pair.0| ensures Renumbered(order[k], pair.0[m], f) == pair.1[m] {
      PartnerIsRenumbered(mapping, order, a, b, pairs, k, m);
    }
    RenumberedPointwise(order[k], pair.0, f, pair.1);
  }

  lemma RenumberedPointwise(t: Table, rows: seq<Row>, f: Renumbering, partners: seq<Row>)
    requires |partners| == |rows| && forall m :: 0 <= m < |rows| ==> Renumbered(t, rows[m], f) == partners[m]
    ensures RenumberedAll(t, rows, f) == partners
  {
  }

  /** Databases that print the same rows are equal up to rowids, row order and the aliases
      that are not printed. */
  lemma SamePrintSameDatabase(mapping: Mapping, order: seq<Table>, a: Tables, b: Tables) returns (f: Renumbering)
    requires Alike(mapping, order, a, b)
    ensures Injective(f) && SameKept(order, a, b, f)
  {
    var pairs := PairAll(order, a, b, |order|);
    f := RenumberingOf(pairs);
    RenumberingIsInjective(mapping, order, a, b, pairs);
    forall k | 0 <= k < |order|
      ensures multiset(RenumberedAll(order[k], KeptRows(order[k], RowsOf(a, order[k].id), a), f)) ==
              multiset(KeptRows(order[k], RowsOf(b, order[k].id), b))
    {
      TableRenumbered(mapping, order, a, b, pairs, k);
      assert PairedTable(order[k], a, b, pairs[order[k].id]);
    }
  }

  lemma PartnersDistinct(t: Table, a: Tables, b: Tables, pair: (seq<Row>, seq<Row>))
    requires FullRows(t, RowsOf(a, t.id)) && FullRows(t, RowsOf(b, t.id)) && SameRows(t, a, b)
    requires PairedTable(t, a, b, pair) && DistinctIds(RowsOf(b, t.id))
    ensures DistinctIds(pair.1)
  {
    KeptDistinct(t, RowsOf(b, t.id), b);
    PermutedDistinct(KeptRows(t, RowsOf(b, t.id), b), pair.1);
  }

  // ----------------------------------------------------------------- the round trip

  /** Unique rowids, and unique text ids where there are any. */
  ghost predicate UniqueKeys(order: seq<Table>, tables: Tables) {
    forall k :: 0 <= k < |order| ==>
      DistinctIds(RowsOf(tables, order[k].id)) && (order[k].entity ==> UniqueTextIds(RowsOf(tables, order[k].id)))
  }

  /** The imported database: what the source prints, renumbered, and nothing else. */
  ghost predicate Restores(order: seq<Table>, source: Tables, imported: Tables, f: Renumbering)
    requires FullTables(order, source)
  {
    forall k :: 0 <= k < |order| ==>
      multiset(RenumberedAll(order[k], KeptRows(order[k], RowsOf(source, order[k].id), source), f)) ==
      multiset(RowsOf(imported, order[k].id))
  }

  lemma ImportedIsAlike(mapping: Mapping, order: seq<Table>, source: Tables, ps: seq<seq<NamedRow>>, state: Importer)
    requires Source(mapping, order, source, ps) && UniqueKeys(order, source)
    requires ImportedSoFar(order, ps, |order|, state)
    ensures Alike(mapping, order, source, state.tables)
  {
    forall k | 0 <= k < |order|
      ensures SameRows(order[k], source, state.tables)
      ensures ComparableRows(order[k], RowsOf(source, order[k].id), RowsOf(state.tables, order[k].id))
    {
      var t := order[k];
      assert ValidRows(t, RowsOf(source, t.id)) && Portable(t, source) == Done(ps[k]);
      SortSorts(ResolveAll(t, RowsOf(source, t.id), source).value, SortKey(t));
      assert StoredWell(t, RowsOf(state.tables, t.id), |ps[k]|);
      ValidIsStored(mapping, t, RowsOf(source, t.id));
    }
  }

  lemma ValidIsStored(mapping: Mapping, t: Table, rows: seq<Row>)
    requires GoodTable(mapping, t) && ValidRows(t, rows)
    ensures t.id != Aliases ==> forall m :: 0 <= m < |rows| ==> RefStored(t, rows[m])
  {
  }

  lemma ImportedAllKept(order: seq<Table>, ps: seq<seq<NamedRow>>, state: Importer, k: nat)
    requires |ps| == |order| && ImportedSoFar(order, ps, |order|, state) && k < |order|
    ensures KeptRows(order[k], RowsOf(state.tables, order[k].id), state.tables) == RowsOf(state.tables, order[k].id)
  {
    assert StoredWell(order[k], RowsOf(state.tables, order[k].id), |ps[k]|);
    AllKeptByCount(order[k], RowsOf(state.tables, order[k].id), state.tables);
  }

  /** Not only the text comes back: the imported database is the source, without its
      unprinted aliases, up to a renumbering of rows. */
  lemma RoundTripRestores(mapping: Mapping, order: seq<Table>, db: Db) returns (f: Renumbering)
    requires GoodOrder(mapping, order) && ImportableOrNot(mapping, order)
    requires ValidTables(order, db.tables) && FullTables(order, db.tables) && H.InRange(db.generation)
    requires UniqueKeys(order, db.tables) && DumpTables(order, db).Done?
    ensures var back := ImportTables(mapping, EmptyImporter, order, DumpTables(order, db).value);
            && (back.Imported? <==> AllLoad(mapping, order, db.tables))
            && (back.Imported? ==> Injective(f) && Restores(order, db.tables, back.value.tables, f))
  {
    var ps := PortablesOfDump(order, db);
    NothingImported(mapping, order, ps);
    ImportRest(mapping, order, db.tables, ps, 0, EmptyImporter, db.generation);
    var texts := Texts(order, ps, db.generation);
    assert order[0..] == order && texts[0..] == texts;
    var back := ImportTables(mapping, EmptyImporter, order, texts);
    if back.Imported? {
      f := ImportedRestores(mapping, order, db.tables, ps, back.value);
    } else {
      f := (t: TableId, id: int) => id;
    }
  }

  lemma ImportedRestores(mapping: Mapping, order: seq<Table>, source: Tables, ps: seq<seq<NamedRow>>, state: Importer)
    returns (f: Renumbering)
    requires Source(mapping, order, source, ps) && UniqueKeys(order, source)
    requires ImportedSoFar(order, ps, |order|, state)
    ensures Injective(f) && Restores(order, source, state.tables, f)
  {
    ImportedIsAlike(mapping, order, source, ps, state);
    f := SamePrintSameDatabase(mapping, order, source, state.tables);
    forall k | 0 <= k < |order|
      ensures multiset(RenumberedAll(order[k], KeptRows(order[k], RowsOf(source, order[k].id), source), f)) ==
              multiset(RowsOf(state.tables, order[k].id))
    {
      ImportedAllKept(order, ps, state, k);
    }
  }
}
