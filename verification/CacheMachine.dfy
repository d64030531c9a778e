/** The cache as a simple machine, without revisions, traces, digests or an engine.

    An entry keeps a value and the cells that were recorded for it; writing or erasing a
    recorded cell drops the entry, and nothing else does.  The runtime is proved to
    behave like this machine on every run.  What the machine answers, and when that is
    the plain meaning, is proved here. */
module CacheMachine {
  import opened Wrappers
  import opened ReactiveTypes
  import opened Computation

  /** A value, the cells recorded for it, and the entries that its computation was served
      for the computed values it asked. */
  datatype Entry = Entry(value: Avail, recorded: set<CellId>, nested: map<nat, Entry>)

  type Cache = map<nat, Entry>

  /** The answer of one request, and the cache afterwards. */
  datatype Asked = Asked(entry: Entry, cache: Cache)

  /** Drop what depends on a cell. */
  function Dirty(cache: Cache, cell: CellId): Cache {
    map i | i in cache && cell !in cache[i].recorded :: cache[i]
  }

  /** Run definition `i` from the point where it has received `answers`, recorded
      `recorded` and been served `nested`.  A missing cell reads as null and is not
      recorded. */
  ghost function Turns(
    defs: seq<Definition>, i: nat, answers: seq<Avail>, store: Store, cache: Cache, recorded: set<CellId>,
    nested: map<nat, Entry>, fuel: nat)
    : Option<Asked>
    decreases i, 0, fuel
  {
    if |defs| <= i then None else
    match defs[i].next(answers)
    case Return(v) => Some(Asked(Entry(v, recorded, nested), cache))
    case ReadCell(c) =>
      if fuel == 0 then None else
      Turns(defs, i, answers + [Present(Lookup(store, c))], store, cache, recorded + ({c} * store.Keys), nested,
            fuel - 1)
    case ReadComputed(j) =>
      if fuel == 0 || i <= j then None else
      var inner := Ask(defs, j, store, cache);
      if inner.None? then None else
      Turns(defs, i, answers + [inner.value.entry.value], store, inner.value.cache,
            recorded + inner.value.entry.recorded, nested[j := inner.value.entry], fuel - 1)
  }

  /** Serve the entry of `i`, or run its closure and remember the result. */
  ghost function Ask(defs: seq<Definition>, i: nat, store: Store, cache: Cache): Option<Asked>
    decreases i, 1, 0
  {
    if i in cache then Some(Asked(cache[i], cache))
    else if exists fuel: nat :: Turns(defs, i, [], store, cache, {}, map[], fuel).Some? then
      var fuel: nat :| Turns(defs, i, [], store, cache, {}, map[], fuel).Some?;
      var r := Turns(defs, i, [], store, cache, {}, map[], fuel).value;
      Some(Asked(r.entry, r.cache[i := r.entry]))
    else None
  }

  /** More fuel never changes the outcome. */
  lemma {:induction false} TurnsMonotone(
    defs: seq<Definition>, i: nat, answers: seq<Avail>, store: Store, cache: Cache, recorded: set<CellId>,
    nested: map<nat, Entry>, fuel: nat, more: nat)
    requires Turns(defs, i, answers, store, cache, recorded, nested, fuel).Some? && fuel <= more
    ensures Turns(defs, i, answers, store, cache, recorded, nested, more)
         == Turns(defs, i, answers, store, cache, recorded, nested, fuel)
    decreases fuel
  {
    match defs[i].next(answers)
    case Return(_) =>
    case ReadCell(c) =>
      TurnsMonotone(defs, i, answers + [Present(Lookup(store, c))], store, cache, recorded + ({c} * store.Keys),
                    nested, fuel - 1, more - 1);
    case ReadComputed(j) =>
      var inner := Ask(defs, j, store, cache).value;
      TurnsMonotone(defs, i, answers + [inner.entry.value], store, inner.cache, recorded + inner.entry.recorded,
                    nested[j := inner.entry], fuel - 1, more - 1);
  }

  lemma AskIsTurns(defs: seq<Definition>, i: nat, store: Store, cache: Cache, fuel: nat)
    requires i !in cache && Turns(defs, i, [], store, cache, {}, map[], fuel).Some?
    ensures var r := Turns(defs, i, [], store, cache, {}, map[], fuel).value;
            Ask(defs, i, store, cache) == Some(Asked(r.entry, r.cache[i := r.entry]))
  {
    var chosen: nat :| Turns(defs, i, [], store, cache, {}, map[], chosen).Some?
                       && Ask(defs, i, store, cache) ==
                          var r := Turns(defs, i, [], store, cache, {}, map[], chosen).value;
                          Some(Asked(r.entry, r.cache[i := r.entry]));
    var most := if chosen < fuel then fuel else chosen;
    TurnsMonotone(defs, i, [], store, cache, {}, map[], chosen, most);
    TurnsMonotone(defs, i, [], store, cache, {}, map[], fuel, most);
  }

  ghost predicate LiveRecords(store: Store, cache: Cache) {
    forall i :: i in cache ==> cache[i].recorded <= store.Keys
  }

  /** Only live cells are ever recorded. */
  lemma {:induction false} TurnsRecordLive(
    defs: seq<Definition>, i: nat, answers: seq<Avail>, store: Store, cache: Cache, recorded: set<CellId>,
    nested: map<nat, Entry>, fuel: nat)
    requires Turns(defs, i, answers, store, cache, recorded, nested, fuel).Some?
    requires LiveRecords(store, cache) && recorded <= store.Keys
    ensures var r := Turns(defs, i, answers, store, cache, recorded, nested, fuel).value;
            r.entry.recorded <= store.Keys && LiveRecords(store, r.cache)
    decreases i, 0, fuel
  {
    match defs[i].next(answers)
    case Return(_) =>
    case ReadCell(c) =>
      TurnsRecordLive(defs, i, answers + [Present(Lookup(store, c))], store, cache, recorded + ({c} * store.Keys),
                      nested, fuel - 1);
    case ReadComputed(j) =>
      AskRecordsLive(defs, j, store, cache);
      var inner := Ask(defs, j, store, cache).value;
      TurnsRecordLive(defs, i, answers + [inner.entry.value], store, inner.cache, recorded + inner.entry.recorded,
                      nested[j := inner.entry], fuel - 1);
  }

  lemma {:induction false} AskRecordsLive(defs: seq<Definition>, i: nat, store: Store, cache: Cache)
    requires Ask(defs, i, store, cache).Some? && LiveRecords(store, cache)
    ensures var r := Ask(defs, i, store, cache).value;
            r.entry.recorded <= store.Keys && LiveRecords(store, r.cache)
    decreases i, 1, 0
  {
    if i !in cache {
      var fuel: nat :| Turns(defs, i, [], store, cache, {}, map[], fuel).Some?;
      AskIsTurns(defs, i, store, cache, fuel);
      TurnsRecordLive(defs, i, [], store, cache, {}, map[], fuel);
    }
  }

  function Restrict(store: Store, cells: set<CellId>): Store {
    map c | c in store && c in cells :: store[c]
  }

  // ------------------------------------------------------- what an entry answers, always

  /** Run definition `i` with the eyes of the entry `e`: of the cells only those it
      recorded, and for each nested computed value what the entry it was served sees. */
  ghost function SeenTurns(
    defs: seq<Definition>, i: nat, answers: seq<Avail>, store: Store, e: Entry, fuel: nat): Option<Avail>
    decreases i, 0, fuel
  {
    if |defs| <= i then None else
    match defs[i].next(answers)
    case Return(v) => Some(v)
    case ReadCell(c) =>
      if fuel == 0 then None else
      SeenTurns(defs, i, answers + [Present(Lookup(Restrict(store, e.recorded), c))], store, e, fuel - 1)
    case ReadComputed(j) =>
      if fuel == 0 || i <= j || j !in e.nested then None else
      var inner := Seen(defs, j, store, e.nested[j]);
      if inner.None? then None else SeenTurns(defs, i, answers + [inner.value], store, e, fuel - 1)
  }

  ghost function Seen(defs: seq<Definition>, i: nat, store: Store, e: Entry): Option<Avail>
    decreases i, 1, 0
  {
    if exists fuel: nat :: SeenTurns(defs, i, [], store, e, fuel).Some? then
      var fuel: nat :| SeenTurns(defs, i, [], store, e, fuel).Some?;
      SeenTurns(defs, i, [], store, e, fuel)
    else None
  }

  lemma {:induction false} SeenMonotone(
    defs: seq<Definition>, i: nat, answers: seq<Avail>, store: Store, e: Entry, fuel: nat, more: nat)
    requires SeenTurns(defs, i, answers, store, e, fuel).Some? && fuel <= more
    ensures SeenTurns(defs, i, answers, store, e, more) == SeenTurns(defs, i, answers, store, e, fuel)
    decreases fuel
  {
    match defs[i].next(answers)
    case Return(_) =>
    case ReadCell(c) =>
      SeenMonotone(defs, i, answers + [Present(Lookup(Restrict(store, e.recorded), c))], store, e, fuel - 1, more - 1);
    case ReadComputed(j) =>
      SeenMonotone(defs, i, answers + [Seen(defs, j, store, e.nested[j]).value], store, e, fuel - 1, more - 1);
  }

  lemma SeenIsTurns(defs: seq<Definition>, i: nat, store: Store, e: Entry, fuel: nat)
    requires SeenTurns(defs, i, [], store, e, fuel).Some?
    ensures Seen(defs, i, store, e) == SeenTurns(defs, i, [], store, e, fuel)
  {
    var chosen: nat :| SeenTurns(defs, i, [], store, e, chosen).Some?
                       && Seen(defs, i, store, e) == SeenTurns(defs, i, [], store, e, chosen);
    var most := if chosen < fuel then fuel else chosen;
    SeenMonotone(defs, i, [], store, e, chosen, most);
    SeenMonotone(defs, i, [], store, e, fuel, most);
  }

  /** The value of an entry is what it sees, and so for the entries it was served. */
  ghost predicate EntrySees(defs: seq<Definition>, store: Store, i: nat, e: Entry)
    decreases i
  {
    && i < |defs| && e.recorded <= store.Keys
    && Seen(defs, i, store, e) == Some(e.value)
    && forall j :: j in e.nested ==>
         j < i && e.nested[j].recorded <= e.recorded && EntrySees(defs, store, j, e.nested[j])
  }

  ghost predicate CacheSees(defs: seq<Definition>, store: Store, cache: Cache) {
    forall i :: i in cache ==> EntrySees(defs, store, i, cache[i])
  }

  ghost predicate AgreeOn(a: Store, b: Store, cells: set<CellId>) {
    forall c :: c in cells ==> c in a && c in b && a[c] == b[c]
  }

  /** What an entry sees depends on the cells it recorded, and on nothing else. */
  lemma {:induction false} SeenTurnsStable(
    defs: seq<Definition>, i: nat, answers: seq<Avail>, a: Store, b: Store, e: Entry, fuel: nat)
    requires AgreeOn(a, b, e.recorded)
    requires forall j :: j in e.nested && j < i ==> Seen(defs, j, a, e.nested[j]) == Seen(defs, j, b, e.nested[j])
    ensures SeenTurns(defs, i, answers, a, e, fuel) == SeenTurns(defs, i, answers, b, e, fuel)
    decreases fuel
  {
    assert Restrict(a, e.recorded) == Restrict(b, e.recorded);
    if i < |defs| && fuel > 0 {
      match defs[i].next(answers)
      case Return(_) =>
      case ReadCell(c) =>
        SeenTurnsStable(defs, i, answers + [Present(Lookup(Restrict(a, e.recorded), c))], a, b, e, fuel - 1);
      case ReadComputed(j) =>
        if j < i && j in e.nested && Seen(defs, j, a, e.nested[j]).Some? {
          SeenTurnsStable(defs, i, answers + [Seen(defs, j, a, e.nested[j]).value], a, b, e, fuel - 1);
        }
    }
  }

  lemma {:induction false} EntrySeesStable(defs: seq<Definition>, i: nat, a: Store, b: Store, e: Entry)
    requires EntrySees(defs, a, i, e) && AgreeOn(a, b, e.recorded)
    ensures EntrySees(defs, b, i, e) && Seen(defs, i, b, e) == Seen(defs, i, a, e)
    decreases i
  {
    forall j | j in e.nested
      ensures EntrySees(defs, b, j, e.nested[j]) && Seen(defs, j, b, e.nested[j]) == Seen(defs, j, a, e.nested[j])
    {
      EntrySeesStable(defs, j, a, b, e.nested[j]);
    }
    var fuel: nat :| SeenTurns(defs, i, [], a, e, fuel).Some?;
    SeenIsTurns(defs, i, a, e, fuel);
    SeenTurnsStable(defs, i, [], a, b, e, fuel);
    SeenIsTurns(defs, i, b, e, fuel);
  }

  /** What a running closure has been served so far is in the cache and recorded. */
  ghost predicate ServedFrom(i: nat, cache: Cache, recorded: set<CellId>, nested: map<nat, Entry>) {
    forall j :: j in nested ==> j < i && j in cache && nested[j] == cache[j] && nested[j].recorded <= recorded
  }

  lemma ServedMore(i: nat, cache: Cache, recorded: set<CellId>, nested: map<nat, Entry>, j: nat, asked: Asked)
    requires ServedFrom(i, cache, recorded, nested) && j < i && Kept(cache, asked.cache)
    requires j in asked.cache && asked.cache[j] == asked.entry
    ensures ServedFrom(i, asked.cache, recorded + asked.entry.recorded, nested[j := asked.entry])
    ensures Kept(nested, nested[j := asked.entry])
  {
  }

  lemma SeenOneCell(defs: seq<Definition>, i: nat, answers: seq<Avail>, store: Store, e: Entry, fuel: nat, c: CellId)
    requires i < |defs| && defs[i].next(answers) == ReadCell(c) && fuel > 0
    requires {c} * store.Keys <= e.recorded
    ensures SeenTurns(defs, i, answers, store, e, fuel) ==
            SeenTurns(defs, i, answers + [Present(Lookup(store, c))], store, e, fuel - 1)
  {
    assert c in store ==> c in {c} * store.Keys;
    assert Lookup(Restrict(store, e.recorded), c) == Lookup(store, c);
  }

  lemma KeptTransitive(a: Cache, b: Cache, c: Cache)
    requires Kept(a, b) && Kept(b, c)
    ensures Kept(a, c)
  {
  }

  /** Running a closure, over whatever the cache serves, gives an entry that sees its
      value. */
  lemma {:induction false} TurnsSee(
    defs: seq<Definition>, i: nat, answers: seq<Avail>, store: Store, cache: Cache, recorded: set<CellId>,
    nested: map<nat, Entry>, fuel: nat)
    requires Turns(defs, i, answers, store, cache, recorded, nested, fuel).Some?
    requires CacheSees(defs, store, cache) && recorded <= store.Keys && ServedFrom(i, cache, recorded, nested)
    ensures var r := Turns(defs, i, answers, store, cache, recorded, nested, fuel).value;
            && CacheSees(defs, store, r.cache) && Kept(cache, r.cache)
            && recorded <= r.entry.recorded <= store.Keys && Kept(nested, r.entry.nested)
            && ServedFrom(i, r.cache, r.entry.recorded, r.entry.nested)
            && SeenTurns(defs, i, answers, store, r.entry, fuel) == Some(r.entry.value)
    decreases i, 0, fuel
  {
    match defs[i].next(answers)
    case Return(_) =>
    case ReadCell(c) =>
      TurnsSee(defs, i, answers + [Present(Lookup(store, c))], store, cache, recorded + ({c} * store.Keys),
               nested, fuel - 1);
      SeenOneCell(defs, i, answers, store, Turns(defs, i, answers, store, cache, recorded, nested, fuel).value.entry,
                  fuel, c);
    case ReadComputed(j) =>
      AskSees(defs, j, store, cache);
      var inner := Ask(defs, j, store, cache).value;
      ServedMore(i, cache, recorded, nested, j, inner);
      TurnsSee(defs, i, answers + [inner.entry.value], store, inner.cache, recorded + inner.entry.recorded,
               nested[j := inner.entry], fuel - 1);
      var r := Turns(defs, i, answers, store, cache, recorded, nested, fuel).value;
      KeptTransitive(cache, inner.cache, r.cache);
      KeptTransitive(nested, nested[j := inner.entry], r.entry.nested);
      assert r.entry.nested[j] == inner.entry;
  }

  /** Entries stay as they are. */
  ghost predicate Kept(before: Cache, after: Cache) {
    forall i :: i in before ==> i in after && after[i] == before[i]
  }

  /** Every answer is what its entry sees, in every state. */
  lemma {:induction false} AskSees(defs: seq<Definition>, i: nat, store: Store, cache: Cache)
    requires Ask(defs, i, store, cache).Some? && CacheSees(defs, store, cache)
    ensures var r := Ask(defs, i, store, cache).value;
            && EntrySees(defs, store, i, r.entry) && i in r.cache && r.cache[i] == r.entry
            && CacheSees(defs, store, r.cache) && Kept(cache, r.cache)
    decreases i, 1, 0
  {
    if i !in cache {
      var fuel: nat :| Turns(defs, i, [], store, cache, {}, map[], fuel).Some?;
      AskIsTurns(defs, i, store, cache, fuel);
      TurnsSee(defs, i, [], store, cache, {}, map[], fuel);
      var r := Turns(defs, i, [], store, cache, {}, map[], fuel).value;
      SeenIsTurns(defs, i, store, r.entry, fuel);
      assert EntrySees(defs, store, i, r.entry);
    }
  }

  /** Dropping what a write touches keeps what the other entries see. */
  lemma DirtyKeepsSight(defs: seq<Definition>, before: Store, after: Store, cache: Cache, cell: CellId)
    requires CacheSees(defs, before, cache) && before - {cell} == after - {cell}
    ensures CacheSees(defs, after, Dirty(cache, cell))
  {
    forall i | i in Dirty(cache, cell) ensures EntrySees(defs, after, i, cache[i]) {
      forall c | c in cache[i].recorded ensures c in before && c in after && after[c] == before[c] {
        assert c in before - {cell} && (before - {cell})[c] == (after - {cell})[c];
      }
      EntrySeesStable(defs, i, before, after, cache[i]);
    }
  }

  // ---------------------------------------------------- entries without stale parts

  /** The value of an entry is the meaning on the store as far as it was recorded. */
  ghost predicate EntrySound(defs: seq<Definition>, store: Store, i: nat, e: Entry)
    requires Total(defs)
  {
    && i < |defs| && e.recorded <= store.Keys
    && e.value == Value(defs, i, Restrict(store, e.recorded))
    && e.recorded <= Cells(defs, i, Restrict(store, e.recorded))
  }

  ghost predicate CacheSound(defs: seq<Definition>, store: Store, cache: Cache)
    requires Total(defs)
  {
    forall i :: i in cache ==> EntrySound(defs, store, i, cache[i])
  }

  /** The cells that the computation of an entry looked at without a record: they were
      missing.  One that exists by now is late. */
  ghost function Missed(defs: seq<Definition>, store: Store, i: nat, e: Entry): set<CellId>
    requires Total(defs) && i < |defs|
  {
    Cells(defs, i, Restrict(store, e.recorded)) - e.recorded
  }

  /** No late cell matters: each reads as null, and only tolerated ones exist by now. */
  ghost predicate Clear(defs: seq<Definition>, store: Store, i: nat, e: Entry, tolerated: set<CellId>)
    requires Total(defs) && i < |defs|
  {
    forall c :: c in Missed(defs, store, i, e) ==> Lookup(store, c) == Null && (c in store ==> c in tolerated)
  }

  /** A request for `i` is served by clear entries only: its own, or, if it must run,
      those of the computed values a plain run asks. */
  ghost predicate Serves(defs: seq<Definition>, store: Store, cache: Cache, i: nat, tolerated: set<CellId>)
    requires Total(defs)
    decreases i
  {
    && i < |defs|
    && if i in cache then Clear(defs, store, i, cache[i], tolerated)
       else forall j :: j in Nested(defs, i, store) ==> j < i && Serves(defs, store, cache, j, tolerated)
  }

  /** Entries are kept, and the new ones are clear and look at no other cells. */
  ghost predicate Grown(
    defs: seq<Definition>, store: Store, before: Cache, after: Cache, tolerated: set<CellId>, cells: set<CellId>)
    requires Total(defs)
  {
    && (forall i :: i in before ==> i in after && after[i] == before[i])
    && (forall i :: i in after && i !in before ==>
          && i < |defs| && Clear(defs, store, i, after[i], tolerated)
          && Missed(defs, store, i, after[i]) <= cells)
  }

  lemma {:induction false} ServesGrows(
    defs: seq<Definition>, store: Store, before: Cache, after: Cache, i: nat, tolerated: set<CellId>,
    cells: set<CellId>)
    requires Total(defs) && Grown(defs, store, before, after, tolerated, cells)
    requires Serves(defs, store, before, i, tolerated)
    ensures Serves(defs, store, after, i, tolerated)
    decreases i
  {
    if i !in after {
      forall j | j in Nested(defs, i, store) ensures j < i && Serves(defs, store, after, j, tolerated) {
        ServesGrows(defs, store, before, after, j, tolerated, cells);
      }
    }
  }

  ghost predicate AllServe(
    defs: seq<Definition>, store: Store, cache: Cache, nested: set<nat>, tolerated: set<CellId>)
    requires Total(defs)
  {
    forall j :: j in nested ==> Serves(defs, store, cache, j, tolerated)
  }

  lemma AllServeGrows(
    defs: seq<Definition>, store: Store, before: Cache, after: Cache, nested: set<nat>, tolerated: set<CellId>,
    cells: set<CellId>)
    requires Total(defs) && Grown(defs, store, before, after, tolerated, cells)
    requires AllServe(defs, store, before, nested, tolerated)
    ensures AllServe(defs, store, after, nested, tolerated)
  {
    forall j | j in nested ensures Serves(defs, store, after, j, tolerated) {
      ServesGrows(defs, store, before, after, j, tolerated, cells);
    }
  }

  /** What a request gets: the plain value, and a record of cells that a plain run looks
      at, complete but for cells that read as null. */
  ghost predicate Covers(store: Store, cells: set<CellId>, recorded: set<CellId>, tolerated: set<CellId>) {
    && recorded <= cells && recorded <= store.Keys
    && forall c :: c in cells - recorded ==> Lookup(store, c) == Null && (c in store ==> c in tolerated)
  }

  /** A complete record of a plain run makes a sound and clear entry. */
  lemma RecordIsSound(defs: seq<Definition>, store: Store, i: nat, e: Entry, tolerated: set<CellId>)
    requires Total(defs) && i < |defs| && e.value == Value(defs, i, store)
    requires Covers(store, Cells(defs, i, store), e.recorded, tolerated)
    ensures EntrySound(defs, store, i, e) && Clear(defs, store, i, e, tolerated)
    ensures Missed(defs, store, i, e) == Cells(defs, i, store) - e.recorded
  {
    var seen := Restrict(store, e.recorded);
    assert LookAlike(store, seen, Cells(defs, i, store));
    MeaningDependsOnlyOnCells(defs, i, store, seen);
  }

  /** A sound and clear entry is a complete record of a plain run. */
  lemma ClearIsRecord(defs: seq<Definition>, store: Store, i: nat, e: Entry, tolerated: set<CellId>)
    requires Total(defs) && i < |defs| && EntrySound(defs, store, i, e) && Clear(defs, store, i, e, tolerated)
    ensures e.value == Value(defs, i, store) && Covers(store, Cells(defs, i, store), e.recorded, tolerated)
  {
    var seen := Restrict(store, e.recorded);
    assert LookAlike(seen, store, Cells(defs, i, seen));
    MeaningDependsOnlyOnCells(defs, i, seen, store);
  }

  ghost predicate AskedWell(
    defs: seq<Definition>, i: nat, store: Store, cache: Cache, asked: Asked, tolerated: set<CellId>)
    requires Total(defs) && i < |defs|
  {
    && asked.entry.value == Value(defs, i, store)
    && Covers(store, Cells(defs, i, store), asked.entry.recorded, tolerated)
    && CacheSound(defs, store, asked.cache) && Grown(defs, store, cache, asked.cache, tolerated, Cells(defs, i, store))
  }

  lemma GrownTransitive(defs: seq<Definition>, store: Store, a: Cache, b: Cache, c: Cache, tolerated: set<CellId>,
                        first: set<CellId>, second: set<CellId>)
    requires Total(defs) && Grown(defs, store, a, b, tolerated, first) && Grown(defs, store, b, c, tolerated, second)
    ensures Grown(defs, store, a, c, tolerated, first + second)
  {
  }

  /** The record of a run after a nested request covers both. */
  lemma CoversBoth(store: Store, cells: set<CellId>, inner: set<CellId>, recorded: set<CellId>, found: set<CellId>,
                   all: set<CellId>, tolerated: set<CellId>)
    requires Covers(store, inner, found, tolerated) && recorded + found <= all
    requires Covers(store, cells + (recorded + found), all, tolerated)
    ensures Covers(store, cells + inner + recorded, all, tolerated)
  {
  }

  /** What a run of a closure over the cache has in common with its plain run. */
  ghost predicate Follows(defs: seq<Definition>, store: Store, cache: Cache, recorded: set<CellId>,
                          cells: set<CellId>, turns: Asked, tolerated: set<CellId>)
    requires Total(defs)
  {
    && recorded <= turns.entry.recorded
    && Covers(store, cells + recorded, turns.entry.recorded, tolerated)
    && CacheSound(defs, store, turns.cache)
    && Grown(defs, store, cache, turns.cache, tolerated, cells)
  }

  lemma FollowsAfterCell(defs: seq<Definition>, store: Store, cache: Cache, recorded: set<CellId>, c: CellId,
                         cells: set<CellId>, turns: Asked, tolerated: set<CellId>)
    requires Total(defs) && Follows(defs, store, cache, recorded + ({c} * store.Keys), cells, turns, tolerated)
    ensures Follows(defs, store, cache, recorded, cells + {c}, turns, tolerated)
  {
  }

  lemma FollowsAfterNested(defs: seq<Definition>, store: Store, cache: Cache, recorded: set<CellId>, j: nat,
                           inner: Asked, cells: set<CellId>, turns: Asked, tolerated: set<CellId>)
    requires Total(defs) && j < |defs| && AskedWell(defs, j, store, cache, inner, tolerated)
    requires Follows(defs, store, inner.cache, recorded + inner.entry.recorded, cells, turns, tolerated)
    ensures Follows(defs, store, cache, recorded, cells + Cells(defs, j, store), turns, tolerated)
  {
    CoversBoth(store, cells, Cells(defs, j, store), recorded, inner.entry.recorded, turns.entry.recorded, tolerated);
    GrownTransitive(defs, store, cache, inner.cache, turns.cache, tolerated, Cells(defs, j, store), cells);
    assert Cells(defs, j, store) + cells == cells + Cells(defs, j, store);
  }

  /** Running a closure on clear entries follows the plain run. */
  lemma {:induction false} TurnsFollowRun(
    defs: seq<Definition>, i: nat, answers: seq<Avail>, store: Store, cache: Cache, recorded: set<CellId>,
    nested: map<nat, Entry>, fuel: nat, tolerated: set<CellId>)
    requires Total(defs) && CacheSound(defs, store, cache) && recorded <= store.Keys
    requires Run(defs, i, answers, store, fuel).Some?
    requires AllServe(defs, store, cache, Run(defs, i, answers, store, fuel).value.nested, tolerated)
    ensures var plain := Run(defs, i, answers, store, fuel).value;
            var turns := Turns(defs, i, answers, store, cache, recorded, nested, fuel);
            && turns.Some? && turns.value.entry.value == plain.value
            && Follows(defs, store, cache, recorded, plain.cells, turns.value, tolerated)
    decreases i, 0, fuel, 1
  {
    match defs[i].next(answers)
    case Return(_) =>
    case ReadCell(c) =>
      TurnsFollowRun(defs, i, answers + [Present(Lookup(store, c))], store, cache, recorded + ({c} * store.Keys),
                     nested, fuel - 1, tolerated);
      FollowsAfterCell(defs, store, cache, recorded, c,
                       Run(defs, i, answers + [Present(Lookup(store, c))], store, fuel - 1).value.cells,
                       Turns(defs, i, answers, store, cache, recorded, nested, fuel).value, tolerated);
    case ReadComputed(j) =>
      TurnsFollowNested(defs, i, answers, store, cache, recorded, nested, fuel, tolerated, j);
  }

  lemma {:induction false} TurnsFollowNested(
    defs: seq<Definition>, i: nat, answers: seq<Avail>, store: Store, cache: Cache, recorded: set<CellId>,
    nested: map<nat, Entry>, fuel: nat, tolerated: set<CellId>, j: nat)
    requires Total(defs) && CacheSound(defs, store, cache) && recorded <= store.Keys
    requires Run(defs, i, answers, store, fuel).Some? && defs[i].next(answers) == ReadComputed(j)
    requires AllServe(defs, store, cache, Run(defs, i, answers, store, fuel).value.nested, tolerated)
    ensures var plain := Run(defs, i, answers, store, fuel).value;
            var turns := Turns(defs, i, answers, store, cache, recorded, nested, fuel);
            && turns.Some? && turns.value.entry.value == plain.value
            && Follows(defs, store, cache, recorded, plain.cells, turns.value, tolerated)
    decreases i, 0, fuel, 0
  {
    var plain := Run(defs, i, answers, store, fuel).value;
    assert j in plain.nested;
    AskFollowsMeaning(defs, j, store, cache, tolerated);
    var inner := Ask(defs, j, store, cache).value;
    var rest := Run(defs, i, answers + [inner.entry.value], store, fuel - 1).value;
    assert plain == Outcome(rest.value, rest.cells + Cells(defs, j, store), rest.nested + {j});
    AllServeGrows(defs, store, cache, inner.cache, plain.nested, tolerated, Cells(defs, j, store));
    TurnsFollowRun(defs, i, answers + [inner.entry.value], store, inner.cache, recorded + inner.entry.recorded,
                   nested[j := inner.entry], fuel - 1, tolerated);
    FollowsAfterNested(defs, store, cache, recorded, j, inner, rest.cells,
                       Turns(defs, i, answers, store, cache, recorded, nested, fuel).value, tolerated);
  }

  /** A request served by clear entries gets the plain meaning, and leaves clear entries
      for whatever it had to run. */
  lemma {:induction false} AskFollowsMeaning(
    defs: seq<Definition>, i: nat, store: Store, cache: Cache, tolerated: set<CellId>)
    requires Total(defs) && CacheSound(defs, store, cache) && Serves(defs, store, cache, i, tolerated)
    ensures Ask(defs, i, store, cache).Some?
    ensures AskedWell(defs, i, store, cache, Ask(defs, i, store, cache).value, tolerated)
    decreases i, 1, 0, 0
  {
    if i in cache {
      ClearIsRecord(defs, store, i, cache[i], tolerated);
    } else {
      var fuel: nat :| Run(defs, i, [], store, fuel).Some?;
      MeaningIsRun(defs, i, store, fuel);
      TurnsFollowRun(defs, i, [], store, cache, {}, map[], fuel, tolerated);
      AskIsTurns(defs, i, store, cache, fuel);
      var asked := Ask(defs, i, store, cache).value;
      assert Cells(defs, i, store) + {} == Cells(defs, i, store);
      RecordIsSound(defs, store, i, asked.entry, tolerated);
    }
  }

  /** When no late cell exists at all, the record is exactly the live cells that the
      whole nested evaluation reads, served or recomputed alike. */
  lemma StrictRecord(defs: seq<Definition>, i: nat, store: Store, cache: Cache)
    requires Total(defs) && CacheSound(defs, store, cache) && Serves(defs, store, cache, i, {})
    ensures Ask(defs, i, store, cache).Some?
    ensures Ask(defs, i, store, cache).value.entry.recorded == Cells(defs, i, store) * store.Keys
  {
    AskFollowsMeaning(defs, i, store, cache, {});
  }

  /** What a served entry answers when no stale value went into it: the meaning on the
      store without the cells it has missed.  So it is right exactly when those make no
      difference. */
  lemma ServedWithoutLateCells(defs: seq<Definition>, i: nat, store: Store, cache: Cache)
    requires Total(defs) && CacheSound(defs, store, cache) && i in cache
    ensures i < |defs| && Ask(defs, i, store, cache) == Some(Asked(cache[i], cache))
    ensures var late := Missed(defs, store, i, cache[i]) * store.Keys;
            && cache[i].value == Value(defs, i, store - late)
            && (cache[i].value == Value(defs, i, store) <==>
                  Value(defs, i, store - late) == Value(defs, i, store))
            && ((forall c :: c in late ==> store[c] == Null) ==> cache[i].value == Value(defs, i, store))
  {
    var seen, late := Restrict(store, cache[i].recorded), Missed(defs, store, i, cache[i]) * store.Keys;
    assert LookAlike(seen, store - late, Cells(defs, i, seen));
    MeaningDependsOnlyOnCells(defs, i, seen, store - late);
    if forall c :: c in late ==> store[c] == Null {
      assert LookAlike(seen, store, Cells(defs, i, seen));
      MeaningDependsOnlyOnCells(defs, i, seen, store);
    }
  }

  /** Dropping what a write touches keeps the rest sound. */
  lemma DirtyKeepsSound(defs: seq<Definition>, before: Store, after: Store, cache: Cache, cell: CellId)
    requires Total(defs) && CacheSound(defs, before, cache) && before - {cell} == after - {cell}
    ensures CacheSound(defs, after, Dirty(cache, cell))
    ensures forall i :: i in Dirty(cache, cell) ==>
              i < |defs| && Missed(defs, after, i, cache[i]) == Missed(defs, before, i, cache[i])
  {
    forall i | i in Dirty(cache, cell)
      ensures EntrySound(defs, after, i, cache[i])
      ensures Missed(defs, after, i, cache[i]) == Missed(defs, before, i, cache[i])
    {
      assert EntrySound(defs, before, i, cache[i]);
      forall c | c in cache[i].recorded ensures c in after && after[c] == before[c] {
        assert c in before - {cell} && (before - {cell})[c] == (after - {cell})[c];
      }
      assert Restrict(after, cache[i].recorded) == Restrict(before, cache[i].recorded);
    }
  }

  // ------------------------------------------------- a condition on the missed cells

  /** Everything that an entry has missed lies in `missing`. */
  ghost predicate MissedWithin(defs: seq<Definition>, store: Store, cache: Cache, missing: set<CellId>)
    requires Total(defs)
  {
    forall i :: i in cache ==> i < |defs| && Missed(defs, store, i, cache[i]) <= missing
  }

  ghost predicate AllNull(store: Store, cells: set<CellId>) {
    forall c :: c in cells ==> Lookup(store, c) == Null
  }

  lemma {:induction false} RunNestsDown(defs: seq<Definition>, i: nat, answers: seq<Avail>, store: Store, fuel: nat)
    requires Run(defs, i, answers, store, fuel).Some?
    ensures forall j :: j in Run(defs, i, answers, store, fuel).value.nested ==> j < i < |defs|
    decreases fuel
  {
    match defs[i].next(answers)
    case Return(_) =>
    case ReadCell(c) => RunNestsDown(defs, i, answers + [Present(Lookup(store, c))], store, fuel - 1);
    case ReadComputed(j) =>
      RunNestsDown(defs, i, answers + [Meaning(defs, j, store).value.value], store, fuel - 1);
  }

  lemma {:induction false} EverythingServes(
    defs: seq<Definition>, store: Store, cache: Cache, missing: set<CellId>, i: nat)
    requires Total(defs) && MissedWithin(defs, store, cache, missing) && AllNull(store, missing) && i < |defs|
    ensures Serves(defs, store, cache, i, missing)
    decreases i
  {
    if i !in cache {
      assert Meaning(defs, i, store).Some?;
      var fuel: nat :| Run(defs, i, [], store, fuel).Some?;
      MeaningIsRun(defs, i, store, fuel);
      RunNestsDown(defs, i, [], store, fuel);
      forall j | j in Nested(defs, i, store) ensures j < i && Serves(defs, store, cache, j, missing) {
        EverythingServes(defs, store, cache, missing, j);
      }
    }
  }

  /** A request adds to what is missed only cells that it found missing. */
  lemma AskMissesMore(defs: seq<Definition>, i: nat, store: Store, cache: Cache, missing: set<CellId>)
    requires Total(defs) && CacheSound(defs, store, cache) && i < |defs|
    requires MissedWithin(defs, store, cache, missing) && AllNull(store, missing)
    ensures Ask(defs, i, store, cache).Some?
    ensures MissedWithin(defs, store, Ask(defs, i, store, cache).value.cache,
                         missing + (Cells(defs, i, store) - store.Keys))
    ensures AllNull(store, missing + (Cells(defs, i, store) - store.Keys))
  {
    EverythingServes(defs, store, cache, missing, i);
    AskFollowsMeaning(defs, i, store, cache, missing);
  }

  lemma {:induction false} MoreTolerant(
    defs: seq<Definition>, store: Store, cache: Cache, i: nat, tolerated: set<CellId>)
    requires Total(defs) && Serves(defs, store, cache, i, tolerated)
    ensures Serves(defs, store, cache, i, store.Keys)
    decreases i
  {
    if i !in cache {
      forall j | j in Nested(defs, i, store) ensures j < i && Serves(defs, store, cache, j, store.Keys) {
        MoreTolerant(defs, store, cache, j, tolerated);
      }
    }
  }
}
