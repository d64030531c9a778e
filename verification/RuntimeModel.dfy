/** The memoising runtime's state as a value, the invariant that ties its engine, traces
    and memory to the simple cache machine, and why each kind of step keeps it. */
module RuntimeModel {
  import opened ReactiveTypes
  import opened EngineModel
  import opened Computation
  import opened CacheMachine

  /** What a computed value remembers between reads. */
  datatype Memo = Memo(digest: string, value: Avail)

  /** `cache` is the state of the simple machine: the remembered values that still hold,
      with the cells recorded for them. */
  datatype RuntimeState = RuntimeState(
    engine: EngineState,
    store: Store,
    counter: nat,
    memo: map<nat, Memo>,
    cache: Cache)

  ghost function Ids(defs: seq<Definition>): set<string> {
    set i | 0 <= i < |defs| :: defs[i].id
  }

  /** Computed ids are distinct from one another and from every cell the closures
      read, and closures only read earlier computed values. */
  ghost predicate WellFormed(defs: seq<Definition>) {
    && Acyclic(defs)
    && (forall i, j :: 0 <= i < j < |defs| ==> defs[i].id != defs[j].id)
    && (forall i: nat, answers: seq<Avail> ::
          i < |defs| && defs[i].next(answers).ReadCell? ==> defs[i].next(answers).cell.source !in Ids(defs))
  }

  // ------------------------------------------------------------------- traces

  /** The live cells among `cells`, stamped with their revisions. */
  ghost function Stamped(cells: set<CellId>, revisions: map<CellId, Revision>): set<TraceEntry> {
    set c | c in cells && c in revisions :: TraceEntry(c, revisions[c])
  }

  lemma StampedUnion(a: set<CellId>, b: set<CellId>, revisions: map<CellId, Revision>)
    ensures Stamped(a + b, revisions) == Stamped(a, revisions) + Stamped(b, revisions)
  {
  }

  /** Recording on the stack of active traces goes to the innermost one, if any. */
  function Recorded(traces: seq<Trace>, deps: set<TraceEntry>): seq<Trace> {
    if traces == [] then []
    else
      var top := traces[|traces| - 1];
      traces[..|traces| - 1] + [top.(deps := top.deps + deps)]
  }

  lemma RecordedOnTop(below: seq<Trace>, a: set<CellId>, b: set<CellId>, revisions: map<CellId, Revision>)
    ensures Recorded(below + [Trace(Stamped(a, revisions), [])], Stamped(b, revisions)) ==
            below + [Trace(Stamped(a + b, revisions), [])]
  {
    StampedUnion(a, b, revisions);
  }

  ghost function Revisions(s: RuntimeState): map<CellId, Revision> {
    map c | c in s.store && c in s.engine.cells :: s.engine.cells[c].revision
  }

  // ---------------------------------------------------------------- invariant

  /** Each live cell carries the revision of its last write. */
  ghost predicate CellsValid(s: RuntimeState, ids: set<string>, epoch: nat) {
    && (forall c :: c in s.store ==>
          && c == RootCell(c.source) && c.source !in ids
          && c in s.engine.cells
          && Issued(s.engine.cells[c].revision, epoch, s.counter))
    && (forall c :: c in s.engine.cells ==>
          (c in s.store || c.source in ids) && c == RootCell(c.source) && c.source in s.engine.sources)
    && (forall k :: k in s.engine.sources ==> s.engine.sources[k] == {RootCell(k)})
  }

  /** A revision that has been given out; no later write gets it again. */
  predicate Issued(revision: Revision, epoch: nat, counter: nat) {
    revision.Memory? && revision.epoch == epoch && revision.counter <= counter
  }

  /** Runtime traces are flat: they never record a computed value. */
  ghost predicate RootsFlat(roots: map<string, Root>, ids: set<string>) {
    && (forall r :: r in roots ==> r in ids)
    && (forall r, e :: r in roots && e in roots[r].trace.deps ==> e.cell.source !in ids)
  }

  /** Some dependency has moved on. */
  ghost predicate Moved(cells: map<CellId, CellEntry>, deps: set<TraceEntry>) {
    exists e :: e in deps && !Matches(cells, e)
  }

  /** A remembered value is in the machine's cache exactly when its trace still matches,
      and then the trace is the current stamp of the recorded cells. */
  ghost predicate MemoValid(s: RuntimeState, defs: seq<Definition>, epoch: nat, i: nat) {
    && i < |defs| && i in s.memo
    && defs[i].id in s.engine.roots
    && s.engine.roots[defs[i].id].digest == s.memo[i].digest
    && (forall e :: e in s.engine.roots[defs[i].id].trace.deps ==> Issued(e.revision, epoch, s.counter))
    && (i in s.cache ==>
          && s.memo[i].value == s.cache[i].value
          && s.cache[i].recorded <= s.store.Keys
          && s.engine.roots[defs[i].id].trace.deps == Stamped(s.cache[i].recorded, Revisions(s)))
    && (i !in s.cache ==> Moved(s.engine.cells, s.engine.roots[defs[i].id].trace.deps))
  }

  ghost predicate MemosValid(s: RuntimeState, defs: seq<Definition>, epoch: nat) {
    && s.cache.Keys <= s.memo.Keys
    && forall i :: i in s.memo ==> MemoValid(s, defs, epoch, i)
  }

  ghost predicate Inv(s: RuntimeState, defs: seq<Definition>, epoch: nat) {
    && WellFormed(defs)
    && CellsValid(s, Ids(defs), epoch)
    && RootsFlat(s.engine.roots, Ids(defs))
    && MemosValid(s, defs, epoch)
  }

  /** The invariant kept folded: the quantifiers inside become available only where a
      proof mentions `Unfold`. */
  ghost predicate Unfold(k: nat) {
    true
  }

  ghost predicate Sealed(s: RuntimeState, defs: seq<Definition>, epoch: nat) {
    forall k :: Unfold(k) ==> Inv(s, defs, epoch)
  }

  lemma Open(s: RuntimeState, defs: seq<Definition>, epoch: nat)
    requires Sealed(s, defs, epoch)
    ensures Inv(s, defs, epoch)
  {
    assert Unfold(0);
  }

  // ------------------------------------------------------------- writes and removals

  /** What a write or a removal of `cell` does to memory: entries that recorded the cell
      leave the cache, because their trace has a dependency that moved. */
  lemma MemoAfterTouch(s: RuntimeState, t: RuntimeState, cell: CellId, defs: seq<Definition>, epoch: nat, i: nat)
    requires CellsValid(s, Ids(defs), epoch) && MemoValid(s, defs, epoch, i)
    requires t.memo == s.memo && t.engine.roots == s.engine.roots && t.cache == Dirty(s.cache, cell)
    requires s.counter <= t.counter && t.store - {cell} == s.store - {cell}
    requires forall c :: c in s.engine.cells && c != cell ==>
               c in t.engine.cells && t.engine.cells[c].revision == s.engine.cells[c].revision
    requires forall c :: c in t.engine.cells && c != cell ==> c in s.engine.cells
    requires cell in t.engine.cells ==> !Issued(t.engine.cells[cell].revision, epoch, s.counter)
    ensures MemoValid(t, defs, epoch, i)
  {
    var deps := s.engine.roots[defs[i].id].trace.deps;
    if i !in s.cache {
      var e :| e in deps && !Matches(s.engine.cells, e);
      assert !Matches(t.engine.cells, e);
    } else if i !in t.cache {
      assert cell in s.store;
      var e := TraceEntry(cell, Revisions(s)[cell]);
      assert e in deps && !Matches(t.engine.cells, e);
    } else {
      var recorded := s.cache[i].recorded;
      forall c | c in recorded ensures c in t.store && c in Revisions(t) && Revisions(t)[c] == Revisions(s)[c] {
        assert c in s.store - {cell};
      }
      assert Stamped(recorded, Revisions(t)) == Stamped(recorded, Revisions(s));
    }
  }

  lemma MemosAfterTouch(s: RuntimeState, t: RuntimeState, cell: CellId, defs: seq<Definition>, epoch: nat)
    requires CellsValid(s, Ids(defs), epoch) && MemosValid(s, defs, epoch)
    requires t.memo == s.memo && t.engine.roots == s.engine.roots && t.cache == Dirty(s.cache, cell)
    requires s.counter <= t.counter && t.store - {cell} == s.store - {cell}
    requires forall c :: c in s.engine.cells && c != cell ==>
               c in t.engine.cells && t.engine.cells[c].revision == s.engine.cells[c].revision
    requires forall c :: c in t.engine.cells && c != cell ==> c in s.engine.cells
    requires cell in t.engine.cells ==> !Issued(t.engine.cells[cell].revision, epoch, s.counter)
    ensures MemosValid(t, defs, epoch)
  {
    forall i | i in t.memo ensures MemoValid(t, defs, epoch, i) {
      MemoAfterTouch(s, t, cell, defs, epoch, i);
    }
  }

  function Put(s: RuntimeState, cell: CellId, value: Json, epoch: nat): RuntimeState {
    s.(store := s.store[cell := value],
       counter := s.counter + 1,
       cache := Dirty(s.cache, cell),
       engine := SetCell(s.engine, cell, Memory(epoch, s.counter + 1)))
  }

  lemma PutKeepsCells(s: RuntimeState, cell: CellId, value: Json, ids: set<string>, epoch: nat)
    requires CellsValid(s, ids, epoch) && cell == RootCell(cell.source) && cell.source !in ids
    ensures CellsValid(Put(s, cell, value, epoch), ids, epoch)
  {
    var t := Put(s, cell, value, epoch);
    forall c | c in t.store && c != cell ensures c in t.engine.cells && t.engine.cells[c] == s.engine.cells[c] {
      assert c in s.store;
    }
  }

  lemma PutKeepsInv(s: RuntimeState, cell: CellId, value: Json, defs: seq<Definition>, epoch: nat)
    requires WellFormed(defs) && Sealed(s, defs, epoch) && cell == RootCell(cell.source) && cell.source !in Ids(defs)
    ensures Sealed(Put(s, cell, value, epoch), defs, epoch)
  {
    Open(s, defs, epoch);
    PutKeepsCells(s, cell, value, Ids(defs), epoch);
    MemosAfterTouch(s, Put(s, cell, value, epoch), cell, defs, epoch);
  }

  lemma PutRevisions(s: RuntimeState, cell: CellId, value: Json, epoch: nat)
    ensures Revisions(Put(s, cell, value, epoch)) == Revisions(s)[cell := Memory(epoch, s.counter + 1)]
  {
  }

  function RemoveCell(s: RuntimeState, cell: CellId): RuntimeState {
    s.(store := s.store - {cell}, cache := Dirty(s.cache, cell), engine := InvalidateCell(s.engine, cell))
  }

  lemma RemoveKeepsCells(s: RuntimeState, cell: CellId, ids: set<string>, epoch: nat)
    requires CellsValid(s, ids, epoch)
    ensures CellsValid(RemoveCell(s, cell), ids, epoch)
    ensures RemoveCell(s, cell).engine.cells == s.engine.cells - {cell}
  {
    var t := RemoveCell(s, cell);
    assert Invalidated(s.engine, cell) == {cell} by {
      if cell.pointer == "" && cell.source in s.engine.sources {
        assert s.engine.sources[cell.source] == {RootCell(cell.source)};
      }
    }
    forall c | c in t.engine.cells
      ensures c in s.engine.cells && t.engine.cells[c] == s.engine.cells[c] && c != cell && c.source in t.engine.sources
    {
    }
  }

  lemma RemoveRevisions(s: RuntimeState, cell: CellId, ids: set<string>, epoch: nat)
    requires CellsValid(s, ids, epoch)
    ensures Revisions(RemoveCell(s, cell)) == Revisions(s) - {cell}
  {
    RemoveKeepsCells(s, cell, ids, epoch);
  }

  lemma RemoveKeepsInv(s: RuntimeState, cell: CellId, defs: seq<Definition>, epoch: nat)
    requires WellFormed(defs) && Sealed(s, defs, epoch)
    ensures Sealed(RemoveCell(s, cell), defs, epoch)
    ensures Revisions(RemoveCell(s, cell)) == Revisions(s) - {cell}
  {
    Open(s, defs, epoch);
    RemoveKeepsCells(s, cell, Ids(defs), epoch);
    RemoveRevisions(s, cell, Ids(defs), epoch);
    MemosAfterTouch(s, RemoveCell(s, cell), cell, defs, epoch);
  }

  // ------------------------------------------------------------------------- marks

  /** Validation only raises marks. */
  lemma MarkKeepsInv(s: RuntimeState, t: RuntimeState, defs: seq<Definition>, epoch: nat)
    requires WellFormed(defs) && Sealed(s, defs, epoch)
    requires t == s.(engine := s.engine.(cells := t.engine.cells))
    requires OnlyMarked(s.engine.cells, t.engine.cells, s.engine.tx)
    ensures Sealed(t, defs, epoch)
    ensures Revisions(t) == Revisions(s)
  {
    Open(s, defs, epoch);
    MarkedMemos(s, t, defs, epoch);
  }

  lemma MarkedMemos(s: RuntimeState, t: RuntimeState, defs: seq<Definition>, epoch: nat)
    requires MemosValid(s, defs, epoch)
    requires t == s.(engine := s.engine.(cells := t.engine.cells))
    requires OnlyMarked(s.engine.cells, t.engine.cells, s.engine.tx)
    ensures Revisions(t) == Revisions(s) && MemosValid(t, defs, epoch)
  {
    forall e ensures Matches(t.engine.cells, e) == Matches(s.engine.cells, e) {
    }
    assert Revisions(t) == Revisions(s);
    forall i | i in t.memo ensures MemoValid(t, defs, epoch, i) {
      assert MemoValid(s, defs, epoch, i);
      if i !in s.cache {
        var e :| e in s.engine.roots[defs[i].id].trace.deps && !Matches(s.engine.cells, e);
        assert !Matches(t.engine.cells, e);
      }
    }
  }

  /** A flat root table is acyclic, whatever the ranking. */
  lemma FlatIsRanked(roots: map<string, Root>, ids: set<string>)
    requires RootsFlat(roots, ids)
    ensures Ranked(roots, (_: string) => 0)
  {
  }

  // ----------------------------------------------------------- remembering, dropping

  function Remember(s: RuntimeState, id: string, i: nat, trace: Trace, digest: string, e: Entry): RuntimeState {
    s.(engine := RegisterRoot(s.engine, id, trace, digest, false),
       memo := s.memo[i := Memo(digest, e.value)],
       cache := s.cache[i := e])
  }

  /** What registering a root does to cells, as far as readers can tell. */
  lemma RegisterEffect(e: EngineState, id: string, trace: Trace, digest: string)
    ensures
      var t := RegisterRoot(e, id, trace, digest, false);
      && t.roots == e.roots[id := Root(trace, digest)]
      && t.cells.Keys == e.cells.Keys + {RootCell(id)}
      && (forall c :: c in e.cells && c != RootCell(id) ==> t.cells[c].revision == e.cells[c].revision)
      && t.sources == e.sources[id := (if id in e.sources then e.sources[id] else {}) + {RootCell(id)}]
  {
  }

  lemma RegisteredKeepsCells(s: RuntimeState, t: RuntimeState, id: string, ids: set<string>, epoch: nat)
    requires CellsValid(s, ids, epoch) && id in ids
    requires t.store == s.store && t.counter == s.counter
    requires t.engine.cells.Keys == s.engine.cells.Keys + {RootCell(id)}
    requires forall c :: c in s.engine.cells && c != RootCell(id) ==>
               t.engine.cells[c].revision == s.engine.cells[c].revision
    requires t.engine.sources ==
             s.engine.sources[id := (if id in s.engine.sources then s.engine.sources[id] else {}) + {RootCell(id)}]
    ensures CellsValid(t, ids, epoch)
    ensures Revisions(t) == Revisions(s)
  {
    forall c | c in s.store ensures c in t.engine.cells && t.engine.cells[c].revision == s.engine.cells[c].revision {
      assert c.source !in ids;
    }
    assert Revisions(t) == Revisions(s);
  }

  lemma StampIsIssued(s: RuntimeState, cells: set<CellId>, ids: set<string>, epoch: nat)
    requires CellsValid(s, ids, epoch)
    ensures forall e :: e in Stamped(cells, Revisions(s)) ==>
              Issued(e.revision, epoch, s.counter) && e.cell.source !in ids
  {
  }

  /** A stale value stays stale when another root is registered. */
  lemma StaleStaysStale(s: RuntimeState, t: RuntimeState, deps: set<TraceEntry>, id: string, ids: set<string>)
    requires Moved(s.engine.cells, deps) && id in ids && forall e :: e in deps ==> e.cell.source !in ids
    requires t.engine.cells.Keys == s.engine.cells.Keys + {RootCell(id)}
    requires forall c :: c in s.engine.cells && c != RootCell(id) ==>
               t.engine.cells[c].revision == s.engine.cells[c].revision
    ensures Moved(t.engine.cells, deps)
  {
    var e :| e in deps && !Matches(s.engine.cells, e);
    assert !Matches(t.engine.cells, e);
  }

  lemma RememberKeepsMemos(s: RuntimeState, t: RuntimeState, i: nat, trace: Trace, digest: string, e: Entry,
                           defs: seq<Definition>, epoch: nat)
    requires WellFormed(defs) && MemosValid(s, defs, epoch) && i < |defs| && RootsFlat(s.engine.roots, Ids(defs))
    requires trace.deps == Stamped(e.recorded, Revisions(s)) && e.recorded <= s.store.Keys
    requires forall d :: d in trace.deps ==> Issued(d.revision, epoch, s.counter)
    requires t.memo == s.memo[i := Memo(digest, e.value)] && t.cache == s.cache[i := e]
    requires t.engine.roots == s.engine.roots[defs[i].id := Root(trace, digest)]
    requires t.store == s.store && t.counter == s.counter && Revisions(t) == Revisions(s)
    requires t.engine.cells.Keys == s.engine.cells.Keys + {RootCell(defs[i].id)}
    requires forall c :: c in s.engine.cells && c != RootCell(defs[i].id) ==>
               t.engine.cells[c].revision == s.engine.cells[c].revision
    ensures MemosValid(t, defs, epoch)
  {
    forall k | k in t.memo ensures MemoValid(t, defs, epoch, k) {
      if k != i {
        assert MemoValid(s, defs, epoch, k);
        assert defs[k].id != defs[i].id;
        if k !in s.cache {
          StaleStaysStale(s, t, s.engine.roots[defs[k].id].trace.deps, defs[i].id, Ids(defs));
        }
      }
    }
  }

  lemma RememberKeepsInv(
    s: RuntimeState, i: nat, trace: Trace, digest: string, e: Entry, defs: seq<Definition>, epoch: nat)
    requires WellFormed(defs) && Sealed(s, defs, epoch) && i < |defs|
    requires trace.deps == Stamped(e.recorded, Revisions(s)) && e.recorded <= s.store.Keys
    ensures var t := Remember(s, defs[i].id, i, trace, digest, e);
            Sealed(t, defs, epoch) && Revisions(t) == Revisions(s)
  {
    Open(s, defs, epoch);
    var id := defs[i].id;
    var t := Remember(s, id, i, trace, digest, e);
    assert id in Ids(defs);
    RegisterEffect(s.engine, id, trace, digest);
    RegisteredKeepsCells(s, t, id, Ids(defs), epoch);
    StampIsIssued(s, e.recorded, Ids(defs), epoch);
    RememberKeepsMemos(s, t, i, trace, digest, e, defs, epoch);
  }

  function Drop(s: RuntimeState, id: string, i: nat): RuntimeState {
    s.(engine := RemoveRoot(s.engine, id), memo := s.memo - {i}, cache := s.cache - {i})
  }

  lemma DropKeepsMemos(s: RuntimeState, i: nat, defs: seq<Definition>, epoch: nat)
    requires WellFormed(defs) && MemosValid(s, defs, epoch) && i < |defs|
    ensures MemosValid(Drop(s, defs[i].id, i), defs, epoch)
  {
    var t := Drop(s, defs[i].id, i);
    assert t.engine.cells == s.engine.cells;
    forall k | k in t.memo ensures MemoValid(t, defs, epoch, k) {
      assert MemoValid(s, defs, epoch, k);
      assert defs[k].id != defs[i].id;
      assert Revisions(t) == Revisions(s);
    }
  }

  lemma DropKeepsInv(s: RuntimeState, i: nat, defs: seq<Definition>, epoch: nat)
    requires WellFormed(defs) && Sealed(s, defs, epoch) && i < |defs|
    ensures Sealed(Drop(s, defs[i].id, i), defs, epoch)
    ensures Revisions(Drop(s, defs[i].id, i)) == Revisions(s)
  {
    Open(s, defs, epoch);
    var t := Drop(s, defs[i].id, i);
    assert t.engine.cells == s.engine.cells && t.engine.sources == s.engine.sources;
    DropKeepsMemos(s, i, defs, epoch);
  }

  // ------------------------------------------------------------------- cache hits

  /** Every direct dependency of a remembered value matches exactly when the machine
      still has its entry. */
  lemma HitIffCached(s: RuntimeState, i: nat, defs: seq<Definition>, epoch: nat)
    requires WellFormed(defs) && Sealed(s, defs, epoch) && i in s.memo
    ensures i < |defs| && defs[i].id in s.engine.roots
    ensures s.engine.roots[defs[i].id].digest == s.memo[i].digest
    ensures i in s.cache <==> AllMatch(s.engine, s.engine.roots[defs[i].id].trace.deps)
    ensures i in s.cache ==>
              && s.memo[i].value == s.cache[i].value
              && s.engine.roots[defs[i].id].trace.deps == Stamped(s.cache[i].recorded, Revisions(s))
  {
    Open(s, defs, epoch);
    assert MemoValid(s, defs, epoch, i);
    var deps := s.engine.roots[defs[i].id].trace.deps;
    FlatTraceMatches(s.engine, deps, Ids(defs));
    if i !in s.cache {
      var e :| e in deps && !Matches(s.engine.cells, e);
    }
  }

  lemma FlatTraceMatches(s: EngineState, deps: set<TraceEntry>, ids: set<string>)
    requires RootsFlat(s.roots, ids) && forall e :: e in deps ==> e.cell.source !in ids
    ensures AllMatch(s, deps) <==> forall e :: e in deps ==> Matches(s.cells, e)
  {
    AllMatchByDirect(s, deps);
  }

  lemma CacheIsLive(s: RuntimeState, defs: seq<Definition>, epoch: nat)
    requires Sealed(s, defs, epoch)
    ensures LiveRecords(s.store, s.cache)
  {
    Open(s, defs, epoch);
    forall i | i in s.cache ensures s.cache[i].recorded <= s.store.Keys {
      assert MemoValid(s, defs, epoch, i);
    }
  }

  lemma NotRemembered(s: RuntimeState, i: nat, defs: seq<Definition>, epoch: nat)
    requires WellFormed(defs) && Sealed(s, defs, epoch) && i !in s.memo
    ensures i !in s.cache
  {
    Open(s, defs, epoch);
  }
}
