/** The reactive engine: cell revisions, root traces, the reverse-dependency and
    source indexes, and transaction-scoped collection.  Each method is proved to
    compute the corresponding function of EngineModel; validation is proved against
    the transitive reading of a trace. */
module EngineObject {
  import opened Wrappers
  import opened ReactiveTypes
  import opened EngineModel

  // ---------------------------------------- one loop step of the index updates

  function UnlistedOne(current: map<string, set<CellId>>, id: CellId): map<string, set<CellId>> {
    if id.source !in current then current
    else if current[id.source] - {id} == {} then current - {id.source}
    else current[id.source := current[id.source] - {id}]
  }

  lemma UnlistOne(sources: map<string, set<CellId>>, gone: set<CellId>, id: CellId)
    ensures Unlist(sources, gone + {id}) == UnlistedOne(Unlist(sources, gone), id)
  {
    var left, right := Unlist(sources, gone + {id}), UnlistedOne(Unlist(sources, gone), id);
    forall k | k in sources
      ensures k in left <==> k in right
      ensures k in left ==> left[k] == right[k]
    {
      if k != id.source {
        assert Under(gone + {id}, k) == Under(gone, k);
      } else {
        assert Under(gone + {id}, k) == Under(gone, k) + {id};
        assert sources[k] - (Under(gone, k) + {id}) == sources[k] - Under(gone, k) - {id};
      }
    }
    assert left.Keys == right.Keys;
  }

  lemma UnlistNone(sources: map<string, set<CellId>>, none: set<CellId>)
    requires none == {}
    ensures Unlist(sources, none) == sources
  {
    forall k | k in sources ensures Under(none, k) == {} && sources[k] - Under(none, k) == sources[k] {
    }
  }

  lemma LinkOne(reverse: map<CellId, set<string>>, root: string, done: set<CellId>, c: CellId)
    ensures
      var current := Link(reverse, root, done);
      Link(reverse, root, done + {c}) == current[c := (if c in current then current[c] else {}) + {root}]
  {
    var left, current := Link(reverse, root, done + {c}), Link(reverse, root, done);
    var right := current[c := (if c in current then current[c] else {}) + {root}];
    assert left.Keys == right.Keys;
    forall k | k in left ensures left[k] == right[k] {
      if k == c {
        assert left[k] == (if k in reverse then reverse[k] else {}) + {root};
        assert right[k] == (if k in reverse then reverse[k] else {}) + {root};
      }
    }
  }

  lemma LinkNone(reverse: map<CellId, set<string>>, root: string, none: set<CellId>)
    requires none == {}
    ensures Link(reverse, root, none) == reverse
  {
    var same := Link(reverse, root, none);
    assert same.Keys == reverse.Keys;
    forall k | k in reverse ensures same[k] == reverse[k] {
      assert reverse[k] + {} == reverse[k];
    }
  }

  function UnlinkedOne(current: map<CellId, set<string>>, root: string, c: CellId): map<CellId, set<string>> {
    if c !in current then current
    else if current[c] - {root} == {} then current - {c}
    else current[c := current[c] - {root}]
  }

  lemma UnlinkOne(reverse: map<CellId, set<string>>, root: string, done: set<CellId>, c: CellId)
    ensures Unlink(reverse, root, done + {c}) == UnlinkedOne(Unlink(reverse, root, done), root, c)
  {
    var left, right := Unlink(reverse, root, done + {c}), UnlinkedOne(Unlink(reverse, root, done), root, c);
    if c in reverse {
      assert reverse[c] - {root} - {root} == reverse[c] - {root};
    }
    assert left.Keys == right.Keys;
  }

  lemma OneMoreDep(deps: set<TraceEntry>, todo: set<TraceEntry>, e: TraceEntry)
    requires todo <= deps && e in todo
    ensures DepCells(deps - (todo - {e})) == DepCells(deps - todo) + {e.cell}
  {
    assert deps - (todo - {e}) == (deps - todo) + {e};
  }

  class Engine {
    var cells: map<CellId, CellEntry>
    var roots: map<string, Root>
    var reverse: map<CellId, set<string>>
    var sources: map<string, set<CellId>>
    var tx: nat
    ghost var subscribers: set<string>

    /** The trace digest; nothing is assumed about it, not even injectivity. */
    const digest: Trace -> string

    ghost function State(): EngineState
      reads this
    {
      EngineState(cells, roots, reverse, sources, tx, subscribers)
    }

    constructor (digest: Trace -> string)
      ensures State() == Initial && this.digest == digest
    {
      this.digest := digest;
      cells, roots, reverse, sources, tx, subscribers := map[], map[], map[], map[], 1, {};
    }

    method Begin()
      modifies this
      ensures State() == BeginTransaction(old(State()))
    {
      tx := tx + 1;
    }

    method Set(cell: CellId, revision: Revision)
      modifies this
      ensures State() == SetCell(old(State()), cell, revision)
    {
      cells := cells[cell := CellEntry(revision, tx)];
      var known := if cell.source in sources then sources[cell.source] else {};
      sources := sources[cell.source := known + {cell}];
    }

    method FindUnused() returns (unused: set<CellId>)
      ensures unused == Unused(State())
    {
      unused := {};
      var todo := cells.Keys;
      while todo != {}
        invariant todo <= cells.Keys
        invariant unused == set c | c in cells.Keys - todo && cells[c].lastUsed < tx
        decreases |todo|
      {
        var c :| c in todo;
        if cells[c].lastUsed < tx {
          unused := unused + {c};
        }
        todo := todo - {c};
      }
    }

    method CollectOne(c: CellId)
      modifies this`cells, this`sources
      ensures cells == old(cells) - {c}
      ensures sources == UnlistedOne(old(sources), c)
    {
      cells := cells - {c};
      if c.source in sources {
        var left := sources[c.source] - {c};
        sources := if left == {} then sources - {c.source} else sources[c.source := left];
      }
    }

    method CollectAll(doomed: set<CellId>)
      modifies this`cells, this`sources
      ensures cells == old(cells) - doomed
      ensures sources == Unlist(old(sources), doomed)
    {
      ghost var cells0, sources0 := cells, sources;
      var todo := doomed;
      UnlistNone(sources0, doomed - todo);
      while todo != {}
        invariant todo <= doomed
        invariant cells == cells0 - (doomed - todo)
        invariant sources == Unlist(sources0, doomed - todo)
        decreases |todo|
      {
        var c :| c in todo;
        UnlistOne(sources0, doomed - todo, c);
        CollectOne(c);
        assert doomed - (todo - {c}) == (doomed - todo) + {c};
        todo := todo - {c};
      }
      assert doomed - todo == doomed;
    }

    /** Collect the cells that were not used in the current transaction. */
    method End()
      modifies this
      ensures State() == EndTransaction(old(State()))
    {
      var toRemove := FindUnused();
      CollectAll(toRemove);
    }

    /** Drop the given cells and collect the roots listed under them. */
    method DropAll(doomed: set<CellId>) returns (affected: set<string>)
      modifies this`cells
      ensures cells == old(cells) - doomed
      ensures affected == set c, r | c in doomed && c in reverse && r in reverse[c] :: r
    {
      affected := {};
      var todo := doomed;
      while todo != {}
        invariant todo <= doomed
        invariant cells == old(cells) - (doomed - todo)
        invariant affected == set c, r | c in doomed - todo && c in reverse && r in reverse[c] :: r
        decreases |todo|
      {
        var c :| c in todo;
        todo := todo - {c};
        cells := cells - {c};
        if c in reverse {
          affected := affected + reverse[c];
        }
      }
    }

    /** Invalidate one cell, or with an empty pointer every cell of an indexed
        source, and report the roots listed under the dropped cells. */
    method Invalidate(cell: CellId) returns (affected: set<string>)
      modifies this
      ensures State() == InvalidateCell(old(State()), cell)
      ensures affected == AffectedRoots(old(State()), cell)
    {
      if cell.pointer == "" && cell.source in sources {
        var doomed := sources[cell.source];
        sources := sources - {cell.source};
        affected := DropAll(doomed);
      } else {
        cells := cells - {cell};
        affected := if cell in reverse then reverse[cell] else {};
        assert cell.pointer == "" ==> sources == sources - {cell.source};
      }
    }

    /** Take `id` out of the reverse index for every dependency of an old trace. */
    method UnlinkAll(id: string, deps: set<TraceEntry>)
      modifies this`reverse
      ensures reverse == Unlink(old(reverse), id, DepCells(deps))
    {
      ghost var before := reverse;
      var todo := deps;
      assert reverse == Unlink(before, id, DepCells({}));
      while todo != {}
        invariant todo <= deps
        invariant reverse == Unlink(before, id, DepCells(deps - todo))
        decreases |todo|
      {
        var e :| e in todo;
        UnlinkOne(before, id, DepCells(deps - todo), e.cell);
        OneMoreDep(deps, todo, e);
        todo := todo - {e};
        if e.cell in reverse {
          var left := reverse[e.cell] - {id};
          reverse := if left == {} then reverse - {e.cell} else reverse[e.cell := left];
        }
      }
      assert deps - todo == deps;
    }

    method LinkAll(id: string, deps: set<TraceEntry>)
      modifies this`reverse
      ensures reverse == Link(old(reverse), id, DepCells(deps))
    {
      ghost var before := reverse;
      var todo := deps;
      LinkNone(before, id, DepCells(deps - todo));
      while todo != {}
        invariant todo <= deps
        invariant reverse == Link(before, id, DepCells(deps - todo))
        decreases |todo|
      {
        var e :| e in todo;
        OneMoreDep(deps, todo, e);
        LinkOne(before, id, DepCells(deps - todo), e.cell);
        todo := todo - {e};
        reverse := reverse[e.cell := (if e.cell in reverse then reverse[e.cell] else {}) + {id}];
      }
      assert deps - todo == deps;
    }

    method Remove(id: string)
      modifies this
      ensures State() == RemoveRoot(old(State()), id)
    {
      if id in roots {
        var root := roots[id];
        roots := roots - {id};
        subscribers := subscribers - {id};
        UnlinkAll(id, root.trace.deps);
      }
    }

    method MarkAll(deps: set<TraceEntry>)
      modifies this`cells
      ensures cells == MarkUsed(old(State()), DepCells(deps))
    {
      ghost var before := State();
      var todo := deps;
      while todo != {}
        invariant todo <= deps
        invariant cells == MarkUsed(before, DepCells(deps - todo))
        decreases |todo|
      {
        var e :| e in todo;
        OneMoreDep(deps, todo, e);
        todo := todo - {e};
        if e.cell in cells {
          cells := cells[e.cell := cells[e.cell].(lastUsed := tx)];
        }
      }
      assert deps - todo == deps;
    }

    method Register(id: string, trace: Trace, subscriber: bool)
      modifies this
      ensures State() == RegisterRoot(old(State()), id, trace, digest(trace), subscriber)
    {
      MarkAll(trace.deps);
      if id in roots {
        UnlinkAll(id, roots[id].trace.deps);
      }
      if subscriber {
        LinkAll(id, trace.deps);
      }
      subscribers := if subscriber then subscribers + {id} else subscribers - {id};
      roots := roots[id := Root(trace, digest(trace))];
      Set(RootCell(id), Disk(digest(trace)));
    }

    // ------------------------------------------------------------ validation

    /** The current revision of a cell, or nothing when the cell is missing or names
        a root whose own trace no longer holds.  Only `lastUsed` marks change. */
    method GetRevision(cell: CellId, ghost rank: string -> nat) returns (revision: Option<Revision>)
      requires Ranked(roots, rank)
      modifies this`cells
      ensures revision == CurrentRevision(old(State()), cell)
      ensures MarkedWithin(old(cells), cells, LookedAt(roots, cell))
      ensures OnlyMarked(old(cells), cells, tx)
      ensures revision.Some? ==> cell in cells && cells[cell].lastUsed == tx
      ensures revision.Some? && IsRoot(roots, cell) ==> AllUsed(State(), roots[cell.source].trace.deps)
      decreases Height(roots, rank, cell), 1
    {
      ghost var before := State();
      if cell.pointer == "" && cell.source in roots {
        var holds := Validate(roots[cell.source].trace.deps, rank, rank(cell.source) + 1);
        if !holds {
          return None;
        }
      }
      if cell in cells {
        ghost var middle := State();
        cells := cells[cell := cells[cell].(lastUsed := tx)];
        if IsRoot(roots, cell) {
          UseIsMonotone(middle, State(), roots[cell.source].trace.deps);
        }
        return Some(cells[cell].revision);
      }
      return None;
    }

    /** Is one dependency still as recorded?  The answer is the one for the state
        before validation began, whatever has been marked since. */
    method CheckOne(e: TraceEntry, ghost rank: string -> nat, ghost before: EngineState) returns (same: bool)
      requires Ranked(roots, rank)
      requires State() == before.(cells := cells) && OnlyMarked(before.cells, cells, tx)
      modifies this`cells
      ensures same == (CurrentRevision(before, e.cell) == Some(e.revision))
      ensures MarkedWithin(old(cells), cells, LookedAt(roots, e.cell))
      ensures OnlyMarked(before.cells, cells, tx) && OnlyMarked(old(cells), cells, tx)
      ensures same ==> e.cell in cells && tx <= cells[e.cell].lastUsed
      ensures same && IsRoot(roots, e.cell) ==> AllUsed(State(), roots[e.cell.source].trace.deps)
      decreases Height(roots, rank, e.cell), 2
    {
      MarksKeepRevision(before, State(), e.cell);
      var current := GetRevision(e.cell, rank);
      return current.Some? && current.value == e.revision;
    }

    /** Does the trace still hold?  Exactly when every cell it records, directly or
        through other roots, is present at its recorded revision; and then all of
        them count as used. */
    method Validate(deps: set<TraceEntry>, ghost rank: string -> nat, ghost bound: nat) returns (holds: bool)
      requires Ranked(roots, rank)
      requires forall e :: e in deps ==> Height(roots, rank, e.cell) < bound
      modifies this`cells
      ensures holds == AllMatch(old(State()), deps)
      ensures MarkedWithin(old(cells), cells, RecordedCells(roots, deps))
      ensures OnlyMarked(old(cells), cells, tx)
      ensures holds ==> AllUsed(State(), deps)
      decreases bound, 0
    {
      ghost var before := State();
      var todo := deps;
      NothingToCheck(before);
      assert deps - todo == {};
      while todo != {}
        invariant todo <= deps
        invariant OnlyMarked(before.cells, cells, tx)
        invariant MarkedWithin(before.cells, cells, RecordedCells(roots, deps))
        invariant AllMatch(before, deps - todo)
        invariant AllUsed(State(), deps - todo)
        decreases |todo|
      {
        var e :| e in todo;
        ghost var middle := State();
        LookedAtIsRecorded(roots, deps, e);
        var same := CheckOne(e, rank, before);
        if !same {
          MismatchFails(before, deps, e);
          return false;
        }
        OneMoreHolds(before, middle, State(), deps - todo, e);
        assert deps - (todo - {e}) == (deps - todo) + {e};
        todo := todo - {e};
      }
      assert deps - todo == deps;
      return true;
    }

    /** A client's cached root is still good when the digest is the latest and the
        trace holds. */
    method ValidateRoot(id: string, clientDigest: string, ghost rank: string -> nat) returns (holds: bool)
      requires Ranked(roots, rank)
      modifies this`cells
      ensures holds <==> id in roots && roots[id].digest == clientDigest && AllMatch(old(State()), roots[id].trace.deps)
      ensures id in roots ==> MarkedWithin(old(cells), cells, RecordedCells(roots, roots[id].trace.deps))
      ensures !holds && !(id in roots && roots[id].digest == clientDigest) ==> cells == old(cells)
      ensures OnlyMarked(old(cells), cells, tx)
      ensures holds ==> AllUsed(State(), roots[id].trace.deps)
    {
      if id in roots && roots[id].digest == clientDigest {
        holds := Validate(roots[id].trace.deps, rank, rank(id) + 1);
        return;
      }
      return false;
    }
  }

  lemma NothingToCheck(s: EngineState)
    ensures AllMatch(s, {}) && AllUsed(s, {})
  {
    forall e | Records(s.roots, {}, e) ensures false {
      var d := RecordsSplit(s.roots, {}, e);
    }
  }

  lemma MismatchFails(s: EngineState, deps: set<TraceEntry>, e: TraceEntry)
    requires e in deps && CurrentRevision(s, e.cell) != Some(e.revision)
    ensures !AllMatch(s, deps)
  {
    AllMatchByDirect(s, deps);
  }

  lemma MatchOfOneMore(s: EngineState, deps: set<TraceEntry>, e: TraceEntry)
    requires AllMatch(s, deps) && CurrentRevision(s, e.cell) == Some(e.revision)
    ensures AllMatch(s, deps + {e})
  {
    AllMatchByDirect(s, deps);
    AllMatchByDirect(s, deps + {e});
  }

  /** Raising marks never changes what validation answers. */
  lemma MarksKeepRevision(before: EngineState, after: EngineState, cell: CellId)
    requires after == before.(cells := after.cells) && OnlyMarked(before.cells, after.cells, before.tx)
    ensures CurrentRevision(after, cell) == CurrentRevision(before, cell)
  {
    if IsRoot(before.roots, cell) {
      var deps := before.roots[cell.source].trace.deps;
      assert AllMatch(after, deps) == AllMatch(before, deps) by {
        forall e ensures Matches(after.cells, e) == Matches(before.cells, e) {
        }
      }
    }
  }

  lemma UseIsMonotone(before: EngineState, after: EngineState, deps: set<TraceEntry>)
    requires after == before.(cells := after.cells) && OnlyMarked(before.cells, after.cells, before.tx)
    requires AllUsed(before, deps)
    ensures AllUsed(after, deps)
  {
    forall e | Records(after.roots, deps, e)
      ensures e.cell in after.cells && after.tx <= after.cells[e.cell].lastUsed
    {
      assert Records(before.roots, deps, e);
    }
  }

  lemma UseOfOneMore(s: EngineState, deps: set<TraceEntry>, e: TraceEntry)
    requires AllUsed(s, deps)
    requires e.cell in s.cells && s.tx <= s.cells[e.cell].lastUsed
    requires IsRoot(s.roots, e.cell) ==> AllUsed(s, s.roots[e.cell.source].trace.deps)
    ensures AllUsed(s, deps + {e})
  {
    forall f | Records(s.roots, deps + {e}, f)
      ensures f.cell in s.cells && s.tx <= s.cells[f.cell].lastUsed
    {
      var d := RecordsSplit(s.roots, deps + {e}, f);
      if d in deps {
        RecordsDirect(s.roots, deps, d);
        if d != f {
          RecordsThrough(s.roots, deps, d, f);
        }
      }
    }
  }

  /** One more dependency has been checked: the match is against the state before
      validation, the marks are those of now. */
  lemma OneMoreHolds(before: EngineState, middle: EngineState, after: EngineState, deps: set<TraceEntry>, e: TraceEntry)
    requires AllMatch(before, deps) && CurrentRevision(before, e.cell) == Some(e.revision)
    requires after == middle.(cells := after.cells) && OnlyMarked(middle.cells, after.cells, middle.tx)
    requires AllUsed(middle, deps)
    requires e.cell in after.cells && after.tx <= after.cells[e.cell].lastUsed
    requires IsRoot(after.roots, e.cell) ==> AllUsed(after, after.roots[e.cell.source].trace.deps)
    ensures AllMatch(before, deps + {e}) && AllUsed(after, deps + {e})
  {
    MatchOfOneMore(before, deps, e);
    UseIsMonotone(middle, after, deps);
    UseOfOneMore(after, deps, e);
  }
}
