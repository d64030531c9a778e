/** The memoising runtime over the engine: cells, computed values and the stack of
    active traces.  The contract of `Read` is that all of it behaves like the simple
    cache machine: the answer, what stays remembered, and the dependencies handed to the
    reader, which are the current revisions of the recorded cells whether or not
    anything was recomputed. */
module RuntimeObject {
  import opened Wrappers
  import opened ReactiveTypes
  import opened EngineModel
  import opened EngineObject
  import opened Computation
  import opened CacheMachine
  import M = RuntimeModel

  class Runtime {
    const engine: Engine
    const defs: seq<Definition>
    const epoch: nat
    var store: Store
    var counter: nat
    var traces: seq<Trace>
    var memo: map<nat, M.Memo>
    ghost var cache: Cache

    ghost function View(): M.RuntimeState
      reads this, engine
    {
      M.RuntimeState(engine.State(), store, counter, memo, cache)
    }

    ghost predicate Valid()
      reads this, engine
    {
      M.WellFormed(defs) && M.Sealed(View(), defs, epoch)
    }

    ghost function Revisions(): map<CellId, Revision>
      reads this, engine
    {
      M.Revisions(View())
    }

    constructor (defs: seq<Definition>, epoch: nat, digest: Trace -> string)
      requires M.WellFormed(defs)
      ensures Valid() && fresh(engine)
      ensures this.defs == defs && this.epoch == epoch
      ensures store == map[] && traces == [] && memo == map[] && cache == map[]
    {
      this.defs, this.epoch := defs, epoch;
      engine := new Engine(digest);
      store, counter, traces, memo, cache := map[], 0, [], map[], map[];
    }

    // ------------------------------------------------------------------ cells

    /** Write a cell, creating it if needed: a new counter, a new revision.  Both
        `Runtime::cell` and `Cell::set` do this. */
    method Put(cell: CellId, value: Json)
      requires Valid() && cell == RootCell(cell.source) && cell.source !in M.Ids(defs)
      modifies this, engine
      ensures Valid()
      ensures store == old(store)[cell := value] && counter == old(counter) + 1
      ensures Revisions() == old(Revisions())[cell := Memory(epoch, counter)]
      ensures cache == Dirty(old(cache), cell)
      ensures traces == old(traces) && memo == old(memo) && engine.roots == old(engine.roots)
    {
      ghost var before := View();
      M.PutKeepsInv(before, cell, value, defs, epoch);
      M.PutRevisions(before, cell, value, epoch);
      Stamp(cell, value);
    }

    method Stamp(cell: CellId, value: Json)
      modifies this`store, this`counter, this`cache, engine
      ensures View() == M.Put(old(View()), cell, value, epoch)
    {
      store := store[cell := value];
      counter := counter + 1;
      cache := Dirty(cache, cell);
      engine.Set(cell, Memory(epoch, counter));
    }

    /** Remove a cell; the roots it affects are only reported, never recomputed. */
    method RemoveCell(cell: CellId) returns (affected: set<string>)
      requires Valid()
      modifies this, engine
      ensures Valid()
      ensures store == old(store) - {cell} && counter == old(counter)
      ensures Revisions() == old(Revisions()) - {cell}
      ensures cache == Dirty(old(cache), cell)
      ensures affected == AffectedRoots(old(engine.State()), cell)
      ensures traces == old(traces) && memo == old(memo) && engine.roots == old(engine.roots)
    {
      ghost var before := View();
      store := store - {cell};
      cache := Dirty(cache, cell);
      affected := engine.Invalidate(cell);
      M.RemoveKeepsInv(before, cell, defs, epoch);
      assert View() == M.RemoveCell(before, cell);
    }

    method Replay(deps: set<TraceEntry>)
      modifies this`traces
      ensures traces == M.Recorded(old(traces), deps) && View() == old(View())
    {
      if traces == [] {
        return;
      }
      var top := traces[|traces| - 1];
      ghost var before := top.deps;
      var todo := deps;
      while todo != {}
        invariant todo <= deps
        invariant top == Trace(before + (deps - todo), old(traces)[|old(traces)| - 1].resources)
        decreases |todo|
      {
        var e :| e in todo;
        todo := todo - {e};
        top := top.(deps := top.deps + {e});
      }
      assert top.deps == before + deps;
      traces := traces[..|traces| - 1] + [top];
    }

    /** Take the innermost trace off the stack. */
    method Pop() returns (trace: Trace)
      requires traces != []
      modifies this`traces
      ensures trace == old(traces[|traces| - 1]) && traces == old(traces[..|traces| - 1]) && View() == old(View())
    {
      trace := traces[|traces| - 1];
      traces := traces[..|traces| - 1];
    }

    /** Record the revision of a cell if there is one and somebody is tracing. */
    method Track(cell: CellId)
      requires Valid() && cell.source !in M.Ids(defs)
      modifies this`traces, engine`cells
      ensures Valid()
      ensures traces == M.Recorded(old(traces), M.Stamped({cell} * store.Keys, Revisions()))
      ensures Revisions() == old(Revisions())
    {
      if traces == [] {
        return;
      }
      ghost var before := View();
      RootsAreRanked();
      var revision := engine.GetRevision(cell, (_: string) => 0);
      GetStamps(before, cell, revision);
      M.MarkKeepsInv(before, View(), defs, epoch);
      if revision.Some? {
        Replay({TraceEntry(cell, revision.value)});
      } else {
        Replay({});
      }
    }

    /** `Cell::get`. */
    method Get(cell: CellId) returns (value: Avail)
      requires Valid() && cell.source !in M.Ids(defs)
      modifies this`traces, engine`cells
      ensures Valid()
      ensures value == Present(Lookup(store, cell))
      ensures traces == M.Recorded(old(traces), M.Stamped({cell} * store.Keys, Revisions()))
      ensures Revisions() == old(Revisions())
    {
      Track(cell);
      value := Present(if cell in store then store[cell] else Null);
    }

    lemma RootsAreRanked()
      requires Valid()
      ensures Ranked(engine.roots, (_: string) => 0)
    {
      M.Open(View(), defs, epoch);
      M.FlatIsRanked(engine.roots, M.Ids(defs));
    }

    lemma GetStamps(s: M.RuntimeState, cell: CellId, revision: Option<Revision>)
      requires M.Sealed(s, defs, epoch) && cell.source !in M.Ids(defs)
      requires revision == CurrentRevision(s.engine, cell)
      ensures M.Stamped({cell} * s.store.Keys, M.Revisions(s)) ==
              if revision.Some? then {TraceEntry(cell, revision.value)} else {}
    {
      M.Open(s, defs, epoch);
      assert !IsRoot(s.engine.roots, cell);
      if cell in s.store {
        assert {cell} * s.store.Keys == {cell};
        assert M.Stamped({cell}, M.Revisions(s)) == {TraceEntry(cell, M.Revisions(s)[cell])};
      } else {
        assert cell !in s.engine.cells && {cell} * s.store.Keys == {};
      }
    }

    // --------------------------------------------------------------- computed

    /** What the machine answers to one read. */
    ghost function AnswerTo(action: Action): Option<Asked>
      requires !action.Return?
      reads this
    {
      match action
      case ReadCell(c) => Some(Asked(Entry(Present(Lookup(store, c)), {c} * store.Keys, map[]), cache))
      case ReadComputed(j) => Ask(defs, j, store, cache)
    }

    /** Answer one read of the closure of `i`. */
    method Answer(i: nat, action: Action) returns (value: Avail)
      requires Valid() && i < |defs| && !action.Return? && AnswerTo(action).Some?
      requires action.ReadCell? ==> action.cell.source !in M.Ids(defs)
      requires action.ReadComputed? ==> action.index < i
      modifies this, engine
      ensures Valid()
      ensures store == old(store) && counter == old(counter) && Revisions() == old(Revisions())
      ensures value == old(AnswerTo(action)).value.entry.value && cache == old(AnswerTo(action)).value.cache
      ensures traces == M.Recorded(old(traces), M.Stamped(old(AnswerTo(action)).value.entry.recorded, Revisions()))
      decreases i, 0, 0
    {
      match action
      case ReadCell(c) => value := Get(c);
      case ReadComputed(j) => value := Read(j);
    }

    /** One turn of a running closure: answer its next read, on the innermost trace. */
    method Turn(i: nat, answers: seq<Avail>, ghost fuel: nat, ghost recorded: set<CellId>,
                ghost nested: map<nat, Entry>, ghost below: seq<Trace>)
      returns (v: Avail, ghost more: set<CellId>, ghost served: map<nat, Entry>)
      requires Valid() && i < |defs| && !defs[i].next(answers).Return?
      requires Turns(defs, i, answers, store, cache, recorded, nested, fuel).Some?
      requires traces == below + [Trace(M.Stamped(recorded, Revisions()), [])]
      modifies this, engine
      ensures Valid()
      ensures store == old(store) && counter == old(counter) && Revisions() == old(Revisions())
      ensures fuel > 0
      ensures Turns(defs, i, answers + [v], store, cache, recorded + more, served, fuel - 1) ==
              Turns(defs, i, answers, store, old(cache), recorded, nested, fuel)
      ensures traces == below + [Trace(M.Stamped(recorded + more, Revisions()), [])]
      decreases i, 1, 0
    {
      var action := defs[i].next(answers);
      ghost var asked := AnswerTo(action).value;
      more := asked.entry.recorded;
      served := if action.ReadComputed? then nested[action.index := asked.entry] else nested;
      v := Answer(i, action);
      M.RecordedOnTop(below, recorded, more, Revisions());
    }

    /** Let a running closure proceed to its return. */
    method Proceed(i: nat, answers: seq<Avail>, ghost fuel: nat, ghost recorded: set<CellId>,
                   ghost nested: map<nat, Entry>, ghost below: seq<Trace>)
      returns (value: Avail)
      requires Valid() && i < |defs|
      requires Turns(defs, i, answers, store, cache, recorded, nested, fuel).Some?
      requires traces == below + [Trace(M.Stamped(recorded, Revisions()), [])]
      modifies this, engine
      ensures Valid()
      ensures store == old(store) && counter == old(counter) && Revisions() == old(Revisions())
      ensures var r := old(Turns(defs, i, answers, store, cache, recorded, nested, fuel).value);
              && value == r.entry.value && cache == r.cache
              && traces == below + [Trace(M.Stamped(r.entry.recorded, Revisions()), [])]
      decreases i, 2, fuel
    {
      var action := defs[i].next(answers);
      if action.Return? {
        return action.value;
      }
      ghost var more, served;
      var v;
      v, more, served := Turn(i, answers, fuel, recorded, nested, below);
      value := Proceed(i, answers + [v], fuel - 1, recorded + more, served, below);
    }

    /** Run the closure of `i` under a fresh trace, which is left on the stack. */
    method Compute(i: nat, ghost fuel: nat) returns (value: Avail)
      requires Valid() && i < |defs| && Turns(defs, i, [], store, cache, {}, map[], fuel).Some?
      modifies this, engine
      ensures Valid()
      ensures store == old(store) && counter == old(counter) && Revisions() == old(Revisions())
      ensures var r := old(Turns(defs, i, [], store, cache, {}, map[], fuel).value);
              && value == r.entry.value && cache == r.cache
              && traces == old(traces) + [Trace(M.Stamped(r.entry.recorded, Revisions()), [])]
      decreases i, 3, 0
    {
      traces := traces + [EmptyTrace];
      assert M.Stamped({}, Revisions()) == {};
      value := Proceed(i, [], fuel, {}, map[], old(traces));
    }

    /** Store the result of a recomputation. */
    method Remember(i: nat, trace: Trace, value: Avail, ghost entry: Entry)
      requires Valid() && i < |defs| && entry.value == value
      requires trace.deps == M.Stamped(entry.recorded, Revisions()) && entry.recorded <= store.Keys
      modifies this`memo, this`cache, engine
      ensures Valid()
      ensures Revisions() == old(Revisions())
      ensures memo == old(memo)[i := M.Memo(engine.digest(trace), value)]
      ensures cache == old(cache)[i := entry]
      ensures engine.roots == old(engine.roots)[defs[i].id := Root(trace, engine.digest(trace))]
    {
      ghost var before := View();
      engine.Register(defs[i].id, trace, false);
      memo := memo[i := M.Memo(engine.digest(trace), value)];
      cache := cache[i := entry];
      M.RememberKeepsInv(before, i, trace, engine.digest(trace), entry, defs, epoch);
      assert View() == M.Remember(before, defs[i].id, i, trace, engine.digest(trace), entry);
    }

    /** Is the remembered value of `i` still good?  Exactly when the machine has it. */
    method Revalidate(i: nat) returns (holds: bool)
      requires Valid() && i < |defs|
      modifies engine`cells
      ensures Valid() && Revisions() == old(Revisions())
      ensures holds <==> i in cache
      ensures i in memo ==> defs[i].id in engine.roots
      ensures holds <==> i in memo && AllMatch(old(engine.State()), engine.roots[defs[i].id].trace.deps)
      ensures holds ==> i in memo && memo[i].value == cache[i].value
      ensures holds ==> engine.roots[defs[i].id].trace.deps == M.Stamped(cache[i].recorded, Revisions())
    {
      if i !in memo {
        M.NotRemembered(View(), i, defs, epoch);
        return false;
      }
      ghost var before := View();
      RootsAreRanked();
      M.HitIffCached(before, i, defs, epoch);
      holds := engine.ValidateRoot(defs[i].id, memo[i].digest, (_: string) => 0);
      M.MarkKeepsInv(before, View(), defs, epoch);
    }

    /** `Computed::read`: whatever the state, the answer, the cache and the record are
        those of the simple machine. */
    method Read(i: nat) returns (value: Avail)
      requires Valid() && i < |defs| && Ask(defs, i, store, cache).Some?
      modifies this, engine
      ensures Valid()
      ensures store == old(store) && counter == old(counter) && Revisions() == old(Revisions())
      ensures var asked := old(Ask(defs, i, store, cache).value);
              && value == asked.entry.value && cache == asked.cache
              && traces == M.Recorded(old(traces), M.Stamped(asked.entry.recorded, Revisions()))
      decreases i, 5, 0
    {
      var holds := Revalidate(i);
      if holds {
        Replay(engine.roots[defs[i].id].trace.deps);
        return memo[i].value;
      }
      value := Recompute(i);
    }

    /** Run the closure, hand its record to the reader, and remember the result. */
    method Recompute(i: nat) returns (value: Avail)
      requires Valid() && i < |defs| && i !in cache && Ask(defs, i, store, cache).Some?
      modifies this, engine
      ensures Valid()
      ensures store == old(store) && counter == old(counter) && Revisions() == old(Revisions())
      ensures var asked := old(Ask(defs, i, store, cache).value);
              && value == asked.entry.value && cache == asked.cache
              && traces == M.Recorded(old(traces), M.Stamped(asked.entry.recorded, Revisions()))
      decreases i, 4, 0
    {
      ghost var fuel: nat :| Turns(defs, i, [], store, cache, {}, map[], fuel).Some?;
      AskIsTurns(defs, i, store, cache, fuel);
      ghost var r := Turns(defs, i, [], store, cache, {}, map[], fuel).value;
      RecordedAreLive(i, fuel);
      value := Compute(i, fuel);
      var trace := Pop();
      assert traces == old(traces);
      Replay(trace.deps);
      Remember(i, trace, value, r.entry);
    }

    lemma RecordedAreLive(i: nat, fuel: nat)
      requires Valid() && Turns(defs, i, [], store, cache, {}, map[], fuel).Some?
      ensures Turns(defs, i, [], store, cache, {}, map[], fuel).value.entry.recorded <= store.Keys
    {
      M.CacheIsLive(View(), defs, epoch);
      TurnsRecordLive(defs, i, [], store, cache, {}, map[], fuel);
    }

    /** Dropping a computed value unregisters its root and forgets the value. */
    method Drop(i: nat)
      requires Valid() && i < |defs|
      modifies this`memo, this`cache, engine
      ensures Valid()
      ensures Revisions() == old(Revisions())
      ensures memo == old(memo) - {i} && cache == old(cache) - {i}
      ensures engine.State() == RemoveRoot(old(engine.State()), defs[i].id) && defs[i].id !in engine.roots
    {
      ghost var before := View();
      engine.Remove(defs[i].id);
      memo := memo - {i};
      cache := cache - {i};
      M.DropKeepsInv(before, i, defs, epoch);
      assert View() == M.Drop(before, defs[i].id, i);
    }
  }
}
