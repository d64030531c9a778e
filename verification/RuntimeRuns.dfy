/** Whole runs of the runtime: every script of writes, removals, drops and reads gets the
    answers of the simple cache machine, and exactly when those are the answers of an
    interpreter that has no cache at all. */
module RuntimeRuns {
  import opened Wrappers
  import opened ReactiveTypes
  import opened EngineModel
  import opened EngineObject
  import opened Computation
  import opened CacheMachine
  import opened RuntimeObject
  import M = RuntimeModel

  /** What a client of the runtime can do. */
  datatype Command =
    | Assign(id: string, value: Json)
    | Erase(cell: CellId)
    | Query(index: nat)
    | Forget(dropped: nat)

  /** A command a client may issue: computed values exist, and cell ids are not computed
      ids. */
  ghost predicate Permitted(defs: seq<Definition>, command: Command) {
    match command
    case Assign(id, _) => id !in M.Ids(defs)
    case Erase(_) => true
    case Query(i) => i < |defs|
    case Forget(i) => i < |defs|
  }

  ghost predicate AllPermitted(defs: seq<Definition>, script: seq<Command>) {
    forall k :: 0 <= k < |script| ==> Permitted(defs, script[k])
  }

  // ------------------------------------------------------------- the two interpreters

  /** The effect of a command on a bare store. */
  function After(store: Store, command: Command): Store {
    match command
    case Assign(id, v) => store[RootCell(id) := v]
    case Erase(c) => store - {c}
    case Query(_) => store
    case Forget(_) => store
  }

  /** The answer without a cache: run the asked computation on the store of the
      moment. */
  ghost function PlainAnswer(defs: seq<Definition>, store: Store, command: Command): seq<Avail>
    requires Total(defs)
  {
    if command.Query? && command.index < |defs| then [Value(defs, command.index, store)] else []
  }

  ghost function PlainAnswers(defs: seq<Definition>, store: Store, script: seq<Command>): seq<Avail>
    requires Total(defs)
    decreases |script|
  {
    if script == [] then []
    else PlainAnswer(defs, store, script[0]) + PlainAnswers(defs, After(store, script[0]), script[1..])
  }

  /** The effect of a command on the machine's cache; nothing if an asked computation
      does not return. */
  ghost function CacheAfter(defs: seq<Definition>, store: Store, cache: Cache, command: Command): Option<Cache> {
    match command
    case Assign(id, _) => Some(Dirty(cache, RootCell(id)))
    case Erase(c) => Some(Dirty(cache, c))
    case Query(i) =>
      var asked := Ask(defs, i, store, cache);
      if asked.None? then None else Some(asked.value.cache)
    case Forget(i) => Some(cache - {i})
  }

  ghost function MachineAnswer(defs: seq<Definition>, store: Store, cache: Cache, command: Command): seq<Avail>
    requires CacheAfter(defs, store, cache, command).Some?
  {
    if command.Query? then [Ask(defs, command.index, store, cache).value.entry.value] else []
  }

  /** The answers of the machine; nothing if some asked computation does not return. */
  ghost function MachineAnswers(defs: seq<Definition>, store: Store, cache: Cache, script: seq<Command>)
    : Option<seq<Avail>>
    decreases |script|
  {
    if script == [] then Some([])
    else
      var next := CacheAfter(defs, store, cache, script[0]);
      if next.None? then None
      else
        var rest := MachineAnswers(defs, After(store, script[0]), next.value, script[1..]);
        if rest.None? then None else Some(MachineAnswer(defs, store, cache, script[0]) + rest.value)
  }

  // ----------------------------------------------------------- the runtime is the machine

  method Perform(runtime: Runtime, command: Command) returns (answers: seq<Avail>)
    requires runtime.Valid() && Permitted(runtime.defs, command)
    requires CacheAfter(runtime.defs, runtime.store, runtime.cache, command).Some?
    modifies runtime, runtime.engine
    ensures runtime.Valid()
    ensures runtime.store == After(old(runtime.store), command)
    ensures Some(runtime.cache) == old(CacheAfter(runtime.defs, runtime.store, runtime.cache, command))
    ensures answers == old(MachineAnswer(runtime.defs, runtime.store, runtime.cache, command))
  {
    answers := [];
    match command
    case Assign(id, v) =>
      runtime.Put(RootCell(id), v);
    case Erase(c) =>
      var _ := runtime.RemoveCell(c);
    case Query(i) =>
      var v := runtime.Read(i);
      answers := [v];
    case Forget(i) =>
      runtime.Drop(i);
  }

  method PerformAll(runtime: Runtime, script: seq<Command>) returns (answers: seq<Avail>)
    requires runtime.Valid() && AllPermitted(runtime.defs, script)
    requires MachineAnswers(runtime.defs, runtime.store, runtime.cache, script).Some?
    modifies runtime, runtime.engine
    ensures runtime.Valid()
    ensures Some(answers) == old(MachineAnswers(runtime.defs, runtime.store, runtime.cache, script))
    decreases |script|
  {
    if script == [] {
      return [];
    }
    var first := Perform(runtime, script[0]);
    var rest := PerformAll(runtime, script[1..]);
    return first + rest;
  }

  /** Every run of the memoising runtime answers like the simple machine, whatever the
      digest function is and whenever cells come and go; and like the interpreter that has
      no cache exactly when every answering entry sees the plain meaning. */
  method Simulate(defs: seq<Definition>, epoch: nat, digest: Trace -> string, script: seq<Command>)
    returns (answers: seq<Avail>)
    requires M.WellFormed(defs) && AllPermitted(defs, script)
    requires MachineAnswers(defs, map[], map[], script).Some?
    ensures Some(answers) == MachineAnswers(defs, map[], map[], script)
    ensures Some(answers) == SeenAnswers(defs, map[], map[], script)
    ensures Total(defs) ==> (answers == PlainAnswers(defs, map[], script) <==> AllSeenRight(defs, map[], map[], script))
  {
    AnswersAreSeen(defs, map[], map[], script);
    if Total(defs) {
      MachineIsPlainIff(defs, map[], map[], script);
    }
    var runtime := new Runtime(defs, epoch, digest);
    answers := PerformAll(runtime, script);
  }

  // ------------------------------------------------ what the machine answers, always

  /** What the entry that answers the command sees is the plain meaning. */
  ghost predicate SeenRight(defs: seq<Definition>, store: Store, cache: Cache, command: Command)
    requires Total(defs)
  {
    command.Query? && command.index < |defs| && Ask(defs, command.index, store, cache).Some? ==>
      Seen(defs, command.index, store, Ask(defs, command.index, store, cache).value.entry) ==
      Some(Value(defs, command.index, store))
  }

  ghost predicate AllSeenRight(defs: seq<Definition>, store: Store, cache: Cache, script: seq<Command>)
    requires Total(defs)
    decreases |script|
  {
    script == [] || (
      && SeenRight(defs, store, cache, script[0])
      && CacheAfter(defs, store, cache, script[0]).Some?
      && AllSeenRight(defs, After(store, script[0]), CacheAfter(defs, store, cache, script[0]).value, script[1..]))
  }

  /** The answers as the entries see them. */
  ghost function SeenAnswers(defs: seq<Definition>, store: Store, cache: Cache, script: seq<Command>)
    : Option<seq<Avail>>
    decreases |script|
  {
    if script == [] then Some([])
    else
      var next := CacheAfter(defs, store, cache, script[0]);
      if next.None? then None
      else
        var rest := SeenAnswers(defs, After(store, script[0]), next.value, script[1..]);
        var seen := if script[0].Query?
                    then Seen(defs, script[0].index, store, Ask(defs, script[0].index, store, cache).value.entry)
                    else None;
        if rest.None? || (script[0].Query? && seen.None?) then None
        else Some((if script[0].Query? then [seen.value] else []) + rest.value)
  }

  /** One command: every entry keeps its sight, and the answer is what its entry sees. */
  lemma StepKeepsSight(defs: seq<Definition>, store: Store, cache: Cache, command: Command)
    requires CacheSees(defs, store, cache) && CacheAfter(defs, store, cache, command).Some?
    ensures CacheSees(defs, After(store, command), CacheAfter(defs, store, cache, command).value)
    ensures command.Query? ==>
              Some(MachineAnswer(defs, store, cache, command)[0]) ==
              Seen(defs, command.index, store, Ask(defs, command.index, store, cache).value.entry)
  {
    match command
    case Assign(id, v) => DirtyKeepsSight(defs, store, store[RootCell(id) := v], cache, RootCell(id));
    case Erase(c) => DirtyKeepsSight(defs, store, store - {c}, cache, c);
    case Query(i) => AskSees(defs, i, store, cache);
    case Forget(i) =>
  }

  /** In every run, whatever went stale inside it, every answer is what the entry that
      gives it sees: the closure run on the cells recorded for it, with each nested value
      as seen by the entry it was served. */
  lemma {:induction false} AnswersAreSeen(defs: seq<Definition>, store: Store, cache: Cache, script: seq<Command>)
    requires CacheSees(defs, store, cache) && MachineAnswers(defs, store, cache, script).Some?
    ensures MachineAnswers(defs, store, cache, script) == SeenAnswers(defs, store, cache, script)
    decreases |script|
  {
    if script != [] {
      StepKeepsSight(defs, store, cache, script[0]);
      AnswersAreSeen(defs, After(store, script[0]), CacheAfter(defs, store, cache, script[0]).value, script[1..]);
    }
  }

  /** So a run gives the plain answers exactly when, at every query, what the answering
      entry sees is the plain meaning. */
  lemma {:induction false} MachineIsPlainIff(defs: seq<Definition>, store: Store, cache: Cache, script: seq<Command>)
    requires Total(defs) && CacheSees(defs, store, cache) && AllPermitted(defs, script)
    requires MachineAnswers(defs, store, cache, script).Some?
    ensures MachineAnswers(defs, store, cache, script) == Some(PlainAnswers(defs, store, script)) <==>
            AllSeenRight(defs, store, cache, script)
    decreases |script|
  {
    if script != [] {
      StepKeepsSight(defs, store, cache, script[0]);
      var next := CacheAfter(defs, store, cache, script[0]).value;
      MachineIsPlainIff(defs, After(store, script[0]), next, script[1..]);
      SplitEqually(MachineAnswer(defs, store, cache, script[0]), PlainAnswer(defs, store, script[0]),
                   MachineAnswers(defs, After(store, script[0]), next, script[1..]).value,
                   PlainAnswers(defs, After(store, script[0]), script[1..]));
    }
  }

  // ------------------------------------------------ without stale values inside values

  /** If the command must run a computation, that run asks only computed values that are
      served clearly: no entry it uses has a late cell that is not null. */
  ghost predicate RunsClearly(defs: seq<Definition>, store: Store, cache: Cache, command: Command)
    requires Total(defs)
  {
    command.Query? && command.index !in cache ==> Serves(defs, store, cache, command.index, store.Keys)
  }

  /** If the command is served from the cache, the cells that the entry has missed make no
      difference to the computation. */
  ghost predicate ServedRight(defs: seq<Definition>, store: Store, cache: Cache, command: Command)
    requires Total(defs)
  {
    command.Query? && command.index in cache && command.index < |defs| ==>
      var late := Missed(defs, store, command.index, cache[command.index]) * store.Keys;
      Value(defs, command.index, store - late) == Value(defs, command.index, store)
  }

  ghost predicate AllRunClearly(defs: seq<Definition>, store: Store, cache: Cache, script: seq<Command>)
    requires Total(defs)
    decreases |script|
  {
    script == [] || (
      && RunsClearly(defs, store, cache, script[0])
      && CacheAfter(defs, store, cache, script[0]).Some?
      && AllRunClearly(defs, After(store, script[0]), CacheAfter(defs, store, cache, script[0]).value, script[1..]))
  }

  ghost predicate AllServedRight(defs: seq<Definition>, store: Store, cache: Cache, script: seq<Command>)
    requires Total(defs)
    decreases |script|
  {
    script == [] || (
      && ServedRight(defs, store, cache, script[0])
      && CacheAfter(defs, store, cache, script[0]).Some?
      && AllServedRight(defs, After(store, script[0]), CacheAfter(defs, store, cache, script[0]).value, script[1..]))
  }

  /** One command: the cache stays sound, and the answer is the plain one exactly when
      it was served right. */
  lemma ClearStepIsPlainIff(defs: seq<Definition>, store: Store, cache: Cache, command: Command)
    requires Total(defs) && CacheSound(defs, store, cache) && Permitted(defs, command)
    requires RunsClearly(defs, store, cache, command)
    ensures CacheAfter(defs, store, cache, command).Some?
    ensures CacheSound(defs, After(store, command), CacheAfter(defs, store, cache, command).value)
    ensures MachineAnswer(defs, store, cache, command) == PlainAnswer(defs, store, command) <==>
            ServedRight(defs, store, cache, command)
  {
    match command
    case Assign(id, v) => DirtyKeepsSound(defs, store, store[RootCell(id) := v], cache, RootCell(id));
    case Erase(c) => DirtyKeepsSound(defs, store, store - {c}, cache, c);
    case Query(i) =>
      if i in cache {
        ServedWithoutLateCells(defs, i, store, cache);
      } else {
        AskFollowsMeaning(defs, i, store, cache, store.Keys);
      }
    case Forget(i) =>
  }

  /** Over a whole script in which computations are only run on clear entries, the
      machine, and so the runtime, gives the plain answers exactly when everything it
      serves from the cache is served right. */
  lemma {:induction false} ClearRunIsPlainIff(defs: seq<Definition>, store: Store, cache: Cache, script: seq<Command>)
    requires Total(defs) && CacheSound(defs, store, cache) && AllPermitted(defs, script)
    requires AllRunClearly(defs, store, cache, script)
    ensures MachineAnswers(defs, store, cache, script).Some?
    ensures MachineAnswers(defs, store, cache, script) == Some(PlainAnswers(defs, store, script)) <==>
            AllServedRight(defs, store, cache, script)
    decreases |script|
  {
    if script != [] {
      ClearStepIsPlainIff(defs, store, cache, script[0]);
      var next := CacheAfter(defs, store, cache, script[0]).value;
      ClearRunIsPlainIff(defs, After(store, script[0]), next, script[1..]);
      SplitEqually(MachineAnswer(defs, store, cache, script[0]), PlainAnswer(defs, store, script[0]),
                   MachineAnswers(defs, After(store, script[0]), next, script[1..]).value,
                   PlainAnswers(defs, After(store, script[0]), script[1..]));
    }
  }

  lemma SplitEqually(a: seq<Avail>, b: seq<Avail>, x: seq<Avail>, y: seq<Avail>)
    requires |a| == |b|
    ensures a + x == b + y <==> a == b && x == y
  {
    if a + x == b + y {
      assert a == (a + x)[..|a|] && b == (b + y)[..|b|];
      assert x == (a + x)[|a|..] && y == (b + y)[|b|..];
    }
  }

  /** The condition a client can keep: whenever something is asked, no entry that the
      request uses has missed a cell that has come to hold something else than null. */
  ghost predicate NothingLate(defs: seq<Definition>, store: Store, cache: Cache, script: seq<Command>)
    requires Total(defs)
    decreases |script|
  {
    script == [] || (
      && (script[0].Query? ==> Serves(defs, store, cache, script[0].index, store.Keys))
      && CacheAfter(defs, store, cache, script[0]).Some?
      && NothingLate(defs, After(store, script[0]), CacheAfter(defs, store, cache, script[0]).value, script[1..]))
  }

  lemma {:induction false} NothingLateIsRight(defs: seq<Definition>, store: Store, cache: Cache, script: seq<Command>)
    requires Total(defs) && CacheSound(defs, store, cache) && AllPermitted(defs, script)
    requires NothingLate(defs, store, cache, script)
    ensures AllRunClearly(defs, store, cache, script) && AllServedRight(defs, store, cache, script)
    decreases |script|
  {
    if script != [] {
      var command := script[0];
      if command.Query? && command.index in cache {
        ServedWithoutLateCells(defs, command.index, store, cache);
      }
      ClearStepIsPlainIff(defs, store, cache, command);
      NothingLateIsRight(defs, After(store, command), CacheAfter(defs, store, cache, command).value, script[1..]);
    }
  }

  /** Without late cells the runtime answers like the interpreter that has no cache,
      nested computed values included. */
  method SimulatePlainly(defs: seq<Definition>, epoch: nat, digest: Trace -> string, script: seq<Command>)
    returns (answers: seq<Avail>)
    requires M.WellFormed(defs) && Total(defs) && AllPermitted(defs, script)
    requires NothingLate(defs, map[], map[], script)
    ensures answers == PlainAnswers(defs, map[], script)
  {
    NothingLateIsRight(defs, map[], map[], script);
    ClearRunIsPlainIff(defs, map[], map[], script);
    answers := Simulate(defs, epoch, digest, script);
  }

  /** The cells that a plain run of this command reads while they do not exist. */
  ghost function FoundMissing(defs: seq<Definition>, store: Store, command: Command): set<CellId>
    requires Total(defs)
  {
    if command.Query? && command.index < |defs| then Cells(defs, command.index, store) - store.Keys else {}
  }

  /** A condition on the script alone, without a cache: no cell is given a value other
      than null after a computation read it as missing. */
  ghost predicate NoLateWrites(defs: seq<Definition>, store: Store, missing: set<CellId>, script: seq<Command>)
    requires Total(defs)
    decreases |script|
  {
    script == [] || (
      && (script[0].Assign? && RootCell(script[0].id) in missing ==> script[0].value == Null)
      && NoLateWrites(defs, After(store, script[0]), missing + FoundMissing(defs, store, script[0]), script[1..]))
  }

  lemma StepMisses(defs: seq<Definition>, store: Store, cache: Cache, missing: set<CellId>, command: Command)
    requires Total(defs) && CacheSound(defs, store, cache) && Permitted(defs, command)
    requires MissedWithin(defs, store, cache, missing) && AllNull(store, missing)
    requires command.Assign? && RootCell(command.id) in missing ==> command.value == Null
    ensures command.Query? ==> Serves(defs, store, cache, command.index, store.Keys)
    ensures CacheAfter(defs, store, cache, command).Some?
    ensures var missing' := missing + FoundMissing(defs, store, command);
            && MissedWithin(defs, After(store, command), CacheAfter(defs, store, cache, command).value, missing')
            && AllNull(After(store, command), missing')
  {
    match command
    case Assign(id, v) => DirtyKeepsSound(defs, store, store[RootCell(id) := v], cache, RootCell(id));
    case Erase(c) => DirtyKeepsSound(defs, store, store - {c}, cache, c);
    case Query(i) =>
      EverythingServes(defs, store, cache, missing, i);
      MoreTolerant(defs, store, cache, i, missing);
      AskMissesMore(defs, i, store, cache, missing);
    case Forget(i) =>
  }

  /** The condition on the script is enough. */
  lemma {:induction false} NoLateWritesIsEnough(
    defs: seq<Definition>, store: Store, cache: Cache, missing: set<CellId>, script: seq<Command>)
    requires Total(defs) && CacheSound(defs, store, cache) && AllPermitted(defs, script)
    requires MissedWithin(defs, store, cache, missing) && AllNull(store, missing)
    requires NoLateWrites(defs, store, missing, script)
    ensures NothingLate(defs, store, cache, script)
    decreases |script|
  {
    if script != [] {
      StepMisses(defs, store, cache, missing, script[0]);
      ClearStepIsPlainIff(defs, store, cache, script[0]);
      NoLateWritesIsEnough(defs, After(store, script[0]), CacheAfter(defs, store, cache, script[0]).value,
                           missing + FoundMissing(defs, store, script[0]), script[1..]);
    }
  }

  // --------------------------------------------------- what a late cell does to a read

  /** The computation that answers the value of one cell. */
  function Echo(cell: CellId): Definition {
    Definition("echo", (answers: seq<Avail>) => if answers == [] then ReadCell(cell) else Return(answers[0]))
  }

  lemma EchoMeaning(defs: seq<Definition>, cell: CellId, store: Store)
    requires defs != [] && defs[0] == Echo(cell)
    ensures Meaning(defs, 0, store) == Some(Outcome(Present(Lookup(store, cell)), {cell}, {}))
  {
    var v := Present(Lookup(store, cell));
    assert defs[0].next([]) == ReadCell(cell);
    assert defs[0].next([] + [v]) == Return(v);
    assert Run(defs, 0, [] + [v], store, 0) == Some(Outcome(v, {}, {}));
    assert {} + {cell} == {cell};
    assert Run(defs, 0, [], store, 1) == Some(Outcome(v, {cell}, {}));
    MeaningIsRun(defs, 0, store, 1);
  }

  lemma EchoAsked(defs: seq<Definition>, cell: CellId, store: Store)
    requires defs != [] && defs[0] == Echo(cell)
    ensures var e := Entry(Present(Lookup(store, cell)), {cell} * store.Keys, map[]);
            Ask(defs, 0, store, map[]) == Some(Asked(e, map[0 := e]))
  {
    var v := Present(Lookup(store, cell));
    assert defs[0].next([]) == ReadCell(cell);
    assert defs[0].next([] + [v]) == Return(v);
    assert {} + ({cell} * store.Keys) == {cell} * store.Keys;
    assert Turns(defs, 0, [] + [v], store, map[], {cell} * store.Keys, map[], 0)
        == Some(Asked(Entry(v, {cell} * store.Keys, map[]), map[]));
    assert Turns(defs, 0, [], store, map[], {}, map[], 1)
        == Some(Asked(Entry(v, {cell} * store.Keys, map[]), map[]));
    AskIsTurns(defs, 0, store, map[], 1);
  }

  lemma EchoIsFine(cell: CellId)
    requires cell.source != "echo"
    ensures M.WellFormed([Echo(cell)]) && Total([Echo(cell)])
  {
    var defs := [Echo(cell)];
    assert M.Ids(defs) == {"echo"};
    forall i: nat, store: Store | i < |defs| ensures Meaning(defs, i, store).Some? {
      EchoMeaning(defs, cell, store);
    }
  }

  /** A cell is read before it exists, and then it is created: the next read still
      answers null, which is right exactly when null was written.  After dropping the
      computed value the read is right again. */
  method CreatedTooLate(name: string, value: Json, epoch: nat, digest: Trace -> string)
    returns (first: Avail, second: Avail, third: Avail)
    requires name != "echo"
    ensures Total([Echo(RootCell(name))])
    ensures var late: Store := map[RootCell(name) := value];
            && first == Value([Echo(RootCell(name))], 0, map[])
            && second == Present(Null)
            && (second == Value([Echo(RootCell(name))], 0, late) <==> value == Null)
            && third == Value([Echo(RootCell(name))], 0, late)
  {
    var cell := RootCell(name);
    EchoIsFine(cell);
    EchoMeaning([Echo(cell)], cell, map[]);
    EchoMeaning([Echo(cell)], cell, map[cell := value]);
    EchoAsked([Echo(cell)], cell, map[]);
    EchoAsked([Echo(cell)], cell, map[cell := value]);
    var runtime := new Runtime([Echo(cell)], epoch, digest);
    first := runtime.Read(0);
    ghost var nothing: Store := map[];
    assert {cell} * nothing.Keys == {} && Dirty(runtime.cache, cell) == runtime.cache;
    runtime.Put(cell, value);
    second := runtime.Read(0);
    runtime.Drop(0);
    assert runtime.cache == map[];
    third := runtime.Read(0);
  }

  /** The computation that asks whether computed value 0 and the cell agree. */
  function Pair(cell: CellId): Definition {
    Definition("pair", (answers: seq<Avail>) =>
      if |answers| == 0 then ReadComputed(0)
      else if |answers| == 1 then ReadCell(cell)
      else Return(Present(Bool(answers[0] == answers[1]))))
  }

  /** On a bare store they always agree. */
  lemma PairMeaning(cell: CellId, store: Store)
    ensures Meaning([Echo(cell), Pair(cell)], 1, store) == Some(Outcome(Present(Bool(true)), {cell}, {0}))
  {
    var defs, v := [Echo(cell), Pair(cell)], Present(Lookup(store, cell));
    EchoMeaning(defs, cell, store);
    assert Run(defs, 1, [v] + [v], store, 0) == Some(Outcome(Present(Bool(true)), {}, {}));
    assert {} + {cell} == {cell};
    assert Run(defs, 1, [v], store, 1) == Some(Outcome(Present(Bool(true)), {cell}, {}));
    assert [] + [v] == [v] && {cell} + {cell} == {cell} && {} + {0} == {0};
    assert Run(defs, 1, [], store, 2) == Some(Outcome(Present(Bool(true)), {cell}, {0}));
    MeaningIsRun(defs, 1, store, 2);
  }

  lemma PairAsked(cell: CellId, store: Store, inner: Entry)
    ensures var defs, cache: Cache := [Echo(cell), Pair(cell)], map[0 := inner];
            var e := Entry(Present(Bool(inner.value == Present(Lookup(store, cell)))),
                           inner.recorded + ({cell} * store.Keys), cache);
            Ask(defs, 1, store, cache) == Some(Asked(e, cache[1 := e]))
  {
    var defs, cache: Cache := [Echo(cell), Pair(cell)], map[0 := inner];
    var v, recorded := Present(Lookup(store, cell)), inner.recorded + ({cell} * store.Keys);
    var e := Entry(Present(Bool(inner.value == v)), recorded, cache);
    assert Turns(defs, 1, [inner.value] + [v], store, cache, recorded, cache, 0) == Some(Asked(e, cache));
    assert Turns(defs, 1, [inner.value], store, cache, inner.recorded, cache, 1) == Some(Asked(e, cache));
    assert Ask(defs, 0, store, cache) == Some(Asked(inner, cache));
    var none: Cache := map[];
    assert [] + [inner.value] == [inner.value] && {} + inner.recorded == inner.recorded && none[0 := inner] == cache;
    assert Turns(defs, 1, [], store, cache, {}, none, 2) == Some(Asked(e, cache));
    AskIsTurns(defs, 1, store, cache, 2);
  }

  lemma PairIsFine(cell: CellId)
    requires cell.source != "echo" && cell.source != "pair"
    ensures M.WellFormed([Echo(cell), Pair(cell)]) && Total([Echo(cell), Pair(cell)])
  {
    var defs := [Echo(cell), Pair(cell)];
    assert M.Ids(defs) == {"echo", "pair"} by {
      assert defs[0].id == "echo" && defs[1].id == "pair";
    }
    forall i: nat, store: Store | i < |defs| ensures Meaning(defs, i, store).Some? {
      EchoMeaning(defs, cell, store);
      PairMeaning(cell, store);
    }
  }

  /** Read the inner value, and then create the cell that it found missing. */
  method InnerTooEarly(name: string, value: Json, epoch: nat, digest: Trace -> string) returns (runtime: Runtime)
    requires name != "echo" && name != "pair"
    ensures fresh(runtime) && fresh(runtime.engine) && runtime.Valid()
    ensures runtime.defs == [Echo(RootCell(name)), Pair(RootCell(name))]
    ensures runtime.store == map[RootCell(name) := value]
    ensures runtime.cache == map[0 := Entry(Present(Null), {}, map[])]
  {
    var cell, defs := RootCell(name), [Echo(RootCell(name)), Pair(RootCell(name))];
    PairIsFine(cell);
    ghost var none: Store := map[];
    assert {cell} * none.Keys == {};
    EchoAsked(defs, cell, none);
    runtime := new Runtime(defs, epoch, digest);
    var first := runtime.Read(0);
    assert Dirty(runtime.cache, cell) == runtime.cache;
    runtime.Put(cell, value);
  }

  /** A stale value inside a value: the inner one was computed before its cell existed,
      and the outer one reads both.  The outer value has recorded every cell it read, and
      is wrong all the same unless null was written; dropping the inner value afterwards
      does not repair it. */
  method NestedTooLate(name: string, value: Json, epoch: nat, digest: Trace -> string)
    returns (outer: Avail, again: Avail)
    requires name != "echo" && name != "pair"
    ensures Total([Echo(RootCell(name)), Pair(RootCell(name))])
    ensures forall store: Store :: Value([Echo(RootCell(name)), Pair(RootCell(name))], 1, store) == Present(Bool(true))
    ensures outer == Present(Bool(value == Null)) && again == outer
  {
    var cell, defs := RootCell(name), [Echo(RootCell(name)), Pair(RootCell(name))];
    PairIsFine(cell);
    forall store: Store ensures Value(defs, 1, store) == Present(Bool(true)) {
      PairMeaning(cell, store);
    }
    var runtime := InnerTooEarly(name, value, epoch, digest);
    PairAsked(cell, runtime.store, Entry(Present(Null), {}, map[]));
    outer := runtime.Read(1);
    runtime.Drop(0);
    again := runtime.Read(1);
  }
}
