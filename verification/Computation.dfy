/** What a computed value means without any cache.

    A compute closure is deterministic and sees the world only through the answers
    to its reads, so it is a function from the answers received so far to its next
    action.  `Meaning` runs it directly against a store; nothing here knows about
    traces, revisions or memoised values. */
module Computation {
  import opened Wrappers
  import opened ReactiveTypes

  type Store = map<CellId, Json>

  /** The next action of a compute closure. */
  datatype Action =
    | Return(value: Avail)
    | ReadCell(cell: CellId)
    | ReadComputed(index: nat)

  /** A computed value: its root id and its closure. */
  datatype Definition = Definition(id: string, next: seq<Avail> -> Action)

  /** The answer of a plain run, every base cell the run looked at, including those
      looked at by nested computed values, and the computed values it asked itself. */
  datatype Outcome = Outcome(value: Avail, cells: set<CellId>, nested: set<nat>)

  /** What `Cell::get` answers: an absent cell reads as JSON null. */
  function Lookup(store: Store, cell: CellId): Json {
    if cell in store then store[cell] else Null
  }

  /** Run definition `i` from the point where it has received `answers`, making at
      most `fuel` further reads of its own. */
  ghost function Run(defs: seq<Definition>, i: nat, answers: seq<Avail>, store: Store, fuel: nat): Option<Outcome>
    decreases i, 0, fuel
  {
    if |defs| <= i then None else
    match defs[i].next(answers)
    case Return(v) => Some(Outcome(v, {}, {}))
    case ReadCell(c) =>
      if fuel == 0 then None else
      var rest := Run(defs, i, answers + [Present(Lookup(store, c))], store, fuel - 1);
      if rest.None? then None else Some(Outcome(rest.value.value, rest.value.cells + {c}, rest.value.nested))
    case ReadComputed(j) =>
      if fuel == 0 || i <= j then None else
      var inner := Meaning(defs, j, store);
      if inner.None? then None else
      var rest := Run(defs, i, answers + [inner.value.value], store, fuel - 1);
      if rest.None? then None
      else Some(Outcome(rest.value.value, rest.value.cells + inner.value.cells, rest.value.nested + {j}))
  }

  /** The complete plain run of definition `i`, if its closure returns. */
  ghost function Meaning(defs: seq<Definition>, i: nat, store: Store): Option<Outcome>
    decreases i, 1, 0
  {
    if exists fuel: nat :: Run(defs, i, [], store, fuel).Some? then
      var fuel: nat :| Run(defs, i, [], store, fuel).Some?;
      Run(defs, i, [], store, fuel)
    else
      None
  }

  /** A closure only reads computed values that existed when it was created. */
  ghost predicate Acyclic(defs: seq<Definition>) {
    forall i: nat, answers: seq<Avail> ::
      i < |defs| && defs[i].next(answers).ReadComputed? ==> defs[i].next(answers).index < i
  }

  /** Every closure returns on every store. */
  ghost predicate Total(defs: seq<Definition>) {
    forall i: nat, store: Store :: i < |defs| ==> Meaning(defs, i, store).Some?
  }

  ghost function Value(defs: seq<Definition>, i: nat, store: Store): Avail
    requires Meaning(defs, i, store).Some?
  {
    Meaning(defs, i, store).value.value
  }

  ghost function Cells(defs: seq<Definition>, i: nat, store: Store): set<CellId>
    requires Meaning(defs, i, store).Some?
  {
    Meaning(defs, i, store).value.cells
  }

  ghost function Nested(defs: seq<Definition>, i: nat, store: Store): set<nat>
    requires Meaning(defs, i, store).Some?
  {
    Meaning(defs, i, store).value.nested
  }

  /** More fuel never changes the outcome. */
  lemma {:induction false} RunMonotone(
    defs: seq<Definition>, i: nat, answers: seq<Avail>, store: Store, fuel: nat, more: nat)
    requires Run(defs, i, answers, store, fuel).Some?
    requires fuel <= more
    ensures Run(defs, i, answers, store, more) == Run(defs, i, answers, store, fuel)
    decreases fuel
  {
    match defs[i].next(answers)
    case Return(_) =>
    case ReadCell(c) =>
      RunMonotone(defs, i, answers + [Present(Lookup(store, c))], store, fuel - 1, more - 1);
    case ReadComputed(j) =>
      RunMonotone(defs, i, answers + [Meaning(defs, j, store).value.value], store, fuel - 1, more - 1);
  }

  /** Whichever fuel suffices gives the meaning. */
  lemma MeaningIsRun(defs: seq<Definition>, i: nat, store: Store, fuel: nat)
    requires Run(defs, i, [], store, fuel).Some?
    ensures Meaning(defs, i, store) == Run(defs, i, [], store, fuel)
  {
    var chosen: nat :| Run(defs, i, [], store, chosen).Some?
                       && Meaning(defs, i, store) == Run(defs, i, [], store, chosen);
    var most := if chosen < fuel then fuel else chosen;
    RunMonotone(defs, i, [], store, chosen, most);
    RunMonotone(defs, i, [], store, fuel, most);
  }

  /** Two stores look alike on a set of cells when every read of one of them gets
      the same answer; an absent cell and a null cell look alike. */
  ghost predicate LookAlike(a: Store, b: Store, cells: set<CellId>) {
    forall c :: c in cells ==> Lookup(a, c) == Lookup(b, c)
  }

  lemma {:induction false} RunDependsOnlyOnCells(
    defs: seq<Definition>, i: nat, answers: seq<Avail>, a: Store, b: Store, fuel: nat)
    requires Run(defs, i, answers, a, fuel).Some?
    requires LookAlike(a, b, Run(defs, i, answers, a, fuel).value.cells)
    ensures Run(defs, i, answers, b, fuel) == Run(defs, i, answers, a, fuel)
    decreases i, 0, fuel
  {
    match defs[i].next(answers)
    case Return(_) =>
    case ReadCell(c) =>
      assert c in Run(defs, i, answers, a, fuel).value.cells;
      RunDependsOnlyOnCells(defs, i, answers + [Present(Lookup(a, c))], a, b, fuel - 1);
    case ReadComputed(j) =>
      MeaningDependsOnlyOnCells(defs, j, a, b);
      RunDependsOnlyOnCells(defs, i, answers + [Meaning(defs, j, a).value.value], a, b, fuel - 1);
  }

  /** A plain run is determined by the answers for the cells it reads: same value,
      and the same cells read, on any store that looks alike there. */
  lemma {:induction false} MeaningDependsOnlyOnCells(defs: seq<Definition>, i: nat, a: Store, b: Store)
    requires Meaning(defs, i, a).Some?
    requires LookAlike(a, b, Meaning(defs, i, a).value.cells)
    ensures Meaning(defs, i, b) == Meaning(defs, i, a)
    decreases i, 1, 0
  {
    var fuel: nat :| Run(defs, i, [], a, fuel).Some?;
    MeaningIsRun(defs, i, a, fuel);
    RunDependsOnlyOnCells(defs, i, [], a, b, fuel);
    MeaningIsRun(defs, i, b, fuel);
  }
}
