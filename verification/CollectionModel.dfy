/** Collections built from runtime cells, as values: one structure cell whose
    revision moves when keys come and go, and one cell per element.  A sequence is
    the collection whose keys are 0, 1, ..., n - 1. */
module CollectionModel {
  import opened Wrappers
  import opened ReactiveTypes
  import opened Computation
  import M = RuntimeModel

  /** What a collection sees of its runtime. */
  datatype World = World(store: Store, revisions: map<CellId, Revision>, counter: nat, epoch: nat)

  ghost predicate WorldOk(w: World) {
    && w.store.Keys == w.revisions.Keys
    && forall c :: c in w.revisions ==>
         w.revisions[c].Memory? && w.revisions[c].epoch == w.epoch && w.revisions[c].counter <= w.counter
  }

  function Put(w: World, c: CellId, v: Json): World {
    World(w.store[c := v], w.revisions[c := Memory(w.epoch, w.counter + 1)], w.counter + 1, w.epoch)
  }

  function Erase(w: World, c: CellId): World {
    w.(store := w.store - {c}, revisions := w.revisions - {c})
  }

  datatype Collection<K> = Collection(world: World, structure: CellId, cells: map<K, CellId>)

  /** The structure cell and the element cells are live and all different. */
  ghost predicate Valid<K>(s: Collection<K>) {
    && WorldOk(s.world)
    && s.structure in s.world.store
    && (forall k :: k in s.cells ==> s.cells[k] in s.world.store && s.cells[k] != s.structure)
    && (forall k, l :: k in s.cells && l in s.cells && s.cells[k] == s.cells[l] ==> k == l)
  }

  ghost predicate Owns<K>(s: Collection<K>, c: CellId) {
    c == s.structure || exists k :: k in s.cells && s.cells[k] == c
  }

  // --------------------------------------------------------------- operations

  function Notified<K>(s: Collection<K>): Collection<K> {
    s.(world := Put(s.world, s.structure, Null))
  }

  /** Store `v` under `k`: an equal value changes nothing, an existing key keeps its
      cell, a new key gets the fresh cell `c` and moves the structure. */
  function Insert<K>(s: Collection<K>, k: K, v: Json, c: CellId): Collection<K> {
    if k in s.cells then
      if Lookup(s.world.store, s.cells[k]) == v then s
      else s.(world := Put(s.world, s.cells[k], v))
    else
      Notified(s.(world := Put(s.world, c, v), cells := s.cells[k := c]))
  }

  function Remove<K>(s: Collection<K>, k: K): Collection<K> {
    if k !in s.cells then s
    else Notified(s.(world := Erase(s.world, s.cells[k]), cells := s.cells - {k}))
  }

  /** Operations on the collection, and anything else happening in its runtime. */
  datatype Op<K> =
    | OpInsert(key: K, value: Json, cell: CellId)
    | OpRemove(gone: K)
    | OpForeignPut(other: CellId, content: Json)
    | OpForeignErase(erased: CellId)

  /** Fresh cells are not in use; foreign activity keeps off this collection. */
  ghost predicate Enabled<K>(s: Collection<K>, op: Op<K>) {
    match op
    case OpInsert(k, _, c) => k !in s.cells ==> c !in s.world.store
    case OpRemove(_) => true
    case OpForeignPut(c, _) => !Owns(s, c)
    case OpForeignErase(c) => !Owns(s, c)
  }

  function Apply<K>(s: Collection<K>, op: Op<K>): Collection<K> {
    match op
    case OpInsert(k, v, c) => Insert(s, k, v, c)
    case OpRemove(k) => Remove(s, k)
    case OpForeignPut(c, v) => s.(world := Put(s.world, c, v))
    case OpForeignErase(c) => s.(world := Erase(s.world, c))
  }

  ghost predicate Runnable<K>(s: Collection<K>, ops: seq<Op<K>>)
    decreases |ops|
  {
    ops == [] || (Enabled(s, ops[0]) && Runnable(Apply(s, ops[0]), ops[1..]))
  }

  function Run<K>(s: Collection<K>, ops: seq<Op<K>>): Collection<K>
    decreases |ops|
  {
    if ops == [] then s else Run(Apply(s, ops[0]), ops[1..])
  }

  // -------------------------------------------------------------------- reads

  datatype Query<K> = Get(key: K) | Contains(sought: K) | Keys | Size | Contents

  datatype Answer<K> =
    | Element(value: Option<Json>)
    | Truth(holds: bool)
    | KeySet(keys: set<K>)
    | Count(size: nat)
    | Entries(entries: map<K, Json>)

  function Elements<K>(s: Collection<K>): map<K, Json> {
    map k | k in s.cells :: Lookup(s.world.store, s.cells[k])
  }

  function Ask<K>(s: Collection<K>, q: Query<K>): Answer<K> {
    match q
    case Get(k) => Element(if k in s.cells then Some(Lookup(s.world.store, s.cells[k])) else None)
    case Contains(k) => Truth(k in s.cells)
    case Keys => KeySet(s.cells.Keys)
    case Size => Count(|s.cells|)
    case Contents => Entries(Elements(s))
  }

  /** The cells a read looks at: one present element, or the structure. */
  function Looked<K>(s: Collection<K>, q: Query<K>): set<CellId> {
    match q
    case Get(k) => if k in s.cells then {s.cells[k]} else {s.structure}
    case Contains(_) => {s.structure}
    case Keys => {s.structure}
    case Size => {s.structure}
    case Contents => {s.structure} + s.cells.Values
  }

  ghost function TraceOf<K>(s: Collection<K>, q: Query<K>): set<TraceEntry> {
    M.Stamped(Looked(s, q), s.world.revisions)
  }

  ghost predicate Holds(w: World, deps: set<TraceEntry>) {
    forall e :: e in deps ==> e.cell in w.revisions && w.revisions[e.cell] == e.revision
  }

  // --------------------------------------------------- recorded reads are safe

  predicate Old(s: World, t: World, c: CellId) {
    c in t.revisions && t.revisions[c].Memory? && t.revisions[c].counter <= s.counter
  }

  /** Whatever still carries a revision from the time of `s` is as it was in `s`. */
  ghost predicate Evolved<K>(s: Collection<K>, t: Collection<K>) {
    && t.structure == s.structure
    && s.world.counter <= t.world.counter
    && (forall c :: Old(s.world, t.world, c) ==>
          c in s.world.revisions && s.world.revisions[c] == t.world.revisions[c] &&
          Lookup(s.world.store, c) == Lookup(t.world.store, c))
    && (Old(s.world, t.world, s.structure) ==> t.cells == s.cells)
    && (forall k :: k in s.cells && Old(s.world, t.world, s.cells[k]) ==> k in t.cells && t.cells[k] == s.cells[k])
  }

  lemma StepKeepsValid<K>(s: Collection<K>, op: Op<K>)
    requires Valid(s) && Enabled(s, op)
    ensures Valid(Apply(s, op))
  {
  }

  lemma NoneGrowsOld<K>(s: Collection<K>, t: Collection<K>, op: Op<K>, c: CellId)
    requires Valid(t) && s.world.counter <= t.world.counter && Enabled(t, op)
    requires Old(s.world, Apply(t, op).world, c)
    ensures Old(s.world, t.world, c) && Apply(t, op).world.revisions[c] == t.world.revisions[c]
    ensures Lookup(t.world.store, c) == Lookup(Apply(t, op).world.store, c)
  {
  }

  lemma StepEvolves<K>(s: Collection<K>, t: Collection<K>, op: Op<K>)
    requires Valid(s) && Valid(t) && Evolved(s, t) && Enabled(t, op)
    ensures Evolved(s, Apply(t, op))
  {
    var u := Apply(t, op);
    forall c | Old(s.world, u.world, c)
      ensures Old(s.world, t.world, c) && u.world.revisions[c] == t.world.revisions[c]
      ensures Lookup(t.world.store, c) == Lookup(u.world.store, c)
    {
      NoneGrowsOld(s, t, op, c);
    }
  }

  lemma {:induction false} RunEvolves<K>(s: Collection<K>, t: Collection<K>, ops: seq<Op<K>>)
    requires Valid(s) && Valid(t) && Evolved(s, t) && Runnable(t, ops)
    ensures Valid(Run(t, ops)) && Evolved(s, Run(t, ops))
    decreases |ops|
  {
    if ops != [] {
      StepKeepsValid(t, ops[0]);
      StepEvolves(s, t, ops[0]);
      RunEvolves(s, Apply(t, ops[0]), ops[1..]);
    }
  }

  lemma TraceGuardsAnswer<K>(s: Collection<K>, t: Collection<K>, q: Query<K>)
    requires Valid(s) && Valid(t) && Evolved(s, t)
    requires Holds(t.world, TraceOf(s, q))
    ensures Ask(t, q) == Ask(s, q)
  {
    forall c | c in Looked(s, q) ensures Old(s.world, t.world, c) {
      assert c in s.world.revisions;
      assert TraceEntry(c, s.world.revisions[c]) in TraceOf(s, q);
    }
    if q.Contents? {
      assert s.structure in Looked(s, q);
      forall k | k in s.cells ensures Lookup(s.world.store, s.cells[k]) == Lookup(t.world.store, t.cells[k]) {
        assert s.cells[k] in Looked(s, q);
      }
      assert Elements(t) == Elements(s);
    }
  }

  /** If the trace recorded by a read still holds after any further run, repeating
      the read gives the same answer. */
  lemma RecordedReadStaysTrue<K>(s: Collection<K>, ops: seq<Op<K>>, q: Query<K>)
    requires Valid(s) && Runnable(s, ops)
    requires Holds(Run(s, ops).world, TraceOf(s, q))
    ensures Ask(Run(s, ops), q) == Ask(s, q)
  {
    assert Evolved(s, s);
    RunEvolves(s, s, ops);
    TraceGuardsAnswer(s, Run(s, ops), q);
  }

  /** An equal write moves no revision; a write to an existing key moves that
      element's revision and no other. */
  lemma WritesArePrecise<K>(s: Collection<K>, k: K, v: Json, c: CellId)
    requires Valid(s) && k in s.cells
    ensures Ask(s, Get(k)) == Element(Some(v)) ==> Insert(s, k, v, c) == s
    ensures forall d :: d in s.world.revisions && d != s.cells[k] ==>
              d in Insert(s, k, v, c).world.revisions && Insert(s, k, v, c).world.revisions[d] == s.world.revisions[d]
    ensures Ask(s, Get(k)) != Element(Some(v)) ==>
              !Holds(Insert(s, k, v, c).world, TraceOf(s, Get(k)))
    ensures Holds(Insert(s, k, v, c).world, TraceOf(s, Contains(k)))
    ensures Holds(Insert(s, k, v, c).world, TraceOf(s, Keys))
    ensures Holds(Insert(s, k, v, c).world, TraceOf(s, Size))
  {
    assert TraceEntry(s.cells[k], s.world.revisions[s.cells[k]]) in TraceOf(s, Get(k));
  }

  // ------------------------------------------------------- a collection is a map

  /** The script on a plain map: insertion, removal, and nothing for foreign activity. */
  function Interpreted<K>(m: map<K, Json>, ops: seq<Op<K>>): map<K, Json>
    decreases |ops|
  {
    if ops == [] then m
    else
      match ops[0]
      case OpInsert(k, v, _) => Interpreted(m[k := v], ops[1..])
      case OpRemove(k) => Interpreted(m - {k}, ops[1..])
      case OpForeignPut(_, _) => Interpreted(m, ops[1..])
      case OpForeignErase(_) => Interpreted(m, ops[1..])
  }

  /** What a plain map answers. */
  function Answered<K>(m: map<K, Json>, q: Query<K>): Answer<K> {
    match q
    case Get(k) => Element(if k in m then Some(m[k]) else None)
    case Contains(k) => Truth(k in m)
    case Keys => KeySet(m.Keys)
    case Size => Count(|m|)
    case Contents => Entries(m)
  }

  lemma InsertIsUpdate<K>(s: Collection<K>, k: K, v: Json, c: CellId)
    requires Valid(s) && (k !in s.cells ==> c !in s.world.store)
    ensures Elements(Insert(s, k, v, c)) == Elements(s)[k := v]
  {
    var t := Insert(s, k, v, c);
    forall l | l in t.cells ensures Lookup(t.world.store, t.cells[l]) == Elements(s)[k := v][l] {
      if l != k {
        assert s.cells[l] in s.world.store;
      }
    }
  }

  lemma RemoveIsDeletion<K>(s: Collection<K>, k: K)
    requires Valid(s)
    ensures Elements(Remove(s, k)) == Elements(s) - {k}
  {
    var t := Remove(s, k);
    forall l | l in t.cells ensures Lookup(t.world.store, t.cells[l]) == (Elements(s) - {k})[l] {
      assert l in s.cells;
    }
  }

  lemma ForeignIsNothing<K>(s: Collection<K>, op: Op<K>)
    requires Valid(s) && Enabled(s, op) && (op.OpForeignPut? || op.OpForeignErase?)
    ensures Elements(Apply(s, op)) == Elements(s)
  {
    var c := if op.OpForeignPut? then op.other else op.erased;
    forall l | l in s.cells ensures Lookup(Apply(s, op).world.store, s.cells[l]) == Lookup(s.world.store, s.cells[l]) {
      assert s.cells[l] != c;
    }
  }

  lemma AskedLikeAMap<K>(s: Collection<K>, q: Query<K>)
    ensures Ask(s, q) == Answered(Elements(s), q)
  {
    assert Elements(s).Keys == s.cells.Keys;
    assert |s.cells| == |s.cells.Keys| && |Elements(s)| == |Elements(s).Keys|;
  }

  /** After every run each read answers as it would on a plain map that went through the
      same insertions and removals. */
  lemma {:induction false} RunsLikeAMap<K>(s: Collection<K>, ops: seq<Op<K>>, q: Query<K>)
    requires Valid(s) && Runnable(s, ops)
    ensures Ask(Run(s, ops), q) == Answered(Interpreted(Elements(s), ops), q)
    decreases |ops|
  {
    if ops == [] {
      AskedLikeAMap(s, q);
    } else {
      match ops[0] {
        case OpInsert(k, v, c) => InsertIsUpdate(s, k, v, c);
        case OpRemove(k) => RemoveIsDeletion(s, k);
        case _ => ForeignIsNothing(s, ops[0]);
      }
      StepKeepsValid(s, ops[0]);
      RunsLikeAMap(Apply(s, ops[0]), ops[1..], q);
    }
  }

  // --------------------------------------------------- which reads an operation disturbs

  /** The operation changes which keys there are. */
  predicate MovesKeys<K>(m: map<K, Json>, op: Op<K>) {
    (op.OpInsert? && op.key !in m) || (op.OpRemove? && op.gone in m)
  }

  /** The operation changes or takes away the element that is under `k`. */
  predicate MovesElement<K>(m: map<K, Json>, op: Op<K>, k: K)
    requires k in m
  {
    (op.OpInsert? && op.key == k && op.value != m[k]) || (op.OpRemove? && op.gone == k)
  }

  /** What a read notices: an element only its own change, everything else the coming and
      going of any key, and the whole contents both. */
  ghost predicate Notices<K>(m: map<K, Json>, op: Op<K>, q: Query<K>) {
    match q
    case Get(k) => if k in m then MovesElement(m, op, k) else MovesKeys(m, op)
    case Contains(_) => MovesKeys(m, op)
    case Keys => MovesKeys(m, op)
    case Size => MovesKeys(m, op)
    case Contents => MovesKeys(m, op) || exists k :: k in m && MovesElement(m, op, k)
  }

  lemma StructureStamped<K>(s: Collection<K>, op: Op<K>)
    requires Valid(s) && Enabled(s, op)
    ensures Stands(s, Apply(s, op), s.structure) <==> !MovesKeys(Elements(s), op)
  {
  }

  lemma ElementStamped<K>(s: Collection<K>, op: Op<K>, k: K)
    requires Valid(s) && Enabled(s, op) && k in s.cells
    ensures Stands(s, Apply(s, op), s.cells[k]) <==> !MovesElement(Elements(s), op, k)
  {
    assert s.cells[k] in s.world.store;
    if (op.OpInsert? && op.key in s.cells && op.key != k) || (op.OpRemove? && op.gone in s.cells && op.gone != k) {
      var l := if op.OpInsert? then op.key else op.gone;
      assert s.cells[l] != s.cells[k];
    }
  }

  /** The cell still has the revision it had. */
  predicate Stands<K>(s: Collection<K>, t: Collection<K>, c: CellId) {
    c in s.world.revisions && c in t.world.revisions && t.world.revisions[c] == s.world.revisions[c]
  }

  lemma HoldsIffStands<K>(s: Collection<K>, t: Collection<K>, q: Query<K>)
    requires Valid(s)
    ensures Holds(t.world, TraceOf(s, q)) <==> forall c :: c in Looked(s, q) ==> Stands(s, t, c)
  {
    forall c | c in Looked(s, q) ensures c in s.world.revisions {
    }
    if Holds(t.world, TraceOf(s, q)) {
      forall c | c in Looked(s, q) ensures Stands(s, t, c) {
        assert TraceEntry(c, s.world.revisions[c]) in TraceOf(s, q);
      }
    }
  }

  /** A recorded read is invalidated exactly by the operations that it should notice:
      no reader is disturbed by a change to another element. */
  lemma TraceBrokenIff<K>(s: Collection<K>, op: Op<K>, q: Query<K>)
    requires Valid(s) && Enabled(s, op)
    ensures !Holds(Apply(s, op).world, TraceOf(s, q)) <==> Notices(Elements(s), op, q)
  {
    var t := Apply(s, op);
    HoldsIffStands(s, t, q);
    StructureStamped(s, op);
    forall k | k in s.cells ensures Stands(s, t, s.cells[k]) <==> !MovesElement(Elements(s), op, k) {
      ElementStamped(s, op, k);
    }
    if q.Contents? {
      assert forall k :: k in s.cells ==> s.cells[k] in Looked(s, q);
      forall c | c in Looked(s, q) && c != s.structure ensures exists k :: k in s.cells && s.cells[k] == c {
      }
    }
  }
}
