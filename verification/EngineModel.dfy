/** The engine's state and what each of its operations does to it, as functions on
    values; the class in Engine.dfy computes these functions step by step. */
module EngineModel {
  import opened Wrappers
  import opened ReactiveTypes

  datatype CellEntry = CellEntry(revision: Revision, lastUsed: nat)

  datatype Root = Root(trace: Trace, digest: string)

  /** `subscribers` is the set of roots whose latest registration asked for
      notifications; the engine keeps it only through the reverse index. */
  datatype EngineState = EngineState(
    cells: map<CellId, CellEntry>,
    roots: map<string, Root>,
    reverse: map<CellId, set<string>>,
    sources: map<string, set<CellId>>,
    tx: nat,
    subscribers: set<string>)

  const Initial := EngineState(map[], map[], map[], map[], 1, {})

  function DepCells(deps: set<TraceEntry>): set<CellId> {
    set e | e in deps :: e.cell
  }

  // ------------------------------------------------------------ operations

  function SetCell(s: EngineState, cell: CellId, revision: Revision): EngineState {
    var known := if cell.source in s.sources then s.sources[cell.source] else {};
    s.(cells := s.cells[cell := CellEntry(revision, s.tx)],
       sources := s.sources[cell.source := known + {cell}])
  }

  function BeginTransaction(s: EngineState): EngineState {
    s.(tx := s.tx + 1)
  }

  function Unused(s: EngineState): set<CellId> {
    set c | c in s.cells && s.cells[c].lastUsed < s.tx
  }

  function Under(cells: set<CellId>, source: string): set<CellId> {
    set c | c in cells && c.source == source
  }

  /** Drop cells from the entries of their sources, and the entries this empties. */
  function Unlist(sources: map<string, set<CellId>>, gone: set<CellId>): map<string, set<CellId>> {
    map k | k in sources && (Under(gone, k) == {} || sources[k] - Under(gone, k) != {}) :: sources[k] - Under(gone, k)
  }

  function EndTransaction(s: EngineState): EngineState {
    s.(cells := s.cells - Unused(s), sources := Unlist(s.sources, Unused(s)))
  }

  /** An empty pointer invalidates everything indexed under the source, if the
      source is indexed at all. */
  function Invalidated(s: EngineState, cell: CellId): set<CellId> {
    if cell.pointer == "" && cell.source in s.sources then s.sources[cell.source] else {cell}
  }

  function InvalidateCell(s: EngineState, cell: CellId): EngineState {
    s.(cells := s.cells - Invalidated(s, cell),
       sources := if cell.pointer == "" then s.sources - {cell.source} else s.sources)
  }

  function AffectedRoots(s: EngineState, cell: CellId): set<string> {
    set c, r | c in Invalidated(s, cell) && c in s.reverse && r in s.reverse[c] :: r
  }

  /** Take root `id` out of the reverse index entries of `cells`. */
  function Unlink(reverse: map<CellId, set<string>>, id: string, cells: set<CellId>): map<CellId, set<string>> {
    map c | c in reverse && (c !in cells || reverse[c] - {id} != {}) ::
      if c in cells then reverse[c] - {id} else reverse[c]
  }

  function Link(reverse: map<CellId, set<string>>, id: string, cells: set<CellId>): map<CellId, set<string>> {
    map c | c in reverse.Keys + cells ::
      (if c in reverse then reverse[c] else {}) + (if c in cells then {id} else {})
  }

  function RemoveRoot(s: EngineState, id: string): EngineState {
    if id !in s.roots then s else
    s.(roots := s.roots - {id},
       reverse := Unlink(s.reverse, id, DepCells(s.roots[id].trace.deps)),
       subscribers := s.subscribers - {id})
  }

  function MarkUsed(s: EngineState, used: set<CellId>): map<CellId, CellEntry> {
    map c | c in s.cells :: if c in used then s.cells[c].(lastUsed := s.tx) else s.cells[c]
  }

  function RegisterRoot(s: EngineState, id: string, trace: Trace, digest: string, subscriber: bool): EngineState {
    var cells := DepCells(trace.deps);
    var cleared := if id in s.roots then Unlink(s.reverse, id, DepCells(s.roots[id].trace.deps)) else s.reverse;
    var linked := if subscriber then Link(cleared, id, cells) else cleared;
    var registered := s.(
      cells := MarkUsed(s, cells),
      reverse := linked,
      roots := s.roots[id := Root(trace, digest)],
      subscribers := if subscriber then s.subscribers + {id} else s.subscribers - {id});
    SetCell(registered, RootCell(id), Disk(digest))
  }

  // ---------------------------------------------------- what a valid trace is

  predicate IsRoot(roots: map<string, Root>, cell: CellId) {
    cell.pointer == "" && cell.source in roots
  }

  /** A chain of recorded dependencies that starts in `deps` and descends through
      the latest traces of the roots it passes. */
  ghost predicate Chain(roots: map<string, Root>, deps: set<TraceEntry>, path: seq<TraceEntry>) {
    && path != []
    && path[0] in deps
    && forall k :: 0 <= k < |path| - 1 ==>
         IsRoot(roots, path[k].cell) && path[k + 1] in roots[path[k].cell.source].trace.deps
  }

  /** `e` is recorded by the trace, directly or through the roots it depends on. */
  ghost predicate Records(roots: map<string, Root>, deps: set<TraceEntry>, e: TraceEntry) {
    exists path :: Chain(roots, deps, path) && path[|path| - 1] == e
  }

  predicate Matches(cells: map<CellId, CellEntry>, e: TraceEntry) {
    e.cell in cells && cells[e.cell].revision == e.revision
  }

  /** Every transitively recorded cell is present at its recorded revision. */
  ghost predicate AllMatch(s: EngineState, deps: set<TraceEntry>) {
    forall e :: Records(s.roots, deps, e) ==> Matches(s.cells, e)
  }

  /** Every transitively recorded cell was used in the current transaction. */
  ghost predicate AllUsed(s: EngineState, deps: set<TraceEntry>) {
    forall e :: Records(s.roots, deps, e) ==> e.cell in s.cells && s.tx <= s.cells[e.cell].lastUsed
  }

  /** The root graph is acyclic: dependencies on roots go down in rank. */
  ghost predicate Ranked(roots: map<string, Root>, rank: string -> nat) {
    forall r, e :: r in roots && e in roots[r].trace.deps && IsRoot(roots, e.cell) ==> rank(e.cell.source) < rank(r)
  }

  ghost function Height(roots: map<string, Root>, rank: string -> nat, cell: CellId): nat {
    if IsRoot(roots, cell) then rank(cell.source) + 1 else 0
  }

  /** What recursive validation answers for one cell: nothing when the cell names a
      root whose own trace no longer holds. */
  ghost function CurrentRevision(s: EngineState, cell: CellId): Option<Revision> {
    if IsRoot(s.roots, cell) && !AllMatch(s, s.roots[cell.source].trace.deps) then None
    else if cell in s.cells then Some(s.cells[cell].revision)
    else None
  }

  /** `after` differs from `before` at most in `lastUsed` marks raised to `tx`. */
  ghost predicate OnlyMarked(before: map<CellId, CellEntry>, after: map<CellId, CellEntry>, tx: nat) {
    && after.Keys == before.Keys
    && forall c :: c in before ==>
         after[c] == before[c] || after[c] == before[c].(lastUsed := tx)
  }

  /** The cells that the trace records, directly or through other roots. */
  ghost function RecordedCells(roots: map<string, Root>, deps: set<TraceEntry>): iset<CellId> {
    iset e | Records(roots, deps, e) :: e.cell
  }

  /** The cells that asking for one revision looks at. */
  ghost function LookedAt(roots: map<string, Root>, cell: CellId): iset<CellId> {
    iset{cell} + if IsRoot(roots, cell) then RecordedCells(roots, roots[cell.source].trace.deps) else iset{}
  }

  /** Marks outside `allowed` stay as they are. */
  ghost predicate MarkedWithin(before: map<CellId, CellEntry>, after: map<CellId, CellEntry>, allowed: iset<CellId>) {
    forall c :: c in before && c in after && c !in allowed ==> after[c] == before[c]
  }

  lemma LookedAtIsRecorded(roots: map<string, Root>, deps: set<TraceEntry>, e: TraceEntry)
    requires e in deps
    ensures LookedAt(roots, e.cell) <= RecordedCells(roots, deps)
  {
    RecordsDirect(roots, deps, e);
    forall c | c in LookedAt(roots, e.cell) && c != e.cell ensures c in RecordedCells(roots, deps) {
      var f :| Records(roots, roots[e.cell.source].trace.deps, f) && f.cell == c;
      RecordsThrough(roots, deps, e, f);
    }
  }

  /** Every such change of marks is one that `OpTouch` makes. */
  lemma OnlyMarkedIsTouch(s: EngineState, after: map<CellId, CellEntry>) returns (touched: set<CellId>)
    requires OnlyMarked(s.cells, after, s.tx)
    ensures after == MarkUsed(s, touched) && touched <= s.cells.Keys
  {
    touched := set c | c in s.cells && after[c] != s.cells[c];
  }

  lemma RecordsDirect(roots: map<string, Root>, deps: set<TraceEntry>, e: TraceEntry)
    requires e in deps
    ensures Records(roots, deps, e)
  {
    assert Chain(roots, deps, [e]) && [e][|[e]| - 1] == e;
  }

  lemma RecordsThrough(roots: map<string, Root>, deps: set<TraceEntry>, d: TraceEntry, e: TraceEntry)
    requires d in deps && IsRoot(roots, d.cell)
    requires Records(roots, roots[d.cell.source].trace.deps, e)
    ensures Records(roots, deps, e)
  {
    var path :| Chain(roots, roots[d.cell.source].trace.deps, path) && path[|path| - 1] == e;
    var longer := [d] + path;
    assert Chain(roots, deps, longer) && longer[|longer| - 1] == e;
  }

  lemma RecordsSplit(roots: map<string, Root>, deps: set<TraceEntry>, e: TraceEntry) returns (d: TraceEntry)
    requires Records(roots, deps, e)
    ensures d in deps
    ensures d == e || (IsRoot(roots, d.cell) && Records(roots, roots[d.cell.source].trace.deps, e))
  {
    var path :| Chain(roots, deps, path) && path[|path| - 1] == e;
    d := path[0];
    if |path| > 1 {
      var rest := path[1..];
      assert Chain(roots, roots[d.cell.source].trace.deps, rest) && rest[|rest| - 1] == e;
    }
  }

  /** One step of validation: the trace holds exactly when recursive validation of
      each direct dependency answers the recorded revision. */
  lemma AllMatchByDirect(s: EngineState, deps: set<TraceEntry>)
    ensures AllMatch(s, deps) <==> forall e :: e in deps ==> CurrentRevision(s, e.cell) == Some(e.revision)
  {
    if AllMatch(s, deps) {
      forall e | e in deps ensures CurrentRevision(s, e.cell) == Some(e.revision) {
        RecordsDirect(s.roots, deps, e);
        if IsRoot(s.roots, e.cell) {
          forall f | Records(s.roots, s.roots[e.cell.source].trace.deps, f) ensures Matches(s.cells, f) {
            RecordsThrough(s.roots, deps, e, f);
          }
        }
      }
    }
    if forall e :: e in deps ==> CurrentRevision(s, e.cell) == Some(e.revision) {
      forall e | Records(s.roots, deps, e) ensures Matches(s.cells, e) {
        var d := RecordsSplit(s.roots, deps, e);
        assert CurrentRevision(s, d.cell) == Some(d.revision);
      }
    }
  }

  /** A trace that recorded two revisions of one cell never validates. */
  lemma TwoRevisionsNeverMatch(s: EngineState, deps: set<TraceEntry>, e: TraceEntry, f: TraceEntry)
    requires e in deps && f in deps && e.cell == f.cell && e.revision != f.revision
    ensures !AllMatch(s, deps)
  {
    RecordsDirect(s.roots, deps, e);
    RecordsDirect(s.roots, deps, f);
  }

  // ------------------------------------------------------------ invariants

  /** The reverse index lists root `r` under cell `c` exactly when `r` is currently a
      subscriber whose trace records `c` directly, and keeps no empty sets. */
  ghost predicate ReverseExact(s: EngineState) {
    && (forall r :: r in s.subscribers ==> r in s.roots)
    && (forall c :: c in s.reverse ==> s.reverse[c] != {})
    && (forall c, r :: c in s.reverse && r in s.reverse[c] ==>
          r in s.subscribers && r in s.roots && c in DepCells(s.roots[r].trace.deps))
    && (forall c, r :: r in s.subscribers && r in s.roots && c in DepCells(s.roots[r].trace.deps) ==>
          c in s.reverse && r in s.reverse[c])
  }

  /** Every live cell is indexed under its source, and the index never lists a cell
      under a foreign source.  Cells already gone may still be listed. */
  ghost predicate SourcesCover(s: EngineState) {
    && (forall c :: c in s.cells ==> c.source in s.sources && c in s.sources[c.source])
    && (forall k, c :: k in s.sources && c in s.sources[k] ==> c.source == k)
  }

  ghost predicate Consistent(s: EngineState) {
    ReverseExact(s) && SourcesCover(s)
  }

  /** Everything a client can do to the engine. */
  datatype Op =
    | OpSet(cell: CellId, revision: Revision)
    | OpInvalidate(target: CellId)
    | OpRegister(id: string, trace: Trace, digest: string, subscriber: bool)
    | OpRemove(root: string)
    | OpTouch(touched: set<CellId>)
    | OpBegin
    | OpEnd

  /** `OpTouch` stands for any validation: it marks cells and does nothing else. */
  function Apply(s: EngineState, op: Op): EngineState {
    match op
    case OpSet(c, rev) => SetCell(s, c, rev)
    case OpInvalidate(c) => InvalidateCell(s, c)
    case OpRegister(id, trace, digest, sub) => RegisterRoot(s, id, trace, digest, sub)
    case OpRemove(id) => RemoveRoot(s, id)
    case OpTouch(touched) => s.(cells := MarkUsed(s, touched))
    case OpBegin => BeginTransaction(s)
    case OpEnd => EndTransaction(s)
  }

  function RunOps(s: EngineState, ops: seq<Op>): EngineState
    decreases |ops|
  {
    if ops == [] then s else RunOps(Apply(s, ops[0]), ops[1..])
  }

  lemma UnlinkKeepsExact(s: EngineState, id: string)
    requires ReverseExact(s) && id in s.roots
    ensures ReverseExact(RemoveRoot(s, id))
  {
    var t := RemoveRoot(s, id);
    forall c, r | r in t.subscribers && r in t.roots && c in DepCells(t.roots[r].trace.deps)
      ensures c in t.reverse && r in t.reverse[c]
    {
      assert r in s.reverse[c] && r != id;
      assert r in s.reverse[c] - {id};
    }
  }

  /** Registering a root that is not currently in the index. */
  lemma LinkKeepsExact(s: EngineState, t: EngineState, id: string, root: Root, subscriber: bool)
    requires ReverseExact(s) && id !in s.subscribers
    requires t.roots == s.roots[id := root]
    requires t.subscribers == if subscriber then s.subscribers + {id} else s.subscribers
    requires t.reverse == if subscriber then Link(s.reverse, id, DepCells(root.trace.deps)) else s.reverse
    ensures ReverseExact(t)
  {
    forall c, r | r in t.subscribers && r in t.roots && c in DepCells(t.roots[r].trace.deps)
      ensures c in t.reverse && r in t.reverse[c]
    {
      if r != id {
        assert r in s.subscribers && r in s.roots && t.roots[r] == s.roots[r];
      }
    }
    forall c, r | c in t.reverse && r in t.reverse[c]
      ensures r in t.subscribers && r in t.roots && c in DepCells(t.roots[r].trace.deps)
    {
      if r != id {
        assert c in s.reverse && r in s.reverse[c];
      }
    }
  }

  lemma RegisterKeepsExact(s: EngineState, id: string, trace: Trace, digest: string, subscriber: bool)
    requires ReverseExact(s)
    ensures ReverseExact(RegisterRoot(s, id, trace, digest, subscriber))
  {
    var cleared := RemoveRoot(s, id);
    if id in s.roots {
      UnlinkKeepsExact(s, id);
    }
    var t := RegisterRoot(s, id, trace, digest, subscriber);
    assert t.roots == cleared.roots[id := Root(trace, digest)];
    assert cleared.subscribers == s.subscribers - {id};
    LinkKeepsExact(cleared, t, id, Root(trace, digest), subscriber);
  }

  lemma EndKeepsSources(s: EngineState)
    requires SourcesCover(s)
    ensures SourcesCover(EndTransaction(s))
  {
    var t := EndTransaction(s);
    forall c | c in t.cells ensures c.source in t.sources && c in t.sources[c.source] {
      assert c in s.sources[c.source] - Under(Unused(s), c.source);
    }
  }

  lemma SetKeepsConsistent(s: EngineState, cell: CellId, revision: Revision)
    requires Consistent(s)
    ensures Consistent(SetCell(s, cell, revision))
  {
  }

  lemma InvalidateKeepsConsistent(s: EngineState, cell: CellId)
    requires Consistent(s)
    ensures Consistent(InvalidateCell(s, cell))
  {
  }

  lemma RegisterKeepsSources(s: EngineState, id: string, trace: Trace, digest: string, subscriber: bool)
    requires SourcesCover(s)
    ensures SourcesCover(RegisterRoot(s, id, trace, digest, subscriber))
  {
  }

  /** Each operation keeps both indexes consistent. */
  lemma StepKeepsConsistent(s: EngineState, op: Op)
    requires Consistent(s)
    ensures Consistent(Apply(s, op))
  {
    match op
    case OpSet(c, rev) => SetKeepsConsistent(s, c, rev);
    case OpInvalidate(c) => InvalidateKeepsConsistent(s, c);
    case OpRegister(id, trace, digest, sub) =>
      RegisterKeepsExact(s, id, trace, digest, sub);
      RegisterKeepsSources(s, id, trace, digest, sub);
    case OpRemove(id) =>
      if id in s.roots {
        UnlinkKeepsExact(s, id);
      }
    case OpTouch(_) =>
    case OpBegin =>
    case OpEnd => EndKeepsSources(s);
  }

  /** Over every sequence of operations of a new engine the reverse index is exact and
      the source index covers the live cells. */
  lemma RunsFromInitial(ops: seq<Op>)
    ensures Consistent(RunOps(Initial, ops))
  {
    RunsKeepConsistent(Initial, ops);
  }

  lemma {:induction false} RunsKeepConsistent(s: EngineState, ops: seq<Op>)
    requires Consistent(s)
    ensures Consistent(RunOps(s, ops))
    decreases |ops|
  {
    if ops != [] {
      StepKeepsConsistent(s, ops[0]);
      RunsKeepConsistent(Apply(s, ops[0]), ops[1..]);
    }
  }

  // ------------------------------------------------------- garbage collection

  /** Collection keeps a trace valid exactly when it was valid and every cell it
      records, directly or through other roots, was used in this transaction. */
  lemma CollectionExactly(s: EngineState, deps: set<TraceEntry>)
    ensures AllMatch(EndTransaction(s), deps) <==> AllMatch(s, deps) && AllUsed(s, deps)
  {
    var t := EndTransaction(s);
    if AllMatch(t, deps) {
      forall e | Records(s.roots, deps, e)
        ensures Matches(s.cells, e) && s.tx <= s.cells[e.cell].lastUsed
      {
        assert Records(t.roots, deps, e);
        assert Matches(t.cells, e);
      }
    }
    if AllMatch(s, deps) && AllUsed(s, deps) {
      forall e | Records(t.roots, deps, e) ensures Matches(t.cells, e) {
        assert Records(s.roots, deps, e);
      }
    }
  }

  /** The operation stays inside the transaction and neither writes nor drops a cell
      that the trace records, directly or through other roots. */
  ghost predicate Spares(s: EngineState, deps: set<TraceEntry>, op: Op) {
    match op
    case OpSet(c, _) => forall e :: Records(s.roots, deps, e) ==> e.cell != c
    case OpInvalidate(c) => forall e :: Records(s.roots, deps, e) ==> e.cell !in Invalidated(s, c)
    case OpRegister(id, _, _, _) => forall e :: Records(s.roots, deps, e) ==> e.cell != RootCell(id)
    case OpRemove(id) => forall e :: Records(s.roots, deps, e) ==> e.cell != RootCell(id)
    case OpTouch(_) => true
    case OpBegin => false
    case OpEnd => false
  }

  ghost predicate AllSpare(s: EngineState, deps: set<TraceEntry>, ops: seq<Op>)
    decreases |ops|
  {
    ops == [] || (Spares(s, deps, ops[0]) && AllSpare(Apply(s, ops[0]), deps, ops[1..]))
  }

  /** A chain that avoids root `id` in one root table is a chain in any table that
      agrees elsewhere. */
  lemma {:induction false} ChainAvoiding(
    a: map<string, Root>, b: map<string, Root>, id: string, deps: set<TraceEntry>, path: seq<TraceEntry>)
    requires a - {id} == b - {id}
    requires forall e :: Records(a, deps, e) ==> e.cell != RootCell(id)
    requires Chain(b, deps, path)
    ensures Chain(a, deps, path)
    decreases |path|
  {
    if |path| > 1 {
      var front := path[..|path| - 1];
      assert Chain(b, deps, front);
      ChainAvoiding(a, b, id, deps, front);
      var last := front[|front| - 1];
      assert Records(a, deps, last);
      assert last.cell.source in b - {id} && (a - {id})[last.cell.source] == (b - {id})[last.cell.source];
    }
  }

  lemma RecordsAvoiding(a: map<string, Root>, b: map<string, Root>, id: string, deps: set<TraceEntry>, e: TraceEntry)
    requires a - {id} == b - {id}
    requires forall f :: Records(a, deps, f) ==> f.cell != RootCell(id)
    requires Records(b, deps, e)
    ensures Records(a, deps, e)
  {
    var path :| Chain(b, deps, path) && path[|path| - 1] == e;
    ChainAvoiding(a, b, id, deps, path);
  }

  /** An operation that spares the trace does not extend it either. */
  lemma RecordedBefore(s: EngineState, op: Op, deps: set<TraceEntry>, e: TraceEntry)
    requires Spares(s, deps, op) && Records(Apply(s, op).roots, deps, e)
    ensures Records(s.roots, deps, e)
  {
    if op.OpRegister? {
      RecordsAvoiding(s.roots, Apply(s, op).roots, op.id, deps, e);
    } else if op.OpRemove? {
      RecordsAvoiding(s.roots, Apply(s, op).roots, op.root, deps, e);
    }
  }

  lemma SparedCell(s: EngineState, op: Op, deps: set<TraceEntry>, e: TraceEntry)
    requires Spares(s, deps, op) && Records(s.roots, deps, e)
    requires Matches(s.cells, e) && s.tx <= s.cells[e.cell].lastUsed
    ensures Apply(s, op).tx == s.tx
    ensures Matches(Apply(s, op).cells, e) && s.tx <= Apply(s, op).cells[e.cell].lastUsed
  {
  }

  lemma StepKeepsUse(s: EngineState, op: Op, deps: set<TraceEntry>)
    requires Spares(s, deps, op)
    requires AllMatch(s, deps) && AllUsed(s, deps)
    ensures AllMatch(Apply(s, op), deps) && AllUsed(Apply(s, op), deps)
  {
    var t := Apply(s, op);
    forall e | Records(t.roots, deps, e)
      ensures Matches(t.cells, e) && t.tx <= t.cells[e.cell].lastUsed
    {
      RecordedBefore(s, op, deps, e);
      SparedCell(s, op, deps, e);
    }
  }

  lemma {:induction false} RunKeepsUse(s: EngineState, ops: seq<Op>, deps: set<TraceEntry>)
    requires AllSpare(s, deps, ops)
    requires AllMatch(s, deps) && AllUsed(s, deps)
    ensures AllMatch(RunOps(s, ops), deps) && AllUsed(RunOps(s, ops), deps)
    decreases |ops|
  {
    if ops != [] {
      StepKeepsUse(s, ops[0], deps);
      RunKeepsUse(Apply(s, ops[0]), ops[1..], deps);
    }
  }

  /** A trace that validated in this transaction still validates after collection,
      whatever else was validated, registered, written or invalidated meanwhile, as
      long as no cell it records was. */
  lemma ValidatedRootSurvivesCollection(s: EngineState, ops: seq<Op>, deps: set<TraceEntry>)
    requires AllSpare(s, deps, ops)
    requires AllMatch(s, deps) && AllUsed(s, deps)
    ensures AllMatch(EndTransaction(RunOps(s, ops)), deps)
  {
    RunKeepsUse(s, ops, deps);
    CollectionExactly(RunOps(s, ops), deps);
  }

  /** Registration marks only direct dependencies: a freshly registered root over
      another root can be valid and yet not survive collection. */
  lemma RegistrationAloneDoesNotProtect() returns (s: EngineState, deps: set<TraceEntry>)
    ensures "outer" in s.roots && s.roots["outer"].trace.deps == deps
    ensures AllMatch(s, deps) && !AllMatch(EndTransaction(s), deps)
  {
    var base := CellId("file", "/a");
    var baseRev := Counter(1);
    var innerDeps := {TraceEntry(base, baseRev)};
    var inner := RegisterRoot(SetCell(Initial, base, baseRev), "inner", Trace(innerDeps, []), "d", false);
    var s0 := BeginTransaction(inner);
    deps := {TraceEntry(RootCell("inner"), Disk("d"))};
    s := RegisterRoot(s0, "outer", Trace(deps, []), "e", false);
    var top := TraceEntry(RootCell("inner"), Disk("d"));
    var leaf := TraceEntry(base, baseRev);
    assert base in s.cells && s.cells[base] == CellEntry(baseRev, 1) && s.tx == 2;
    assert RootCell("inner") in s.cells && s.cells[RootCell("inner")].revision == Disk("d");
    assert "inner" != "outer";
    assert s.roots["inner"].trace.deps == innerDeps;
    AllMatchByDirect(s, innerDeps);
    AllMatchByDirect(s, deps);
    RecordsDirect(s.roots, innerDeps, leaf);
    RecordsThrough(s.roots, deps, top, leaf);
    CollectionExactly(s, deps);
  }

  // ------------------------------------------------------ source invalidation

  /** After a source is invalidated no cell of it is live, and no trace that records a
      cell of it, even through other roots, validates. */
  lemma InvalidationReachesTransitively(s: EngineState, source: string, deps: set<TraceEntry>, e: TraceEntry)
    requires SourcesCover(s)
    requires Records(s.roots, deps, e) && e.cell.source == source
    ensures forall c :: c in InvalidateCell(s, RootCell(source)).cells ==> c.source != source
    ensures !AllMatch(InvalidateCell(s, RootCell(source)), deps)
  {
    var t := InvalidateCell(s, RootCell(source));
    assert Records(t.roots, deps, e);
  }

  /** Every subscriber that was valid and recorded a cell of the source directly is
      reported. */
  lemma InvalidationReportsSubscribers(s: EngineState, source: string, id: string, e: TraceEntry)
    requires Consistent(s)
    requires id in s.subscribers && id in s.roots && e in s.roots[id].trace.deps && e.cell.source == source
    requires AllMatch(s, s.roots[id].trace.deps)
    ensures id in AffectedRoots(s, RootCell(source))
  {
    RecordsDirect(s.roots, s.roots[id].trace.deps, e);
    assert e.cell in s.cells;
    assert e.cell in DepCells(s.roots[id].trace.deps);
    assert e.cell in Invalidated(s, RootCell(source));
    assert e.cell in s.reverse && id in s.reverse[e.cell];
  }
}
