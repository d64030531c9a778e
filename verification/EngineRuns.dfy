/** What the engine holds, read off the script of operations that led there: which cells
    are live and at which revision, which are marked, which are indexed, who is listed
    under what, and whom an invalidation reports. */
module EngineRuns {
  import opened ReactiveTypes
  import opened EngineModel

  // ----------------------------------------------------------------- single operations

  /** The operation writes the cell; registering a root writes the root's own cell. */
  predicate Writes(op: Op, c: CellId) {
    (op.OpSet? && op.cell == c) || (op.OpRegister? && c == CellId(op.id, ""))
  }

  /** The revision it writes. */
  function Written(op: Op): Revision
    requires op.OpSet? || op.OpRegister?
  {
    if op.OpSet? then op.revision else Disk(op.digest)
  }

  /** The operation invalidates the cell, alone or with everything of its source. */
  predicate Drops(op: Op, c: CellId) {
    op.OpInvalidate? && (op.target == c || Wipes(op, c.source))
  }

  predicate Wipes(op: Op, source: string) {
    op.OpInvalidate? && op.target.pointer == "" && op.target.source == source
  }

  /** The operation counts as a use of the cell, if it is live. */
  predicate Uses(op: Op, c: CellId) {
    || Writes(op, c)
    || (op.OpTouch? && c in op.touched)
    || (op.OpRegister? && exists e :: e in op.trace.deps && e.cell == c)
  }

  /** The operation registers or removes the root. */
  predicate Concerns(op: Op, r: string) {
    (op.OpRegister? && op.id == r) || (op.OpRemove? && op.root == r)
  }

  predicate Subscribes(op: Op, r: string, c: CellId) {
    op.OpRegister? && op.id == r && op.subscriber && exists e :: e in op.trace.deps && e.cell == c
  }

  // -------------------------------------------------------------------- whole scripts

  /** The last operation on the root is a registration that asks for notifications and
      depends on the cell. */
  ghost predicate Listens(ops: seq<Op>, r: string, c: CellId) {
    exists k :: 0 <= k < |ops| && Subscribes(ops[k], r, c) && forall j :: k < j < |ops| ==> !Concerns(ops[j], r)
  }

  /** The cell was used before `j`, and no transaction has begun since. */
  ghost predicate InUse(ops: seq<Op>, c: CellId, j: nat)
    requires j <= |ops|
  {
    exists i :: 0 <= i < j && Uses(ops[i], c) && forall b :: i < b < j ==> !ops[b].OpBegin?
  }

  /** Operation `k` is the last write of the cell, no invalidation has hit the cell since,
      and every collection since has found it in use. */
  ghost predicate LiveSince(ops: seq<Op>, c: CellId, k: nat) {
    && k < |ops| && Writes(ops[k], c)
    && forall j :: k < j < |ops| ==>
         !Writes(ops[j], c) && !Drops(ops[j], c) && (ops[j].OpEnd? ==> InUse(ops, c, j))
  }

  ghost predicate Live(ops: seq<Op>, c: CellId) {
    exists k :: LiveSince(ops, c, k)
  }

  /** The collection at `j` takes the cell away. */
  ghost predicate Collects(ops: seq<Op>, c: CellId, j: nat)
    requires j < |ops|
  {
    ops[j].OpEnd? && Live(ops[..j], c) && !InUse(ops, c, j)
  }

  /** Operation `k` has written the cell, and since then its source was not wiped and no
      collection took the cell away.  Invalidating the cell alone leaves it indexed. */
  ghost predicate IndexedSince(ops: seq<Op>, c: CellId, k: nat) {
    && k < |ops| && Writes(ops[k], c)
    && forall j :: k < j < |ops| ==> !Wipes(ops[j], c.source) && !Collects(ops, c, j)
  }

  ghost predicate Indexed(ops: seq<Op>, c: CellId) {
    exists k :: IndexedSince(ops, c, k)
  }

  /** The cells an invalidation is about: for an empty pointer all that are indexed under
      the source, if there are any, and otherwise the cell itself. */
  ghost predicate Hit(ops: seq<Op>, target: CellId, c: CellId) {
    if target.pointer == "" && exists d: CellId :: d.source == target.source && Indexed(ops, d)
    then c.source == target.source && Indexed(ops, c)
    else c == target
  }

  // ---------------------------------------------------------------- one operation more

  lemma {:induction false} RunAppend(s: EngineState, ops: seq<Op>, op: Op)
    ensures RunOps(s, ops + [op]) == Apply(RunOps(s, ops), op)
    decreases |ops|
  {
    if ops == [] {
      assert ops + [op] == [op] && [op][1..] == [];
    } else {
      assert (ops + [op])[1..] == ops[1..] + [op];
      RunAppend(Apply(s, ops[0]), ops[1..], op);
    }
  }

  lemma InUseBefore(ops: seq<Op>, op: Op, c: CellId, j: nat)
    requires j <= |ops|
    ensures InUse(ops + [op], c, j) <==> InUse(ops, c, j)
  {
    var more := ops + [op];
    assert forall i :: 0 <= i < j ==> more[i] == ops[i];
    if InUse(more, c, j) {
      var i :| 0 <= i < j && Uses(more[i], c) && forall b :: i < b < j ==> !more[b].OpBegin?;
      assert Uses(ops[i], c) && forall b :: i < b < j ==> !ops[b].OpBegin?;
    }
    if InUse(ops, c, j) {
      var i :| 0 <= i < j && Uses(ops[i], c) && forall b :: i < b < j ==> !ops[b].OpBegin?;
      assert Uses(more[i], c) && forall b :: i < b < j ==> !more[b].OpBegin?;
    }
  }

  lemma InUseNow(ops: seq<Op>, op: Op, c: CellId)
    ensures InUse(ops + [op], c, |ops| + 1) <==> Uses(op, c) || (!op.OpBegin? && InUse(ops, c, |ops|))
  {
    var more, n := ops + [op], |ops|;
    assert more[n] == op && forall i :: 0 <= i < n ==> more[i] == ops[i];
    if InUse(more, c, n + 1) && !Uses(op, c) {
      var i :| 0 <= i < n + 1 && Uses(more[i], c) && forall b :: i < b < n + 1 ==> !more[b].OpBegin?;
      assert i < n && !more[n].OpBegin?;
      assert Uses(ops[i], c) && forall b :: i < b < n ==> !ops[b].OpBegin?;
    }
    if Uses(op, c) {
      assert Uses(more[n], c);
    } else if !op.OpBegin? && InUse(ops, c, n) {
      var i :| 0 <= i < n && Uses(ops[i], c) && forall b :: i < b < n ==> !ops[b].OpBegin?;
      assert Uses(more[i], c) && forall b :: i < b < n + 1 ==> !more[b].OpBegin?;
    }
  }

  /** The operation leaves a live cell alone. */
  ghost predicate Leaves(ops: seq<Op>, op: Op, c: CellId) {
    !Writes(op, c) && !Drops(op, c) && (op.OpEnd? ==> InUse(ops, c, |ops|))
  }

  lemma LiveSinceNow(ops: seq<Op>, op: Op, c: CellId, k: nat)
    ensures LiveSince(ops + [op], c, k) <==>
            (k == |ops| && Writes(op, c)) || (LiveSince(ops, c, k) && Leaves(ops, op, c))
  {
    var more, n := ops + [op], |ops|;
    assert more[n] == op && forall i :: 0 <= i < n ==> more[i] == ops[i];
    forall j | 0 <= j <= n ensures InUse(more, c, j) <==> InUse(ops, c, j) {
      InUseBefore(ops, op, c, j);
    }
    if LiveSince(more, c, k) && k < n {
      assert forall j :: k < j < n ==> more[j] == ops[j];
      assert LiveSince(ops, c, k) && Leaves(ops, more[n], c);
    }
    if LiveSince(ops, c, k) && Leaves(ops, op, c) {
      forall j | k < j < |more|
        ensures !Writes(more[j], c) && !Drops(more[j], c) && (more[j].OpEnd? ==> InUse(more, c, j))
      {
      }
    }
  }

  lemma CollectsBefore(ops: seq<Op>, op: Op, c: CellId, j: nat)
    requires j <= |ops|
    ensures Collects(ops + [op], c, j) <==>
            if j < |ops| then Collects(ops, c, j) else op.OpEnd? && Live(ops, c) && !InUse(ops, c, j)
  {
    assert (ops + [op])[..j] == ops[..j] && ops[..|ops|] == ops;
    InUseBefore(ops, op, c, j);
  }

  lemma IndexedSinceNow(ops: seq<Op>, op: Op, c: CellId, k: nat)
    requires k < |ops|
    ensures IndexedSince(ops + [op], c, k) <==>
            IndexedSince(ops, c, k) && !Wipes(op, c.source) && !Collects(ops + [op], c, |ops|)
  {
    var more, n := ops + [op], |ops|;
    assert more[n] == op && forall i :: 0 <= i < n ==> more[i] == ops[i];
    forall j | 0 <= j < n ensures Collects(more, c, j) <==> Collects(ops, c, j) {
      CollectsBefore(ops, op, c, j);
    }
    if IndexedSince(more, c, k) {
      forall j | k < j < n ensures !Wipes(ops[j], c.source) && !Collects(ops, c, j) {
        assert !Wipes(more[j], c.source) && !Collects(more, c, j);
      }
    }
  }

  lemma IndexedNow(ops: seq<Op>, op: Op, c: CellId)
    ensures Indexed(ops + [op], c) <==>
            Writes(op, c) || (Indexed(ops, c) && !Wipes(op, c.source) &&
                              !(op.OpEnd? && Live(ops, c) && !InUse(ops, c, |ops|)))
  {
    var more, n := ops + [op], |ops|;
    assert more[n] == op;
    CollectsBefore(ops, op, c, n);
    if Indexed(more, c) && !Writes(op, c) {
      var k :| IndexedSince(more, c, k);
      IndexedSinceNow(ops, op, c, k);
    }
    if Writes(op, c) {
      assert IndexedSince(more, c, n);
    } else if Indexed(ops, c) && !Wipes(op, c.source) && !Collects(more, c, n) {
      var k :| IndexedSince(ops, c, k);
      IndexedSinceNow(ops, op, c, k);
    }
  }

  lemma ListensNow(ops: seq<Op>, op: Op, r: string, c: CellId)
    ensures Listens(ops + [op], r, c) <==> Subscribes(op, r, c) || (Listens(ops, r, c) && !Concerns(op, r))
  {
    var more, n := ops + [op], |ops|;
    assert more[n] == op && forall i :: 0 <= i < n ==> more[i] == ops[i];
    if Listens(more, r, c) && !Subscribes(op, r, c) {
      var k :| 0 <= k < |more| && Subscribes(more[k], r, c) && forall j :: k < j < |more| ==> !Concerns(more[j], r);
      assert k < n && !Concerns(more[n], r);
      assert Subscribes(ops[k], r, c) && forall j :: k < j < n ==> !Concerns(ops[j], r);
    }
    if Subscribes(op, r, c) {
      assert Subscribes(more[n], r, c);
    } else if Listens(ops, r, c) && !Concerns(op, r) {
      var k :| 0 <= k < n && Subscribes(ops[k], r, c) && forall j :: k < j < n ==> !Concerns(ops[j], r);
      assert Subscribes(more[k], r, c);
      forall j | k < j < |more| ensures !Concerns(more[j], r) {
      }
    }
  }

  // --------------------------------------------------------------- what a state shows

  ghost predicate Listed(s: EngineState, r: string, c: CellId) {
    c in s.reverse && r in s.reverse[c]
  }

  /** A live cell has the revision of its last write, and is marked exactly when it has
      been used in the current transaction. */
  ghost predicate CellShown(ops: seq<Op>, s: EngineState, c: CellId) {
    && (c in s.cells <==> Live(ops, c))
    && (c in s.cells ==>
          && (forall k: nat :: LiveSince(ops, c, k) ==> s.cells[c].revision == Written(ops[k]))
          && s.cells[c].lastUsed <= s.tx
          && (s.cells[c].lastUsed == s.tx <==> InUse(ops, c, |ops|)))
  }

  ghost predicate IndexShown(ops: seq<Op>, s: EngineState, c: CellId) {
    (c.source in s.sources && c in s.sources[c.source]) <==> Indexed(ops, c)
  }

  ghost predicate NoEmptySources(s: EngineState) {
    forall k :: k in s.sources ==> s.sources[k] != {}
  }

  lemma LiveNow(ops: seq<Op>, op: Op, c: CellId)
    ensures Live(ops + [op], c) <==> Writes(op, c) || (Live(ops, c) && Leaves(ops, op, c))
  {
    if Writes(op, c) {
      LiveSinceNow(ops, op, c, |ops|);
      assert LiveSince(ops + [op], c, |ops|);
    } else if Live(ops, c) && Leaves(ops, op, c) {
      var k :| LiveSince(ops, c, k);
      LiveSinceNow(ops, op, c, k);
      assert LiveSince(ops + [op], c, k);
    }
    if Live(ops + [op], c) {
      var k :| LiveSince(ops + [op], c, k);
      LiveSinceNow(ops, op, c, k);
    }
  }

  /** Which cells are there after one operation. */
  lemma CellsNow(ops: seq<Op>, s: EngineState, op: Op, c: CellId)
    requires Consistent(s) && CellShown(ops, s, c)
    ensures c in Apply(s, op).cells <==> Writes(op, c) || (c in s.cells && Leaves(ops, op, c))
  {
    match op
    case OpInvalidate(t) =>
      if c in s.cells && Wipes(op, c.source) {
        assert c in Invalidated(s, t);
      }
    case OpEnd => assert c in Unused(s) <==> c in s.cells && s.cells[c].lastUsed < s.tx;
    case _ =>
  }

  lemma MarksNow(ops: seq<Op>, s: EngineState, op: Op, c: CellId)
    requires CellShown(ops, s, c) && c in Apply(s, op).cells
    requires Writes(op, c) || c in s.cells
    ensures var t := Apply(s, op);
            && t.cells[c].revision == (if Writes(op, c) then Written(op) else s.cells[c].revision)
            && t.cells[c].lastUsed <= t.tx
            && (t.cells[c].lastUsed == t.tx <==> Uses(op, c) || (!op.OpBegin? && InUse(ops, c, |ops|)))
  {
    if op.OpRegister? {
      assert c in DepCells(op.trace.deps) <==> exists e :: e in op.trace.deps && e.cell == c;
    }
  }

  lemma CellNow(ops: seq<Op>, s: EngineState, op: Op, c: CellId)
    requires Consistent(s) && CellShown(ops, s, c)
    ensures CellShown(ops + [op], Apply(s, op), c)
  {
    var more, t := ops + [op], Apply(s, op);
    CellsNow(ops, s, op, c);
    LiveNow(ops, op, c);
    InUseNow(ops, op, c);
    assert more[|ops|] == op;
    if c in t.cells {
      MarksNow(ops, s, op, c);
      forall k: nat | LiveSince(more, c, k) ensures t.cells[c].revision == Written(more[k]) {
        LiveSinceNow(ops, op, c, k);
        if k < |ops| {
          assert more[k] == ops[k];
        }
      }
    }
  }

  lemma StillListed(sources: map<string, set<CellId>>, gone: set<CellId>, c: CellId)
    ensures var left := Unlist(sources, gone);
            (c.source in left && c in left[c.source]) <==>
            c.source in sources && c in sources[c.source] && c !in gone
  {
    assert c in Under(gone, c.source) <==> c in gone;
    if c.source in sources && c in sources[c.source] && c !in gone {
      assert c in sources[c.source] - Under(gone, c.source);
    }
  }

  lemma IndexAfterEnd(ops: seq<Op>, s: EngineState, c: CellId)
    requires CellShown(ops, s, c) && IndexShown(ops, s, c)
    ensures var t := EndTransaction(s).sources;
            (c.source in t && c in t[c.source]) <==> Indexed(ops, c) && !(Live(ops, c) && !InUse(ops, c, |ops|))
  {
    assert c in Unused(s) <==> Live(ops, c) && !InUse(ops, c, |ops|);
    StillListed(s.sources, Unused(s), c);
  }

  lemma IndexNow(ops: seq<Op>, s: EngineState, op: Op, c: CellId)
    requires Consistent(s) && CellShown(ops, s, c) && IndexShown(ops, s, c)
    ensures IndexShown(ops + [op], Apply(s, op), c)
  {
    IndexedNow(ops, op, c);
    if op.OpEnd? {
      IndexAfterEnd(ops, s, c);
    }
  }

  lemma SourcesStayFull(s: EngineState, op: Op)
    requires NoEmptySources(s)
    ensures NoEmptySources(Apply(s, op))
  {
  }

  /** Unlinking the old trace of a root takes it out of the index altogether. */
  lemma UnlinkedRoot(s: EngineState, id: string, r: string, c: CellId)
    requires Consistent(s)
    ensures Listed(RemoveRoot(s, id), r, c) <==> Listed(s, r, c) && r != id
  {
    if Listed(s, r, c) && r != id {
      assert r in s.reverse[c] - {id};
    }
  }

  lemma LinkedRoot(reverse: map<CellId, set<string>>, id: string, cells: set<CellId>, r: string, c: CellId)
    ensures var linked := Link(reverse, id, cells);
            c in linked && r in linked[c] <==> (r == id && c in cells) || (c in reverse && r in reverse[c])
  {
  }

  lemma RegisteredRoot(s: EngineState, op: Op, r: string, c: CellId)
    requires Consistent(s) && op.OpRegister?
    ensures Listed(Apply(s, op), r, c) <==> Subscribes(op, r, c) || (Listed(s, r, c) && r != op.id)
  {
    var cells, cleared := DepCells(op.trace.deps), RemoveRoot(s, op.id);
    UnlinkedRoot(s, op.id, r, c);
    LinkedRoot(cleared.reverse, op.id, cells, r, c);
    assert c in cells <==> exists e :: e in op.trace.deps && e.cell == c;
    assert Apply(s, op).reverse == if op.subscriber then Link(cleared.reverse, op.id, cells) else cleared.reverse;
  }

  lemma ListedNow(s: EngineState, op: Op, r: string, c: CellId)
    requires Consistent(s)
    ensures Listed(Apply(s, op), r, c) <==> Subscribes(op, r, c) || (Listed(s, r, c) && !Concerns(op, r))
  {
    if op.OpRegister? {
      RegisteredRoot(s, op, r, c);
    } else if op.OpRemove? {
      UnlinkedRoot(s, op.root, r, c);
    }
  }

  // ------------------------------------------------------------------------ the laws

  /** Everything at once, by induction over the script. */
  lemma {:induction false} RunShown(ops: seq<Op>)
    ensures var s := RunOps(Initial, ops);
            && NoEmptySources(s)
            && (forall c :: CellShown(ops, s, c) && IndexShown(ops, s, c))
            && (forall r, c :: Listed(s, r, c) <==> Listens(ops, r, c))
    decreases |ops|
  {
    if ops != [] {
      var n := |ops| - 1;
      var before, op, s := ops[..n], ops[n], RunOps(Initial, ops[..n]);
      assert ops == before + [op];
      RunShown(before);
      RunsFromInitial(before);
      RunAppend(Initial, before, op);
      SourcesStayFull(s, op);
      forall c ensures CellShown(ops, Apply(s, op), c) && IndexShown(ops, Apply(s, op), c) {
        CellNow(before, s, op, c);
        IndexNow(before, s, op, c);
      }
      forall r, c ensures Listed(Apply(s, op), r, c) <==> Listens(ops, r, c) {
        ListedNow(s, op, r, c);
        ListensNow(before, op, r, c);
      }
    }
  }

  /** A root is listed under a cell exactly when the last operation on it was a subscribing
      registration that depends on the cell. */
  lemma ListedIff(ops: seq<Op>, r: string, c: CellId)
    ensures c in RunOps(Initial, ops).reverse && r in RunOps(Initial, ops).reverse[c] <==> Listens(ops, r, c)
  {
    RunShown(ops);
    assert Listed(RunOps(Initial, ops), r, c) <==> Listens(ops, r, c);
  }

  /** A cell is stored exactly when no invalidation and no collection has taken it since its
      last write, and it has the revision of that write. */
  lemma StoredIff(ops: seq<Op>, c: CellId)
    ensures c in RunOps(Initial, ops).cells <==> Live(ops, c)
    ensures forall k: nat :: LiveSince(ops, c, k) ==> RunOps(Initial, ops).cells[c].revision == Written(ops[k])
  {
    RunShown(ops);
    assert CellShown(ops, RunOps(Initial, ops), c);
  }

  /** The next collection takes exactly the live cells that were not used since the last
      transaction began. */
  lemma CollectedIff(ops: seq<Op>, c: CellId)
    requires c in RunOps(Initial, ops).cells
    ensures c !in EndTransaction(RunOps(Initial, ops)).cells <==> !InUse(ops, c, |ops|)
  {
    RunShown(ops);
    assert CellShown(ops, RunOps(Initial, ops), c);
  }

  /** An invalidation reports exactly the roots that listen to a cell it is about. */
  lemma ReportedIff(ops: seq<Op>, target: CellId, r: string)
    ensures r in AffectedRoots(RunOps(Initial, ops), target) <==>
            exists c :: Hit(ops, target, c) && Listens(ops, r, c)
  {
    var s := RunOps(Initial, ops);
    RunShown(ops);
    RunsFromInitial(ops);
    forall c ensures c in Invalidated(s, target) <==> Hit(ops, target, c) {
      HitIff(ops, s, target, c);
    }
    if r in AffectedRoots(s, target) {
      var c :| c in Invalidated(s, target) && c in s.reverse && r in s.reverse[c];
      assert Listed(s, r, c) && Hit(ops, target, c);
    }
    if c :| Hit(ops, target, c) && Listens(ops, r, c) {
      assert Listed(s, r, c) && c in Invalidated(s, target);
    }
  }

  lemma HitIff(ops: seq<Op>, s: EngineState, target: CellId, c: CellId)
    requires Consistent(s) && NoEmptySources(s) && forall d :: IndexShown(ops, s, d)
    ensures c in Invalidated(s, target) <==> Hit(ops, target, c)
  {
    assert IndexShown(ops, s, c);
    if target.source in s.sources {
      var d :| d in s.sources[target.source];
      assert IndexShown(ops, s, d) && d.source == target.source;
    } else {
      forall d: CellId | d.source == target.source ensures !Indexed(ops, d) {
        assert IndexShown(ops, s, d);
      }
    }
  }

  /** Operation `k` is the last one on the root, and registers it. */
  ghost predicate RegisteredBy(ops: seq<Op>, r: string, k: nat) {
    && k < |ops| && ops[k].OpRegister? && ops[k].id == r
    && forall j :: k < j < |ops| ==> !Concerns(ops[j], r)
  }

  /** A root is known exactly when the last operation on it is a registration, whose trace
      and digest it has. */
  lemma {:induction false} RegisteredIff(ops: seq<Op>, r: string)
    ensures var roots := RunOps(Initial, ops).roots;
            && (r in roots <==> exists k :: RegisteredBy(ops, r, k))
            && (forall k: nat :: RegisteredBy(ops, r, k) ==>
                  r in roots && roots[r] == Root(ops[k].trace, ops[k].digest))
    decreases |ops|
  {
    if ops != [] {
      var n := |ops| - 1;
      var before, op := ops[..n], ops[n];
      assert ops == before + [op];
      RegisteredIff(before, r);
      RunAppend(Initial, before, op);
      forall k: nat
        ensures RegisteredBy(ops, r, k) <==>
                (k == n && op.OpRegister? && op.id == r) || (RegisteredBy(before, r, k) && !Concerns(op, r))
      {
        RegisteredNow(before, op, r, k);
      }
      if r in RunOps(Initial, before).roots && !Concerns(op, r) {
        var k :| RegisteredBy(before, r, k);
        assert RegisteredBy(ops, r, k);
      }
      assert op.OpRegister? && op.id == r ==> RegisteredBy(ops, r, n);
    }
  }

  lemma RegisteredNow(ops: seq<Op>, op: Op, r: string, k: nat)
    ensures RegisteredBy(ops + [op], r, k) <==>
            (k == |ops| && op.OpRegister? && op.id == r) || (RegisteredBy(ops, r, k) && !Concerns(op, r))
  {
    var more, n := ops + [op], |ops|;
    assert more[n] == op && forall i :: 0 <= i < n ==> more[i] == ops[i];
    if RegisteredBy(more, r, k) && k < n {
      assert !Concerns(more[n], r);
      forall j | k < j < n ensures !Concerns(ops[j], r) {
        assert !Concerns(more[j], r);
      }
    }
  }
}
