/** The reactive map and sequence over a runtime.  Each method is proved to act on
    the collection as CollectionModel says, to answer the corresponding query, and to
    record exactly the trace that the model gives that query; the `Cell lost` panics
    cannot happen. */
module Collections {
  import opened Wrappers
  import opened ReactiveTypes
  import opened Computation
  import opened RuntimeObject
  import M = RuntimeModel
  import C = CollectionModel

  ghost function WorldOf(rt: Runtime): C.World
    reads rt, rt.engine
  {
    C.World(rt.store, rt.Revisions(), rt.counter, rt.epoch)
  }

  lemma WorldIsOk(rt: Runtime)
    requires rt.Valid()
    ensures C.WorldOk(WorldOf(rt))
    ensures forall c :: c in rt.store ==> c == RootCell(c.source) && c.source !in M.Ids(rt.defs)
  {
    var s := rt.View();
    M.Open(s, rt.defs, rt.epoch);
  }

  /** The id minted for a new cell is neither a live cell nor a computed value. */
  ghost predicate Fresh(rt: Runtime, id: string)
    reads rt
  {
    RootCell(id) !in rt.store && id !in M.Ids(rt.defs)
  }

  /** A runtime cell that a collection may hold. */
  ghost predicate Holdable(rt: Runtime, c: CellId) {
    c == RootCell(c.source) && c.source !in M.Ids(rt.defs)
  }

  method PutCell(rt: Runtime, c: CellId, v: Json)
    requires rt.Valid() && Holdable(rt, c)
    modifies rt, rt.engine
    ensures rt.Valid() && WorldOf(rt) == C.Put(old(WorldOf(rt)), c, v) && rt.traces == old(rt.traces)
  {
    rt.Put(c, v);
  }

  method EraseCell(rt: Runtime, c: CellId)
    requires rt.Valid()
    modifies rt, rt.engine
    ensures rt.Valid() && WorldOf(rt) == C.Erase(old(WorldOf(rt)), c) && rt.traces == old(rt.traces)
  {
    var _ := rt.RemoveCell(c);
  }

  method GetCell(rt: Runtime, c: CellId) returns (v: Json)
    requires rt.Valid() && c in rt.store
    modifies rt`traces, rt.engine`cells
    ensures rt.Valid() && WorldOf(rt) == old(WorldOf(rt))
    ensures v == Lookup(rt.store, c)
    ensures rt.traces == M.Recorded(old(rt.traces), M.Stamped({c}, WorldOf(rt).revisions))
  {
    WorldIsOk(rt);
    assert {c} * rt.store.Keys == {c};
    var current := rt.Get(c);
    v := current.value;
  }

  lemma RecordedTwice(traces: seq<Trace>, a: set<TraceEntry>, b: set<TraceEntry>)
    ensures M.Recorded(M.Recorded(traces, a), b) == M.Recorded(traces, a + b)
  {
    if traces != [] {
      var top := traces[|traces| - 1];
      assert (top.deps + a) + b == top.deps + (a + b);
    }
  }

  lemma RecordMore(traces: seq<Trace>, a: set<CellId>, b: set<CellId>, revisions: map<CellId, Revision>)
    ensures M.Recorded(M.Recorded(traces, M.Stamped(a, revisions)), M.Stamped(b, revisions))
         == M.Recorded(traces, M.Stamped(a + b, revisions))
  {
    RecordedTwice(traces, M.Stamped(a, revisions), M.Stamped(b, revisions));
    M.StampedUnion(a, b, revisions);
  }

  /** Read every element cell of a map. */
  method GetCells<K>(rt: Runtime, cells: map<K, CellId>) returns (entries: map<K, Json>)
    requires rt.Valid() && forall k :: k in cells ==> cells[k] in rt.store
    modifies rt`traces, rt.engine`cells
    ensures rt.Valid() && WorldOf(rt) == old(WorldOf(rt))
    ensures entries == map k | k in cells :: Lookup(rt.store, cells[k])
    ensures rt.traces == M.Recorded(old(rt.traces), M.Stamped(cells.Values, WorldOf(rt).revisions))
  {
    entries := map[];
    var todo := cells.Keys;
    ghost var world, looked: set<CellId> := WorldOf(rt), {};
    RecordNothing(rt.traces, world.revisions);
    while todo != {}
      invariant todo <= cells.Keys
      invariant rt.Valid() && WorldOf(rt) == world
      invariant entries.Keys == cells.Keys - todo
      invariant forall k :: k in entries ==> entries[k] == Lookup(world.store, cells[k])
      invariant looked <= cells.Values && forall k :: k in entries ==> cells[k] in looked
      invariant rt.traces == M.Recorded(old(rt.traces), M.Stamped(looked, world.revisions))
      decreases |todo|
    {
      var k :| k in todo;
      todo := todo - {k};
      var current := GetCell(rt, cells[k]);
      entries := entries[k := current];
      RecordMore(old(rt.traces), looked, {cells[k]}, world.revisions);
      looked := looked + {cells[k]};
    }
    AllRead(cells, entries, looked, world.store);
  }

  lemma AllRead<K>(cells: map<K, CellId>, entries: map<K, Json>, looked: set<CellId>, store: Store)
    requires entries.Keys == cells.Keys && forall k :: k in entries ==> entries[k] == Lookup(store, cells[k])
    requires looked <= cells.Values && forall k :: k in entries ==> cells[k] in looked
    ensures entries == map k | k in cells :: Lookup(store, cells[k])
    ensures looked == cells.Values
  {
  }

  /** Read every element cell of a sequence, in order. */
  method GetCellsInOrder(rt: Runtime, cells: seq<CellId>) returns (items: seq<Json>)
    requires rt.Valid() && forall i :: 0 <= i < |cells| ==> cells[i] in rt.store
    modifies rt`traces, rt.engine`cells
    ensures rt.Valid() && WorldOf(rt) == old(WorldOf(rt))
    ensures |items| == |cells| && forall i :: 0 <= i < |cells| ==> items[i] == Lookup(rt.store, cells[i])
    ensures rt.traces == M.Recorded(old(rt.traces), M.Stamped((set c | c in cells), WorldOf(rt).revisions))
  {
    items := [];
    ghost var world, looked: set<CellId> := WorldOf(rt), {};
    RecordNothing(rt.traces, world.revisions);
    for k := 0 to |cells|
      invariant rt.Valid() && WorldOf(rt) == world
      invariant |items| == k && forall i :: 0 <= i < k ==> items[i] == Lookup(world.store, cells[i])
      invariant looked == set i | 0 <= i < k :: cells[i]
      invariant rt.traces == M.Recorded(old(rt.traces), M.Stamped(looked, world.revisions))
    {
      var current := GetCell(rt, cells[k]);
      items := items + [current];
      RecordMore(old(rt.traces), looked, {cells[k]}, world.revisions);
      looked := looked + {cells[k]};
    }
    assert looked == set c | c in cells;
  }

  lemma RecordNothing(traces: seq<Trace>, revisions: map<CellId, Revision>)
    ensures M.Recorded(traces, M.Stamped({}, revisions)) == traces
  {
    assert M.Stamped({}, revisions) == {};
    if traces != [] {
      assert traces[|traces| - 1].deps + {} == traces[|traces| - 1].deps;
    }
  }

  class ReactiveMap<K(==)> {
    const rt: Runtime
    const structure: CellId
    var cells: map<K, CellId>

    ghost function View(): C.Collection<K>
      reads this, rt, rt.engine
    {
      C.Collection(WorldOf(rt), structure, cells)
    }

    /** The map that readers see. */
    ghost function Contents(): map<K, Json>
      reads this, rt, rt.engine
    {
      C.Elements(View())
    }

    ghost predicate Valid()
      reads this, rt, rt.engine
    {
      rt.Valid() && C.Valid(View())
    }

    constructor (rt: Runtime, id: string)
      requires rt.Valid() && Fresh(rt, id + "_structure")
      modifies rt, rt.engine
      ensures Valid() && this.rt == rt && cells == map[] && Contents() == map[]
      ensures rt.traces == old(rt.traces)
    {
      this.rt := rt;
      structure := RootCell(id + "_structure");
      cells := map[];
      new;
      rt.Put(structure, Null);
      WorldIsOk(rt);
    }

    method ReadStructure()
      requires Valid()
      modifies rt`traces, rt.engine`cells
      ensures Valid() && View() == old(View())
      ensures rt.traces == M.Recorded(old(rt.traces), M.Stamped({structure}, WorldOf(rt).revisions))
    {
      var _ := GetCell(rt, structure);
    }

    method NotifyStructure()
      requires rt.Valid() && Holdable(rt, structure)
      modifies rt, rt.engine
      ensures rt.Valid() && View() == C.Notified(old(View())) && rt.traces == old(rt.traces)
    {
      PutCell(rt, structure, Null);
    }

    method InsertNew(key: K, value: Json, id: string)
      requires Valid() && key !in cells && Fresh(rt, id)
      modifies this`cells, rt, rt.engine
      ensures rt.Valid() && View() == C.Insert(old(View()), key, value, RootCell(id)) && rt.traces == old(rt.traces)
    {
      WorldIsOk(rt);
      PutCell(rt, RootCell(id), value);
      cells := cells[key := RootCell(id)];
      NotifyStructure();
    }

    method Overwrite(key: K, value: Json) returns (previous: Json)
      requires Valid() && key in cells
      modifies rt, rt.engine
      ensures rt.Valid() && View() == C.Insert(old(View()), key, value, structure)
      ensures previous == Lookup(old(rt.store), cells[key])
      ensures rt.traces == M.Recorded(old(rt.traces), M.Stamped({cells[key]}, old(WorldOf(rt)).revisions))
    {
      previous := GetCell(rt, cells[key]);
      if previous != value {
        WorldIsOk(rt);
        PutCell(rt, cells[key], value);
      }
    }

    method Insert(key: K, value: Json, id: string) returns (previous: Option<Json>)
      requires Valid() && (key !in cells ==> Fresh(rt, id))
      modifies this`cells, rt, rt.engine
      ensures Valid()
      ensures Contents() == old(Contents())[key := value]
      ensures previous == if key in old(Contents()) then Some(old(Contents())[key]) else None
      ensures View() == C.Insert(old(View()), key, value, RootCell(id))
      ensures C.Element(previous) == C.Ask(old(View()), C.Get(key))
      ensures rt.traces ==
              if key in old(cells) then M.Recorded(old(rt.traces), old(C.TraceOf(View(), C.Get(key))))
              else old(rt.traces)
    {
      C.StepKeepsValid(View(), C.OpInsert(key, value, RootCell(id)));
      C.InsertIsUpdate(View(), key, value, RootCell(id));
      if key in cells {
        var current := Overwrite(key, value);
        return Some(current);
      }
      InsertNew(key, value, id);
      return None;
    }

    method Remove(key: K) returns (previous: Option<Json>)
      requires Valid()
      modifies this`cells, rt, rt.engine
      ensures Valid()
      ensures Contents() == old(Contents()) - {key}
      ensures previous == if key in old(Contents()) then Some(old(Contents())[key]) else None
      ensures View() == C.Remove(old(View()), key)
      ensures C.Element(previous) == C.Ask(old(View()), C.Get(key))
      ensures rt.traces ==
              if key in old(cells) then M.Recorded(old(rt.traces), old(C.TraceOf(View(), C.Get(key))))
              else old(rt.traces)
    {
      C.StepKeepsValid(View(), C.OpRemove(key));
      C.RemoveIsDeletion(View(), key);
      if key !in cells {
        return None;
      }
      WorldIsOk(rt);
      var cell := cells[key];
      cells := cells - {key};
      var current := GetCell(rt, cell);
      EraseCell(rt, cell);
      NotifyStructure();
      return Some(current);
    }

    method Get(key: K) returns (value: Option<Json>)
      requires Valid()
      modifies rt`traces, rt.engine`cells
      ensures Valid() && View() == old(View())
      ensures value == if key in Contents() then Some(Contents()[key]) else None
      ensures C.Element(value) == C.Ask(View(), C.Get(key))
      ensures rt.traces == M.Recorded(old(rt.traces), C.TraceOf(View(), C.Get(key)))
    {
      if key in cells {
        var current := GetCell(rt, cells[key]);
        return Some(current);
      }
      ReadStructure();
      return None;
    }

    method ContainsKey(key: K) returns (present: bool)
      requires Valid()
      modifies rt`traces, rt.engine`cells
      ensures Valid() && View() == old(View())
      ensures present == (key in Contents())
      ensures C.Truth(present) == C.Ask(View(), C.Contains(key))
      ensures rt.traces == M.Recorded(old(rt.traces), C.TraceOf(View(), C.Contains(key)))
    {
      ReadStructure();
      present := key in cells;
    }

    method Keys() returns (keys: set<K>)
      requires Valid()
      modifies rt`traces, rt.engine`cells
      ensures Valid() && View() == old(View())
      ensures keys == Contents().Keys
      ensures C.KeySet(keys) == C.Ask(View(), C.Keys)
      ensures rt.traces == M.Recorded(old(rt.traces), C.TraceOf(View(), C.Keys))
    {
      ReadStructure();
      keys := cells.Keys;
    }

    method Len() returns (size: nat)
      requires Valid()
      modifies rt`traces, rt.engine`cells
      ensures Valid() && View() == old(View())
      ensures size == |Contents()|
      ensures C.Count(size) == C.Ask(View(), C.Size)
      ensures rt.traces == M.Recorded(old(rt.traces), C.TraceOf(View(), C.Size))
    {
      ReadStructure();
      size := |cells|;
      C.AskedLikeAMap(View(), C.Size);
    }

    method ReadElements() returns (entries: map<K, Json>)
      requires Valid()
      modifies rt`traces, rt.engine`cells
      ensures Valid() && View() == old(View()) && entries == C.Elements(View())
      ensures rt.traces == M.Recorded(old(rt.traces), M.Stamped(cells.Values, WorldOf(rt).revisions))
    {
      entries := GetCells(rt, cells);
    }

    method ToMap() returns (entries: map<K, Json>)
      requires Valid()
      modifies rt`traces, rt.engine`cells
      ensures Valid() && View() == old(View())
      ensures entries == Contents()
      ensures C.Entries(entries) == C.Ask(View(), C.Contents)
      ensures rt.traces == M.Recorded(old(rt.traces), C.TraceOf(View(), C.Contents))
    {
      ReadStructure();
      entries := ReadElements();
      RecordMore(old(rt.traces), {structure}, cells.Values, WorldOf(rt).revisions);
    }
  }

  ghost function Indexed(cells: seq<CellId>): map<nat, CellId> {
    map i: nat | i < |cells| :: cells[i]
  }

  lemma IndexedAppend(cells: seq<CellId>, cell: CellId)
    ensures Indexed(cells + [cell]) == Indexed(cells)[|cells| := cell]
  {
  }

  ghost function ItemsOf(store: Store, cells: seq<CellId>): seq<Json> {
    seq(|cells|, k requires 0 <= k < |cells| => Lookup(store, cells[k]))
  }

  lemma PushedItems(store: Store, cells: seq<CellId>, c: CellId, item: Json, structure: CellId)
    requires c !in cells && structure !in cells && c != structure
    ensures ItemsOf(store[c := item][structure := Null], cells + [c]) == ItemsOf(store, cells) + [item]
  {
  }

  lemma OverwrittenItems(store: Store, cells: seq<CellId>, index: nat, v: Json)
    requires index < |cells| && forall i :: 0 <= i < |cells| && cells[i] == cells[index] ==> i == index
    ensures ItemsOf(store[cells[index] := v], cells) == ItemsOf(store, cells)[index := v]
    ensures Lookup(store, cells[index]) == v ==> ItemsOf(store, cells) == ItemsOf(store, cells)[index := v]
  {
  }

  /** The cells of a valid sequence are live and different. */
  lemma CellsApart(view: C.Collection<nat>, cells: seq<CellId>)
    requires C.Valid(view) && view.cells == Indexed(cells)
    ensures view.structure !in cells && forall c :: c in cells ==> c in view.world.store
    ensures forall i, j :: 0 <= i < |cells| && 0 <= j < |cells| && cells[i] == cells[j] ==> i == j
  {
    forall i, j | 0 <= i < |cells| && 0 <= j < |cells| && cells[i] == cells[j] ensures i == j {
      assert view.cells[i] == cells[i] && view.cells[j] == cells[j];
    }
    forall c | c in cells ensures c != view.structure && c in view.world.store {
      var i :| 0 <= i < |cells| && cells[i] == c;
      assert view.cells[i] == c;
    }
  }

  class ReactiveSequence {
    const rt: Runtime
    const structure: CellId
    var cells: seq<CellId>

    ghost function View(): C.Collection<nat>
      reads this, rt, rt.engine
    {
      C.Collection(WorldOf(rt), structure, Indexed(cells))
    }

    /** The elements that readers see. */
    ghost function Items(): seq<Json>
      reads this, rt
    {
      ItemsOf(rt.store, cells)
    }

    ghost predicate Valid()
      reads this, rt, rt.engine
    {
      rt.Valid() && C.Valid(View())
    }

    constructor (rt: Runtime, id: string)
      requires rt.Valid() && Fresh(rt, id + "_structure")
      modifies rt, rt.engine
      ensures Valid() && this.rt == rt && cells == [] && Items() == []
    {
      this.rt := rt;
      structure := RootCell(id + "_structure");
      cells := [];
      new;
      rt.Put(structure, Null);
      WorldIsOk(rt);
    }

    /** A push is the insertion of the next index. */
    method Push(item: Json, id: string)
      requires Valid() && Fresh(rt, id)
      modifies this`cells, rt, rt.engine
      ensures Valid() && |cells| == |old(cells)| + 1
      ensures Items() == old(Items()) + [item]
      ensures View() == C.Insert(old(View()), |old(cells)|, item, RootCell(id))
      ensures rt.traces == old(rt.traces)
    {
      WorldIsOk(rt);
      C.StepKeepsValid(View(), C.OpInsert(|cells|, item, RootCell(id)));
      IndexedAppend(cells, RootCell(id));
      CellsApart(View(), cells);
      PushedItems(rt.store, cells, RootCell(id), item, structure);
      PutCell(rt, RootCell(id), item);
      cells := cells + [RootCell(id)];
      PutCell(rt, structure, Null);
    }

    /** Out of bounds is a panic in the original; nothing is written then. */
    method Set(index: nat, value: Json) returns (inBounds: bool)
      requires Valid()
      modifies rt, rt.engine
      ensures Valid() && inBounds == (index < |cells|) && |Items()| == |cells|
      ensures Items() == if inBounds then old(Items())[index := value] else old(Items())
      ensures View() == if inBounds then C.Insert(old(View()), index, value, structure) else old(View())
      ensures rt.traces ==
              if inBounds then M.Recorded(old(rt.traces), old(C.TraceOf(View(), C.Get(index)))) else old(rt.traces)
    {
      if |cells| <= index {
        return false;
      }
      C.StepKeepsValid(View(), C.OpInsert(index, value, structure));
      CellsApart(View(), cells);
      OverwrittenItems(rt.store, cells, index, value);
      assert View().cells[index] == cells[index];
      var current := GetCell(rt, cells[index]);
      if current != value {
        WorldIsOk(rt);
        PutCell(rt, cells[index], value);
      }
      return true;
    }

    method Get(index: nat) returns (value: Option<Json>)
      requires Valid()
      modifies rt`traces, rt.engine`cells
      ensures Valid() && View() == old(View())
      ensures value == if index < |Items()| then Some(Items()[index]) else None
      ensures C.Element(value) == C.Ask(View(), C.Get(index))
      ensures rt.traces == M.Recorded(old(rt.traces), C.TraceOf(View(), C.Get(index)))
    {
      if index < |cells| {
        assert View().cells[index] == cells[index];
        var current := GetCell(rt, cells[index]);
        return Some(current);
      }
      var _ := GetCell(rt, structure);
      return None;
    }

    method Len() returns (size: nat)
      requires Valid()
      modifies rt`traces, rt.engine`cells
      ensures Valid() && View() == old(View())
      ensures size == |Items()|
      ensures C.Count(size) == C.Ask(View(), C.Size)
      ensures rt.traces == M.Recorded(old(rt.traces), C.TraceOf(View(), C.Size))
    {
      var _ := GetCell(rt, structure);
      size := |cells|;
      SizeOfIndexed(cells);
    }

    /** All elements in index order. */
    method ToSeq() returns (items: seq<Json>)
      requires Valid()
      modifies rt`traces, rt.engine`cells
      ensures Valid() && View() == old(View())
      ensures items == Items()
      ensures C.Entries(map i: nat | i < |items| :: items[i]) == C.Ask(View(), C.Contents)
      ensures rt.traces == M.Recorded(old(rt.traces), C.TraceOf(View(), C.Contents))
    {
      var _ := GetCell(rt, structure);
      assert forall i: nat :: i < |cells| ==> View().cells[i] == cells[i];
      items := GetCellsInOrder(rt, cells);
      RecordMore(old(rt.traces), {structure}, (set c | c in cells), WorldOf(rt).revisions);
      ContentsInOrder(View(), cells, items);
    }
  }

  lemma ContentsInOrder(view: C.Collection<nat>, cells: seq<CellId>, items: seq<Json>)
    requires view.cells == map i: nat | i < |cells| :: cells[i]
    requires |items| == |cells| && forall i :: 0 <= i < |cells| ==> items[i] == Lookup(view.world.store, cells[i])
    ensures C.Entries(map i: nat | i < |items| :: items[i]) == C.Ask(view, C.Contents)
    ensures C.Looked(view, C.Contents) == {view.structure} + set c | c in cells
  {
    forall c | c in cells ensures c in view.cells.Values {
      var i :| 0 <= i < |cells| && cells[i] == c;
      assert view.cells[i] == c;
    }
    assert (map i: nat | i < |items| :: items[i]) == C.Elements(view);
  }

  lemma {:induction false} SizeOfIndexed(cells: seq<CellId>)
    ensures |(map i: nat | i < |cells| :: cells[i])| == |cells|
  {
    if cells != [] {
      var n := |cells| - 1;
      var shorter := map i: nat | i < |cells[..n]| :: cells[..n][i];
      SizeOfIndexed(cells[..n]);
      assert (map i: nat | i < |cells| :: cells[i]) == shorter[n := cells[n]];
    }
  }
}
