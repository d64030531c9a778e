/** The value types shared by the reactive engine, the runtime and the reactive
    collections: cell identities, revisions, traces and availability. */
module ReactiveTypes {

  /** JSON values held by cells.  `Null` matters: it is what a read of an absent
      cell answers. */
  datatype Json =
    | Null
    | Bool(b: bool)
    | Number(n: int)
    | Str(s: string)
    | Arr(items: seq<Json>)

  datatype Reason = Loading | Error(message: string) | Corrupted

  datatype Avail = Present(value: Json) | Absent(reason: Reason)

  /** A cell is addressed by a source and a pointer inside that source; the empty
      pointer addresses the source itself, and also the root of that name. */
  datatype CellId = CellId(source: string, pointer: string)

  function RootCell(source: string): CellId {
    CellId(source, "")
  }

  datatype Revision =
    | Memory(epoch: nat, counter: nat)
    | Disk(hash: string)
    | Counter(count: nat)
    | Impure(digest: string, nonce: nat)

  datatype ResourceSpec = ResourceSpec(typeId: string, args: Json)

  datatype TraceEntry = TraceEntry(cell: CellId, revision: Revision)

  datatype Trace = Trace(deps: set<TraceEntry>, resources: seq<ResourceSpec>)

  const EmptyTrace := Trace({}, [])
}
