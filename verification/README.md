# Exosuit in Dafny

This project models the parts of Exosuit where correctness is hardest to see from the
code, and proves what they are for.

**Reactivity.** The engine stores cell revisions, root traces, a reverse index, a source
index and a transaction collector; the runtime builds a memo cache on it. A compute
closure is a function from the answers it has received to its next action (return, read
a cell, read another computed value), and `Computation.Meaning` is what it means on a
bare store, without traces or memory. `CacheMachine` is the cache reduced to its idea: an
entry is a value with the cells recorded for it, and writing one of them drops it. The
classes `Engine` and `Runtime` follow the source's methods and are proved to behave like
that machine on every run; when the machine answers like the bare store is proved about
the machine. `EngineRuns` reads the engine's whole state off the script of operations.
Reactive maps and sequences and the resource list sit on top; the collections are proved to
answer like plain maps.

**SQL projection.** Printing, parsing, foreign keys rewritten to text ids and back, stable
sorting, the header, and the round trip of the whole database. `Dump` gives the
functions, `DumpDatabase` the loops that compute them, `DumpRoundTrip`, `DumpIdentity`,
`DumpReferences`, `DumpOrder` and `DumpDeterminism` the theorems for any parents-first
schema, and `Schema` the eighteen tables themselves.

**Writer compatibility.** A state machine in which any number of openers of different
program versions interleave: probes, leases, migrations in single steps, crashes anywhere.
`WriterThreads` groups the openers by the thread that owns them, and `WriterOutcomes` says
what opening achieves without reference to its steps.

**Hooks.** Extraction of inline checks and the names it gives (`ExtractNames`), job ids for
CI, and the file list of a check with the shell that reads it.

Some properties do not hold as one would like, and each has its exact condition:

- `rfc_relations` cannot be imported: a dump can be read back if and only if that table is
  empty (`RoundTrip`, `RelatedRfcsRefused`).
- A cell created after it was read as missing is not noticed, and what was computed from such
  a stale value stays. Every answer is what its entry saw, the closure over its recorded cells
  and its nested entries, and right if and only if that is the plain meaning
  (`AnswersAreSeen`, `MachineIsPlainIff`, `CreatedTooLate`, `NestedTooLate`). Without stale
  nested values that is the meaning on the store without the missed cells
  (`ServedWithoutLateCells`, `ClearRunIsPlainIff`).
- A thread that keeps a connection while it opens another can wait for itself: threads finish
  if and only if no call is barred by a lease of its own thread (`ThreadsDrainIff`,
  `OpeningTwiceBars`).
- Extraction gives a dangling reference a meaning if and only if it is the first free name
  for one of the inline checks (`MeaningKeptIff`, `ReferenceIsCaptured`).
- White space at the ends of a path or of `cwd` sends the rebased path astray
  (`RightIffTrimmed`, `RightFromCwdIff`, `InsideRightIffCwdTrimmed`). Validation of a check
  rejects a blank `cwd`, an absolute one and one with dot-dot, and the last guard is exactly
  what rebasing needs (`GuardIsExact`); it lets surrounding white space through.

`dafny verify dfyconfig.toml` checks the whole project.

## Model

| member | source | states |
|---|---|---|
| `RuntimeRuns.Simulate` | crates/exosuit-reactivity/src/runtime.rs:132-407 | every script of cell writes, removals, drops and computed reads on a new memoising runtime gets exactly the answers of the simple cache machine, which are what the answering entries saw; with closures that return, they are the plain answers exactly when all of those are the plain meanings |
| `RuntimeRuns.SimulatePlainly` | crates/exosuit-reactivity/src/runtime.rs:132-407 | and if no request uses an entry that has missed a cell which now holds something else than null, those are the answers of an interpreter without a cache, nested computed values included |
| `RuntimeRuns.MachineIsPlainIff` | crates/exosuit-reactivity/src/runtime.rs:341-407 | over every script, stale nested values included, the answers are those of an interpreter without a cache exactly when each answering entry saw the plain meaning: the closure's value over the cells it recorded and the nested entries it was given |
| `RuntimeRuns.AnswersAreSeen` | crates/exosuit-reactivity/src/runtime.rs:341-407 | in every run, each answer is what its entry saw, recomputed from the present store through the recorded cells and nested entries alone |
| `RuntimeRuns.StepKeepsSight` | crates/exosuit-reactivity/src/runtime.rs:132-407 | each command keeps that of every entry in the cache, with no condition on late cells |
| `CacheMachine.AskSees` | crates/exosuit-reactivity/src/runtime.rs:341-389 | a request, served or run over whatever nested entries there are, answers what its entry saw and leaves such entries only |
| `CacheMachine.EntrySeesStable` | crates/exosuit-reactivity/src/runtime.rs:304-318 | an entry sees the same in every store that agrees on the cells it recorded |
| `RuntimeRuns.NestedTooLate` | crates/exosuit-reactivity/src/runtime.rs:353-389 | two reads of a computed value that compares a nested value with its cell, true on every store: after a late creation both are wrong exactly when the created value is not null, and dropping the nested value in between does not repair the second |
| `RuntimeRuns.ClearRunIsPlainIff` | crates/exosuit-reactivity/src/runtime.rs:341-407 | if computations are only run on clear entries, the answers are the plain ones exactly when every entry served from the cache is one whose missed cells make no difference |
| `RuntimeRuns.NoLateWritesIsEnough` | crates/exosuit-reactivity/src/runtime.rs:283-290 | a condition on the script alone suffices: no cell gets a value other than null after a computation read it as missing |
| `RuntimeRuns.ClearStepIsPlainIff` | crates/exosuit-reactivity/src/runtime.rs:341-407 | one such command keeps the cache sound, and its answer is the plain one exactly when it was served right |
| `CacheMachine.ServedWithoutLateCells` | crates/exosuit-reactivity/src/runtime.rs:283-290 | what a served value is when no stale value went into it: the meaning on the store without the cells its computation had found missing; so it is right exactly when those make no difference, and always when they hold null |
| `CacheMachine.AskFollowsMeaning` | crates/exosuit-reactivity/src/runtime.rs:341-389 | a request served by clear entries gets the plain meaning and leaves sound and clear entries for what it had to run |
| `CacheMachine.StrictRecord` | crates/exosuit-reactivity/src/runtime.rs:353-389 | without late cells the recorded dependencies are exactly the live cells that the whole nested evaluation reads, whether served or recomputed |
| `RuntimeRuns.CreatedTooLate` | crates/exosuit-reactivity/src/runtime.rs:283-290 | a read of a cell created after it was read as missing still answers null, which is right exactly when null was written; after dropping the computed value the read is right again |
| `RuntimeRuns.Perform` | crates/exosuit-reactivity/src/runtime.rs:132-146 | one command does to store, cache and answers what it does to the machine |
| `RuntimeRuns.PerformAll` | crates/exosuit-reactivity/src/runtime.rs:341-407 | the same over a whole script, from any valid state, which stays valid |
| `RuntimeObject.Runtime.Read` | crates/exosuit-reactivity/src/runtime.rs:341-389 | in every valid state: the answer, what stays remembered and the dependencies handed to the parent trace are those of the machine; no revision moves |
| `RuntimeObject.Runtime.Compute` | crates/exosuit-reactivity/src/runtime.rs:366-379 | running the closure under a fresh trace gives the machine's value and a trace of the current revisions of the recorded cells |
| `RuntimeObject.Runtime.Revalidate` | crates/exosuit-reactivity/src/runtime.rs:342-351 | a remembered value counts as good exactly when every transitively recorded cell is present at its recorded revision, which is exactly when the machine still has its entry |
| `RuntimeObject.Runtime.Remember` | crates/exosuit-reactivity/src/runtime.rs:391-403 | registers the trace as a non-subscriber, stores digest and value, and keeps every remembered value tied to the machine |
| `RuntimeObject.Runtime.Replay` | crates/exosuit-reactivity/src/runtime.rs:354-363 | dependencies go to the innermost active trace only |
| `RuntimeObject.Runtime.Get` | crates/exosuit-reactivity/src/runtime.rs:283-302 | a read answers the stored value or null, and records the current revision exactly when the cell has one and a trace is active |
| `RuntimeObject.Runtime.Put` | crates/exosuit-reactivity/src/runtime.rs:132-146 | creating or setting a cell gives it the next counter as revision, changes no other revision, and drops exactly the entries that recorded the cell |
| `RuntimeObject.Runtime.RemoveCell` | crates/exosuit-reactivity/src/runtime.rs:105-115 | removing a cell removes its value and its revision and nothing else, drops exactly the entries that recorded it, and returns the roots listed under it |
| `RuntimeObject.Runtime.Drop` | crates/exosuit-reactivity/src/runtime.rs:459-463 | dropping a computed value unregisters its root, forgets its value and moves no revision |
| `RuntimeModel.HitIffCached` | crates/exosuit-reactivity/src/runtime.rs:342-365 | the trace of a remembered value matches exactly when the machine still has the entry, and then it is the current stamp of the recorded cells |
| `RuntimeModel.MemoAfterTouch` | crates/exosuit-reactivity/src/runtime.rs:304-318 | a write or removal makes exactly the traces stale that recorded the cell; stale ones never match again |
| `Computation.MeaningDependsOnlyOnCells` | crates/exosuit-reactivity/src/runtime.rs:159-173 | a plain run, nested runs included, is determined by the answers for the cells it reads: same value and same cells |
| `EngineObject.Engine.Validate` | crates/exosuit-reactivity-core/src/trace.rs:44-57 | with acyclic roots, recursive validation terminates and answers true exactly when every transitively recorded cell is present at its recorded revision; it changes nothing but last-used marks of recorded cells, and on success all of those are marked |
| `EngineObject.Engine.GetRevision` | crates/exosuit-reactivity/src/engine.rs:294-313 | nothing for a missing cell or a root whose own trace no longer holds, otherwise the stored revision |
| `EngineObject.Engine.ValidateRoot` | crates/exosuit-reactivity/src/engine.rs:255-264 | true exactly for the latest digest of a registered root whose trace holds |
| `EngineModel.AllMatchByDirect` | crates/exosuit-reactivity-core/src/trace.rs:44-57 | one level of validation: the transitive reading of a trace is equivalent to checking each direct dependency recursively |
| `EngineModel.TwoRevisionsNeverMatch` | crates/exosuit-reactivity-core/src/trace.rs:32-57 | a trace that recorded two revisions of one cell never validates |
| `EngineModel.RunsFromInitial` | crates/exosuit-reactivity/src/engine.rs:71-223 | over every sequence of set, invalidate, register, re-register, remove, validate and collect, the reverse index lists a root under a cell exactly when it is a current subscriber whose trace records the cell, without empty sets, and the source index covers the live cells |
| `EngineModel.RunsKeepConsistent` | crates/exosuit-reactivity/src/engine.rs:71-223 | the same from any consistent state |
| `EngineModel.StepKeepsConsistent` | crates/exosuit-reactivity/src/engine.rs:107-223 | each single operation keeps both indexes consistent |
| `EngineModel.CollectionExactly` | crates/exosuit-reactivity/src/engine.rs:75-105 | after collection a trace holds exactly when it held before and every transitively recorded cell was used in the transaction; so collection never makes a stale root valid |
| `EngineModel.ValidatedRootSurvivesCollection` | crates/exosuit-reactivity/src/engine.rs:75-105 | a root validated in the transaction still validates after collection, whatever else happened, if no cell it records was written or dropped |
| `EngineModel.RegistrationAloneDoesNotProtect` | crates/exosuit-reactivity/src/engine.rs:188-200 | registration marks only direct dependencies: a valid, just registered root over another root can be lost to collection |
| `EngineModel.InvalidationReachesTransitively` | crates/exosuit-reactivity/src/engine.rs:135-158 | after invalidating a source none of its cells is live and no trace that records one, even through other roots, validates |
| `EngineModel.InvalidationReportsSubscribers` | crates/exosuit-reactivity/src/engine.rs:135-158 | every subscriber that was valid and recorded a cell of the source directly is in the returned list |
| `EngineRuns.ListedIff` | crates/exosuit-reactivity/src/engine.rs:188-247 | over every script of a new engine, a root is listed under a cell exactly when the last operation on the root is a subscribing registration that depends on the cell |
| `EngineRuns.ReportedIff` | crates/exosuit-reactivity/src/engine.rs:135-158 | an invalidation reports exactly the roots that so listen to a cell it is about; which cells those are is read off the script too |
| `EngineRuns.StoredIff` | crates/exosuit-reactivity/src/engine.rs:71-158 | a cell is stored, at the revision of its last write, exactly when no invalidation hit it since and every collection since found it used in its transaction; registration counts as a use of its direct dependencies |
| `EngineRuns.CollectedIff` | crates/exosuit-reactivity/src/engine.rs:75-105 | the next collection takes exactly the stored cells not used since the last transaction began |
| `EngineRuns.RegisteredIff` | crates/exosuit-reactivity/src/engine.rs:174-247 | a root is known, with that trace and digest, exactly when the last operation on it registered it |
| `EngineObject.Engine.Set` | crates/exosuit-reactivity/src/engine.rs:107-120 | stores the revision, marks the cell used and indexes it under its source |
| `EngineObject.Engine.Begin` | crates/exosuit-reactivity/src/engine.rs:71-73 | starts the next transaction |
| `EngineObject.Engine.End` | crates/exosuit-reactivity/src/engine.rs:75-105 | drops exactly the cells not used in the transaction, and source entries this empties |
| `EngineObject.Engine.Invalidate` | crates/exosuit-reactivity/src/engine.rs:135-158 | drops the cell, or everything indexed under the source for an empty pointer, and returns exactly the roots listed under what was dropped |
| `EngineObject.Engine.Register` | crates/exosuit-reactivity/src/engine.rs:188-247 | replaces the root, takes it out of the old reverse entries, lists it under the new ones if it subscribes, and marks its direct dependencies |
| `EngineObject.Engine.Remove` | crates/exosuit-reactivity/src/engine.rs:174-186 | forgets the root and its reverse entries |
| `Resources.ResourceManager.Request` | crates/exosuit-reactivity/src/runtime.rs:193-237 | records the request and answers the instance under the cursor exactly when its spec matches |
| `Resources.ResourceManager.Reconcile` | crates/exosuit-reactivity/src/runtime.rs:239-270 | the active list becomes the requested sequence; positions whose spec matched keep their instance, the others get new, distinct ones; fails exactly when a new one has an unregistered type |
| `Resources.ResourceManager.Execute` | crates/exosuit-reactivity/src/runtime.rs:366-377 | a run that stops at the first missing resource requests and answers as the plain description of such a run says |
| `Resources.ResourceManager.Recompute` | crates/exosuit-reactivity/src/runtime.rs:366-392 | a forced recomputation runs the closure against the old instances and reconciles its requests; it fails exactly when a new one has an unregistered type, and leaves the resources of all other computations alone |
| `Resources.PassProgresses` | crates/exosuit-reactivity/src/runtime.rs:193-270 | each forced recomputation keeps what is in place and puts exactly one more needed resource in place |
| `Resources.SettlesAfterAsManyRunsAsNeeds` | crates/exosuit-reactivity/src/runtime.rs:193-270 | a computation that needs n resources in sequence has them all after n forced recomputations, whatever it held before and whatever the values of those instances are, and then returns its value and keeps its instances |
| `CollectionModel.RunsLikeAMap` | crates/exosuit-core/src/reactive_map.rs:60-217 | after every run of inserts, removals and foreign writes, each read answers as on a plain map that went through the same inserts and removals |
| `CollectionModel.TraceBrokenIff` | crates/exosuit-core/src/reactive_map.rs:69-217 | an operation invalidates a recorded read exactly when it changes what the read is about: an element read its own element, every other read the coming and going of keys |
| `CollectionModel.RecordedReadStaysTrue` | crates/exosuit-core/src/reactive_map.rs:60-217 | for every read of a reactive collection: if the trace it recorded still matches after any later inserts, removals and foreign writes, repeating the read gives the same answer |
| `CollectionModel.WritesArePrecise` | crates/exosuit-core/src/reactive_map.rs:69-106 | writing an equal value changes nothing; writing an existing key moves the revision of that element only, and invalidates reads of it |
| `CollectionModel.RunEvolves` | crates/exosuit-core/src/reactive_sequence.rs:54-154 | revisions name values: over any run, an unchanged revision means an unchanged cell |
| `Collections.ReactiveMap.Insert` | crates/exosuit-core/src/reactive_map.rs:69-106 | afterwards the map has the value under the key and is otherwise as before; returns the previous value, and notifies as the model says |
| `Collections.ReactiveMap.Remove` | crates/exosuit-core/src/reactive_map.rs:108-127 | afterwards the map lacks the key and is otherwise as before; returns the previous value, and notifies as the model says |
| `Collections.ReactiveMap.Get` | crates/exosuit-core/src/reactive_map.rs:129-144 | answers the value under the key, if any, and records the trace of that read |
| `Collections.ReactiveMap.ContainsKey` | crates/exosuit-core/src/reactive_map.rs:146-160 | answers membership and records the trace of that read |
| `Collections.ReactiveMap.Keys` | crates/exosuit-core/src/reactive_map.rs:162-165 | answers the key set and records the structure cell |
| `Collections.ReactiveMap.Len` | crates/exosuit-core/src/reactive_map.rs:60-63 | answers the size and records the structure cell |
| `Collections.ReactiveMap.ToMap` | crates/exosuit-core/src/reactive_map.rs:183-197 | answers all elements and records every cell |
| `Collections.ReactiveSequence.Push` | crates/exosuit-core/src/reactive_sequence.rs:63-72 | afterwards the elements are the old ones and the item behind them |
| `Collections.ReactiveSequence.Set` | crates/exosuit-core/src/reactive_sequence.rs:91-120 | in bounds the element is the new value and all others are as before, out of bounds nothing changes; an equal value writes nothing; records the read of the old value |
| `Collections.ReactiveSequence.Get` | crates/exosuit-core/src/reactive_sequence.rs:74-89 | answers the element and records the trace of that read |
| `Collections.ReactiveSequence.Len` | crates/exosuit-core/src/reactive_sequence.rs:54-57 | answers the length and records the structure cell |
| `Collections.ReactiveSequence.ToSeq` | crates/exosuit-core/src/reactive_sequence.rs:122-136 | answers all elements in order and records every cell |
| `SqlRoundTrip.InsertRoundTrip` | crates/exosuit-storage/src/dump.rs:440-540 | for every row of null, 64-bit integer and text values, quotes, backslashes, newlines and parentheses included, parsing the printed statement gives exactly the row's columns and values |
| `SqlRoundTrip.InsertIsOneLine` | crates/exosuit-storage/src/dump.rs:440-464 | the printed statement is a single line |
| `SqlRoundTrip.ListRoundTrip` | crates/exosuit-storage/src/dump.rs:996-1093 | a printed value list is parsed back to the values |
| `SqlRoundTrip.ParenAfterList` | crates/exosuit-storage/src/dump.rs:965-994 | the closing parenthesis found is the one after the list, whatever the values contain |
| `SqlRoundTrip.ParseNumber` | crates/exosuit-storage/src/dump.rs:996-1093 | a numeral is read as its number exactly when that has 64 bits, and refused otherwise |
| `SqlText.SqlEscape` | crates/exosuit-storage/src/dump.rs:440-453 | the replacement loop computes the escaped text |
| `SqlText.FindClosingParen` | crates/exosuit-storage/src/dump.rs:965-994 | the index loop finds the first closing parenthesis outside string literals |
| `SqlText.ParseValues` | crates/exosuit-storage/src/dump.rs:996-1093 | the index loop parses exactly the value lists of the grammar, with the same errors |
| `SqlText.ParseInsertLine` | crates/exosuit-storage/src/dump.rs:918-963 | the parser with its loops computes the statement grammar |
| `DumpRoundTrip.RoundTrip` | crates/exosuit-storage/src/dump.rs:90-379 | for any parents-first schema: a dump can be imported into an empty database exactly when no table whose foreign key the importer does not know has rows, and dumping the result gives the same texts |
| `DumpIdentity.RoundTripRestores` | crates/exosuit-storage/src/dump.rs:90-379 | with unique text ids not only the text comes back: the imported database is the source, without the aliases that are not printed, up to an injective renumbering of rows that references follow |
| `DumpIdentity.SamePrintSameDatabase` | crates/exosuit-storage/src/dump.rs:504-529 | the dump loses nothing else: two databases that print the same rows are equal up to rowids, row order and unprinted aliases |
| `DumpIdentity.ReferencesCorrespond` | crates/exosuit-storage/src/dump.rs:654-724 | rows that print the same refer, each in its own database, to entities with the same text id |
| `Schema.ProjectRestored` | crates/exosuit-storage/src/dump.rs:60-79 | the restored database for the eighteen tables, in the order of the dump and in the order of the files |
| `Schema.DatabaseRestored` | crates/exosuit-storage/src/dump.rs:108-379 | the same in every parents-first order of all tables |
| `Schema.ProjectRoundTrip` | crates/exosuit-storage/src/dump.rs:60-79 | the round trip for the eighteen tables, in the order of the dump and in the order of the files: it succeeds exactly when rfc_relations is empty, and is then exact |
| `Schema.DatabaseRoundTrip` | crates/exosuit-storage/src/dump.rs:108-379 | the same in every parents-first order of all tables |
| `Schema.RelatedRfcsRefused` | crates/exosuit-storage/src/dump.rs:812-824 | a database with one related RFC whose dump the importer rejects, since rfc_text_id has no mapping |
| `Schema.EveryTableFits` | crates/exosuit-storage/src/dump.rs:131-379 | every table of the schema has printable names, a foreign key the importer maps back (rfc_relations: none), and parents that are entities |
| `DumpRoundTrip.GenerationIsPrinted` | crates/exosuit-storage/src/dump.rs:131-142 | the epochs text parses back to the generation it was dumped with |
| `DumpRoundTrip.DumpSucceedsIff` | crates/exosuit-storage/src/dump.rs:419-433 | a dump succeeds exactly when no foreign key dangles and no alias has an unknown type |
| `DumpRoundTrip.ReferenceIsPrinted` | crates/exosuit-storage/src/dump.rs:504-529 | a reference in a printed row names a row that its own table prints |
| `DumpRoundTrip.ImportTextOf` | crates/exosuit-storage/src/dump.rs:827-856 | importing a table's text creates exactly its rows, numbered from one, with references turned into rowids |
| `DumpRoundTrip.StepKeepsImported` | crates/exosuit-storage/src/dump.rs:844-853 | after each table, every imported table dumps to the rows it came from and its text ids can be looked up |
| `DumpRows.ImportPortableRow` | crates/exosuit-storage/src/dump.rs:1096-1143 | a printed row is inserted with its columns and its reference restored |
| `DumpRows.RestoreAliasRow` | crates/exosuit-storage/src/dump.rs:1146-1234 | an alias row gets back the rowid of the entity its type and text id name |
| `DumpRows.ResolveRestored` | crates/exosuit-storage/src/dump.rs:504-529 | dumping an imported row gives the printed row it came from |
| `DumpRows.ResolvedIsPortable` | crates/exosuit-storage/src/dump.rs:654-724 | only alias rows are ever left out of a dump, and what is printed carries text ids instead of rowids |
| `DumpRows.UnimportableRow` | crates/exosuit-storage/src/dump.rs:1096-1143 | a row of a table whose foreign key has no mapping is refused |
| `DumpDeterminism.DumpIgnoresRowIds` | crates/exosuit-storage/src/dump.rs:404-433 | two databases equal up to rowid renumbering and row order dump alike: one succeeds when the other does, with the same texts, if no printed rows of a table share a sort key |
| `Schema.ProjectDumpIsDeterministic` | crates/exosuit-storage/src/dump.rs:504-651 | the same for the eighteen tables, in both orders: unique text ids and distinct sort keys in the detail tables suffice |
| `Schema.ProjectDumpIgnoresRowIds` | crates/exosuit-storage/src/dump.rs:404-433 | the same in every parents-first order of all tables |
| `DumpDeterminism.EntitiesDoNotTie` | crates/exosuit-storage/src/dump.rs:558-582 | entity rows sorted by unique text ids never tie |
| `DumpOrder.PrintedLines` | crates/exosuit-storage/src/dump.rs:531-573 | a dumped file is the generation header, for epochs, and one statement a row that names its table and reads back as the row, in the order of the table's sort columns: the first column that differs decides, by characters |
| `DumpOrder.PrintedInOrder` | crates/exosuit-storage/src/dump.rs:543-651 | the same of any two printed rows of one table |
| `DumpOrder.ImportIgnores` | crates/exosuit-storage/src/dump.rs:833-847 | blank lines and comments may stand anywhere in an imported file |
| `DumpReferences.AliasPrinted` | crates/exosuit-storage/src/dump.rs:654-724 | an alias is printed exactly when the table of its type (epochs, phases, goals, tasks) has the row, with that row's text id, and left out otherwise |
| `DumpReferences.AliasOfUnknownType` | crates/exosuit-storage/src/dump.rs:700-708 | any other type stops the dump |
| `DumpReferences.MalformedAliasLeftOut` | crates/exosuit-storage/src/dump.rs:676-696 | a row without a type or a rowid is left out |
| `DumpReferences.AliasImported` | crates/exosuit-storage/src/dump.rs:1146-1234 | a printed alias gets the rowid of the row of its type's table with the text id, or is refused if there is none |
| `DumpReferences.StrangeAliasRefused` | crates/exosuit-storage/src/dump.rs:1190-1202 | an alias of any other type is refused |
| `DumpReferences.AliasesRestored` | crates/exosuit-storage/src/dump.rs:654-724 | after a round trip every printed alias is there and points, in the table of its type, to where that row has gone |
| `DumpReferences.ForeignKeyPrinted` | crates/exosuit-storage/src/dump.rs:504-529 | a foreign key is printed with the text id of the row it names, stops the dump if there is no such row, and stays null |
| `DumpReferences.ForeignKeyImported` | crates/exosuit-storage/src/dump.rs:1096-1143 | read back, it is the rowid of the row of its table with that text id, or refused |
| `Schema.KeysPointByName` | crates/exosuit-storage/src/dump.rs:131-379 | every foreign key of the schema points into the table that its column and its dumped name say |
| `Schema.MappingPointsByName` | crates/exosuit-storage/src/dump.rs:812-824 | and so does every entry of the importer's mapping |
| `Sorting.SortSorts` | crates/exosuit-storage/src/dump.rs:571-573 | the sort orders the rows and is a permutation |
| `Sorting.SortStable` | crates/exosuit-storage/src/dump.rs:603-611 | rows with equal keys keep their order |
| `Sorting.SortIgnoresOrder` | crates/exosuit-storage/src/dump.rs:636-645 | with distinct keys the result does not depend on the order of the input |
| `DumpDatabase.Database.DumpTable` | crates/exosuit-storage/src/dump.rs:558-651 | the row loops print the sorted, resolved rows of the table |
| `DumpDatabase.Database.DumpAll` | crates/exosuit-storage/src/dump.rs:90-106 | the dump of all tables, with the first error |
| `DumpDatabase.Database.ImportSingleTable` | crates/exosuit-storage/src/dump.rs:827-856 | the line loop fills the table and returns the lookups for children |
| `DumpDatabase.Database.ImportAll` | crates/exosuit-storage/src/dump.rs:750-773 | the whole import, with the first error |
| `DumpDatabase.BuildTextIdMap` | crates/exosuit-storage/src/dump.rs:404-416 | the rowid to text id map of a table |
| `DumpDatabase.ResolveRow` | crates/exosuit-storage/src/dump.rs:504-529 | one row resolved with the maps built beforehand |
| `DumpDatabase.PrintRow` | crates/exosuit-storage/src/dump.rs:531-540 | the statement of a row, each value escaped by its loop |
| `DumpDatabase.InsertLine` | crates/exosuit-storage/src/dump.rs:833-847 | one line of a file: skipped, or parsed by the index loops and inserted |
| `DumpDatabase.BuildReverseTextIdMap` | crates/exosuit-storage/src/dump.rs:875-891 | the text id to rowid map of a table |
| `ProjectionHeader.HeaderRoundTrip` | crates/exosuit-storage/src/compatibility.rs:407-463 | any content stamped with a generation parses back to it and keeps its lines |
| `ProjectionHeader.OnlyCanonicalHeaders` | crates/exosuit-storage/src/compatibility.rs:407-431 | exactly the canonical numerals up to the maximum are accepted |
| `ProjectionHeader.GenerationIff` | crates/exosuit-storage/src/compatibility.rs:407-431 | which generation a file has: that of a canonical header, zero without anything like one, and none if the header is damaged |
| `ProjectionHeader.RestampReplaces` | crates/exosuit-storage/src/compatibility.rs:444-463 | stamping again replaces the header and nothing else |
| `WriterProtocol.ConnectionsAreCompatible` | crates/exosuit-storage/src/compatibility.rs:469-653 | in every interleaving, no live fenced connection faces a generation beyond what its program supports; normal, authorised and import connections have all their migrations applied; no migration is present below the generation it requires |
| `WriterProtocol.GenerationNeverDecreases` | crates/exosuit-storage/src/compatibility.rs:710-737 | the generation never decreases and applied migrations stay applied, over every run |
| `WriterProtocol.OutdatedNeverConnects` | crates/exosuit-storage/src/compatibility.rs:725-737 | once the database has moved beyond a program, that program never gets a connection again |
| `WriterProtocol.WritersAreAlone` | crates/exosuit-storage/src/compatibility.rs:644-653 | while one opener migrates or imports, nobody else holds a lease or a connection |
| `WriterProtocol.CanAlwaysDrain` | crates/exosuit-storage/src/compatibility.rs:617-639 | from every reachable state in which connections may be closed at any time, all openers can run to completion and close, without failure, timeout or crash, within a computed number of steps |
| `WriterThreads.ThreadsDrainIff` | crates/exosuit-storage/src/compatibility.rs:617-639 | threads, each in one call at a time and closing only between calls, can finish and close everything exactly when no thread holds a lease that its own call is going to need gone |
| `WriterThreads.ThreadsCanDrain` | crates/exosuit-storage/src/compatibility.rs:617-639 | then they do so without failure, timeout or crash, within a computed number of steps |
| `WriterThreads.BarredNeverFinishes` | crates/exosuit-storage/src/compatibility.rs:109-152 | a call barred by its own thread never finishes, in any run without failures, whatever the other threads do |
| `WriterThreads.DisciplineBarsNone` | crates/exosuit-storage/src/compatibility.rs:469-500 | a thread that begins no open while it has another one bars nothing |
| `WriterThreads.BeginKeepsDisciplineIff` | crates/exosuit-storage/src/compatibility.rs:469-500 | beginning an open keeps that discipline exactly when its thread has nothing else open |
| `WriterThreads.OpeningTwiceBars` | crates/exosuit-storage/src/compatibility.rs:641-653 | ten steps from an initial state lead to a thread that bars itself: it keeps a physical connection and opens again while a migration is due |
| `WriterOutcomes.GenerationIsAskedFor` | crates/exosuit-storage/src/migrations.rs:184-207 | in every run the generation is the initial one, one that a migration of some opener requires, or that of an import that was begun |
| `WriterOutcomes.ShutOutOnlyByNeed` | crates/exosuit-storage/src/compatibility.rs:725-737 | so a program is shut out only by one of those beyond what it supports |
| `WriterOutcomes.OpensIff` | crates/exosuit-storage/src/compatibility.rs:469-653 | an undisturbed open, on each path, succeeds exactly when the program supports the database and everything its migrations and the import require; it then leaves exactly the least generation asked for and the program's migrations behind, and otherwise nothing has changed |
| `WriterOutcomes.AuthorityIff` | crates/exosuit-storage/src/compatibility.rs:469-653 | exclusive authority is granted exactly when the program supports the database |
| `WriterOutcomes.UseIff` | crates/exosuit-storage/src/compatibility.rs:469-653 | what using that authority achieves, with the same exact condition |
| `WriterOutcomes.EarlierMigrationsFirst` | crates/exosuit-storage/src/migrations.rs:218-237 | in every run, when a migration is about to be recorded all that precede it in the program are recorded |
| `WriterProtocol.SomeoneCanMove` | crates/exosuit-storage/src/compatibility.rs:617-639 | no opener waits for a lease while holding one, so some opener can always take a step |
| `WriterProtocol.RunKeepsInv` | crates/exosuit-storage/src/compatibility.rs:104-183 | what each opener relies on at each point of its path holds in every reachable state |
| `WriterProtocol.StepKeepsFenced` | crates/exosuit-storage/src/migrations.rs:177-203 | the generation is raised before any migration takes effect, so a crash leaves the database over-fenced, never under-fenced |
| `WriterProtocol.Required` | crates/exosuit-storage/src/migrations.rs:184-191 | a migration run raises to the largest generation required by any migration, never below the current one |
| `WriterProtocol.Pending` | crates/exosuit-storage/src/migrations.rs:218-237 | the migrations to apply are exactly the program's own that are not recorded |
| `ExtractChecks.MeaningKeptIff` | crates/exohook/src/config.rs:556-656 | after extraction an element of a workflow means the same definition as before exactly unless it is a dangling reference that is the first free name for one of the inline checks |
| `ExtractChecks.MovedIdsAreNewNames` | crates/exohook/src/config.rs:588-628 | the new ids are, in order, the first free candidates for the bases of the inline checks |
| `ExtractChecks.ValidFilesKeepMeaning` | crates/exohook/src/config.rs:556-656 | without dangling references every workflow keeps its resolved list of definitions, in order |
| `ExtractChecks.ExtractionIsFaithful` | crates/exohook/src/config.rs:556-656 | existing checks are untouched, new ids are pairwise distinct and new, the check table gains exactly them, and every element stays in place |
| `ExtractChecks.SecondExtractionIsIdle` | crates/exohook/src/config.rs:556-656 | a second extraction changes nothing, whatever its prefix |
| `ExtractChecks.ExtractionFailsIff` | crates/exohook/src/config.rs:565-580 | extraction fails exactly for other versions, or when there is something to move and check is not a table |
| `ExtractChecks.ReferenceIsCaptured` | crates/exohook/src/config.rs:617-640 | a file where a dangling reference comes to mean a moved check |
| `ExtractNames.MovedAreInline` | crates/exohook/src/config.rs:586-646 | the list of moved checks is the list of inline checks in document order, each with its workflow and definition |
| `ExtractNames.MovedIdsAreFirst` | crates/exohook/src/config.rs:602-630 | each new id is the prefix, the slug of the label or else a running number, and the smallest suffix that makes it new |
| `ExtractChecks.ExtractInlineChecks` | crates/exohook/src/config.rs:556-656 | the rewriting with its loops computes the extraction |
| `ExtractChecks.MoveInline` | crates/exohook/src/config.rs:612-642 | slug or running number, prefix and suffix search give the fresh id |
| `FreshIds.FreshId` | crates/exohook/src/config.rs:622-628 | the suffix search ends and returns the first free candidate |
| `Slug.SlugifyCheckId` | crates/exohook/src/config.rs:661-677 | the character loop computes the label's lower-case words joined by single dashes |
| `Slug.SlugOfSlug` | crates/exohook/src/config.rs:661-677 | a slug consists of proper words and is its own slug |
| `Slug.SlugLetters` | crates/exohook/src/config.rs:661-677 | a slug is the label's letters and digits, lowered one by one, with a single dash for every gap between them |
| `CiJobs.ExtractV3Checks` | crates/exohook/src/ci_emit.rs:171-204 | job ids come in check order, pairwise distinct, each job runs its check's command in its directory under its label or else its id; extraction succeeds exactly when every reference can be emitted and no two named references share a job id; a duplicate is always between two named references |
| `CiJobs.NextSpec` | crates/exohook/src/ci_emit.rs:183-201 | the spec of one reference, or the error that stops the extraction |
| `CiJobs.SpecOfCarries` | crates/exohook/src/ci_emit.rs:269-295 | a spec is made exactly of a check with a command that takes no files, and has that command, directory and label; the two refusals are told apart |
| `CiJobs.ClashIsNamed` | crates/exohook/src/ci_emit.rs:206-229 | a job id in use that a named check asks for belongs to another named check, never to an inline one |
| `CiJobs.UniqueInlineCheckId` | crates/exohook/src/ci_emit.rs:206-229 | the search ends, with the first inline id whose job id is free |
| `CiJobs.GithubActionsJobId` | crates/exohook/src/ci_emit.rs:248-267 | the character loop computes the job id |
| `CiJobs.JobId` | crates/exohook/src/ci_emit.rs:248-267 | a job id is never empty, starts with a letter or underscore and has only letters, digits and underscores; well-formed ids and all characters that may stay are kept |
| `Fileset.CommandSeesTheFiles` | crates/exohook/src/fileset.rs:67-140 | the words a POSIX shell in the check's directory reads from the expanded placeholder, in whichever simple command of the line, resolve to exactly the matched files, in order |
| `Fileset.RightFromCwdIff` | crates/exohook/src/fileset.rs:98-121 | from the directory the check really runs in, a plain path is right exactly when trimming changed neither the number of components of cwd nor those shared with the path |
| `Fileset.InsideRightIffCwdTrimmed` | crates/exohook/src/fileset.rs:98-108 | so for a file below the directory it is right exactly when there was no white space to trim from cwd |
| `Fileset.GuardIsExact` | crates/exohook/src/config.rs:437-441 | for a cwd that is relative and without surrounding white space, the rebased file of a plain path is reached from the check's directory exactly when the guard against parent components lets cwd through |
| `Fileset.RebasedPathResolves` | crates/exohook/src/fileset.rs:98-140 | a rebased path resolves from the working directory to the file the path names from the root, dot-dot in the path included |
| `Fileset.RightIffTrimmed` | crates/exohook/src/fileset.rs:115-121 | for plain paths this holds exactly when no white space is trimmed from the path |
| `Fileset.RightIffNoDotDot` | crates/exohook/src/fileset.rs:111-114 | for plain paths this holds exactly when the working directory has no dot-dot, wherever the repository lies below the file system root |
| `Fileset.RebaseParts` | crates/exohook/src/fileset.rs:123-133 | the loop strips the longest common prefix and climbs the rest |
| `Fileset.RebasePathForCwd` | crates/exohook/src/fileset.rs:110-140 | the rebased path as text |
| `ShellWords.PlaceholderBecomesFiles` | crates/exohook/src/fileset.rs:67-78 | the shell reads an expanded placeholder that is a word of its own as exactly the files, with nothing left to expand, whatever characters their names contain and whatever commands, operators and redirections stand around it |
| `ShellWords.ReplaceEvery` | crates/exohook/src/fileset.rs:66-75 | every placeholder of a command is replaced and nothing else changes |
| `ShellWords.EscapedRead` | crates/exohook/src/fileset.rs:155-170 | reading a quoted name gives exactly that name, with nothing left to expand |
| `ShellWords.ListRead` | crates/exohook/src/fileset.rs:67-78 | reading the joined list gives exactly the names, in order |

## Left out

- Hysteresis, `tokio` tasks and the invalidation channel: wall clock and foreign scheduling.
- Snapshots, `fetch_root` and their time limits: keyed by digest and pruned by time.
- SHA-256 digests are an arbitrary function; nothing is assumed about it. UUIDs of cells in collections are fresh names by precondition.
- Overflow of revision counters, transaction numbers and the suffix counters: numbers are unbounded.
- Cell ids and computed ids are disjoint, and one computed value exists per id; the source does not enforce this. Erasing the cell of a computed value's own id is a command of the runs, and has no effect on what it remembers.
- Resources are modelled on their own: the cache theorem is about closures without resources.
- Resources.SettlesAfterAsManyRunsAsNeeds: an instance keeps its value while it is kept; the source lets an instance answer differently later, and then what the closure needs next can change without end.
- Acyclic root graphs are a precondition of validation, as a ranking; the source would recurse without end.
- Dependencies are sets, as in the source; the order in which validation visits them is arbitrary, so which cells a failing validation marks is not described.
- EngineObject.Engine.Validate: says what is marked only for success, because a failing validation stops at an arbitrary dependency.
- Collections.ReactiveSequence.Set: returns false out of bounds where the source panics.
- JSON serialisation of collection elements is the identity.
- Real and blob values: they are printed but the importer has no arm for them. Non-finite numbers, affinity and constraints of SQLite are not modelled; neither is the order in which SQLite returns rows, which is taken to be rowid order.
- Foreign keys are found by position, and a table has at most one, as at every call of the source; a text value in a foreign key column is outside `ValidRow`.
- DumpDatabase.Database.ImportAll: says nothing about the rows left behind by a failed import, which the caller discards.
- Text is a sequence of characters; comparing them is comparing UTF-8 bytes.
- The savepoint around a dump, defensive mode, `validate_tables` and the in-memory database.
- WriterProtocol: each call of an `open_*` function is its own participant, since leases belong to file handles. Retries of a failing probe, path normalisation, WAL and pragmas are not modelled; a database file counts as existing once it has content. Migrations common to two programs require the same generation in both.
- WriterThreads.ThreadsDrainIff: is about threads that own their connections and are in one call at a time; a call that its own thread bars is freed only by the lease's timeout, which is a failure here.
- CiJobs.ExtractV3Checks: starts from a parsed workflow; the other checks of configuration validation, which come first in the source, and inferred requirements are not modelled.
- ExtractChecks: a document is the version, the check table and the workflows; formatting, comments and TOML string escaping are not modelled.
- Fileset.CommandSeesTheFiles: is about one placeholder that stands as a word of its own, for files and `cwd` without white space at their ends. Windows quoting and the argv form are left out.
- Fileset.RightIffNoDotDot: a repository at the root of the file system is left out, because a parent component has no effect there.
- ShellWords: the shell's reader covers words, all three ways of quoting, operators, comments and plain `$name`; backquotes, a bracketed expansion after a dollar sign, and a dollar sign before a quotation mark show as no answer. A word that holds a `$name` is marked as open to expansion.
- Legacy v1 and v2 configuration, YAML emission, git calls, process running, terminal handling, exohistory, exospec, file references and the WASM bindings: library glue, I/O or easy members.
