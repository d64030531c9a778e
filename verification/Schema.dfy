/** The eighteen tables that the projection covers, and the round trip for them. */
module Schema {
  import opened Wrappers
  import opened Text
  import opened SqlText
  import opened SqlRoundTrip
  import opened Dump
  import opened DumpRows
  import opened DumpRoundTrip
  import opened DumpDeterminism
  import opened DumpIdentity
  import H = ProjectionHeader

  /** Dumped foreign-key columns that the importer knows.  There is no entry for
      rfc_text_id. */
  const MAPPING: Mapping := map[
    "epoch_text_id" := ("epoch_id", Epochs),
    "phase_text_id" := ("phase_id", Phases),
    "goal_text_id" := ("goal_id", Goals),
    "task_text_id" := ("task_id", Tasks),
    "idea_text_id" := ("idea_id", Ideas),
    "axiom_text_id" := ("axiom_id", Axioms),
    "execution_phase_text_id" := ("execution_phase_id", Phases)]

  function EpochsTable(): Table {
    Table(Epochs, "epochs_data",
          ["text_id", "title", "slug", "reviewed", "sort_key"],
          None, ["text_id"], true)
  }

  function PhasesTable(): Table {
    Table(Phases, "phases_data",
          ["text_id", "title", "status", "epoch_id", "kind", "slug", "sort_key", "completed_at"],
          Some(Fk(3, "epoch_text_id", Epochs)), ["text_id"], true)
  }

  function GoalsTable(): Table {
    Table(Goals, "goals_data",
          ["text_id", "label", "status", "phase_id", "kind", "rfc", "target_stage", "started_at",
           "description", "completion_log", "slug", "sort_key"],
          Some(Fk(3, "phase_text_id", Phases)), ["text_id"], true)
  }

  function TasksTable(): Table {
    Table(Tasks, "tasks_data",
          ["text_id", "title", "status", "goal_id", "completed_at", "completion_log", "slug", "sort_key",
           "notes", "started_at"],
          Some(Fk(3, "goal_text_id", Goals)), ["text_id"], true)
  }

  function IdeasTable(): Table {
    Table(Ideas, "ideas_data",
          ["text_id", "title", "description", "status", "created_at", "source"],
          None, ["text_id"], true)
  }

  function InboxTable(): Table {
    Table(Inbox, "inbox_data",
          ["text_id", "created_at", "updated_at", "status", "entity_type", "entity_id", "source", "intent",
           "priority", "confidence", "agent_id", "subject", "body", "action_json", "resolution"],
          None, ["text_id"], true)
  }

  function RfcsTable(): Table {
    Table(Rfcs, "rfcs_data",
          ["text_id", "rfc_number", "title", "stage", "status", "feature", "slug", "file_path",
           "superseded_by", "supersedes", "withdrawal_reason", "archived_reason", "consolidated_into",
           "created_at", "updated_at"],
          None, ["text_id"], true)
  }

  function LanesTable(): Table {
    Table(Lanes, "workbench_lanes_data",
          ["text_id", "title", "intent", "state", "execution_phase_id", "created_at", "updated_at"],
          Some(Fk(4, "execution_phase_text_id", Phases)), ["text_id"], true)
  }

  function AxiomsTable(): Table {
    Table(Axioms, "axioms",
          ["text_id", "scope", "principle", "rationale", "notes", "created_at"],
          None, ["text_id"], true)
  }

  function TaskLogsTable(): Table {
    Table(TaskLogs, "task_logs",
          ["task_id", "kind", "message", "created_at"],
          Some(Fk(0, "task_text_id", Tasks)), ["task_text_id", "created_at"], false)
  }

  function TaskVerificationsTable(): Table {
    Table(TaskVerifications, "task_verifications",
          ["task_id", "kind", "command", "result", "details", "created_at"],
          Some(Fk(0, "task_text_id", Tasks)), ["task_text_id", "created_at"], false)
  }

  function PhaseRfcsTable(): Table {
    Table(PhaseRfcs, "phase_rfcs_data",
          ["phase_id", "rfc_id", "target", "relation"],
          Some(Fk(0, "phase_text_id", Phases)), ["phase_text_id", "rfc_id"], false)
  }

  function AliasesTable(): Table {
    Table(Aliases, "entity_aliases",
          ["entity_type", "entity_id", "alias"],
          None, ["entity_type", "alias"], false)
  }

  function AxiomImplicationsTable(): Table {
    Table(AxiomImplications, "axiom_implications",
          ["axiom_id", "implication", "sort_key"],
          Some(Fk(0, "axiom_text_id", Axioms)), ["axiom_text_id", "sort_key"], false)
  }

  function AxiomTagsTable(): Table {
    Table(AxiomTags, "axiom_tags",
          ["axiom_id", "tag"],
          Some(Fk(0, "axiom_text_id", Axioms)), ["axiom_text_id", "tag"], false)
  }

  function IdeaTagsTable(): Table {
    Table(IdeaTags, "idea_tags",
          ["idea_id", "tag"],
          Some(Fk(0, "idea_text_id", Ideas)), ["idea_text_id", "tag"], false)
  }

  function IdeaTaskRefsTable(): Table {
    Table(IdeaTaskRefs, "idea_task_refs",
          ["idea_id", "task_ref"],
          Some(Fk(0, "idea_text_id", Ideas)), ["idea_text_id", "task_ref"], false)
  }

  function RfcRelationsTable(): Table {
    Table(RfcRelations, "rfc_relations",
          ["rfc_id", "related_rfc", "relation"],
          Some(Fk(0, "rfc_text_id", Rfcs)), ["rfc_text_id", "related_rfc", "relation"], false)
  }

  function TableOf(id: TableId): Table {
    match id
    case Epochs => EpochsTable()
    case Phases => PhasesTable()
    case Goals => GoalsTable()
    case Tasks => TasksTable()
    case Ideas => IdeasTable()
    case Inbox => InboxTable()
    case Rfcs => RfcsTable()
    case Lanes => LanesTable()
    case Axioms => AxiomsTable()
    case TaskLogs => TaskLogsTable()
    case TaskVerifications => TaskVerificationsTable()
    case PhaseRfcs => PhaseRfcsTable()
    case Aliases => AliasesTable()
    case AxiomImplications => AxiomImplicationsTable()
    case AxiomTags => AxiomTagsTable()
    case IdeaTags => IdeaTagsTable()
    case IdeaTaskRefs => IdeaTaskRefsTable()
    case RfcRelations => RfcRelationsTable()
  }

  // ------------------------------------------------- the schema fits the general theory

  predicate NameChar(c: char) { 'a' <= c <= 'z' || c == '_' }

  predicate Identifier(s: string) { s != [] && forall k :: 0 <= k < |s| ==> NameChar(s[k]) }

  lemma IdentifierIsPlain(s: string)
    requires Identifier(s)
    ensures PlainName(s)
  {
  }

  /** Every key of the mapping is at least twelve long and ends in "_text_id". */
  predicate Unmapped(s: string) { |s| < 12 || s[|s| - 8] != '_' }

  lemma UnmappedIsNoKey(s: string)
    requires Unmapped(s)
    ensures s !in MAPPING
  {
  }

  /** A name that is printed plainly and is no dumped foreign key. */
  predicate Column(s: string) { Identifier(s) && Unmapped(s) }

  lemma Columns0()
    ensures Column("text_id") && Column("title") && Column("slug")
    ensures Column("reviewed") && Column("sort_key")
  {
  }

  lemma Columns1()
    ensures Column("status") && Column("epoch_id") && Column("kind")
    ensures Column("completed_at") && Column("label")
  {
  }

  lemma Columns2()
    ensures Column("phase_id") && Column("rfc") && Column("target_stage")
    ensures Column("started_at") && Column("description")
  {
  }

  lemma Columns3()
    ensures Column("completion_log") && Column("goal_id") && Column("notes")
    ensures Column("created_at") && Column("source")
  {
  }

  lemma Columns4()
    ensures Column("updated_at") && Column("entity_type") && Column("entity_id")
    ensures Column("intent") && Column("priority")
  {
  }

  lemma Columns5()
    ensures Column("confidence") && Column("agent_id") && Column("subject")
    ensures Column("body") && Column("action_json")
  {
  }

  lemma Columns6()
    ensures Column("resolution") && Column("rfc_number") && Column("stage")
    ensures Column("feature") && Column("file_path")
  {
  }

  lemma Columns7()
    ensures Column("superseded_by") && Column("supersedes") && Column("withdrawal_reason")
    ensures Column("archived_reason") && Column("consolidated_into")
  {
  }

  lemma Columns8()
    ensures Column("state") && Column("execution_phase_id") && Column("scope")
    ensures Column("principle") && Column("rationale")
  {
  }

  lemma Columns9()
    ensures Column("task_id") && Column("message") && Column("command")
    ensures Column("result") && Column("details")
  {
  }

  lemma Columns10()
    ensures Column("rfc_id") && Column("target") && Column("relation")
    ensures Column("alias") && Column("axiom_id")
  {
  }

  lemma Columns11()
    ensures Column("implication") && Column("tag") && Column("idea_id")
    ensures Column("task_ref") && Column("related_rfc")
  {
  }

  lemma TableNames0()
    ensures Identifier("epochs_data") && Identifier("phases_data") && Identifier("goals_data")
    ensures Identifier("tasks_data") && Identifier("ideas_data") && Identifier("inbox_data")
  {
  }

  lemma TableNames1()
    ensures Identifier("rfcs_data") && Identifier("workbench_lanes_data") && Identifier("axioms")
    ensures Identifier("task_logs") && Identifier("task_verifications") && Identifier("phase_rfcs_data")
  {
  }

  lemma TableNames2()
    ensures Identifier("entity_aliases") && Identifier("axiom_implications") && Identifier("axiom_tags")
    ensures Identifier("idea_tags") && Identifier("idea_task_refs") && Identifier("rfc_relations")
  {
  }

  lemma DumpedNames()
    ensures Identifier("epoch_text_id")
    ensures Identifier("phase_text_id")
    ensures Identifier("goal_text_id")
    ensures Identifier("execution_phase_text_id")
    ensures Identifier("task_text_id")
    ensures Identifier("axiom_text_id")
    ensures Identifier("idea_text_id")
    ensures Identifier("rfc_text_id")
  {
  }

  /** All columns of the table are proper names. */
  predicate ProperColumns(t: Table) {
    t.columns != [] && forall k :: 0 <= k < |t.columns| ==> Column(t.columns[k])
  }

  lemma ProperIsGood(t: Table)
    requires ProperColumns(t) && Identifier(t.name)
    requires t.fk.Some? ==> t.fk.value.at < |t.columns| && Identifier(t.fk.value.dumped)
    requires t.fk.Some? && t.entity ==> t.fk.value.at > 0
    requires t.id == Aliases ==> t.columns == ["entity_type", "entity_id", "alias"] && t.fk.None? && !t.entity
    ensures GoodTable(MAPPING, t)
  {
    IdentifierIsPlain(t.name);
    forall k | 0 <= k < |t.columns| ensures PlainName(t.columns[k]) && t.columns[k] !in MAPPING {
      assert Column(t.columns[k]);
      IdentifierIsPlain(t.columns[k]);
      UnmappedIsNoKey(t.columns[k]);
    }
    if t.fk.Some? {
      IdentifierIsPlain(t.fk.value.dumped);
    }
  }

  function Parents(id: TableId): set<TableId> {
    match id
    case Phases => {Epochs}
    case Goals | Lanes | PhaseRfcs => {Phases}
    case Tasks => {Goals}
    case TaskLogs | TaskVerifications => {Tasks}
    case AxiomImplications | AxiomTags => {Axioms}
    case IdeaTags | IdeaTaskRefs => {Ideas}
    case RfcRelations => {Rfcs}
    case Aliases => {Epochs, Phases, Goals, Tasks}
    case _ => {}
  }

  predicate IsEntity(id: TableId) {
    id in {Epochs, Phases, Goals, Tasks, Ideas, Inbox, Rfcs, Lanes, Axioms}
  }

  /** What the general theory needs to know about one table: only rfc_relations has
      a foreign key that the importer does not map back. */
  predicate Fits(id: TableId, t: Table) {
    && t.id == id && GoodTable(MAPPING, t)
    && t.entity == IsEntity(id) && References(t) == Parents(id)
    && (t.entity ==> t.sortColumns == [t.columns[0]])
    && (if id == RfcRelations then Unimportable(MAPPING, t) else Importable(MAPPING, t))
  }

  lemma Mapped()
    ensures "epoch_text_id" in MAPPING && MAPPING["epoch_text_id"] == ("epoch_id", Epochs)
    ensures "phase_text_id" in MAPPING && MAPPING["phase_text_id"] == ("phase_id", Phases)
    ensures "goal_text_id" in MAPPING && MAPPING["goal_text_id"] == ("goal_id", Goals)
    ensures "task_text_id" in MAPPING && MAPPING["task_text_id"] == ("task_id", Tasks)
    ensures "idea_text_id" in MAPPING && MAPPING["idea_text_id"] == ("idea_id", Ideas)
    ensures "axiom_text_id" in MAPPING && MAPPING["axiom_text_id"] == ("axiom_id", Axioms)
    ensures "execution_phase_text_id" in MAPPING
    ensures MAPPING["execution_phase_text_id"] == ("execution_phase_id", Phases)
  {
  }

  /** The importer maps the dumped foreign key back, except that of rfc_relations. */
  predicate MapsBack(id: TableId, t: Table, fk: Fk)
    requires fk.at < |t.columns|
  {
    if id == RfcRelations then fk.dumped !in MAPPING && fk.dumped !in t.columns
    else fk.dumped in MAPPING && MAPPING[fk.dumped] == (t.columns[fk.at], fk.target)
  }

  predicate FkShape(id: TableId, t: Table, fk: Fk) {
    && fk.at < |t.columns| && (t.entity ==> fk.at > 0) && Identifier(fk.dumped)
    && Parents(id) == {fk.target} && MapsBack(id, t, fk)
  }

  /** What is left to look up in the schema. */
  predicate Shape(id: TableId, t: Table) {
    && t.id == id && Identifier(t.name) && t.entity == IsEntity(id)
    && (t.entity ==> t.columns != [] && t.sortColumns == [t.columns[0]])
    && (if id == Aliases then t.columns == ["entity_type", "entity_id", "alias"] && t.fk.None?
        else if t.fk.None? then Parents(id) == {}
        else FkShape(id, t, t.fk.value))
  }

  lemma ShapeFits(id: TableId, t: Table)
    requires ProperColumns(t) && Shape(id, t)
    ensures Fits(id, t)
  {
    ProperIsGood(t);
  }

  lemma PlanColumns()
    ensures ProperColumns(EpochsTable())
    ensures ProperColumns(PhasesTable())
    ensures ProperColumns(GoalsTable())
    ensures ProperColumns(TasksTable())
  {
    Columns0();
    Columns1();
    Columns2();
    Columns3();
  }

  lemma NoteColumns()
    ensures ProperColumns(IdeasTable())
    ensures ProperColumns(InboxTable())
    ensures ProperColumns(AxiomsTable())
  {
    Columns0();
    Columns1();
    Columns2();
    Columns3();
    Columns4();
    Columns5();
    Columns6();
    Columns8();
  }

  lemma WorkColumns()
    ensures ProperColumns(RfcsTable())
    ensures ProperColumns(LanesTable())
  {
    Columns0();
    Columns1();
    Columns3();
    Columns4();
    Columns6();
    Columns7();
    Columns8();
  }

  lemma DetailColumns()
    ensures ProperColumns(TaskLogsTable())
    ensures ProperColumns(TaskVerificationsTable())
    ensures ProperColumns(PhaseRfcsTable())
    ensures ProperColumns(AliasesTable())
    ensures ProperColumns(AxiomImplicationsTable())
    ensures ProperColumns(AxiomTagsTable())
    ensures ProperColumns(IdeaTagsTable())
    ensures ProperColumns(IdeaTaskRefsTable())
    ensures ProperColumns(RfcRelationsTable())
  {
    Columns0();
    Columns1();
    Columns2();
    Columns3();
    Columns4();
    Columns9();
    Columns10();
    Columns11();
  }

  lemma PlanShapes(id: TableId)
    requires id in {Epochs, Phases, Goals, Tasks}
    ensures Shape(id, TableOf(id))
  {
    TableNames0();
    DumpedNames();
    Mapped();
  }

  lemma OtherEntityShapes(id: TableId)
    requires id in {Ideas, Inbox, Rfcs, Lanes, Axioms}
    ensures Shape(id, TableOf(id))
  {
    TableNames0();
    TableNames1();
    DumpedNames();
    Mapped();
  }

  lemma DetailShapes(id: TableId)
    requires !IsEntity(id)
    ensures Shape(id, TableOf(id))
  {
    TableNames1();
    TableNames2();
    DumpedNames();
    Mapped();
    UnmappedIsNoKey("rfc_text_id");
  }

  lemma PlanTablesFit(id: TableId)
    requires id in {Epochs, Phases, Goals, Tasks}
    ensures Fits(id, TableOf(id))
  {
    PlanShapes(id);
    PlanColumns();
    ShapeFits(id, TableOf(id));
  }

  lemma OtherEntitiesFit(id: TableId)
    requires id in {Ideas, Inbox, Rfcs, Lanes, Axioms}
    ensures Fits(id, TableOf(id))
  {
    OtherEntityShapes(id);
    NoteColumns();
    WorkColumns();
    ShapeFits(id, TableOf(id));
  }

  lemma DetailTablesFit(id: TableId)
    requires !IsEntity(id)
    ensures Fits(id, TableOf(id))
  {
    DetailShapes(id);
    DetailColumns();
    ShapeFits(id, TableOf(id));
  }

  lemma EveryTableFits(id: TableId)
    ensures Fits(id, TableOf(id))
  {
    if id in {Epochs, Phases, Goals, Tasks} {
      PlanTablesFit(id);
    } else if IsEntity(id) {
      OtherEntitiesFit(id);
    } else {
      DetailTablesFit(id);
    }
  }

  // ------------------------------------------------------- names say what keys point to

  /** The column, its dumped name and the table it points into all carry the name of one
      entity: `x_id`, `x_text_id` and `xs` or `xs_data`, with a role before the first two. */
  predicate NamedAfter(column: string, dumped: string, target: TableId, role: string, entity: string) {
    && column == role + entity + "_id"
    && dumped == role + entity + "_text_id"
    && (TableOf(target).name == entity + "s_data" || TableOf(target).name == entity + "s")
  }

  ghost predicate ByName(column: string, dumped: string, target: TableId) {
    exists role, entity :: NamedAfter(column, dumped, target, role, entity)
  }

  lemma EpochKeys()
    ensures ByName("epoch_id", "epoch_text_id", Epochs)
  {
    assert NamedAfter("epoch_id", "epoch_text_id", Epochs, "", "epoch");
  }

  lemma PhaseKeys()
    ensures ByName("phase_id", "phase_text_id", Phases)
  {
    assert NamedAfter("phase_id", "phase_text_id", Phases, "", "phase");
  }

  lemma GoalKeys()
    ensures ByName("goal_id", "goal_text_id", Goals)
  {
    assert NamedAfter("goal_id", "goal_text_id", Goals, "", "goal");
  }

  lemma TaskKeys()
    ensures ByName("task_id", "task_text_id", Tasks)
  {
    assert NamedAfter("task_id", "task_text_id", Tasks, "", "task");
  }

  lemma IdeaKeys()
    ensures ByName("idea_id", "idea_text_id", Ideas)
  {
    assert NamedAfter("idea_id", "idea_text_id", Ideas, "", "idea");
  }

  lemma AxiomKeys()
    ensures ByName("axiom_id", "axiom_text_id", Axioms)
  {
    assert NamedAfter("axiom_id", "axiom_text_id", Axioms, "", "axiom");
  }

  lemma LaneKeys()
    ensures ByName("execution_phase_id", "execution_phase_text_id", Phases)
  {
    assert NamedAfter("execution_phase_id", "execution_phase_text_id", Phases, "execution_", "phase");
  }

  lemma RfcKeys()
    ensures ByName("rfc_id", "rfc_text_id", Rfcs)
    ensures TableOf(RfcRelations).fk == Some(Fk(0, "rfc_text_id", Rfcs))
    ensures TableOf(RfcRelations).columns != [] && TableOf(RfcRelations).columns[0] == "rfc_id"
  {
    assert NamedAfter("rfc_id", "rfc_text_id", Rfcs, "", "rfc");
  }

  /** Every entry of the importer's mapping points into the table that its name says. */
  lemma MappingPointsByName(dumped: string)
    ensures dumped in MAPPING ==> ByName(MAPPING[dumped].0, dumped, MAPPING[dumped].1)
  {
    Mapped();
    EpochKeys();
    PhaseKeys();
    GoalKeys();
    TaskKeys();
    IdeaKeys();
    AxiomKeys();
    LaneKeys();
  }

  ghost predicate KeyByName(t: Table) {
    t.fk.Some? ==> t.fk.value.at < |t.columns| && ByName(t.columns[t.fk.value.at], t.fk.value.dumped, t.fk.value.target)
  }

  lemma FittingKeyByName(id: TableId, t: Table)
    requires Fits(id, t) && id != RfcRelations
    ensures KeyByName(t)
  {
    if t.fk.Some? {
      MappingPointsByName(t.fk.value.dumped);
    }
  }

  /** And so does every foreign key of the schema. */
  lemma KeysPointByName(id: TableId)
    ensures KeyByName(TableOf(id))
  {
    if id == RfcRelations {
      RfcKeys();
    } else {
      EveryTableFits(id);
      FittingKeyByName(id, TableOf(id));
    }
  }

  // ---------------------------------------------------------------------- orders

  /** The order in which tables are dumped. */
  const DUMP_ORDER: seq<TableId> :=
    [Epochs, Phases, Goals, Tasks, Ideas, Inbox, Rfcs, Lanes, Axioms, TaskLogs, TaskVerifications, PhaseRfcs,
     Aliases, AxiomImplications, AxiomTags, IdeaTags, IdeaTaskRefs, RfcRelations]

  /** The order in which the projected files are read back. */
  const FILE_ORDER: seq<TableId> :=
    [Epochs, Phases, Goals, Tasks, Ideas, Inbox, Rfcs, Lanes, TaskLogs, TaskVerifications, Axioms, AxiomImplications,
     AxiomTags, PhaseRfcs, Aliases, IdeaTags, IdeaTaskRefs, RfcRelations]

  function TablesOf(schema: TableId -> Table, ids: seq<TableId>): seq<Table> {
    seq(|ids|, k requires 0 <= k < |ids| => schema(ids[k]))
  }

  ghost predicate FitsAll(schema: TableId -> Table) {
    forall id: TableId :: Fits(id, schema(id))
  }

  lemma SchemaFits()
    ensures FitsAll(TableOf)
  {
    forall id: TableId ensures Fits(id, TableOf(id)) {
      EveryTableFits(id);
    }
  }

  /** Every table once, parents before children. */
  ghost predicate GoodIds(ids: seq<TableId>, rank: TableId -> nat) {
    && (forall id: TableId :: rank(id) < |ids| && ids[rank(id)] == id)
    && (forall k :: 0 <= k < |ids| ==> rank(ids[k]) == k)
    && (forall id: TableId, parent :: parent in Parents(id) ==> rank(parent) < rank(id) && IsEntity(parent))
  }

  function DumpRank(id: TableId): nat {
    match id
    case Epochs => 0
    case Phases => 1
    case Goals => 2
    case Tasks => 3
    case Ideas => 4
    case Inbox => 5
    case Rfcs => 6
    case Lanes => 7
    case Axioms => 8
    case TaskLogs => 9
    case TaskVerifications => 10
    case PhaseRfcs => 11
    case Aliases => 12
    case AxiomImplications => 13
    case AxiomTags => 14
    case IdeaTags => 15
    case IdeaTaskRefs => 16
    case RfcRelations => 17
  }

  function FileRank(id: TableId): nat {
    match id
    case TaskLogs => 8
    case TaskVerifications => 9
    case Axioms => 10
    case AxiomImplications => 11
    case AxiomTags => 12
    case PhaseRfcs => 13
    case Aliases => 14
    case _ => DumpRank(id)
  }

  lemma DumpRankIsPosition(id: TableId)
    ensures DumpRank(id) < |DUMP_ORDER| && DUMP_ORDER[DumpRank(id)] == id
  {
  }

  lemma FileRankIsPosition(id: TableId)
    ensures FileRank(id) < |FILE_ORDER| && FILE_ORDER[FileRank(id)] == id
  {
  }

  lemma ParentsComeFirst(id: TableId, parent: TableId)
    requires parent in Parents(id)
    ensures DumpRank(parent) < DumpRank(id) && FileRank(parent) < FileRank(id) && IsEntity(parent)
  {
  }

  lemma DumpOrderIsGood()
    ensures GoodIds(DUMP_ORDER, DumpRank)
  {
    forall id: TableId ensures DumpRank(id) < |DUMP_ORDER| && DUMP_ORDER[DumpRank(id)] == id {
      DumpRankIsPosition(id);
    }
    forall id: TableId, parent | parent in Parents(id) ensures DumpRank(parent) < DumpRank(id) && IsEntity(parent) {
      ParentsComeFirst(id, parent);
    }
  }

  lemma FileOrderIsGood()
    ensures GoodIds(FILE_ORDER, FileRank)
  {
    forall id: TableId ensures FileRank(id) < |FILE_ORDER| && FILE_ORDER[FileRank(id)] == id {
      FileRankIsPosition(id);
    }
    forall id: TableId, parent | parent in Parents(id) ensures FileRank(parent) < FileRank(id) && IsEntity(parent) {
      ParentsComeFirst(id, parent);
    }
  }

  lemma OrderFits(schema: TableId -> Table, ids: seq<TableId>, rank: TableId -> nat)
    requires FitsAll(schema) && GoodIds(ids, rank)
    ensures GoodOrder(MAPPING, TablesOf(schema, ids)) && ImportableOrNot(MAPPING, TablesOf(schema, ids))
  {
    var order := TablesOf(schema, ids);
    assert forall k :: 0 <= k < |order| ==> Fits(ids[k], order[k]);
    forall i, j | 0 <= i < j < |order| ensures order[i].id != order[j].id {
      assert rank(ids[i]) == i && rank(ids[j]) == j;
    }
    forall k, parent | 0 <= k < |order| && parent in References(order[k])
      ensures exists j :: 0 <= j < k && order[j].id == parent && order[j].entity
    {
      assert rank(ids[k]) == k && rank(parent) < k;
      assert Fits(ids[rank(parent)], order[rank(parent)]);
    }
  }

  // ------------------------------------------------------------------ the round trip

  /** A database that follows the schema. */
  ghost predicate ValidDb(schema: TableId -> Table, db: Db) {
    H.InRange(db.generation) && forall id: TableId :: ValidRows(schema(id), RowsOf(db.tables, id))
  }

  lemma ValidForOrder(schema: TableId -> Table, db: Db, ids: seq<TableId>)
    requires FitsAll(schema) && ValidDb(schema, db)
    ensures ValidTables(TablesOf(schema, ids), db.tables) && FullTables(TablesOf(schema, ids), db.tables)
  {
    var order := TablesOf(schema, ids);
    forall k | 0 <= k < |order| ensures ValidRows(order[k], RowsOf(db.tables, order[k].id)) {
      assert Fits(ids[k], schema(ids[k]));
    }
    ValidIsFull(order, db.tables);
  }

  /** What was dumped can be imported exactly when rfc_relations is empty, and then
      dumping the imported database gives the same texts. */
  ghost predicate RoundTrips(order: seq<Table>, db: Db)
    requires FullTables(order, db.tables) && H.InRange(db.generation) && DumpTables(order, db).Done?
  {
    var texts := DumpTables(order, db).value;
    var back := ImportTables(MAPPING, EmptyImporter, order, texts);
    && (back.Imported? <==> RowsOf(db.tables, RfcRelations) == [])
    && (back.Imported? ==>
          && FullTables(order, back.value.tables)
          && DumpTables(order, Db(back.value.tables, db.generation)) == Done(texts))
  }

  lemma FitsLoads(id: TableId, t: Table, tables: Tables)
    requires Fits(id, t)
    ensures Loads(MAPPING, t, tables) <==> id != RfcRelations || RowsOf(tables, RfcRelations) == []
  {
  }

  lemma LoadsUnlessRelated(schema: TableId -> Table, tables: Tables, ids: seq<TableId>, rank: TableId -> nat)
    requires FitsAll(schema) && GoodIds(ids, rank) && GoodOrder(MAPPING, TablesOf(schema, ids))
    ensures AllLoad(MAPPING, TablesOf(schema, ids), tables) <==> RowsOf(tables, RfcRelations) == []
  {
    var order := TablesOf(schema, ids);
    forall k | 0 <= k < |order|
      ensures Loads(MAPPING, order[k], tables) <==> ids[k] != RfcRelations || RowsOf(tables, RfcRelations) == []
    {
      FitsLoads(ids[k], schema(ids[k]), tables);
    }
    assert ids[rank(RfcRelations)] == RfcRelations;
  }

  /** The round trip in any parents-first order of all tables. */
  lemma DatabaseRoundTrip(schema: TableId -> Table, db: Db, ids: seq<TableId>, rank: TableId -> nat)
    requires FitsAll(schema) && ValidDb(schema, db) && GoodIds(ids, rank)
    ensures FullTables(TablesOf(schema, ids), db.tables)
    ensures DumpTables(TablesOf(schema, ids), db).Done? ==> RoundTrips(TablesOf(schema, ids), db)
  {
    var order := TablesOf(schema, ids);
    ValidForOrder(schema, db, ids);
    OrderFits(schema, ids, rank);
    if DumpTables(order, db).Done? {
      RoundTrip(MAPPING, order, db);
      LoadsUnlessRelated(schema, db.tables, ids, rank);
    }
  }

  /** The round trip of the projection, in the order of `dump_tables` and in the order
      in which the files are read. */
  lemma ProjectRoundTrip(db: Db)
    requires ValidDb(TableOf, db)
    ensures FullTables(TablesOf(TableOf, DUMP_ORDER), db.tables) && FullTables(TablesOf(TableOf, FILE_ORDER), db.tables)
    ensures DumpTables(TablesOf(TableOf, DUMP_ORDER), db).Done? ==> RoundTrips(TablesOf(TableOf, DUMP_ORDER), db)
    ensures DumpTables(TablesOf(TableOf, FILE_ORDER), db).Done? ==> RoundTrips(TablesOf(TableOf, FILE_ORDER), db)
  {
    SchemaFits();
    DumpOrderIsGood();
    FileOrderIsGood();
    DatabaseRoundTrip(TableOf, db, DUMP_ORDER, DumpRank);
    DatabaseRoundTrip(TableOf, db, FILE_ORDER, FileRank);
  }

  /** Unique rowids everywhere, and unique text ids in the entity tables. */
  ghost predicate KeyedDb(db: Db) {
    forall id: TableId ::
      DistinctIds(RowsOf(db.tables, id)) && (IsEntity(id) ==> UniqueTextIds(RowsOf(db.tables, id)))
  }

  lemma KeyedForOrder(schema: TableId -> Table, db: Db, ids: seq<TableId>)
    requires FitsAll(schema) && KeyedDb(db)
    ensures UniqueKeys(TablesOf(schema, ids), db.tables)
  {
    var order := TablesOf(schema, ids);
    assert forall k :: 0 <= k < |order| ==> Fits(ids[k], order[k]);
  }

  /** Importing what was dumped gives the source database back, up to rowids, row order
      and the aliases that are not printed; it succeeds exactly when rfc_relations is empty. */
  lemma DatabaseRestored(schema: TableId -> Table, db: Db, ids: seq<TableId>, rank: TableId -> nat)
    returns (f: Renumbering)
    requires FitsAll(schema) && ValidDb(schema, db) && KeyedDb(db) && GoodIds(ids, rank)
    ensures FullTables(TablesOf(schema, ids), db.tables)
    ensures DumpTables(TablesOf(schema, ids), db).Done? ==>
              ComesBack(TablesOf(schema, ids), db, f)
  {
    var order := TablesOf(schema, ids);
    ValidForOrder(schema, db, ids);
    OrderFits(schema, ids, rank);
    KeyedForOrder(schema, db, ids);
    f := (t: TableId, id: int) => id;
    if DumpTables(order, db).Done? {
      f := RoundTripRestores(MAPPING, order, db);
      LoadsUnlessRelated(schema, db.tables, ids, rank);
    }
  }

  ghost predicate ComesBack(order: seq<Table>, db: Db, f: Renumbering)
    requires FullTables(order, db.tables) && H.InRange(db.generation) && DumpTables(order, db).Done?
  {
    var back := ImportTables(MAPPING, EmptyImporter, order, DumpTables(order, db).value);
    && (back.Imported? <==> RowsOf(db.tables, RfcRelations) == [])
    && (back.Imported? ==> Injective(f) && Restores(order, db.tables, back.value.tables, f))
  }

  /** The same for the project's own tables and its two orders. */
  lemma ProjectRestored(db: Db) returns (f: Renumbering, g: Renumbering)
    requires ValidDb(TableOf, db) && KeyedDb(db)
    ensures FullTables(TablesOf(TableOf, DUMP_ORDER), db.tables) && FullTables(TablesOf(TableOf, FILE_ORDER), db.tables)
    ensures DumpTables(TablesOf(TableOf, DUMP_ORDER), db).Done? ==> ComesBack(TablesOf(TableOf, DUMP_ORDER), db, f)
    ensures DumpTables(TablesOf(TableOf, FILE_ORDER), db).Done? ==> ComesBack(TablesOf(TableOf, FILE_ORDER), db, g)
  {
    SchemaFits();
    DumpOrderIsGood();
    FileOrderIsGood();
    f := DatabaseRestored(TableOf, db, DUMP_ORDER, DumpRank);
    g := DatabaseRestored(TableOf, db, FILE_ORDER, FileRank);
  }

  // ------------------------------------------------------- a dump that is refused

  /** One RFC that supersedes another. */
  function RelatedDb(): Db {
    Db(map[Rfcs := [Row(1, [SqlStr("rfc-1")] + seq(14, k => SqlNull))],
           RfcRelations := [Row(1, [SqlInt(1), SqlStr("rfc-2"), SqlStr("supersedes")])]], 0)
  }

  predicate RfcShape(t: Table) {
    |t.columns| == 15 && t.fk.None?
  }

  predicate RelationShape(t: Table) {
    |t.columns| == 3 && !t.entity && t.fk.Some? && t.fk.value.at == 0 && t.fk.value.target == Rfcs
  }

  lemma RfcShapes()
    ensures RfcShape(TableOf(Rfcs)) && RelationShape(TableOf(RfcRelations))
  {
    assert TableOf(Rfcs) == RfcsTable() && TableOf(RfcRelations) == RfcRelationsTable();
  }

  lemma OneRowResolves(t: Table, row: Row, tables: Tables)
    requires |row.values| == |t.columns| && !Resolve(t, row, tables).Fail?
    ensures ResolveAll(t, [row], tables).Done?
  {
    assert ResolveAll(t, [row][1..], tables) == Done([]);
  }

  lemma RelatedRowsAreValid(id: TableId, t: Table)
    requires id == Rfcs ==> RfcShape(t)
    requires id == RfcRelations ==> RelationShape(t)
    ensures ValidRows(t, RowsOf(RelatedDb().tables, id))
  {
  }

  lemma RelatedRowsResolve(t: Table)
    requires ValidRows(t, RowsOf(RelatedDb().tables, t.id))
    requires t.id == Rfcs ==> RfcShape(t)
    requires t.id == RfcRelations ==> RelationShape(t)
    ensures Portable(t, RelatedDb().tables).Done?
  {
    var tables := RelatedDb().tables;
    if t.id == RfcRelations {
      TextIdOfRow(tables[Rfcs], tables[Rfcs][0]);
      OneRowResolves(t, tables[t.id][0], tables);
    } else if t.id == Rfcs {
      OneRowResolves(t, tables[t.id][0], tables);
    }
  }

  /** A database whose dump the importer refuses. */
  lemma RelatedRfcsDoNotReload(schema: TableId -> Table)
    requires FitsAll(schema) && RfcShape(schema(Rfcs)) && RelationShape(schema(RfcRelations))
    ensures var order := TablesOf(schema, DUMP_ORDER);
            && FullTables(order, RelatedDb().tables)
            && DumpTables(order, RelatedDb()).Done?
            && ImportTables(MAPPING, EmptyImporter, order, DumpTables(order, RelatedDb()).value).Rejected?
  {
    var db, order := RelatedDb(), TablesOf(schema, DUMP_ORDER);
    forall id: TableId ensures ValidRows(schema(id), RowsOf(db.tables, id)) {
      RelatedRowsAreValid(id, schema(id));
    }
    DumpOrderIsGood();
    DatabaseRoundTrip(schema, db, DUMP_ORDER, DumpRank);
    forall k | 0 <= k < |order| ensures Portable(order[k], db.tables).Done? {
      assert Fits(DUMP_ORDER[k], order[k]);
      RelatedRowsResolve(order[k]);
    }
    var ps := seq(|order|, k requires 0 <= k < |order| => Portable(order[k], db.tables).value);
    DumpOfPortables(order, db, ps);
  }

  lemma RelatedRfcsRefused()
    ensures var order := TablesOf(TableOf, DUMP_ORDER);
            && FullTables(order, RelatedDb().tables)
            && DumpTables(order, RelatedDb()).Done?
            && ImportTables(MAPPING, EmptyImporter, order, DumpTables(order, RelatedDb()).value).Rejected?
  {
    SchemaFits();
    RfcShapes();
    RelatedRfcsDoNotReload(TableOf);
  }

  // ----------------------------------------------------------------- determinism

  /** Text ids are unique, and no two rows of a detail table share a sort key. */
  ghost predicate NoTiesAtAll(schema: TableId -> Table, tables: Tables)
    requires forall id: TableId :: schema(id).id == id && FullRows(schema(id), RowsOf(tables, id))
  {
    forall id: TableId ::
      && (IsEntity(id) ==> UniqueTextIds(RowsOf(tables, id)))
      && (!IsEntity(id) ==> NoTies(schema(id), tables))
  }

  /** One dump succeeds when the other does, with the same texts. */
  ghost predicate DumpsAlike(order: seq<Table>, a: Db, b: Db) {
    && FullTables(order, a.tables) && FullTables(order, b.tables)
    && H.InRange(a.generation) && H.InRange(b.generation)
    && (DumpTables(order, a).Done? <==> DumpTables(order, b).Done?)
    && (DumpTables(order, a).Done? ==> DumpTables(order, a) == DumpTables(order, b))
  }

  /** Two databases equal up to rowids and row order dump alike when text ids are
      unique and no two rows of a detail table share a sort key. */
  lemma ProjectDumpIgnoresRowIds(schema: TableId -> Table, ids: seq<TableId>, rank: TableId -> nat,
                                 a: Db, b: Db, f: Renumbering)
    requires FitsAll(schema) && GoodIds(ids, rank) && ValidDb(schema, a)
    requires b.generation == a.generation && Injective(f)
    requires SameUpTo(TablesOf(schema, ids), a.tables, b.tables, f) && NoTiesAtAll(schema, a.tables)
    requires forall id: TableId :: DistinctIds(RowsOf(a.tables, id)) && DistinctIds(RowsOf(b.tables, id))
    ensures DumpsAlike(TablesOf(schema, ids), a, b)
  {
    var order := TablesOf(schema, ids);
    OrderFits(schema, ids, rank);
    ValidForOrder(schema, a, ids);
    forall k | 0 <= k < |order| ensures NoTies(order[k], a.tables) {
      assert Fits(ids[k], order[k]);
      if IsEntity(ids[k]) {
        EntitiesDoNotTie(MAPPING, order[k], a.tables);
      }
    }
    DumpIgnoresRowIds(MAPPING, order, a, b, f);
  }

  /** The same for the tables of the projection, in the order of the dump and in the
      order of the files. */
  lemma ProjectDumpIsDeterministic(a: Db, b: Db, f: Renumbering)
    requires ValidDb(TableOf, a) && b.generation == a.generation && Injective(f)
    requires forall id: TableId :: TableOf(id).id == id && FullRows(TableOf(id), RowsOf(a.tables, id))
    requires NoTiesAtAll(TableOf, a.tables)
    requires forall id: TableId :: DistinctIds(RowsOf(a.tables, id)) && DistinctIds(RowsOf(b.tables, id))
    requires SameUpTo(TablesOf(TableOf, DUMP_ORDER), a.tables, b.tables, f)
    requires SameUpTo(TablesOf(TableOf, FILE_ORDER), a.tables, b.tables, f)
    ensures DumpsAlike(TablesOf(TableOf, DUMP_ORDER), a, b)
    ensures DumpsAlike(TablesOf(TableOf, FILE_ORDER), a, b)
  {
    SchemaFits();
    DumpOrderIsGood();
    FileOrderIsGood();
    ProjectDumpIgnoresRowIds(TableOf, DUMP_ORDER, DumpRank, a, b, f);
    ProjectDumpIgnoresRowIds(TableOf, FILE_ORDER, FileRank, a, b, f);
  }
}
