/** What opening does to the database, without reference to the steps: where a generation
    can come from at all, and exactly when an undisturbed open succeeds and what it leaves
    behind. */
module WriterOutcomes {
  import opened ProjectionHeader
  import opened WriterProtocol

  // ------------------------------------------------------- where a generation comes from

  predicate Imports(action: Action, g: int) {
    action == Begin(Import(g)) || action == Use(ThenStamp(g))
  }

  /** Some opener has a migration that requires this generation, or an import of it is
      begun. */
  ghost predicate Asked(need: Requirements, openers: seq<Opener>, events: seq<Event>, g: int) {
    || (exists k, m :: 0 <= k < |openers| && m in openers[k].migrations && need(m) == g)
    || (exists j :: 0 <= j < |events| && Imports(events[j].action, g))
  }

  predicate PurposeFrom(from: iset<int>, purpose: Purpose) {
    purpose.Import? ==> purpose.projection in from
  }

  predicate WorkFrom(from: iset<int>, work: Work) {
    work.ThenStamp? ==> work.projection in from
  }

  /** Every generation that an opener carries along. */
  predicate PcFrom(from: iset<int>, pc: Pc) {
    match pc
    case Starting(purpose) => PurposeFrom(from, purpose)
    case Waiting(purpose) => PurposeFrom(from, purpose)
    case Holding(purpose) => PurposeFrom(from, purpose)
    case Resuming(work) => WorkFrom(from, work)
    case Reading(work) => WorkFrom(from, work)
    case Raising(work, required, _) => WorkFrom(from, work) && required in from
    case Applying(work, _) => WorkFrom(from, work)
    case Recording(work, _) => WorkFrom(from, work)
    case Finishing(work) => WorkFrom(from, work)
    case Stamping(generation) => generation in from
    case _ => true
  }

  predicate OpenerFrom(need: Requirements, from: iset<int>, o: Opener) {
    PcFrom(from, o.pc) && forall m :: m in o.migrations ==> need(m) in from
  }

  ghost predicate AllFrom(need: Requirements, from: iset<int>, s: System) {
    s.db.generation in from && forall k :: 0 <= k < |s.openers| ==> OpenerFrom(need, from, s.openers[k])
  }

  lemma StepFrom(need: Requirements, from: iset<int>, db: Database, o: Opener)
    requires !o.pc.Waiting? && db.generation in from && OpenerFrom(need, from, o)
    ensures var (after, o') := Step(need, db, o); after.generation in from && OpenerFrom(need, from, o')
  {
  }

  lemma NextFrom(need: Requirements, from: iset<int>, s: System, e: Event)
    requires AllFrom(need, from, s) && forall g :: Imports(e.action, g) ==> g in from
    ensures AllFrom(need, from, Next(need, s, e))
  {
    if e.who < |s.openers| {
      var o := s.openers[e.who];
      match e.action
      case Begin(purpose) => assert purpose.Import? ==> Imports(e.action, purpose.projection);
      case Use(work) => assert work.ThenStamp? ==> Imports(e.action, work.projection);
      case Fail =>
      case Advance =>
        if !o.pc.Waiting? {
          StepFrom(need, from, s.db, o);
        }
    }
  }

  lemma {:induction false} RunFrom(need: Requirements, from: iset<int>, s: System, events: seq<Event>)
    requires AllFrom(need, from, s)
    requires forall j, g :: 0 <= j < |events| && Imports(events[j].action, g) ==> g in from
    ensures AllFrom(need, from, Run(need, s, events))
    decreases |events|
  {
    if events != [] {
      NextFrom(need, from, s, events[0]);
      RunFrom(need, from, Next(need, s, events[0]), events[1..]);
    }
  }

  /** In every run the generation is the initial one, one that a migration requires, or one
      that an import brought along. */
  lemma GenerationIsAskedFor(need: Requirements, s: System, events: seq<Event>)
    requires Init(need, s)
    ensures Run(need, s, events).db.generation == s.db.generation ||
            Asked(need, s.openers, events, Run(need, s, events).db.generation)
  {
    var from := iset g | g == s.db.generation || Asked(need, s.openers, events, g);
    forall k | 0 <= k < |s.openers| ensures OpenerFrom(need, from, s.openers[k]) {
      forall m | m in s.openers[k].migrations ensures need(m) in from {
        assert Asked(need, s.openers, events, need(m));
      }
    }
    RunFrom(need, from, s, events);
  }

  predicate InRange(generation: int) { 0 <= generation <= MAX_GENERATION }

  lemma NextStaysInRange(need: Requirements, s: System, e: Event)
    requires Inv(need, s) && InRange(s.db.generation)
    ensures InRange(Next(need, s, e).db.generation)
  {
    if e.who < |s.openers| {
      assert OpenerOk(need, s.db, s.openers[e.who]);
    }
  }

  lemma {:induction false} RunStaysInRange(need: Requirements, s: System, events: seq<Event>)
    requires Inv(need, s) && InRange(s.db.generation)
    ensures InRange(Run(need, s, events).db.generation)
    decreases |events|
  {
    if events != [] {
      NextStaysInRange(need, s, events[0]);
      NextKeepsInv(need, s, events[0]);
      RunStaysInRange(need, Next(need, s, events[0]), events[1..]);
    }
  }

  /** A program that could work with the database is shut out only by a migration's
      requirement or an imported generation beyond what it supports. */
  lemma ShutOutOnlyByNeed(need: Requirements, s: System, events: seq<Event>, o: Opener)
    requires Init(need, s) && Supports(o, s.db.generation)
    ensures !Supports(o, Run(need, s, events).db.generation) ==>
              exists g :: Asked(need, s.openers, events, g) && g > o.supported
  {
    InitIsInv(need, s);
    GenerationIsAskedFor(need, s, events);
    RunStaysInRange(need, s, events);
  }

  // ------------------------------------------------------------------ migration order

  predicate Distinct(migrations: seq<nat>) {
    forall a, b :: 0 <= a < b < |migrations| ==> migrations[a] != migrations[b]
  }

  /** Where a migration stands in the program. */
  function Place(migrations: seq<nat>, m: nat): nat {
    if migrations == [] || migrations[0] == m then 0 else 1 + Place(migrations[1..], m)
  }

  lemma {:induction false} PlaceOf(migrations: seq<nat>, a: nat)
    requires Distinct(migrations) && a < |migrations|
    ensures Place(migrations, migrations[a]) == a
  {
    if a > 0 {
      PlaceOf(migrations[1..], a - 1);
    }
  }

  /** What is to do comes in the program's order. */
  predicate InOrder(migrations: seq<nat>, todo: seq<nat>) {
    forall i, j :: 0 <= i < j < |todo| ==> Place(migrations, todo[i]) < Place(migrations, todo[j])
  }

  /** One more migration in front moves every place by one. */
  lemma InOrderBehind(migrations: seq<nat>, todo: seq<nat>)
    requires migrations != [] && InOrder(migrations[1..], todo) && migrations[0] !in todo
    ensures InOrder(migrations, todo) && InOrder(migrations, [migrations[0]] + todo)
  {
    forall k | 0 <= k < |todo| ensures Place(migrations, todo[k]) == 1 + Place(migrations[1..], todo[k]) {
    }
  }

  lemma {:induction false} PendingInOrder(migrations: seq<nat>, applied: set<nat>)
    requires Distinct(migrations)
    ensures InOrder(migrations, Pending(migrations, applied))
  {
    if migrations != [] {
      var rest := Pending(migrations[1..], applied);
      PendingInOrder(migrations[1..], applied);
      assert migrations[0] !in migrations[1..] && migrations[0] !in rest;
      InOrderBehind(migrations, rest);
    }
  }

  predicate TodoInOrder(o: Opener) {
    match o.pc
    case Raising(_, _, todo) => InOrder(o.migrations, todo)
    case Applying(_, todo) => InOrder(o.migrations, todo)
    case Recording(_, todo) => InOrder(o.migrations, todo)
    case _ => true
  }

  lemma NextInOrder(need: Requirements, s: System, e: Event, k: nat)
    requires k < |s.openers| && TodoInOrder(s.openers[k]) && Distinct(s.openers[k].migrations)
    ensures TodoInOrder(Next(need, s, e).openers[k])
    ensures Next(need, s, e).openers[k].migrations == s.openers[k].migrations
  {
    if s.openers[k].pc.Reading? {
      PendingInOrder(s.openers[k].migrations, s.db.applied);
    }
  }

  lemma {:induction false} RunInOrder(need: Requirements, s: System, events: seq<Event>, k: nat)
    requires k < |s.openers| && TodoInOrder(s.openers[k]) && Distinct(s.openers[k].migrations)
    ensures TodoInOrder(Run(need, s, events).openers[k])
    ensures Run(need, s, events).openers[k].migrations == s.openers[k].migrations
    decreases |events|
  {
    if events != [] {
      NextInOrder(need, s, events[0], k);
      RunInOrder(need, Next(need, s, events[0]), events[1..], k);
    }
  }

  lemma FirstToDo(db: Database, o: Opener, todo: seq<nat>, a: nat, b: nat)
    requires Progress(db, o, todo) && Distinct(o.migrations) && InOrder(o.migrations, todo)
    requires a < b < |o.migrations| && todo != [] && todo[0] == o.migrations[b]
    ensures o.migrations[a] in db.applied
  {
    PlaceOf(o.migrations, a);
    PlaceOf(o.migrations, b);
    forall j | 0 <= j < |todo| ensures todo[j] != o.migrations[a] {
    }
  }

  /** In every run, when a migration has taken effect and is about to be recorded, all that
      come before it in the program are recorded. */
  lemma EarlierMigrationsFirst(need: Requirements, s: System, events: seq<Event>, k: nat, a: nat, b: nat)
    requires Init(need, s) && k < |s.openers| && Distinct(s.openers[k].migrations)
    requires a < b < |s.openers[k].migrations|
    ensures var t := Run(need, s, events);
            var o := t.openers[k];
            o.pc.Recording? && o.pc.todo != [] && o.pc.todo[0] == s.openers[k].migrations[b] ==>
              s.openers[k].migrations[a] in t.db.applied
  {
    InitIsInv(need, s);
    RunKeepsInv(need, s, events);
    RunInOrder(need, s, events, k);
    var t := Run(need, s, events);
    var o := t.openers[k];
    assert OpenerOk(need, t.db, o);
    if o.pc.Recording? && o.pc.todo != [] && o.pc.todo[0] == o.migrations[b] {
      FirstToDo(t.db, o, o.pc.todo, a, b);
    }
  }

  // ----------------------------------------------------------------- an undisturbed run

  /** One step of an opener with nobody in its way. */
  function SoloStep(need: Requirements, db: Database, o: Opener): (Database, Opener) {
    if o.pc.Waiting? then (db, o.(pc := Holding(o.pc.purpose), lease := Mode(o.pc.purpose))) else Step(need, db, o)
  }

  function Solo(need: Requirements, db: Database, o: Opener, n: nat): (Database, Opener)
    decreases n
  {
    if n == 0 then (db, o)
    else
      var (after, o') := SoloStep(need, db, o);
      Solo(need, after, o', n - 1)
  }

  lemma {:induction false} SoloAdd(need: Requirements, db: Database, o: Opener, m: nat, n: nat)
    ensures Solo(need, db, o, m + n) ==
            Solo(need, Solo(need, db, o, m).0, Solo(need, db, o, m).1, n)
    decreases m
  {
    if m > 0 {
      var (after, o') := SoloStep(need, db, o);
      SoloAdd(need, after, o', m - 1, n);
    }
  }

  function Advances(who: nat, n: nat): seq<Event> {
    seq(n, _ => Event(who, Advance))
  }

  /** Nobody else holds a lease. */
  predicate Undisturbed(s: System, who: nat) {
    who < |s.openers| && forall k :: 0 <= k < |s.openers| && k != who ==> s.openers[k].lease == Unlocked
  }

  lemma {:induction false} SoloRuns(need: Requirements, s: System, who: nat, n: nat)
    requires Undisturbed(s, who)
    ensures var (db, o) := Solo(need, s.db, s.openers[who], n);
            Run(need, s, Advances(who, n)) == System(db, s.openers[who := o])
    decreases n
  {
    if n == 0 {
      assert s.openers[who := s.openers[who]] == s.openers;
    } else {
      var t := Next(need, s, Event(who, Advance));
      var (after, o') := SoloStep(need, s.db, s.openers[who]);
      assert t == System(after, s.openers[who := o']);
      assert Advances(who, n)[1..] == Advances(who, n - 1);
      SoloRuns(need, t, who, n - 1);
      var last := Solo(need, after, o', n - 1).1;
      assert t.openers[who := last] == s.openers[who := last];
    }
  }

  // ------------------------------------------------------------------ what comes of it

  /** The program can work with this generation. */
  predicate Fits(o: Opener, generation: int) {
    0 <= generation <= o.supported
  }

  /** So could it with what all its migrations require. */
  ghost predicate CanMigrate(need: Requirements, o: Opener) {
    forall m :: m in o.migrations ==> need(m) <= o.supported
  }

  /** All its migrations are recorded. */
  ghost predicate UpToDate(db: Database, o: Opener) {
    forall m :: m in o.migrations ==> m in db.applied
  }

  /** When an undisturbed open succeeds. */
  ghost predicate CanOpen(need: Requirements, db: Database, o: Opener, purpose: Purpose) {
    Fits(o, db.generation) &&
    match purpose
    case Normal => (db.exists_ && UpToDate(db, o)) || CanMigrate(need, o)
    case Existing | ReadOnly => db.exists_
    case Import(projection) => projection <= o.supported && CanMigrate(need, o)
    case _ => true
  }

  /** The least generation that is neither below the old one nor below what any of the
      migrations requires. */
  ghost predicate LeastRaise(need: Requirements, o: Opener, before: int, after: int) {
    && before <= after
    && (forall m :: m in o.migrations ==> need(m) <= after)
    && (after == before || exists m :: m in o.migrations && need(m) == after)
  }

  /** The database after the program's migrations: all are recorded, those that were
      missing have taken effect, and nothing else has happened. */
  ghost predicate MigratedTo(need: Requirements, before: Database, o: Opener, after: Database) {
    && after.exists_
    && LeastRaise(need, o, before.generation, after.generation)
    && after.applied == before.applied + (set m | m in o.migrations)
    && after.effects == before.effects + (set m | m in o.migrations && m !in before.applied)
  }

  /** What a successful open does to the database. */
  ghost predicate OpenedAs(need: Requirements, before: Database, o: Opener, purpose: Purpose, after: Database) {
    match purpose
    case Normal => if before.exists_ && UpToDate(before, o) then after == before else MigratedTo(need, before, o, after)
    case Physical => after == before.(exists_ := true)
    case Import(projection) =>
      exists g :: MigratedTo(need, before, o, after.(generation := g)) &&
                  after.generation == if g >= projection then g else projection
    case _ => after == before
  }

  lemma {:induction false} PendingIsMissing(migrations: seq<nat>, applied: set<nat>)
    ensures (set m | m in Pending(migrations, applied)) == (set m | m in migrations && m !in applied)
    ensures Pending(migrations, applied) == [] <==> forall m :: m in migrations ==> m in applied
  {
    if Pending(migrations, applied) != [] {
      assert Pending(migrations, applied)[0] in migrations;
    }
  }

  function AddAll(s: set<nat>, todo: seq<nat>): set<nat> {
    s + set m | m in todo
  }

  /** The migration loop, from its head to its end. */
  lemma {:induction false} AppliesAll(need: Requirements, db: Database, o: Opener)
    requires o.pc.Applying?
    ensures Solo(need, db, o, 2 * |o.pc.todo| + 1) ==
            (db.(applied := AddAll(db.applied, o.pc.todo), effects := AddAll(db.effects, o.pc.todo)),
             o.(pc := Finishing(o.pc.work)))
    decreases |o.pc.todo|
  {
    var work, todo := o.pc.work, o.pc.todo;
    if todo == [] {
      assert AddAll(db.applied, todo) == db.applied && AddAll(db.effects, todo) == db.effects;
      assert Solo(need, db, o, 1) == Solo(need, db, o.(pc := Finishing(work)), 0);
    } else {
      var n := 2 * |todo[1..]| + 1;
      var db2 := db.(applied := db.applied + {todo[0]}, effects := db.effects + {todo[0]});
      var o2 := o.(pc := Applying(work, todo[1..]));
      SoloStepTwice(need, db, o, db.(effects := db.effects + {todo[0]}), o.(pc := Recording(work, todo)), db2, o2);
      SoloAdd(need, db, o, 2, n);
      AppliesAll(need, db2, o2);
      assert todo == [todo[0]] + todo[1..];
      assert AddAll(db2.applied, todo[1..]) == AddAll(db.applied, todo);
      assert AddAll(db2.effects, todo[1..]) == AddAll(db.effects, todo);
    }
  }

  lemma SoloStepTwice(need: Requirements, db: Database, o: Opener, db1: Database, o1: Opener, db2: Database, o2: Opener)
    requires SoloStep(need, db, o) == (db1, o1) && SoloStep(need, db1, o1) == (db2, o2)
    ensures Solo(need, db, o, 2) == (db2, o2)
  {
    assert Solo(need, db1, o1, 1) == Solo(need, db2, o2, 0);
  }

  lemma RequiredIsLeast(need: Requirements, db: Database, o: Opener)
    ensures LeastRaise(need, o, db.generation, Required(o.migrations, need, db.generation))
    ensures Fits(o, db.generation) && o.supported <= MAX_GENERATION ==>
              (Supports(o, Required(o.migrations, need, db.generation)) <==> CanMigrate(need, o))
  {
    var required := Required(o.migrations, need, db.generation);
    forall m | m in o.migrations ensures need(m) <= required {
      var k :| 0 <= k < |o.migrations| && o.migrations[k] == m;
    }
    if required != db.generation {
      var k :| 0 <= k < |o.migrations| && required == need(o.migrations[k]);
      assert o.migrations[k] in o.migrations;
    }
  }

  lemma SoloOnce(need: Requirements, db: Database, o: Opener)
    ensures Solo(need, db, o, 1) == SoloStep(need, db, o)
  {
    var (after, o') := SoloStep(need, db, o);
    assert Solo(need, after, o', 0) == (after, o');
  }

  lemma SoloThen(need: Requirements, db: Database, o: Opener, m: nat, db1: Database, o1: Opener, n: nat)
    requires Solo(need, db, o, m) == (db1, o1)
    ensures Solo(need, db, o, m + n) == Solo(need, db1, o1, n)
  {
    SoloAdd(need, db, o, m, n);
  }

  /** The database after the migrations `todo` at the raised generation. */
  function Carried(db: Database, required: int, todo: seq<nat>): Database {
    Database(true, required, AddAll(db.applied, todo), AddAll(db.effects, todo))
  }

  lemma CarriedIsMigrated(need: Requirements, db: Database, o: Opener)
    ensures MigratedTo(need, db, o, Carried(db, Required(o.migrations, need, db.generation),
                                            Pending(o.migrations, db.applied)))
  {
    RequiredIsLeast(need, db, o);
    PendingIsMissing(o.migrations, db.applied);
    var after := Carried(db, Required(o.migrations, need, db.generation), Pending(o.migrations, db.applied));
    assert after.applied == db.applied + set m | m in o.migrations;
  }

  lemma RaisesFirst(need: Requirements, db: Database, o: Opener)
    requires o.pc.Reading? && Supports(o, Required(o.migrations, need, db.generation))
    ensures var required, todo := Required(o.migrations, need, db.generation), Pending(o.migrations, db.applied);
            Solo(need, db, o, 2) ==
            (db.(exists_ := true, generation := required), o.(pc := Applying(o.pc.work, todo)))
  {
    var required, todo := Required(o.migrations, need, db.generation), Pending(o.migrations, db.applied);
    SoloStepTwice(need, db, o, db, o.(pc := Raising(o.pc.work, required, todo)),
                  db.(exists_ := true, generation := required), o.(pc := Applying(o.pc.work, todo)));
  }

  /** A run of the migrations that is not refused, from the reading of history to its end. */
  lemma MigratesFully(need: Requirements, db: Database, o: Opener) returns (n: nat)
    requires o.pc.Reading? && Supports(o, Required(o.migrations, need, db.generation))
    ensures Solo(need, db, o, n) == (Carried(db, Required(o.migrations, need, db.generation),
                                             Pending(o.migrations, db.applied)), o.(pc := Finishing(o.pc.work)))
  {
    var work, required := o.pc.work, Required(o.migrations, need, db.generation);
    var todo := Pending(o.migrations, db.applied);
    var raised, applying := db.(exists_ := true, generation := required), o.(pc := Applying(work, todo));
    RaisesFirst(need, db, o);
    n := 2 + (2 * |todo| + 1);
    SoloThen(need, db, o, 2, raised, applying, 2 * |todo| + 1);
    AppliesAll(need, raised, applying);
  }

  /** A run of the migrations: it is refused exactly when one of them requires more than
      the program supports, and then nothing has changed. */
  lemma MigratesAlone(need: Requirements, db: Database, o: Opener) returns (n: nat, after: Database)
    requires o.pc.Reading? && Fits(o, db.generation) && o.supported <= MAX_GENERATION
    ensures CanMigrate(need, o) ==>
              MigratedTo(need, db, o, after) && Fits(o, after.generation) &&
              Solo(need, db, o, n) == (after, o.(pc := Finishing(o.pc.work)))
    ensures !CanMigrate(need, o) ==> Solo(need, db, o, n) == (db, Stop(o))
  {
    RequiredIsLeast(need, db, o);
    if CanMigrate(need, o) {
      n := MigratesFully(need, db, o);
      after := Solo(need, db, o, n).0;
      CarriedIsMigrated(need, db, o);
    } else {
      n, after := 1, db;
      SoloOnce(need, db, o);
    }
  }

  // ---------------------------------------------------------------- each way to open

  /** The lease that a connection keeps. */
  function KeptBy(purpose: Purpose): Lease {
    if purpose.Import? then Exclusive else Shared
  }

  /** The end of an open: connected, or idle again with the database untouched. */
  ghost predicate Ends(need: Requirements, db: Database, o: Opener, purpose: Purpose, end: (Database, Opener)) {
    if CanOpen(need, db, o, purpose)
    then
      && OpenedAs(need, db, o, purpose, end.0) && end.1.pc.Connected?
      && end.1 == o.(pc := end.1.pc, lease := KeptBy(purpose))
    else end == (db, Stop(o))
  }

  /** From the first probe to the end of the second, if the program fits. */
  lemma PassesProbes(need: Requirements, db: Database, o: Opener, purpose: Purpose)
    requires o.pc == Starting(purpose) && o.lease == Unlocked && o.supported <= MAX_GENERATION
    requires Fits(o, db.generation)
    requires (purpose.Import? ==> purpose.projection <= o.supported) && (NeedsFile(purpose) ==> db.exists_)
    ensures Solo(need, db, o, 3) == (db, o.(pc := AfterProbe(purpose), lease := Mode(purpose)))
  {
    var waiting := o.(pc := Waiting(purpose));
    var holding := o.(pc := Holding(purpose), lease := Mode(purpose));
    SoloStepTwice(need, db, o, db, waiting, db, holding);
    SoloOnce(need, db, holding);
    SoloAdd(need, db, o, 2, 1);
  }

  lemma FailsAtOnce(need: Requirements, db: Database, o: Opener, purpose: Purpose)
    requires o.pc == Starting(purpose) && o.supported <= MAX_GENERATION
    requires !Fits(o, db.generation) || (purpose.Import? && purpose.projection > o.supported) ||
             ((purpose.Existing? || purpose.ReadOnly?) && !db.exists_)
    ensures Solo(need, db, o, 1) == (db, Stop(o))
  {
    SoloOnce(need, db, o);
  }

  lemma OpensDirectly(need: Requirements, db: Database, o: Opener, purpose: Purpose) returns (n: nat)
    requires o.pc == Starting(purpose) && o.lease == Unlocked && o.supported <= MAX_GENERATION
    requires purpose.Physical? || purpose.Existing? || purpose.ReadOnly?
    ensures Ends(need, db, o, purpose, Solo(need, db, o, n))
  {
    if CanOpen(need, db, o, purpose) {
      n := 3 + 1;
      PassesProbes(need, db, o, purpose);
      var opening := o.(pc := Opening(purpose), lease := Shared);
      SoloThen(need, db, o, 3, db, opening, 1);
      SoloOnce(need, db, opening);
    } else {
      n := 1;
      FailsAtOnce(need, db, o, purpose);
    }
  }

  lemma UpToDateIffNonePending(db: Database, o: Opener)
    ensures UpToDate(db, o) <==> Pending(o.migrations, db.applied) == []
  {
    PendingIsMissing(o.migrations, db.applied);
  }

  /** After the migrations: the second half of the normal path. */
  lemma Reopens(need: Requirements, db: Database, o: Opener)
    requires o.pc == Finishing(ThenReopen) && db.exists_ && Fits(o, db.generation) && o.supported <= MAX_GENERATION
    ensures Solo(need, db, o, 4) == (db, o.(pc := Connected(Reopen), lease := Shared))
  {
    var waiting := o.(pc := Waiting(Reopen), lease := Unlocked);
    var holding := o.(pc := Holding(Reopen), lease := Shared);
    var opening := o.(pc := Opening(Reopen), lease := Shared);
    var connected := o.(pc := Connected(Reopen), lease := Shared);
    SoloStepTwice(need, db, o, db, waiting, db, holding);
    SoloStepTwice(need, db, holding, db, opening, db, connected);
    SoloThen(need, db, o, 2, db, holding, 2);
  }

  /** With migrations pending: on to the exclusive lease. */
  lemma GoesMigrating(need: Requirements, db: Database, o: Opener)
    requires o.pc == Checking && o.lease == Shared && o.supported <= MAX_GENERATION && Fits(o, db.generation)
    requires !(db.exists_ && UpToDate(db, o))
    ensures Solo(need, db, o, 3) == (db, o.(pc := Reading(ThenReopen), lease := Exclusive))
  {
    UpToDateIffNonePending(db, o);
    var holding := o.(pc := Holding(Migrate), lease := Exclusive);
    SoloStepTwice(need, db, o, db, o.(pc := Waiting(Migrate), lease := Unlocked), db, holding);
    SoloOnce(need, db, holding);
    SoloThen(need, db, o, 2, db, holding, 1);
  }

  lemma OpensUpToDate(need: Requirements, db: Database, o: Opener)
    requires o.pc == Checking && db.exists_ && UpToDate(db, o)
    ensures Solo(need, db, o, 2) == (db, o.(pc := Connected(Normal)))
  {
    UpToDateIffNonePending(db, o);
    SoloStepTwice(need, db, o, db, o.(pc := Opening(Normal)), db, o.(pc := Connected(Normal)));
  }

  lemma OpensAfterMigration(need: Requirements, db: Database, o: Opener) returns (n: nat)
    requires o.pc == Checking && o.lease == Shared && o.supported <= MAX_GENERATION && Fits(o, db.generation)
    requires !(db.exists_ && UpToDate(db, o))
    ensures var end := Solo(need, db, o, n);
            if CanMigrate(need, o)
            then MigratedTo(need, db, o, end.0) && end.1 == o.(pc := Connected(Reopen), lease := Shared)
            else end == (db, Stop(o))
  {
    GoesMigrating(need, db, o);
    var reading := o.(pc := Reading(ThenReopen), lease := Exclusive);
    var m, after := MigratesAlone(need, db, reading);
    SoloThen(need, db, o, 3, db, reading, m);
    n := 3 + m;
    if CanMigrate(need, o) {
      var finishing := reading.(pc := Finishing(ThenReopen));
      SoloThen(need, db, o, 3 + m, after, finishing, 4);
      Reopens(need, after, finishing);
      n := 3 + m + 4;
    }
  }

  lemma OpensNormally(need: Requirements, db: Database, o: Opener) returns (n: nat)
    requires o.pc == Starting(Normal) && o.lease == Unlocked && o.supported <= MAX_GENERATION
    ensures Ends(need, db, o, Normal, Solo(need, db, o, n))
  {
    if !Fits(o, db.generation) {
      n := 1;
      FailsAtOnce(need, db, o, Normal);
    } else {
      var checking := o.(pc := Checking, lease := Shared);
      PassesProbes(need, db, o, Normal);
      var m := 2;
      if db.exists_ && UpToDate(db, o) {
        OpensUpToDate(need, db, checking);
      } else {
        m := OpensAfterMigration(need, db, checking);
      }
      n := 3 + m;
      SoloThen(need, db, o, 3, db, checking, m);
    }
  }

  lemma StampsAlone(need: Requirements, db: Database, o: Opener, projection: int)
    requires o.pc == Finishing(ThenStamp(projection))
    ensures var g := if db.generation >= projection then db.generation else projection;
            Solo(need, db, o, 2) == (db.(generation := g), o.(pc := Connected(Import(g))))
  {
    var g := if db.generation >= projection then db.generation else projection;
    SoloStepTwice(need, db, o, db, o.(pc := Stamping(g)), db.(generation := g), o.(pc := Connected(Import(g))));
  }

  /** What a run of the migrations with what follows it leaves behind. */
  ghost predicate UsedAs(need: Requirements, before: Database, o: Opener, work: Work, after: Database) {
    if work.ThenStamp? then OpenedAs(need, before, o, Import(work.projection), after)
    else MigratedTo(need, before, o, after)
  }

  /** Where an opener is does not matter for what its migrations do. */
  lemma PcDoesNotMatter(need: Requirements, db: Database, o: Opener, pc: Pc)
    ensures forall after :: MigratedTo(need, db, o.(pc := pc), after) <==> MigratedTo(need, db, o, after)
  {
    forall after ensures MigratedTo(need, db, o.(pc := pc), after) <==> MigratedTo(need, db, o, after) {
    }
  }

  lemma FinishesAlone(need: Requirements, db: Database, o: Opener, work: Work, after: Database) returns (k: nat)
    requires !work.ThenReopen? && o.supported <= MAX_GENERATION
    requires MigratedTo(need, db, o, after) && Fits(o, after.generation)
    ensures var end := Solo(need, after, o.(pc := Finishing(work)), k);
            UsedAs(need, db, o, work, end.0) && end.1.pc.Connected? && end.1 == o.(pc := end.1.pc)
  {
    var finishing := o.(pc := Finishing(work));
    if work.ThenStamp? {
      k := 2;
      StampsAlone(need, after, finishing, work.projection);
      assert Solo(need, after, finishing, k).0.(generation := after.generation) == after;
    } else {
      k := 1;
      SoloOnce(need, after, finishing);
    }
  }

  /** From the reading of history to the connection. */
  lemma WorksAlone(need: Requirements, db: Database, o: Opener) returns (n: nat)
    requires o.pc.Reading? && !o.pc.work.ThenReopen? && o.supported <= MAX_GENERATION && Fits(o, db.generation)
    ensures var end := Solo(need, db, o, n);
            if CanMigrate(need, o)
            then UsedAs(need, db, o, o.pc.work, end.0) && end.1.pc.Connected? && end.1 == o.(pc := end.1.pc)
            else end == (db, Stop(o))
  {
    var after;
    n, after := MigratesAlone(need, db, o);
    if CanMigrate(need, o) {
      var k := FinishesAlone(need, db, o, o.pc.work, after);
      SoloThen(need, db, o, n, after, o.(pc := Finishing(o.pc.work)), k);
      n := n + k;
    }
  }

  lemma OpensForImport(need: Requirements, db: Database, o: Opener, projection: int) returns (n: nat)
    requires o.pc == Starting(Import(projection)) && o.lease == Unlocked && o.supported <= MAX_GENERATION
    ensures Ends(need, db, o, Import(projection), Solo(need, db, o, n))
  {
    if !Fits(o, db.generation) || projection > o.supported {
      n := 1;
      FailsAtOnce(need, db, o, Import(projection));
    } else {
      PassesProbes(need, db, o, Import(projection));
      var reading := o.(pc := Reading(ThenStamp(projection)), lease := Exclusive);
      var m := WorksAlone(need, db, reading);
      n := 3 + m;
      SoloThen(need, db, o, 3, db, reading, m);
      ImportEnds(need, db, o, projection, Solo(need, db, reading, m));
    }
  }

  lemma ImportEnds(need: Requirements, db: Database, o: Opener, projection: int, end: (Database, Opener))
    requires Fits(o, db.generation) && projection <= o.supported
    requires var reading := o.(pc := Reading(ThenStamp(projection)), lease := Exclusive);
             if CanMigrate(need, o)
             then UsedAs(need, db, reading, ThenStamp(projection), end.0) && end.1.pc.Connected? &&
                  end.1 == reading.(pc := end.1.pc)
             else end == (db, Stop(reading))
    ensures Ends(need, db, o, Import(projection), end)
  {
  }

  /** An undisturbed open, whichever way, succeeds exactly when the program supports the
      database and all it would have to become, and what it leaves behind is the least that
      was asked for; otherwise nothing has changed. */
  lemma OpensIff(need: Requirements, s: System, who: nat, purpose: Purpose) returns (n: nat)
    requires Undisturbed(s, who) && s.openers[who].pc == Idle && s.openers[who].lease == Unlocked
    requires s.openers[who].supported <= MAX_GENERATION
    requires !purpose.Migrate? && !purpose.Reopen? && !purpose.Authorize?
    ensures var o, t := s.openers[who], Run(need, s, [Event(who, Begin(purpose))] + Advances(who, n));
            && |t.openers| == |s.openers|
            && t.openers == s.openers[who := t.openers[who]]
            && if CanOpen(need, s.db, o, purpose)
               then
                 && OpenedAs(need, s.db, o, purpose, t.db) && t.openers[who].pc.Connected?
                 && t.openers[who] == o.(pc := t.openers[who].pc, lease := KeptBy(purpose))
               else t == s
  {
    var begun := Next(need, s, Event(who, Begin(purpose)));
    var o := begun.openers[who];
    match purpose {
      case Normal => n := OpensNormally(need, s.db, o);
      case Import(projection) => n := OpensForImport(need, s.db, o, projection);
      case _ => n := OpensDirectly(need, s.db, o, purpose);
    }
    RunMore(need, s, Event(who, Begin(purpose)), Advances(who, n));
    SoloRuns(need, begun, who, n);
    PcDoesNotMatter(need, s.db, s.openers[who], o.pc);
    assert begun.openers[who := Stop(o)] == s.openers;
  }

  // -------------------------------------------------------------- exclusive authority

  /** Authority is granted exactly when the program supports the database. */
  lemma AuthorityIff(need: Requirements, s: System, who: nat)
    requires Undisturbed(s, who) && s.openers[who].pc == Idle && s.openers[who].lease == Unlocked
    requires s.openers[who].supported <= MAX_GENERATION
    ensures var o, begin := s.openers[who], [Event(who, Begin(Authorize))];
            if Fits(o, s.db.generation)
            then Run(need, s, begin + Advances(who, 3)) ==
                 s.(openers := s.openers[who := o.(pc := Authorized, lease := Exclusive)])
            else Run(need, s, begin + Advances(who, 1)) == s
  {
    var begun := Next(need, s, Event(who, Begin(Authorize)));
    var o := begun.openers[who];
    var granted := o.(pc := Authorized, lease := Exclusive);
    assert begun.openers[who := granted] == s.openers[who := granted];
    if Fits(o, s.db.generation) {
      PassesProbes(need, s.db, o, Authorize);
      RunMore(need, s, Event(who, Begin(Authorize)), Advances(who, 3));
      SoloRuns(need, begun, who, 3);
    } else {
      FailsAtOnce(need, s.db, o, Authorize);
      RunMore(need, s, Event(who, Begin(Authorize)), Advances(who, 1));
      SoloRuns(need, begun, who, 1);
      assert s.openers[who := Stop(o)] == s.openers;
    }
  }

  ghost predicate CanUse(need: Requirements, db: Database, o: Opener, work: Work) {
    && Fits(o, db.generation) && CanMigrate(need, o)
    && (work.ThenStamp? ==> work.projection <= o.supported)
  }

  /** From the probe that follows to the connection. */
  lemma ResumesAlone(need: Requirements, db: Database, o: Opener) returns (n: nat)
    requires o.pc.Resuming? && !o.pc.work.ThenReopen? && o.supported <= MAX_GENERATION
    ensures var end := Solo(need, db, o, n);
            if CanUse(need, db, o, o.pc.work)
            then UsedAs(need, db, o, o.pc.work, end.0) && end.1.pc.Connected? && end.1 == o.(pc := end.1.pc)
            else end == (db, Stop(o))
  {
    var work, reading := o.pc.work, o.(pc := Reading(o.pc.work));
    SoloOnce(need, db, o);
    n := 1;
    if Fits(o, db.generation) && (work.ThenStamp? ==> work.projection <= o.supported) {
      var m := WorksAlone(need, db, reading);
      SoloThen(need, db, o, 1, db, reading, m);
      n := 1 + m;
      PcDoesNotMatter(need, db, o, reading.pc);
    }
  }

  /** Using the authority succeeds exactly when the program supports what the database would
      have to become; otherwise nothing has changed and the authority is gone. */
  lemma UseIff(need: Requirements, s: System, who: nat, work: Work) returns (n: nat)
    requires Undisturbed(s, who) && s.openers[who].pc == Authorized && s.openers[who].supported <= MAX_GENERATION
    requires !work.ThenReopen?
    ensures var o, t := s.openers[who], Run(need, s, [Event(who, Use(work))] + Advances(who, n));
            && |t.openers| == |s.openers|
            && t.openers == s.openers[who := t.openers[who]]
            && if CanUse(need, s.db, o, work)
               then
                 && UsedAs(need, s.db, o, work, t.db) && t.openers[who].pc.Connected?
                 && t.openers[who] == o.(pc := t.openers[who].pc)
               else t == s.(openers := s.openers[who := o.(pc := Idle, lease := Unlocked)])
  {
    var used := Next(need, s, Event(who, Use(work)));
    var o := s.openers[who];
    var resuming := o.(pc := Resuming(work));
    n := ResumesAlone(need, s.db, resuming);
    RunMore(need, s, Event(who, Use(work)), Advances(who, n));
    SoloRuns(need, used, who, n);
    var last := Solo(need, s.db, resuming, n).1;
    assert used.openers[who := last] == s.openers[who := last];
    PcDoesNotMatter(need, s.db, o, resuming.pc);
  }
}
