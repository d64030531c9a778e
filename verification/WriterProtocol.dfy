/** Writer compatibility: many openers of different Exo versions share one database.

    An opener is one call of an `open_*` function and the connection it returns.  It
    probes the database generation, takes a shared or exclusive lease on the lock
    file, probes again, migrates if it must, and opens.  The steps of different openers
    interleave freely, and any of them can fail or crash at any point. */
module WriterProtocol {
  import opened ProjectionHeader

  /** The generation that each migration requires; all versions of the program agree
      on the migrations they have in common. */
  type Requirements = nat -> nat

  // --------------------------------------------------------------------- state

  /** The database: its generation, the migrations recorded as applied, and those
      whose effects may be present. */
  datatype Database = Database(exists_: bool, generation: int, applied: set<nat>, effects: set<nat>)

  datatype Lease = Unlocked | Shared | Exclusive

  /** What an opener wants from the lease it is about to take. */
  datatype Purpose =
    | Normal                        // first half of the normal path
    | Migrate                       // its migration, under an exclusive lease
    | Reopen                        // its second half, after the migration
    | Physical
    | Existing
    | ReadOnly
    | Import(projection: int)
    | Authorize

  /** What follows a run of the migrations. */
  datatype Work = ThenReopen | ThenOpen | ThenStamp(projection: int)

  /** Where an opener is. */
  datatype Pc =
    | Idle
    | Starting(purpose: Purpose)              // first probe, without a lease
    | Waiting(purpose: Purpose)               // wants the lease
    | Holding(purpose: Purpose)               // has the lease, second probe to come
    | Checking                                // pending migrations?
    | Opening(purpose: Purpose)
    | Authorized                              // exclusive authority handed to the caller
    | Resuming(work: Work)                    // authority used up, probe to come
    | Reading(work: Work)                     // migrations: history and generation
    | Raising(work: Work, required: int, todo: seq<nat>)
    | Applying(work: Work, todo: seq<nat>)
    | Recording(work: Work, todo: seq<nat>)   // first migration executed, not recorded
    | Finishing(work: Work)
    | Stamping(generation: int)
    | Connected(purpose: Purpose)             // a live fenced connection

  /** `owner` is the thread that called the `open_*` function and holds what it returned. */
  datatype Opener = Opener(supported: int, migrations: seq<nat>, owner: nat, pc: Pc, lease: Lease)

  datatype System = System(db: Database, openers: seq<Opener>)

  // --------------------------------------------------------------------- steps

  function Mode(purpose: Purpose): Lease {
    if purpose.Migrate? || purpose.Import? || purpose.Authorize? then Exclusive else Shared
  }

  predicate Supports(o: Opener, generation: int) {
    0 <= generation <= MAX_GENERATION && generation <= o.supported
  }

  /** Projections are only checked from above. */
  predicate Accepts(o: Opener, projection: int) {
    projection <= o.supported
  }

  predicate Compatible(wanted: Lease, held: Lease) {
    held == Unlocked || (wanted == Shared && held == Shared)
  }

  /** The lease can be taken: nobody else holds an incompatible one. */
  predicate Free(s: System, who: nat, wanted: Lease) {
    forall k :: 0 <= k < |s.openers| && k != who ==> Compatible(wanted, s.openers[k].lease)
  }

  function Max(a: int, b: int): int { if a >= b then a else b }

  /** The generation that a run of the migrations raises to: the largest that any of
      them requires, and never below the current one. */
  function Required(migrations: seq<nat>, need: Requirements, current: int): (g: int)
    ensures g >= current
    ensures forall k :: 0 <= k < |migrations| ==> need(migrations[k]) <= g
    ensures g == current || exists k :: 0 <= k < |migrations| && g == need(migrations[k])
  {
    if migrations == [] then current
    else Max(need(migrations[0]), Required(migrations[1..], need, current))
  }

  /** The migrations not yet recorded, in order. */
  function Pending(migrations: seq<nat>, applied: set<nat>): (todo: seq<nat>)
    ensures forall k :: 0 <= k < |todo| ==> todo[k] in migrations
    ensures forall m :: m in todo <==> m in migrations && m !in applied
    ensures |todo| <= |migrations|
  {
    if migrations == [] then []
    else (if migrations[0] in applied then [] else [migrations[0]]) + Pending(migrations[1..], applied)
  }

  function Go(o: Opener, pc: Pc): Opener { o.(pc := pc) }

  /** Give up or finish: whatever was held is released. */
  function Stop(o: Opener): Opener { o.(pc := Idle, lease := Unlocked) }

  /** After the second probe has passed. */
  function AfterProbe(purpose: Purpose): Pc {
    match purpose
    case Normal => Checking
    case Migrate => Reading(ThenReopen)
    case Import(projection) => Reading(ThenStamp(projection))
    case Authorize => Authorized
    case _ => Opening(purpose)
  }

  /** One step of an opener that holds a lease or needs none. */
  function Step(need: Requirements, db: Database, o: Opener): (Database, Opener)
    requires !o.pc.Waiting?
  {
    match o.pc
    case Starting(purpose) =>
      if purpose.Import? && !Accepts(o, purpose.projection) then (db, Stop(o))
      else if (purpose.Existing? || purpose.ReadOnly?) && !db.exists_ then (db, Stop(o))
      else if Supports(o, db.generation) then (db, Go(o, Waiting(purpose)))
      else (db, Stop(o))
    case Holding(purpose) =>
      if Supports(o, db.generation) then (db, Go(o, AfterProbe(purpose))) else (db, Stop(o))
    case Checking =>
      if !db.exists_ || Pending(o.migrations, db.applied) != []
      then (db, o.(pc := Waiting(Migrate), lease := Unlocked))
      else (db, Go(o, Opening(Normal)))
    case Opening(purpose) =>
      (db.(exists_ := db.exists_ || !(purpose.Existing? || purpose.ReadOnly?)), Go(o, Connected(purpose)))
    case Resuming(work) =>
      if (work.ThenStamp? ==> Accepts(o, work.projection)) && Supports(o, db.generation)
      then (db, Go(o, Reading(work))) else (db, Stop(o))
    case Reading(work) =>
      var required := Required(o.migrations, need, db.generation);
      if Supports(o, required)
      then (db, Go(o, Raising(work, required, Pending(o.migrations, db.applied)))) else (db, Stop(o))
    case Raising(work, required, todo) =>
      (db.(exists_ := true, generation := if required > db.generation then required else db.generation),
       Go(o, Applying(work, todo)))
    case Applying(work, todo) =>
      if todo == [] then (db, Go(o, Finishing(work)))
      else (db.(effects := db.effects + {todo[0]}), Go(o, Recording(work, todo)))
    case Recording(work, todo) =>
      if todo == [] then (db, Stop(o))
      else (db.(applied := db.applied + {todo[0]}), Go(o, Applying(work, todo[1..])))
    case Finishing(work) =>
      (match work
       case ThenStamp(projection) => (db, Go(o, Stamping(Max(db.generation, projection))))
       case ThenOpen => if Supports(o, db.generation) then (db, Go(o, Connected(Authorize))) else (db, Stop(o))
       case ThenReopen =>
         if Supports(o, db.generation) then (db, o.(pc := Waiting(Reopen), lease := Unlocked)) else (db, Stop(o)))
    case Stamping(generation) => (db.(generation := generation), Go(o, Connected(Import(generation))))
    case Connected(_) => (db, Stop(o))
    case Authorized => (db, Stop(o))
    case Idle => (db, o)
  }

  /** What can happen: an opener starts, its caller uses the authority it was given, it
      takes its next step, or it fails (an error, a timed-out lease or a crash). */
  datatype Action = Begin(purpose: Purpose) | Use(work: Work) | Advance | Fail

  datatype Event = Event(who: nat, action: Action)

  function Next(need: Requirements, s: System, e: Event): (t: System)
    ensures |t.openers| == |s.openers|
  {
    if e.who >= |s.openers| then s
    else
      var o := s.openers[e.who];
      match e.action
      case Begin(purpose) =>
        if o.pc.Idle? && !purpose.Migrate? && !purpose.Reopen?
        then s.(openers := s.openers[e.who := Go(o, Starting(purpose))]) else s
      case Use(work) =>
        if o.pc.Authorized? && !work.ThenReopen?
        then s.(openers := s.openers[e.who := Go(o, Resuming(work))]) else s
      case Fail => s.(openers := s.openers[e.who := Stop(o)])
      case Advance =>
        if o.pc.Waiting? then
          if Free(s, e.who, Mode(o.pc.purpose))
          then s.(openers := s.openers[e.who := o.(pc := Holding(o.pc.purpose), lease := Mode(o.pc.purpose))])
          else s
        else
          var (db, after) := Step(need, s.db, o);
          System(db, s.openers[e.who := after])
  }

  function Run(need: Requirements, s: System, events: seq<Event>): (t: System)
    ensures |t.openers| == |s.openers|
    decreases |events|
  {
    if events == [] then s else Run(need, Next(need, s, events[0]), events[1..])
  }

  // ------------------------------------------------------------------ the invariant

  predicate Migrated(db: Database, o: Opener) {
    forall k :: 0 <= k < |o.migrations| ==> o.migrations[k] in db.applied
  }

  predicate Covers(need: Requirements, o: Opener, generation: int) {
    forall k :: 0 <= k < |o.migrations| ==> need(o.migrations[k]) <= generation
  }

  /** The migrations left to do are the opener's own, and the others are recorded. */
  predicate Progress(db: Database, o: Opener, todo: seq<nat>) {
    && (forall k :: 0 <= k < |todo| ==> todo[k] in o.migrations)
    && (forall k :: 0 <= k < |o.migrations| ==> o.migrations[k] in db.applied || o.migrations[k] in todo)
    && |todo| <= |o.migrations|
  }

  predicate WorkOk(o: Opener, work: Work) {
    work.ThenStamp? ==> Accepts(o, work.projection)
  }

  /** These paths come this far only when the database exists. */
  predicate NeedsFile(purpose: Purpose) {
    purpose.Existing? || purpose.ReadOnly? || purpose.Reopen?
  }

  /** What an opener may rely on at each point of its path. */
  predicate OpenerOk(need: Requirements, db: Database, o: Opener) {
    && o.supported <= MAX_GENERATION
    && match o.pc
       case Idle => o.lease == Unlocked
       case Starting(purpose) => o.lease == Unlocked && !purpose.Migrate? && !purpose.Reopen?
       case Waiting(purpose) =>
         && o.lease == Unlocked
         && (purpose.Reopen? ==> Migrated(db, o)) && (NeedsFile(purpose) ==> db.exists_)
         && (purpose.Import? ==> Accepts(o, purpose.projection))
       case Holding(purpose) =>
         && o.lease == Mode(purpose)
         && (purpose.Reopen? ==> Migrated(db, o)) && (NeedsFile(purpose) ==> db.exists_)
         && (purpose.Import? ==> Accepts(o, purpose.projection))
       case Checking => o.lease == Shared && Supports(o, db.generation)
       case Opening(purpose) =>
         && o.lease == Shared && Supports(o, db.generation) && (!purpose.Physical? ==> db.exists_)
         && (!(purpose.Physical? || purpose.Existing? || purpose.ReadOnly?) ==> Migrated(db, o))
       case Authorized => o.lease == Exclusive && Supports(o, db.generation)
       case Resuming(work) => o.lease == Exclusive && Supports(o, db.generation)
       case Reading(work) => o.lease == Exclusive && Supports(o, db.generation) && WorkOk(o, work)
       case Raising(work, required, todo) =>
         && o.lease == Exclusive && Supports(o, db.generation) && WorkOk(o, work)
         && required >= db.generation && Supports(o, required) && Covers(need, o, required)
         && Progress(db, o, todo)
       case Applying(work, todo) =>
         && o.lease == Exclusive && Supports(o, db.generation) && WorkOk(o, work)
         && Covers(need, o, db.generation) && Progress(db, o, todo) && db.exists_
       case Recording(work, todo) =>
         && o.lease == Exclusive && Supports(o, db.generation) && WorkOk(o, work)
         && Covers(need, o, db.generation) && Progress(db, o, todo)
         && todo != [] && todo[0] in db.effects && db.exists_
       case Finishing(work) =>
         o.lease == Exclusive && Supports(o, db.generation) && WorkOk(o, work) && Migrated(db, o) && db.exists_
       case Stamping(generation) =>
         && o.lease == Exclusive && Migrated(db, o) && db.exists_
         && Supports(o, db.generation) && generation >= db.generation && Supports(o, generation)
       case Connected(purpose) =>
         && o.lease != Unlocked && Supports(o, db.generation) && db.exists_
         && (!(purpose.Physical? || purpose.Existing? || purpose.ReadOnly?) ==> Migrated(db, o))
  }

  /** No migration's effects are present below the generation it requires. */
  ghost predicate Fenced(need: Requirements, db: Database) {
    db.applied <= db.effects && forall m :: m in db.effects ==> need(m) <= db.generation
  }

  predicate LeasesOk(openers: seq<Opener>) {
    forall i, j :: 0 <= i < |openers| && 0 <= j < |openers| && i != j && openers[i].lease == Exclusive ==>
      openers[j].lease == Unlocked
  }

  ghost predicate Inv(need: Requirements, s: System) {
    && Fenced(need, s.db)
    && LeasesOk(s.openers)
    && forall k :: 0 <= k < |s.openers| ==> OpenerOk(need, s.db, s.openers[k])
  }

  /** A database that is properly fenced, and nobody using it yet. */
  ghost predicate Init(need: Requirements, s: System) {
    && Fenced(need, s.db)
    && forall k :: 0 <= k < |s.openers| ==>
         s.openers[k].pc == Idle && s.openers[k].lease == Unlocked && s.openers[k].supported <= MAX_GENERATION
  }

  // ------------------------------------------------------- every step keeps the invariant

  lemma InitIsInv(need: Requirements, s: System)
    requires Init(need, s)
    ensures Inv(need, s)
  {
  }

  /** A step changes generation or migrations only under an exclusive lease, raises the
      one and adds to the other, and never takes a lease. */
  lemma StepIsDisciplined(need: Requirements, db: Database, o: Opener)
    requires OpenerOk(need, db, o) && !o.pc.Waiting?
    ensures var (after, o') := Step(need, db, o);
            && after.generation >= db.generation && db.applied <= after.applied && (db.exists_ ==> after.exists_)
            && (o.lease != Exclusive ==> after.generation == db.generation && after.applied == db.applied)
            && (o'.lease == o.lease || o'.lease == Unlocked)
            && o'.migrations == o.migrations && o'.supported == o.supported && o'.owner == o.owner
  {
  }

  lemma RecordKeepsOpener(need: Requirements, db: Database, o: Opener)
    requires OpenerOk(need, db, o) && o.pc.Recording?
    ensures var (after, o') := Step(need, db, o); OpenerOk(need, after, o')
  {
    var todo := o.pc.todo;
    forall k | 0 <= k < |o.migrations| && o.migrations[k] !in db.applied + {todo[0]}
      ensures o.migrations[k] in todo[1..]
    {
      assert todo == [todo[0]] + todo[1..];
    }
  }

  lemma MigrationKeepsOpener(need: Requirements, db: Database, o: Opener)
    requires OpenerOk(need, db, o) && (o.pc.Reading? || o.pc.Raising? || o.pc.Applying?)
    ensures var (after, o') := Step(need, db, o); OpenerOk(need, after, o')
  {
  }

  lemma EndingKeepsOpener(need: Requirements, db: Database, o: Opener)
    requires OpenerOk(need, db, o) && (o.pc.Opening? || o.pc.Resuming? || o.pc.Finishing? || o.pc.Stamping?)
    ensures var (after, o') := Step(need, db, o); OpenerOk(need, after, o')
  {
  }

  lemma StepKeepsOpener(need: Requirements, db: Database, o: Opener)
    requires OpenerOk(need, db, o) && !o.pc.Waiting?
    ensures var (after, o') := Step(need, db, o); OpenerOk(need, after, o')
  {
    if o.pc.Recording? {
      RecordKeepsOpener(need, db, o);
    } else if o.pc.Reading? || o.pc.Raising? || o.pc.Applying? {
      MigrationKeepsOpener(need, db, o);
    } else if o.pc.Opening? || o.pc.Resuming? || o.pc.Finishing? || o.pc.Stamping? {
      EndingKeepsOpener(need, db, o);
    }
  }

  lemma StepKeepsFenced(need: Requirements, db: Database, o: Opener)
    requires OpenerOk(need, db, o) && Fenced(need, db) && !o.pc.Waiting?
    ensures var (after, o') := Step(need, db, o); Fenced(need, after)
  {
  }

  /** An opener that holds no lease relies only on migrations staying applied. */
  lemma UnlockedUnaffected(need: Requirements, db: Database, after: Database, o: Opener)
    requires OpenerOk(need, db, o) && db.applied <= after.applied && (db.exists_ ==> after.exists_)
    requires o.lease == Unlocked || (after.generation == db.generation && after.applied == db.applied)
    requires db.effects <= after.effects
    ensures OpenerOk(need, after, o)
  {
  }

  lemma StepKeepsEffects(need: Requirements, db: Database, o: Opener)
    requires !o.pc.Waiting?
    ensures db.effects <= Step(need, db, o).0.effects
  {
  }

  lemma AdvanceKeepsInv(need: Requirements, s: System, who: nat)
    requires Inv(need, s) && who < |s.openers| && !s.openers[who].pc.Waiting?
    ensures Inv(need, Next(need, s, Event(who, Advance)))
  {
    var o := s.openers[who];
    var t := Next(need, s, Event(who, Advance));
    StepIsDisciplined(need, s.db, o);
    StepKeepsOpener(need, s.db, o);
    StepKeepsFenced(need, s.db, o);
    StepKeepsEffects(need, s.db, o);
    forall k | 0 <= k < |t.openers| ensures OpenerOk(need, t.db, t.openers[k]) {
      if k != who {
        assert o.lease == Exclusive ==> s.openers[k].lease == Unlocked;
        UnlockedUnaffected(need, s.db, t.db, s.openers[k]);
      }
    }
  }

  lemma NextKeepsInv(need: Requirements, s: System, e: Event)
    requires Inv(need, s)
    ensures Inv(need, Next(need, s, e))
  {
    if e.who < |s.openers| && e.action.Advance? && !s.openers[e.who].pc.Waiting? {
      AdvanceKeepsInv(need, s, e.who);
    }
  }

  lemma {:induction false} RunKeepsInv(need: Requirements, s: System, events: seq<Event>)
    requires Inv(need, s)
    ensures Inv(need, Run(need, s, events))
    decreases |events|
  {
    if events != [] {
      NextKeepsInv(need, s, events[0]);
      RunKeepsInv(need, Next(need, s, events[0]), events[1..]);
    }
  }

  // ----------------------------------------------------------------- main results

  /** In every interleaving: a live connection never faces a database beyond what its
      program supports, one that came from the normal path or an import has all its
      migrations applied, and no migration's effects are under-fenced. */
  lemma ConnectionsAreCompatible(need: Requirements, s: System, events: seq<Event>)
    requires Init(need, s)
    ensures var t := Run(need, s, events);
            && Fenced(need, t.db)
            && forall k :: 0 <= k < |t.openers| && t.openers[k].pc.Connected? ==>
                 && 0 <= t.db.generation <= t.openers[k].supported
                 && (t.openers[k].pc.purpose.Normal? || t.openers[k].pc.purpose.Reopen? ||
                     t.openers[k].pc.purpose.Import? || t.openers[k].pc.purpose.Authorize? ==>
                       Migrated(t.db, t.openers[k]))
  {
    InitIsInv(need, s);
    RunKeepsInv(need, s, events);
  }

  lemma NextRaises(need: Requirements, s: System, e: Event)
    requires Inv(need, s)
    ensures var t := Next(need, s, e);
            && t.db.generation >= s.db.generation && s.db.applied <= t.db.applied
            && forall k :: 0 <= k < |s.openers| ==> t.openers[k].supported == s.openers[k].supported
  {
    if e.who < |s.openers| && e.action.Advance? && !s.openers[e.who].pc.Waiting? {
      StepIsDisciplined(need, s.db, s.openers[e.who]);
    }
  }

  /** The generation never decreases, and applied migrations stay applied. */
  lemma {:induction false} GenerationNeverDecreases(need: Requirements, s: System, events: seq<Event>)
    requires Inv(need, s)
    ensures var t := Run(need, s, events);
            && t.db.generation >= s.db.generation && s.db.applied <= t.db.applied
            && forall k :: 0 <= k < |s.openers| ==> t.openers[k].supported == s.openers[k].supported
    decreases |events|
  {
    if events != [] {
      NextRaises(need, s, events[0]);
      NextKeepsInv(need, s, events[0]);
      GenerationNeverDecreases(need, Next(need, s, events[0]), events[1..]);
    }
  }

  /** Once the database has moved beyond a program, it never connects again. */
  lemma OutdatedNeverConnects(need: Requirements, s: System, events: seq<Event>, who: nat)
    requires Inv(need, s) && who < |s.openers| && s.db.generation > s.openers[who].supported
    ensures !Run(need, s, events).openers[who].pc.Connected?
  {
    GenerationNeverDecreases(need, s, events);
    RunKeepsInv(need, s, events);
    assert OpenerOk(need, Run(need, s, events).db, Run(need, s, events).openers[who]);
  }

  /** Whoever migrates or imports is alone: nobody else holds a lease, let alone a
      connection. */
  lemma WritersAreAlone(need: Requirements, s: System, events: seq<Event>, who: nat, other: nat)
    requires Init(need, s) && who < |s.openers| && other < |s.openers| && who != other
    requires Run(need, s, events).openers[who].pc.Raising? || Run(need, s, events).openers[who].pc.Applying? ||
             Run(need, s, events).openers[who].pc.Recording? || Run(need, s, events).openers[who].pc.Stamping?
    ensures Run(need, s, events).openers[other].lease == Unlocked
    ensures !Run(need, s, events).openers[other].pc.Connected?
  {
    InitIsInv(need, s);
    RunKeepsInv(need, s, events);
    var t := Run(need, s, events);
    assert OpenerOk(need, t.db, t.openers[who]) && OpenerOk(need, t.db, t.openers[other]);
  }

  // -------------------------------------------------------------------- progress

  /** How many steps an opener has left at most before it is done and closed. */
  function StepsLeft(o: Opener): nat {
    var n := 2 * |o.migrations|;
    match o.pc
    case Idle => 0
    case Connected(_) => 1
    case Authorized => 1
    case Opening(_) => 2
    case Stamping(_) => 2
    case Finishing(_) => 5
    case Recording(_, todo) => 5 + 2 * |todo|
    case Applying(_, todo) => 6 + 2 * |todo|
    case Raising(_, _, todo) => 7 + 2 * |todo|
    case Reading(_) => 8 + n
    case Resuming(_) => 9 + n
    case Holding(purpose) => if purpose.Reopen? then 3 else if purpose.Normal? then 12 + n else 9 + n
    case Waiting(purpose) => if purpose.Reopen? then 4 else if purpose.Normal? then 13 + n else 10 + n
    case Checking => 11 + n
    case Starting(_) => 14 + n
  }

  function TotalLeft(openers: seq<Opener>): nat {
    if openers == [] then 0 else StepsLeft(openers[0]) + TotalLeft(openers[1..])
  }

  lemma {:induction false} TotalDrops(openers: seq<Opener>, k: nat, o: Opener)
    requires k < |openers| && StepsLeft(o) < StepsLeft(openers[k])
    ensures TotalLeft(openers[k := o]) < TotalLeft(openers)
  {
    if k > 0 {
      TotalDrops(openers[1..], k - 1, o);
      assert openers[k := o][1..] == openers[1..][k - 1 := o];
    } else {
      assert openers[k := o][1..] == openers[1..];
    }
  }

  /** Every step brings an opener closer to its end. */
  lemma StepProgresses(need: Requirements, db: Database, o: Opener)
    requires OpenerOk(need, db, o) && !o.pc.Waiting? && !o.pc.Idle?
    ensures StepsLeft(Step(need, db, o).1) < StepsLeft(o)
  {
  }

  lemma AdvanceProgresses(need: Requirements, s: System, who: nat)
    requires Inv(need, s) && who < |s.openers| && !s.openers[who].pc.Idle?
    requires s.openers[who].pc.Waiting? ==> Free(s, who, Mode(s.openers[who].pc.purpose))
    ensures TotalLeft(Next(need, s, Event(who, Advance)).openers) < TotalLeft(s.openers)
  {
    var o := s.openers[who];
    if o.pc.Waiting? {
      TotalDrops(s.openers, who, o.(pc := Holding(o.pc.purpose), lease := Mode(o.pc.purpose)));
    } else {
      StepProgresses(need, s.db, o);
      TotalDrops(s.openers, who, Step(need, s.db, o).1);
    }
  }

  /** Nobody waits for the lease while holding one, so whoever holds one can move; and
      when nobody holds one, whoever is busy can. */
  lemma SomeoneCanMove(need: Requirements, s: System) returns (who: nat)
    requires Inv(need, s) && exists k :: 0 <= k < |s.openers| && !s.openers[k].pc.Idle?
    ensures who < |s.openers|
    ensures TotalLeft(Next(need, s, Event(who, Advance)).openers) < TotalLeft(s.openers)
  {
    if k :| 0 <= k < |s.openers| && s.openers[k].lease != Unlocked {
      who := k;
    } else {
      who :| 0 <= who < |s.openers| && !s.openers[who].pc.Idle?;
    }
    assert OpenerOk(need, s.db, s.openers[who]);
    AdvanceProgresses(need, s, who);
  }

  lemma RunMore(need: Requirements, s: System, e: Event, events: seq<Event>)
    ensures Run(need, s, [e] + events) == Run(need, Next(need, s, e), events)
  {
    assert ([e] + events)[1..] == events;
  }

  /** There is no deadlock: from every reachable state the openers can all run to
      completion and close, without a failure, a timeout or a crash. */
  lemma {:induction false} CanAlwaysDrain(need: Requirements, s: System) returns (events: seq<Event>)
    requires Inv(need, s)
    ensures forall k :: 0 <= k < |events| ==> events[k].action == Advance
    ensures |events| <= TotalLeft(s.openers)
    ensures forall k :: 0 <= k < |s.openers| ==> Run(need, s, events).openers[k].pc.Idle?
    decreases TotalLeft(s.openers)
  {
    if forall k :: 0 <= k < |s.openers| ==> s.openers[k].pc.Idle? {
      events := [];
    } else {
      var who := SomeoneCanMove(need, s);
      var e := Event(who, Advance);
      NextKeepsInv(need, s, e);
      var rest := CanAlwaysDrain(need, Next(need, s, e));
      RunMore(need, s, e, rest);
      events := [e] + rest;
    }
  }
}
