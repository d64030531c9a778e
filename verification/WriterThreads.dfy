/** Openers that belong to threads: a thread is in one `open_*` call at a time, and closes
    a connection only outside of calls.  Exactly when such threads can always finish. */
module WriterThreads {
  import opened WriterProtocol

  /** Inside an `open_*` call. */
  predicate InCall(o: Opener) {
    !o.pc.Idle? && !o.pc.Connected? && !o.pc.Authorized?
  }

  /** Two openers of one thread. */
  predicate Together(openers: seq<Opener>, i: nat, j: nat) {
    i < |openers| && j < |openers| && i != j && openers[i].owner == openers[j].owner
  }

  ghost predicate OneCall(openers: seq<Opener>) {
    forall i: nat, j: nat :: Together(openers, i, j) && InCall(openers[i]) ==> !InCall(openers[j])
  }

  /** What a thread can do on its own: go on with the call it is in, or, outside of
      calls, close something. */
  predicate InTurn(openers: seq<Opener>, who: nat) {
    && who < |openers|
    && (InCall(openers[who]) ||
        forall j :: 0 <= j < |openers| && openers[j].owner == openers[who].owner ==> !InCall(openers[j]))
  }

  /** Every event of the run is the next step of a thread whose turn it can be. */
  predicate AllInTurn(need: Requirements, s: System, events: seq<Event>)
    decreases |events|
  {
    events == [] || (
      && events[0].action == Advance && InTurn(s.openers, events[0].who)
      && AllInTurn(need, Next(need, s, events[0]), events[1..]))
  }

  ghost predicate AllIdle(openers: seq<Opener>) {
    forall k :: 0 <= k < |openers| ==> openers[k].pc.Idle?
  }

  // -------------------------------------------------------------- what a call will need

  /** After the pending check of the normal path. */
  function NeededByCheck(db: Database, o: Opener): set<Lease> {
    if !db.exists_ || Pending(o.migrations, db.applied) != [] then {Exclusive} else {}
  }

  /** After the second probe. */
  function NeededByProbe(db: Database, o: Opener, purpose: Purpose): set<Lease> {
    if purpose.Normal? && Supports(o, db.generation) then NeededByCheck(db, o) else {}
  }

  /** The first probe turns the call away. */
  predicate TurnedAway(db: Database, o: Opener, purpose: Purpose) {
    || (purpose.Import? && !Accepts(o, purpose.projection))
    || ((purpose.Existing? || purpose.ReadOnly?) && !db.exists_)
    || !Supports(o, db.generation)
  }

  /** The leases that a call has yet to take before it can end, if the database stays as
      it is. */
  function Needed(db: Database, o: Opener): set<Lease> {
    match o.pc
    case Starting(purpose) =>
      if TurnedAway(db, o, purpose) then {} else {Mode(purpose)} + NeededByProbe(db, o, purpose)
    case Waiting(purpose) => {Mode(purpose)} + NeededByProbe(db, o, purpose)
    case Holding(purpose) => NeededByProbe(db, o, purpose)
    case Checking => NeededByCheck(db, o)
    case _ => {}
  }

  /** The call of opener `i` will need a lease that opener `j`, of the same thread, shuts
      out. */
  ghost predicate Bars(s: System, i: nat, j: nat) {
    && Together(s.openers, i, j) && InCall(s.openers[i])
    && exists m :: m in Needed(s.db, s.openers[i]) && !Compatible(m, s.openers[j].lease)
  }

  ghost predicate NoneBarred(s: System) {
    forall i: nat, j: nat :: !Bars(s, i, j)
  }

  // ------------------------------------------------------- a barred thread never finishes

  /** While a thread keeps a lease, nobody else changes what its call will need. */
  lemma NeededStays(need: Requirements, s: System, i: nat, j: nat, who: nat)
    requires Inv(need, s) && OneCall(s.openers) && Bars(s, i, j)
    requires who < |s.openers| && who != i && who != j && !s.openers[who].pc.Waiting?
    ensures Needed(Step(need, s.db, s.openers[who]).0, s.openers[i]) == Needed(s.db, s.openers[i])
  {
    var o := s.openers[who];
    assert OpenerOk(need, s.db, o) && OpenerOk(need, s.db, s.openers[j]);
    StepIsDisciplined(need, s.db, o);
    assert s.openers[j].lease != Unlocked && !InCall(s.openers[j]);
    assert o.lease != Exclusive;
    if s.openers[j].pc.Authorized? {
      assert o.lease == Unlocked;
    }
  }

  /** The barred call goes on until it waits for the lease that it cannot get. */
  lemma BarredCallStays(need: Requirements, s: System, i: nat, j: nat)
    requires Inv(need, s) && OneCall(s.openers) && Bars(s, i, j)
    ensures Bars(Next(need, s, Event(i, Advance)), i, j)
  {
    var o, t := s.openers[i], Next(need, s, Event(i, Advance));
    var m :| m in Needed(s.db, o) && !Compatible(m, s.openers[j].lease);
    assert t.openers[j] == s.openers[j];
    assert m in Needed(t.db, t.openers[i]);
  }

  lemma BarredStays(need: Requirements, s: System, i: nat, j: nat, who: nat)
    requires Inv(need, s) && OneCall(s.openers) && Bars(s, i, j) && InTurn(s.openers, who)
    ensures Bars(Next(need, s, Event(who, Advance)), i, j)
  {
    if who == i {
      BarredCallStays(need, s, i, j);
    } else {
      assert who != j;
      var t := Next(need, s, Event(who, Advance));
      assert t.openers[i] == s.openers[i] && t.openers[j] == s.openers[j];
      if !s.openers[who].pc.Waiting? {
        NeededStays(need, s, i, j, who);
      }
    }
  }

  lemma AdvanceKeepsOneCall(need: Requirements, s: System, who: nat)
    requires Inv(need, s) && OneCall(s.openers) && who < |s.openers|
    ensures OneCall(Next(need, s, Event(who, Advance)).openers)
  {
    var o, t := s.openers[who], Next(need, s, Event(who, Advance));
    if !o.pc.Waiting? {
      StepIsDisciplined(need, s.db, o);
      StepStaysInCall(need, s.db, o);
    }
    forall i: nat, j: nat | Together(t.openers, i, j) && InCall(t.openers[i]) ensures !InCall(t.openers[j]) {
      assert Together(s.openers, i, j);
    }
  }

  /** Nobody slips into a call by advancing. */
  lemma StepStaysInCall(need: Requirements, db: Database, o: Opener)
    requires !o.pc.Waiting?
    ensures InCall(Step(need, db, o).1) ==> InCall(o)
  {
  }

  /** A barred thread can only be freed by a failure. */
  lemma {:induction false} BarredNeverFinishes(
    need: Requirements, s: System, i: nat, j: nat, events: seq<Event>)
    requires Inv(need, s) && OneCall(s.openers) && Bars(s, i, j) && AllInTurn(need, s, events)
    ensures !AllIdle(Run(need, s, events).openers)
    decreases |events|
  {
    if events == [] {
      assert !s.openers[i].pc.Idle?;
    } else {
      var who := events[0].who;
      assert events[0] == Event(who, Advance);
      BarredStays(need, s, i, j, who);
      NextKeepsInv(need, s, events[0]);
      AdvanceKeepsOneCall(need, s, who);
      BarredNeverFinishes(need, Next(need, s, events[0]), i, j, events[1..]);
    }
  }

  // ---------------------------------------------------------- the others always can

  /** Whose turn it is: a call that is not waiting, something to close, or a wait that
      can end. */
  lemma SomeThreadCanMove(need: Requirements, s: System) returns (who: nat)
    requires Inv(need, s) && OneCall(s.openers) && NoneBarred(s) && !AllIdle(s.openers)
    ensures who < |s.openers| && InTurn(s.openers, who) && !s.openers[who].pc.Idle?
    ensures s.openers[who].pc.Waiting? ==> Free(s, who, Mode(s.openers[who].pc.purpose))
  {
    if k :| 0 <= k < |s.openers| && InCall(s.openers[k]) && !s.openers[k].pc.Waiting? {
      who := k;
    } else if k :| 0 <= k < |s.openers| && s.openers[k].lease != Unlocked {
      assert OpenerOk(need, s.db, s.openers[k]);
      if InTurn(s.openers, k) {
        who := k;
      } else {
        who :| 0 <= who < |s.openers| && s.openers[who].owner == s.openers[k].owner && InCall(s.openers[who]);
        HolderLetsIn(need, s, who, k);
      }
    } else {
      who :| 0 <= who < |s.openers| && !s.openers[who].pc.Idle?;
      assert OpenerOk(need, s.db, s.openers[who]);
    }
  }

  /** A waiting call that its own thread's lease does not bar wants to share, and so does
      everybody who holds a lease. */
  lemma HolderLetsIn(need: Requirements, s: System, waiting: nat, held: nat)
    requires Inv(need, s) && NoneBarred(s) && Together(s.openers, waiting, held)
    requires s.openers[waiting].pc.Waiting? && s.openers[held].lease != Unlocked
    ensures Free(s, waiting, Mode(s.openers[waiting].pc.purpose))
  {
    var m := Mode(s.openers[waiting].pc.purpose);
    assert m in Needed(s.db, s.openers[waiting]);
    assert !Bars(s, waiting, held);
    assert m == Shared && s.openers[held].lease == Shared;
  }

  /** A turn bars nobody. */
  lemma TurnBarsNone(need: Requirements, s: System, who: nat, i: nat, j: nat)
    requires Inv(need, s) && OneCall(s.openers) && NoneBarred(s) && InTurn(s.openers, who)
    ensures !Bars(Next(need, s, Event(who, Advance)), i, j)
  {
    var t := Next(need, s, Event(who, Advance));
    AdvanceKeepsOneCall(need, s, who);
    if Together(t.openers, i, j) && InCall(t.openers[i]) && t.openers[j].lease != Unlocked {
      TurnKeepsCompatible(need, s, who, i, j);
    }
  }

  lemma TurnKeepsCompatible(need: Requirements, s: System, who: nat, i: nat, j: nat)
    requires Inv(need, s) && OneCall(s.openers) && NoneBarred(s) && InTurn(s.openers, who)
    requires var t := Next(need, s, Event(who, Advance));
             Together(t.openers, i, j) && InCall(t.openers[i]) && t.openers[j].lease != Unlocked && OneCall(t.openers)
    ensures !Bars(Next(need, s, Event(who, Advance)), i, j)
  {
    var t, o := Next(need, s, Event(who, Advance)), s.openers[who];
    NextKeepsInv(need, s, Event(who, Advance));
    assert OpenerOk(need, t.db, t.openers[i]) && OpenerOk(need, t.db, t.openers[j]) && OpenerOk(need, s.db, o);
    assert !InCall(t.openers[j]) && !Bars(s, i, j);
    if !o.pc.Waiting? {
      StepIsDisciplined(need, s.db, o);
      StepStaysInCall(need, s.db, o);
    }
  }

  /** Threads that bar nobody's call in this state can all run to completion and close,
      without a failure, a timeout or a crash. */
  lemma {:induction false} ThreadsCanDrain(need: Requirements, s: System) returns (events: seq<Event>)
    requires Inv(need, s) && OneCall(s.openers) && NoneBarred(s)
    ensures AllInTurn(need, s, events) && |events| <= TotalLeft(s.openers)
    ensures AllIdle(Run(need, s, events).openers)
    decreases TotalLeft(s.openers)
  {
    if AllIdle(s.openers) {
      events := [];
    } else {
      var who := SomeThreadCanMove(need, s);
      var e := Event(who, Advance);
      AdvanceProgresses(need, s, who);
      NextKeepsInv(need, s, e);
      AdvanceKeepsOneCall(need, s, who);
      forall i: nat, j: nat ensures !Bars(Next(need, s, e), i, j) {
        TurnBarsNone(need, s, who, i, j);
      }
      var rest := ThreadsCanDrain(need, Next(need, s, e));
      RunMore(need, s, e, rest);
      events := [e] + rest;
      assert events[1..] == rest;
    }
  }

  /** Exactly when threads can finish: if and only if no thread holds a lease that its own
      call will need to be gone. */
  lemma ThreadsDrainIff(need: Requirements, s: System)
    requires Inv(need, s) && OneCall(s.openers)
    ensures (exists events :: Drains(need, s, events)) <==> NoneBarred(s)
  {
    if NoneBarred(s) {
      var events := ThreadsCanDrain(need, s);
      assert Drains(need, s, events);
    } else {
      var i: nat, j: nat :| Bars(s, i, j);
      forall events ensures !Drains(need, s, events) {
        if AllInTurn(need, s, events) {
          BarredNeverFinishes(need, s, i, j, events);
        }
      }
    }
  }

  /** A run of turns after which nothing is open. */
  ghost predicate Drains(need: Requirements, s: System, events: seq<Event>) {
    AllInTurn(need, s, events) && AllIdle(Run(need, s, events).openers)
  }

  // --------------------------------------------------------------------- discipline

  /** A thread inside a call has nothing else open: it never begins an open while it
      holds a lease. */
  ghost predicate Disciplined(openers: seq<Opener>) {
    forall i: nat, j: nat :: Together(openers, i, j) && InCall(openers[i]) ==> openers[j].pc.Idle?
  }

  /** Discipline is enough. */
  lemma DisciplineBarsNone(need: Requirements, s: System)
    requires Inv(need, s) && Disciplined(s.openers)
    ensures OneCall(s.openers) && NoneBarred(s)
  {
    forall i: nat, j: nat ensures !Bars(s, i, j) {
      if Together(s.openers, i, j) && InCall(s.openers[i]) {
        assert OpenerOk(need, s.db, s.openers[j]);
      }
    }
  }

  /** Beginning an open keeps the discipline exactly when its thread has nothing else
      open. */
  lemma BeginKeepsDisciplineIff(need: Requirements, s: System, who: nat, purpose: Purpose)
    requires Disciplined(s.openers) && who < |s.openers| && s.openers[who].pc.Idle?
    requires !purpose.Migrate? && !purpose.Reopen?
    ensures Disciplined(Next(need, s, Event(who, Begin(purpose))).openers) <==>
            forall j: nat :: Together(s.openers, who, j) ==> s.openers[j].pc.Idle?
  {
    var t := Next(need, s, Event(who, Begin(purpose))).openers;
    if Disciplined(t) {
      forall j: nat | Together(s.openers, who, j) ensures s.openers[j].pc.Idle? {
        assert Together(t, who, j) && InCall(t[who]) && t[j] == s.openers[j];
      }
    }
    if forall j: nat :: Together(s.openers, who, j) ==> s.openers[j].pc.Idle? {
      forall i: nat, j: nat | Together(t, i, j) && InCall(t[i]) ensures t[j].pc.Idle? {
        assert Together(s.openers, i, j) && Together(s.openers, j, i);
      }
    }
  }

  // ------------------------------------------------------------- a thread that bars itself

  lemma RunThen(need: Requirements, s: System, events: seq<Event>, e: Event)
    ensures Run(need, s, events + [e]) == Next(need, Run(need, s, events), e)
    decreases |events|
  {
    if events == [] {
      assert [] + [e] == [e] && [e][1..] == [];
    } else {
      RunThen(need, Next(need, s, events[0]), events[1..], e);
      assert (events + [e])[1..] == events[1..] + [e];
    }
  }

  /** Five steps of a physical open, with nobody else in the way. */
  lemma PhysicalOpens(need: Requirements, s: System) returns (events: seq<Event>)
    requires |s.openers| == 2 && s.openers[0].pc == Idle && s.openers[1].lease == Unlocked
    requires Supports(s.openers[0], s.db.generation)
    ensures Run(need, s, events) ==
            System(s.db.(exists_ := true),
                   s.openers[0 := s.openers[0].(pc := Connected(Physical), lease := Shared)])
  {
    var go := Event(0, Advance);
    events := [Event(0, Begin(Physical))];
    RunThen(need, s, [], events[0]);
    assert [] + events == events;
    RunThen(need, s, events, go);
    events := events + [go];
    RunThen(need, s, events, go);
    events := events + [go];
    RunThen(need, s, events, go);
    events := events + [go];
    RunThen(need, s, events, go);
    events := events + [go];
  }

  /** Five steps of a normal open beside it, up to the wait for the migration. */
  lemma NormalWaits(need: Requirements, s: System) returns (events: seq<Event>)
    requires |s.openers| == 2 && s.openers[1].pc == Idle && s.openers[0].lease == Shared
    requires Supports(s.openers[1], s.db.generation) && Pending(s.openers[1].migrations, s.db.applied) != []
    ensures Run(need, s, events) ==
            s.(openers := s.openers[1 := s.openers[1].(pc := Waiting(Migrate), lease := Unlocked)])
  {
    var go, o := Event(1, Advance), s.openers[1];
    var starting := s.(openers := s.openers[1 := o.(pc := Starting(Normal))]);
    var waiting := s.(openers := s.openers[1 := o.(pc := Waiting(Normal))]);
    var holding := s.(openers := s.openers[1 := o.(pc := Holding(Normal), lease := Shared)]);
    var checking := s.(openers := s.openers[1 := o.(pc := Checking, lease := Shared)]);
    events := [Event(1, Begin(Normal))];
    assert [] + events == events;
    RunThen(need, s, [], events[0]);
    assert Run(need, s, events) == starting && Next(need, starting, go) == waiting;
    RunThen(need, s, events, go);
    events := events + [go];
    assert Next(need, waiting, go) == holding;
    RunThen(need, s, events, go);
    events := events + [go];
    assert Next(need, holding, go) == checking;
    RunThen(need, s, events, go);
    events := events + [go];
    RunThen(need, s, events, go);
    events := events + [go];
  }

  lemma {:induction false} RunConcat(need: Requirements, s: System, a: seq<Event>, b: seq<Event>)
    ensures Run(need, s, a + b) == Run(need, Run(need, s, a), b)
    decreases |a|
  {
    if a == [] {
      assert a + b == b;
    } else {
      RunConcat(need, Next(need, s, a[0]), a[1..], b);
      assert (a + b)[1..] == a[1..] + b;
    }
  }

  /** A thread that keeps a connection and opens again when a migration is due bars
      itself: ten steps from an initial state lead there. */
  lemma OpeningTwiceBars(need: Requirements) returns (s: System, events: seq<Event>)
    ensures Init(need, s) && OneCall(Run(need, s, events).openers) && Bars(Run(need, s, events), 1, 0)
  {
    var opener := Opener(0, [0], 7, Idle, Unlocked);
    s := System(Database(true, 0, {}, {}), [opener, opener]);
    var first := PhysicalOpens(need, s);
    var middle := Run(need, s, first);
    assert middle.openers == [opener.(pc := Connected(Physical), lease := Shared), opener];
    assert middle.db == s.db;
    var second := NormalWaits(need, middle);
    events := first + second;
    RunConcat(need, s, first, second);
    var t := Run(need, s, events);
    assert t.openers == [opener.(pc := Connected(Physical), lease := Shared), opener.(pc := Waiting(Migrate))];
    assert Exclusive in Needed(t.db, t.openers[1]);
  }
}
