/** What becomes of a bot whose poll is disturbed between its reads, or begins blindly. */
module BotRaces {
  import opened Prelude
  import opened BotLog
  import opened BotSync
  import opened BotReplica

  /** Whatever happens from here on, without further disturbed or blind polls: a bot that has caught up is right. */
  ghost predicate StaysExact(s: Session, bot: Id) {
    forall events :: Clean(s, bot, events) ==>
      (CaughtUp(Play(s, bot, events), bot) ==>
            Play(s, bot, events).client.copy == Settings(Play(s, bot, events).server.db, bot))
  }

  /** The poll under way has missed a change of the key, and nothing else tells the bot of it. */
  predicate AtRisk(s: Session, bot: Id, key: Key)
    requires s.client.phase.EventsRead?
  {
    && !Current(s.client.copy, s.server.db, bot, key)
    && key !in s.client.pending
    && key !in s.client.phase.named
  }

  // ---- Continuations ----

  lemma PlaySnoc(s: Session, bot: Id, events: seq<Event>, e: Event)
    ensures Play(s, bot, events + [e]) == Advance(Play(s, bot, events), bot, e)
    ensures Clean(s, bot, events + [e]) <==> Clean(s, bot, events) && IsClean(Play(s, bot, events), bot, e)
  {
    assert Init(events + [e]) == events;
  }

  /** What fetching the keys that are pending changes, for a key that is not. */
  ghost predicate OnlyFetched(before: Session, after: Session, bot: Id, key: Key) {
    && after.server == before.server
    && after.client.cursor == before.client.cursor && after.client.lost == before.client.lost
    && (Current(after.client.copy, after.server.db, bot, key) <==>
          Current(before.client.copy, before.server.db, bot, key))
  }

  lemma FetchOne(s: Session, bot: Id, k: Key, key: Key)
    requires k != key
    ensures OnlyFetched(s, Advance(s, bot, Fetch(k)), bot, key)
    ensures Advance(s, bot, Fetch(k)).client.pending == s.client.pending - {k}
    ensures IsClean(s, bot, Fetch(k))
  {
  }

  /** Fetching what is pending, key by key, leaves the copies of other keys alone. */
  lemma {:induction false} FetchPending(s: Session, bot: Id, events: seq<Event>, key: Key) returns (all: seq<Event>)
    requires Clean(s, bot, events) && key !in Play(s, bot, events).client.pending
    ensures Clean(s, bot, all) && OnlyFetched(Play(s, bot, events), Play(s, bot, all), bot, key)
    ensures Play(s, bot, all).client.pending == {}
    decreases Play(s, bot, events).client.pending
  {
    var before := Play(s, bot, events);
    if before.client.pending == {} {
      all := events;
    } else {
      var k :| k in before.client.pending;
      PlaySnoc(s, bot, events, Fetch(k));
      FetchOne(before, bot, k, key);
      all := FetchPending(s, bot, events + [Fetch(k)], key);
    }
  }

  /** After a cleanup nothing has expired. */
  lemma CleanedUp(t: Trace, bot: Id, since: nat)
    ensures !Expired(Step(t, DoCleanUp(t.clock)).db.log, bot, since, t.clock)
  {
  }

  /** A poll that has read its events can be answered so that nothing is missing but what was logged since. */
  lemma AnswerPoll(s: Session, bot: Id) returns (events: seq<Event>)
    requires Sound(s, bot) && s.client.phase.EventsRead? && !s.client.lost && !Gone(s, bot)
    ensures Clean(s, bot, events)
    ensures var next := Play(s, bot, events);
            && next.client == Answered(s.client, s.client.phase.named, Highest(s.server.db, bot))
            && next.server.db.settings == s.server.db.settings && next.server.db.botSeq == s.server.db.botSeq
  {
    PlaySnoc(s, bot, [], ReadHighest);
    events := [] + [ReadHighest];
    if s.client.cursor != 0 {
      var lowest := LowestBelow(s.server.db, bot, s.client.cursor);
      var cleanup := Server(DoCleanUp(s.server.clock));
      PlaySnoc(s, bot, events, ReadLowest(Some(lowest), false));
      events := events + [ReadLowest(Some(lowest), false)];
      assert Play(s, bot, events).client.phase == LowestRead(s.client.phase.named, Highest(s.server.db, bot));
      PlaySnoc(s, bot, events, cleanup);
      events := events + [cleanup];
      CleanedUp(s.server, bot, s.client.cursor);
      PlaySnoc(s, bot, events, ReadExpiry(s.server.clock, false));
      events := events + [ReadExpiry(s.server.clock, false)];
    }
  }

  // ---- The exact condition ----

  lemma RiskIsReal(s: Session, bot: Id, key: Key)
    requires Sound(s, bot) && s.client.phase.EventsRead? && !s.client.lost && !Gone(s, bot) && AtRisk(s, bot, key)
    ensures !StaysExact(s, bot)
  {
    var answered := AnswerPoll(s, bot);
    var all := FetchPending(s, bot, answered, key);
    var end := Play(s, bot, all);
    assert CaughtUp(end, bot);
    assert !Current(end.client.copy, end.server.db, bot, key);
    FetchAllIsExact(end, bot, key);
  }

  lemma FaithfulStaysExact(s: Session, bot: Id)
    requires Faithful(s, bot)
    ensures StaysExact(s, bot)
  {
    forall events | Clean(s, bot, events) && CaughtUp(Play(s, bot, events), bot)
      ensures Play(s, bot, events).client.copy == Settings(Play(s, bot, events).server.db, bot)
    {
      PlayKeepsFaithful(s, bot, events);
      CaughtUpIsExact(Play(s, bot, events), bot);
    }
  }

  /**
   A bot whose poll has read its events is safe exactly when it will be told to fetch everything or no key is
   at risk.
   */
  lemma SafeIff(s: Session, bot: Id)
    requires Sound(s, bot) && s.client.phase.EventsRead? && !s.client.lost && (forall key :: Behind(s, bot, key))
    ensures StaysExact(s, bot) <==> Gone(s, bot) || forall key :: !AtRisk(s, bot, key)
  {
    if Gone(s, bot) || forall key :: !AtRisk(s, bot, key) {
      forall key
        ensures Accounted(s, bot, key)
      {
        assert Behind(s, bot, key) && (Gone(s, bot) || !AtRisk(s, bot, key));
      }
      FaithfulStaysExact(s, bot);
    } else {
      var key :| AtRisk(s, bot, key);
      RiskIsReal(s, bot, key);
    }
  }

  /**
   Event n of the bot is not in a reply whose events were read in state t: it was logged later, or had been
   deleted.
   */
  predicate Missed(t: Trace, bot: Id, n: nat) {
    n >= Next(t.db.botSeq, bot) || (bot, n) !in t.db.log
  }

  /** A session after its poll has read the events and the server has then carried out some operations. */
  ghost function Disturbed(s: Session, bot: Id, gap: seq<Op>): Session {
    var reading := Advance(s, bot, ReadEvents);
    reading.(server := Run(s.server, gap))
  }

  /** The missed events name only keys that the bot fetches anyway or that are as it copied them. */
  ghost predicate NothingMissed(s: Session, bot: Id, gap: seq<Op>)
    requires s.client.phase.Idle?
  {
    var now := Disturbed(s, bot, gap);
    forall n: nat, key ::
      s.client.cursor < n && Missed(s.server, bot, n) && (bot, n) in now.server.history &&
      key in now.server.history[(bot, n)].payload.keys ==>
        !AtRisk(now, bot, key)
  }

  lemma {:induction false} RunKeepsBehind(s: Session, bot: Id, ops: seq<Op>, key: Key)
    requires Sound(s, bot) && Behind(s, bot, key)
    ensures Behind(s.(server := Run(s.server, ops)), bot, key)
  {
    if ops != [] {
      RunKeepsBehind(s, bot, Init(ops), key);
      RunGoesOn(s.server, Init(ops));
      var t := Run(s.server, Init(ops));
      StepGoesOn(t, Last(ops));
      if Current(s.client.copy, t.db, bot, key) {
        if !Current(s.client.copy, Run(s.server, ops).db, bot, key) {
          ChangeIsNamedLater(t, Last(ops), bot, s.client.copy, key);
          EarlierCursor(Run(s.server, ops), bot, Highest(t.db, bot), s.client.cursor, key);
        }
      } else if key !in s.client.pending {
        LaterNaming(t, Run(s.server, ops), bot, s.client.cursor, key);
      }
    }
  }

  lemma HeardOf(t: Trace, next: Trace, bot: Id, cursor: nat, n: nat, key: Key)
    requires Sane(t) && GoesOn(t, next) && cursor < n && !Missed(t, bot, n)
    requires (bot, n) in next.history && key in next.history[(bot, n)].payload.keys
    ensures key in Named(t.db.log, bot, cursor)
  {
    assert (bot, n) in t.history;
  }

  lemma RiskIsMissed(s: Session, bot: Id, gap: seq<Op>, key: Key)
    requires Faithful(s, bot) && !s.client.lost && s.client.phase.Idle?
    requires AtRisk(Disturbed(s, bot, gap), bot, key) && Behind(Disturbed(s, bot, gap), bot, key)
    ensures !NothingMissed(s, bot, gap)
  {
    var now := Disturbed(s, bot, gap);
    RunGoesOn(s.server, gap);
    var n: nat :| n > s.client.cursor && (bot, n) in now.server.history
        && key in now.server.history[(bot, n)].payload.keys;
    if !Missed(s.server, bot, n) {
      HeardOf(s.server, now.server, bot, s.client.cursor, n, key);
    }
  }

  /**
   The poll of a bot that has heard of every change so far, whatever is carried out between the reading of
   its events and the reading of the highest number: the bot will be right whenever it has caught up if and
   only if the event at its cursor has been deleted, so that it is told to fetch everything, or every event
   that its reply misses names only keys that it fetches anyway or that are as it copied them. Events are
   missed that were logged in between, and, by a bot that has seen none, those that had been deleted.
   */
  lemma PollIsHarmlessIff(clock: int, past: seq<Op>, bot: Id, events: seq<Event>, gap: seq<Op>)
    requires Clean(Fresh(Run(Start(clock), past)), bot, events)
    requires var s := Play(Fresh(Run(Start(clock), past)), bot, events); s.client.phase.Idle? && !s.client.lost
    ensures var s := Play(Fresh(Run(Start(clock), past)), bot, events);
            StaysExact(Disturbed(s, bot, gap), bot) <==> Gone(Disturbed(s, bot, gap), bot) || NothingMissed(s, bot, gap)
  {
    var begun := Fresh(Run(Start(clock), past));
    var s := Play(begun, bot, events);
    var now := Disturbed(s, bot, gap);
    RunIsSane(clock, past);
    PlayKeepsFaithful(begun, bot, events);
    RunGoesOn(s.server, gap);
    assert Next(s.server.db.botSeq, bot) <= Next(now.server.db.botSeq, bot);
    forall key
      ensures Behind(now, bot, key)
    {
      assert Accounted(s, bot, key);
      RunKeepsBehind(s, bot, gap, key);
    }
    SafeIff(now, bot);
    if key :| AtRisk(now, bot, key) {
      RiskIsMissed(s, bot, gap, key);
    }
  }

  lemma RunOne(t: Trace, op: Op)
    ensures Run(t, [op]) == Step(t, op)
  {
    assert Init([op]) == [];
  }

  /**
   Whatever a bot that will be right has done, a new value of a key that it is not about to fetch makes it
   wrong if it is written between the first two reads of its poll.
   */
  lemma AnyNewValueIsMissed(s: Session, bot: Id, write: Op)
    requires Faithful(s, bot) && s.client.phase.Idle? && !s.client.lost && !Gone(s, bot)
    requires write.DoWrite? && write.bot == bot && write.now >= s.server.clock
    requires Objection(write.key, write.patch, write.maxBytes).None?
    requires (bot, write.key) in s.server.db.settings ==>
               s.server.db.settings[(bot, write.key)].bot != write.patch.bot.text
    requires write.key in s.client.copy ==> s.client.copy[write.key].value != write.patch.bot.text
    requires write.key !in s.client.pending + Named(s.server.db.log, bot, s.client.cursor)
    ensures !StaysExact(Disturbed(s, bot, [write]), bot)
  {
    var reading := Advance(s, bot, ReadEvents);
    var now := Advance(reading, bot, Server(write));
    RunOne(s.server, write);
    assert now == Disturbed(s, bot, [write]);
    AdvanceKeepsSound(s, bot, ReadEvents);
    AdvanceKeepsSound(reading, bot, Server(write));
    WriteIsAcceptedIff(s.server.db, write.owner, bot, write.key, write.patch, write.maxBytes, write.now);
    assert AtRisk(now, bot, write.key);
    RiskIsReal(now, bot, write.key);
  }

  // ---- Concrete runs ----

  function Sample(): Patch {
    Patch(true, Encoded("x", Some(60)), None, None)
  }

  lemma SampleIsAccepted()
    ensures Objection("k", Sample(), 60) == None
  {
    assert TextSize("k") == 1;
  }

  lemma PlayFour(s: Session, bot: Id, e1: Event, e2: Event, e3: Event, e4: Event)
    ensures Play(s, bot, [e1, e2, e3, e4]) == Advance(Advance(Advance(Advance(s, bot, e1), bot, e2), bot, e3), bot, e4)
  {
    PlaySnoc(s, bot, [], e1);
    PlaySnoc(s, bot, [e1], e2);
    PlaySnoc(s, bot, [e1, e2], e3);
    PlaySnoc(s, bot, [e1, e2, e3], e4);
    assert [] + [e1] == [e1] && [e1] + [e2] == [e1, e2] && [e1, e2] + [e3] == [e1, e2, e3];
    assert [e1, e2, e3] + [e4] == [e1, e2, e3, e4];
  }

  lemma WrittenSettingIsMissing(s: Session, bot: Id)
    requires (bot, "k") in s.server.db.settings && "k" !in s.client.copy
    ensures s.client.copy != Settings(s.server.db, bot)
  {
    assert "k" in Settings(s.server.db, bot);
  }

  /** A write between the first two reads of a poll is never heard of, although no poll is blind. */
  lemma PollMissesAWrite(owner: Id, bot: Id)
    ensures var write := Server(DoWrite(owner, bot, "k", Sample(), 60, 0));
            var s := Play(Fresh(Start(0)), bot, [FetchAll, ReadEvents, write, ReadHighest]);
            CaughtUp(s, bot) && s.client.cursor == 1 && s.client.copy != Settings(s.server.db, bot)
  {
    var write := Server(DoWrite(owner, bot, "k", Sample(), 60, 0));
    PlayFour(Fresh(Start(0)), bot, FetchAll, ReadEvents, write, ReadHighest);
    SampleIsAccepted();
    var s := Play(Fresh(Start(0)), bot, [FetchAll, ReadEvents, write, ReadHighest]);
    assert Settings(Start(0).db, bot) == map[];
    WrittenSettingIsMissing(s, bot);
  }

  lemma CleanedAway(t: Trace, bot: Id)
    requires t.clock <= RETENTION + 1 && forall e :: e in t.db.log ==> t.db.log[e].at == 0
    ensures var next := Step(t, DoCleanUp(RETENTION + 1));
            next.db == t.db.(log := map[])
  {
    assert Retained(t.db.log, 1) == map[];
  }

  lemma WriteOnce(owner: Id, bot: Id)
    ensures var db := Step(Start(0), DoWrite(owner, bot, "k", Sample(), 60, 0)).db;
            && (bot, "k") in db.settings && Next(db.botSeq, bot) == 2 && (forall e :: e in db.log ==> db.log[e].at == 0)
  {
    SampleIsAccepted();
  }

  lemma PollAfterTwo(t: Trace, bot: Id, op: Op, other: Op)
    ensures var fetched := Client(Settings(t.db, bot), 0, {}, false, Idle);
            Play(Fresh(t), bot, [FetchAll, Server(op), Server(other), ReadEvents]) ==
              Advance(Session(Step(Step(t, op), other), fetched), bot, ReadEvents)
  {
    PlayFour(Fresh(t), bot, FetchAll, Server(op), Server(other), ReadEvents);
  }

  lemma BlindFromHere(s: Session, bot: Id)
    requires s.client == Client(map[], 0, {}, false, Idle) && s.server.db.log == map[]
    requires (bot, "k") in s.server.db.settings && Next(s.server.db.botSeq, bot) == 2
    ensures var next := Advance(Advance(s, bot, ReadEvents), bot, ReadHighest);
            CaughtUp(next, bot) && next.client.cursor == 1 && next.client.copy != Settings(next.server.db, bot)
  {
    WrittenSettingIsMissing(Advance(Advance(s, bot, ReadEvents), bot, ReadHighest), bot);
  }

  /** A poll that is blind and undisturbed does the same. */
  lemma BlindPollGoesStale(owner: Id, bot: Id)
    ensures var write := Server(DoWrite(owner, bot, "k", Sample(), 60, 0));
            var before := Play(Fresh(Start(0)), bot, [FetchAll, write, Server(DoCleanUp(RETENTION + 1)), ReadEvents]);
            var s := Advance(before, bot, ReadHighest);
            CaughtUp(s, bot) && s.client.cursor == 1 && s.client.copy != Settings(s.server.db, bot)
  {
    var op := DoWrite(owner, bot, "k", Sample(), 60, 0);
    var t := Step(Start(0), op);
    var cleaned := Step(t, DoCleanUp(RETENTION + 1));
    PollAfterTwo(Start(0), bot, op, DoCleanUp(RETENTION + 1));
    assert cleaned.db == t.db.(log := map[]) && (bot, "k") in t.db.settings && Next(t.db.botSeq, bot) == 2 by {
      WriteOnce(owner, bot);
      CleanedAway(t, bot);
    }
    assert Settings(Start(0).db, bot) == map[];
    BlindFromHere(Session(cleaned, Client(map[], 0, {}, false, Idle)), bot);
  }
}
