/** A bot that keeps its settings current by polling the event log and fetching the keys that events name. */
module BotReplica {
  import opened Prelude
  import opened BotLog
  import opened BotSync

  /** A setting as the bot sees it. */
  datatype View = View(value: string, secret: bool, userSeq: nat)

  /** How far the poll under way has come, and what it has read. */
  datatype Phase =
    | Idle
    | EventsRead(named: set<Key>)
    | HighestRead(named: set<Key>, highest: nat)
    | LowestRead(named: set<Key>, highest: nat)

  /**
   What a bot keeps: its copy, the cursor of its next poll, the keys it has yet to fetch, whether it has
   yet to fetch everything, and the poll it is waiting for.
   */
  datatype Client = Client(copy: map<Key, View>, cursor: nat, pending: set<Key>, lost: bool, phase: Phase)

  /**
   The reads of a poll are steps of their own. A bot that is told to fetch everything may begin again from
   0 or go on from the last number.
   */
  datatype Event =
    | Server(op: Op)
    | ReadEvents
    | ReadHighest
    | ReadLowest(lowest: Option<nat>, again: bool)
    | ReadExpiry(now: int, again: bool)
    | PollFails
    | Fetch(key: Key)
    | FetchAll

  datatype Session = Session(server: Trace, client: Client)

  function ViewOf(s: Setting): View {
    View(s.bot, s.secret, s.userSeq)
  }

  function Settings(db: Db, bot: Id): map<Key, View> {
    map e | e in db.settings && e.0 == bot :: e.1 := ViewOf(db.settings[e])
  }

  /** What a bot is given are its own settings: of each the ciphertext for the bot, the flag and the number. */
  lemma SettingsAre(db: Db, bot: Id, key: Key)
    ensures key in Settings(db, bot) <==> (bot, key) in db.settings
    ensures key in Settings(db, bot) ==>
              var view, row := Settings(db, bot)[key], db.settings[(bot, key)];
              view.value == row.bot && view.secret == row.secret && view.userSeq == row.userSeq
  {
  }

  /** The number of the last event that a bot can have heard of. */
  function Highest(db: Db, bot: Id): nat {
    if Next(db.botSeq, bot) == 0 then 0 else Next(db.botSeq, bot) - 1
  }

  function Greater(m: nat, n: nat): nat {
    if m < n then n else m
  }

  function Answered(c: Client, named: set<Key>, highest: nat): Client {
    c.(cursor := Greater(c.cursor, highest), pending := c.pending + named, phase := Idle)
  }

  function ToldToFetchAll(c: Client, highest: nat, again: bool): Client {
    c.(cursor := if again then 0 else Greater(c.cursor, highest), pending := {}, lost := true, phase := Idle)
  }

  function OnHighest(db: Db, bot: Id, c: Client): Client
    requires c.phase.EventsRead?
  {
    if c.cursor == 0 then Answered(c, c.phase.named, Highest(db, bot))
    else c.(phase := HighestRead(c.phase.named, Highest(db, bot)))
  }

  function OnLowest(c: Client, lowest: Option<nat>, again: bool): Client
    requires c.phase.HighestRead?
  {
    if c.cursor < From(c.phase.highest, lowest) then ToldToFetchAll(c, c.phase.highest, again)
    else c.(phase := LowestRead(c.phase.named, c.phase.highest))
  }

  ghost function OnExpiry(db: Db, bot: Id, c: Client, now: int, again: bool): Client
    requires c.phase.LowestRead?
  {
    if Expired(db.log, bot, c.cursor, now) then ToldToFetchAll(c, c.phase.highest, again)
    else Answered(c, c.phase.named, c.phase.highest)
  }

  function OnFetch(db: Db, bot: Id, c: Client, key: Key): Client {
    c.(pending := c.pending - {key},
       copy := if (bot, key) in db.settings then c.copy[key := ViewOf(db.settings[(bot, key)])] else c.copy - {key})
  }

  /** The next state; a read that does not fit the poll under way, or is no answer of its query, does not happen. */
  ghost function Advance(s: Session, bot: Id, e: Event): Session {
    var db, c := s.server.db, s.client;
    match e
    case Server(op) => s.(server := Step(s.server, op))
    case ReadEvents => if c.phase.Idle? then s.(client := c.(phase := EventsRead(Named(db.log, bot, c.cursor)))) else s
    case ReadHighest => if c.phase.EventsRead? then s.(client := OnHighest(db, bot, c)) else s
    case ReadLowest(lowest, again) =>
      if c.phase.HighestRead? && IsLowest(db.log, bot, lowest) then s.(client := OnLowest(c, lowest, again)) else s
    case ReadExpiry(now, again) =>
      if c.phase.LowestRead? && now >= s.server.clock then s.(client := OnExpiry(db, bot, c, now, again)) else s
    case PollFails => s.(client := c.(phase := Idle))
    case Fetch(key) => s.(client := OnFetch(db, bot, c, key))
    case FetchAll => s.(client := c.(copy := Settings(db, bot), pending := {}, lost := false))
  }

  ghost function Play(s: Session, bot: Id, events: seq<Event>): Session {
    if events == [] then s else Advance(Play(s, bot, Init(events)), bot, Last(events))
  }

  /** A bot that has its settings begins no blind poll, and nothing is logged for it between the first two reads. */
  predicate IsClean(s: Session, bot: Id, e: Event) {
    || s.client.lost
    || (&& (e.Server? && s.client.phase.EventsRead? ==>
              Next(Step(s.server, e.op).db.botSeq, bot) == Next(s.server.db.botSeq, bot))
        && (e.ReadEvents? && s.client.phase.Idle? ==> !Blind(s.server.db, bot, s.client.cursor)))
  }

  ghost predicate Clean(s: Session, bot: Id, events: seq<Event>) {
    events != [] ==> Clean(s, bot, Init(events)) && IsClean(Play(s, bot, Init(events)), bot, Last(events))
  }

  // ---- What the copy is worth ----

  predicate Current(copy: map<Key, View>, db: Db, bot: Id, key: Key) {
    if (bot, key) in db.settings then key in copy && copy[key] == ViewOf(db.settings[(bot, key)]) else key !in copy
  }

  ghost predicate NamedLater(t: Trace, bot: Id, cursor: nat, key: Key) {
    exists s: nat :: s > cursor && (bot, s) in t.history && key in t.history[(bot, s)].payload.keys
  }

  /** The event at the cursor has been deleted, so that a poll will be told to fetch everything. */
  predicate Gone(s: Session, bot: Id) {
    s.client.cursor != 0 && (bot, s.client.cursor) !in s.server.db.log
  }

  /** The poll under way misses no event that names the key. */
  ghost predicate WillHear(s: Session, bot: Id, key: Key) {
    match s.client.phase
    case Idle => true
    case EventsRead(named) => key in named || Gone(s, bot)
    case HighestRead(named, highest) =>
      key in named || NamedLater(s.server, bot, Greater(s.client.cursor, highest), key) || Gone(s, bot)
    case LowestRead(named, highest) =>
      key in named || NamedLater(s.server, bot, Greater(s.client.cursor, highest), key)
  }

  /**
   The copy of the key is right, or the bot knows that it has to fetch it, or an event that it has yet to see
   says so.
   */
  ghost predicate Behind(s: Session, bot: Id, key: Key) {
    || Current(s.client.copy, s.server.db, bot, key)
    || key in s.client.pending
    || NamedLater(s.server, bot, s.client.cursor, key)
  }

  ghost predicate Accounted(s: Session, bot: Id, key: Key) {
    || Current(s.client.copy, s.server.db, bot, key)
    || key in s.client.pending
    || (NamedLater(s.server, bot, s.client.cursor, key) && WillHear(s, bot, key))
  }

  /** The numbers that the client holds have been allocated. */
  ghost predicate Sound(s: Session, bot: Id) {
    && Sane(s.server)
    && s.client.cursor < Next(s.server.db.botSeq, bot)
    && (s.client.phase.HighestRead? || s.client.phase.LowestRead? ==>
          s.client.cursor != 0 && s.client.phase.highest < Next(s.server.db.botSeq, bot))
    && (s.client.phase.HighestRead? ==> s.client.cursor <= s.client.phase.highest)
  }

  /** No change of a setting escapes the bot. */
  ghost predicate Faithful(s: Session, bot: Id) {
    Sound(s, bot) && (s.client.lost || forall key :: Accounted(s, bot, key))
  }

  lemma LaterNaming(t: Trace, next: Trace, bot: Id, cursor: nat, key: Key)
    requires GoesOn(t, next) && NamedLater(t, bot, cursor, key)
    ensures NamedLater(next, bot, cursor, key)
  {
    var n: nat :| n > cursor && (bot, n) in t.history && key in t.history[(bot, n)].payload.keys;
    assert (bot, n) in next.history && next.history[(bot, n)] == t.history[(bot, n)];
  }

  /** A change of a setting is named by an event with a new number. */
  lemma ChangeIsNamedLater(t: Trace, op: Op, bot: Id, copy: map<Key, View>, key: Key)
    requires Sane(t) && Current(copy, t.db, bot, key) && !Current(copy, Step(t, op).db, bot, key)
    ensures var next := Step(t, op);
            && Next(next.db.botSeq, bot) > Next(t.db.botSeq, bot)
            && NamedLater(next, bot, Highest(t.db, bot), key)
  {
    var next := Step(t, op);
    StepKeepsSane(t, op);
    ChangesAreNamed(t.db, op, bot, key);
    var n := Next(t.db.botSeq, bot);
    assert (bot, n) in next.db.log && key in next.db.log[(bot, n)].payload.keys;
    assert (bot, n) in next.history && next.history[(bot, n)] == next.db.log[(bot, n)];
    assert n > Highest(t.db, bot) by {
      assert Next(t.db.botSeq, bot) >= 1;
    }
  }

  lemma EarlierCursor(t: Trace, bot: Id, cursor: nat, lower: nat, key: Key)
    requires NamedLater(t, bot, cursor, key) && lower <= cursor
    ensures NamedLater(t, bot, lower, key)
  {
  }

  lemma ServerKeepsAccounted(s: Session, bot: Id, op: Op, key: Key)
    requires Sound(s, bot) && Accounted(s, bot, key) && !s.client.lost && IsClean(s, bot, Server(op))
    ensures Accounted(Advance(s, bot, Server(op)), bot, key)
  {
    var t, next, c := s.server, Step(s.server, op), s.client;
    StepGoesOn(t, op);
    if Current(c.copy, t.db, bot, key) {
      if !Current(c.copy, next.db, bot, key) {
        ChangeIsNamedLater(t, op, bot, c.copy, key);
        EarlierCursor(next, bot, Highest(t.db, bot), c.cursor, key);
        if c.phase.HighestRead? || c.phase.LowestRead? {
          EarlierCursor(next, bot, Highest(t.db, bot), Greater(c.cursor, c.phase.highest), key);
        }
      }
    } else if key !in c.pending {
      LaterNaming(t, next, bot, c.cursor, key);
      if (c.phase.HighestRead? || c.phase.LowestRead?) && NamedLater(t, bot, Greater(c.cursor, c.phase.highest), key) {
        LaterNaming(t, next, bot, Greater(c.cursor, c.phase.highest), key);
      }
    }
  }

  lemma ReadEventsKeepsAccounted(s: Session, bot: Id, key: Key)
    requires Sound(s, bot) && Accounted(s, bot, key) && s.client.phase.Idle?
    requires !Blind(s.server.db, bot, s.client.cursor)
    ensures Accounted(Advance(s, bot, ReadEvents), bot, key)
  {
    var t, c := s.server, s.client;
    if NamedLater(t, bot, c.cursor, key) && !Gone(s, bot) {
      var n: nat :| n > c.cursor && (bot, n) in t.history && key in t.history[(bot, n)].payload.keys;
      RetainedUpward(t.db, bot, if c.cursor == 0 then 1 else c.cursor, n);
      assert key in Named(t.db.log, bot, c.cursor);
    }
  }

  lemma ReadHighestKeepsAccounted(s: Session, bot: Id, key: Key)
    requires Sound(s, bot) && Accounted(s, bot, key)
    ensures Accounted(Advance(s, bot, ReadHighest), bot, key)
  {
  }

  lemma ReadLowestKeepsAccounted(s: Session, bot: Id, lowest: Option<nat>, again: bool, key: Key)
    requires Sound(s, bot) && Accounted(s, bot, key) && !Advance(s, bot, ReadLowest(lowest, again)).client.lost
    ensures Accounted(Advance(s, bot, ReadLowest(lowest, again)), bot, key)
  {
    var t, c := s.server, s.client;
    if c.phase.HighestRead? && IsLowest(t.db.log, bot, lowest) {
      assert lowest.Some? && lowest.value <= c.cursor;
      RetainedUpward(t.db, bot, lowest.value, c.cursor);
      assert !Gone(s, bot);
    }
  }

  lemma ReadExpiryKeepsAccounted(s: Session, bot: Id, now: int, again: bool, key: Key)
    requires Sound(s, bot) && Accounted(s, bot, key) && !Advance(s, bot, ReadExpiry(now, again)).client.lost
    ensures Accounted(Advance(s, bot, ReadExpiry(now, again)), bot, key)
  {
  }

  lemma AdvanceKeepsAccounted(s: Session, bot: Id, e: Event, key: Key)
    requires Sound(s, bot) && !s.client.lost && Accounted(s, bot, key) && IsClean(s, bot, e)
    requires !Advance(s, bot, e).client.lost
    ensures Accounted(Advance(s, bot, e), bot, key)
  {
    match e
    case Server(op) => ServerKeepsAccounted(s, bot, op, key);
    case ReadEvents =>
      if s.client.phase.Idle? {
        ReadEventsKeepsAccounted(s, bot, key);
      }
    case ReadHighest => ReadHighestKeepsAccounted(s, bot, key);
    case ReadLowest(lowest, again) => ReadLowestKeepsAccounted(s, bot, lowest, again, key);
    case ReadExpiry(now, again) => ReadExpiryKeepsAccounted(s, bot, now, again, key);
    case PollFails =>
    case Fetch(k) =>
    case FetchAll =>
  }

  lemma AdvanceKeepsSound(s: Session, bot: Id, e: Event)
    requires Sound(s, bot)
    ensures Sound(Advance(s, bot, e), bot)
  {
    if e.Server? {
      StepKeepsSane(s.server, e.op);
      StepGoesOn(s.server, e.op);
      assert Next(s.server.db.botSeq, bot) <= Next(Step(s.server, e.op).db.botSeq, bot);
    }
  }

  lemma FetchAllIsExact(s: Session, bot: Id, key: Key)
    ensures Current(Settings(s.server.db, bot), s.server.db, bot, key)
  {
  }

  lemma AdvanceKeepsFaithful(s: Session, bot: Id, e: Event)
    requires Faithful(s, bot) && IsClean(s, bot, e)
    ensures Faithful(Advance(s, bot, e), bot)
  {
    AdvanceKeepsSound(s, bot, e);
    if !Advance(s, bot, e).client.lost {
      forall key
        ensures Accounted(Advance(s, bot, e), bot, key)
      {
        if e.FetchAll? {
          FetchAllIsExact(s, bot, key);
        } else {
          AdvanceKeepsAccounted(s, bot, e, key);
        }
      }
    }
  }

  lemma {:induction false} PlayKeepsFaithful(s: Session, bot: Id, events: seq<Event>)
    requires Faithful(s, bot) && Clean(s, bot, events)
    ensures Faithful(Play(s, bot, events), bot)
  {
    if events != [] {
      PlayKeepsFaithful(s, bot, Init(events));
      AdvanceKeepsFaithful(Play(s, bot, Init(events)), bot, Last(events));
    }
  }

  /** A bot that has just started, on a server with any past. */
  function Fresh(server: Trace): Session {
    Session(server, Client(map[], 0, {}, true, Idle))
  }

  /** The bot has polled to the end and has nothing left to fetch. */
  predicate CaughtUp(s: Session, bot: Id) {
    !s.client.lost && s.client.pending == {} && s.client.cursor == Highest(s.server.db, bot)
  }

  lemma CaughtUpIsExact(s: Session, bot: Id)
    requires Faithful(s, bot) && CaughtUp(s, bot)
    ensures s.client.copy == Settings(s.server.db, bot)
  {
    var settings := Settings(s.server.db, bot);
    forall key
      ensures key in s.client.copy <==> key in settings
      ensures key in settings ==> s.client.copy[key] == settings[key]
    {
      assert Accounted(s, bot, key);
      assert Current(s.client.copy, s.server.db, bot, key);
    }
  }

  /**
   However writes, deletions, other events, cleanups, failures and the single reads of polls and fetches
   interleave: a bot that is never polling blindly, and for which nothing is logged between the first two
   reads of a poll, holds exactly the settings that the server stores whenever it has polled up to the last
   event and has fetched every key it was told of.
   */
  lemma CaughtUpCopyIsExact(clock: int, past: seq<Op>, bot: Id, events: seq<Event>)
    requires Clean(Fresh(Run(Start(clock), past)), bot, events)
    ensures var s := Play(Fresh(Run(Start(clock), past)), bot, events);
            CaughtUp(s, bot) ==> s.client.copy == Settings(s.server.db, bot)
  {
    var begun := Fresh(Run(Start(clock), past));
    RunIsSane(clock, past);
    PlayKeepsFaithful(begun, bot, events);
    if CaughtUp(Play(begun, bot, events), bot) {
      CaughtUpIsExact(Play(begun, bot, events), bot);
    }
  }
}
