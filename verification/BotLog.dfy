/** The settings of bots and the log of events from which a bot learns that they changed. */
module BotLog {
  import opened Prelude

  type Id = string
  type Key = string

  /** A base64url field: its text, and the length of what it decodes to if it does. */
  datatype Encoded = Encoded(text: string, size: Option<nat>)

  datatype Patch = Patch(secret: bool, bot: Encoded, client: Option<Encoded>, pubkey: Option<Encoded>)

  /** A row of bot_settings. */
  datatype Setting = Setting(secret: bool, client: Option<string>, bot: string, userSeq: nat)

  /** The payload of an event; botSeq is attached when it is logged. */
  datatype Payload = Payload(kind: string, keys: seq<Key>, botSeq: Option<nat>)

  /** A row of bot_event_log. */
  datatype Row = Row(payload: Payload, at: int)

  datatype Db = Db(
    settings: map<(Id, Key), Setting>, botSeq: map<Id, nat>, userSeq: map<Id, nat>, log: map<(Id, nat), Row>)

  datatype Error =
    | InvalidKey | InvalidPubkey | InvalidBotValue | ValueTooLarge
    | ClientForbidden | ClientRequired | InvalidClientValue | SettingNotFound

  datatype OwnerView = OwnerView(client: Option<string>, secret: bool, userSeq: nat)

  datatype Outcome<T> = Outcome(db: Db, reply: Result<T, Error>)

  // ---- Validation ----

  predicate IsControl(c: char) {
    c <= '\U{1F}' || '\U{7F}' <= c <= '\U{9F}'
  }

  function CharSize(c: char): nat {
    if c < '\U{80}' then 1 else if c < '\U{800}' then 2 else if c < '\U{10000}' then 3 else 4
  }

  /** The length of a text in UTF-8. */
  function TextSize(s: string): nat {
    if s == "" then 0 else TextSize(Init(s)) + CharSize(Last(s))
  }

  predicate KeyIsValid(key: Key) {
    key != "" && TextSize(key) <= 256 && forall c :: c in key ==> !IsControl(c)
  }

  /** The first objection to a patch, in the order in which they are raised. */
  function Objection(key: Key, patch: Patch, maxBytes: nat): Option<Error> {
    if !KeyIsValid(key) then Some(InvalidKey)
    else if patch.pubkey.Some? && patch.pubkey.value.size != Some(32) then Some(InvalidPubkey)
    else if patch.bot.text == "" || patch.bot.size.None? || patch.bot.size.value < 60 then Some(InvalidBotValue)
    else if patch.bot.size.value > maxBytes then Some(ValueTooLarge)
    else if patch.secret then if patch.client.Some? then Some(ClientForbidden) else None
    else if patch.client.None? then Some(ClientRequired)
    else if patch.client.value.text == "" || patch.client.value.size.None? then Some(InvalidClientValue)
    else if patch.client.value.size.value > maxBytes then Some(ValueTooLarge)
    else None
  }

  // ---- Transactions ----

  /** The next number of a sequence that starts at 1. */
  function Next(seqs: map<Id, nat>, id: Id): nat {
    if id in seqs then seqs[id] else 1
  }

  /** Allocates a number, attaches it to the payload and logs it. */
  function Prepare(db: Db, bot: Id, payload: Payload, now: int): Db {
    var seqno := Next(db.botSeq, bot);
    db.(botSeq := db.botSeq[bot := seqno + 1],
        log := db.log[(bot, seqno) := Row(payload.(botSeq := Some(seqno)), now)])
  }

  function ClientText(patch: Patch): Option<string> {
    if patch.client.Some? then Some(patch.client.value.text) else None
  }

  /** The stored values are those of the patch. */
  predicate SameValues(s: Setting, patch: Patch) {
    s.secret == patch.secret && s.client == ClientText(patch) && s.bot == patch.bot.text
  }

  const SETTINGS_UPDATED := "bot.settings_updated"

  function Changed(key: Key): Payload {
    Payload(SETTINGS_UPDATED, [key], None)
  }

  function WriteSetting(db: Db, owner: Id, bot: Id, key: Key, patch: Patch, maxBytes: nat, now: int)
    : Outcome<OwnerView>
  {
    var objection := Objection(key, patch, maxBytes);
    if objection.Some? then Outcome(db, Err(objection.value))
    else if (bot, key) in db.settings && SameValues(db.settings[(bot, key)], patch) then
      Outcome(db, Ok(OwnerView(ClientText(patch), patch.secret, db.settings[(bot, key)].userSeq)))
    else
      var seqno := Next(db.userSeq, owner);
      var written := db.(
        userSeq := db.userSeq[owner := seqno + 1],
        settings := db.settings[(bot, key) := Setting(patch.secret, ClientText(patch), patch.bot.text, seqno)]);
      Outcome(Prepare(written, bot, Changed(key), now), Ok(OwnerView(ClientText(patch), patch.secret, seqno)))
  }

  function DeleteSetting(db: Db, owner: Id, bot: Id, key: Key, now: int): Outcome<()> {
    if !KeyIsValid(key) then Outcome(db, Err(InvalidKey))
    else if (bot, key) !in db.settings then Outcome(db, Err(SettingNotFound))
    else
      var deleted := db.(
        userSeq := db.userSeq[owner := Next(db.userSeq, owner) + 1],
        settings := db.settings - {(bot, key)});
      Outcome(Prepare(deleted, bot, Changed(key), now), Ok(()))
  }

  function Retained(log: map<(Id, nat), Row>, cutoff: int): map<(Id, nat), Row> {
    map e | e in log && log[e].at >= cutoff :: log[e]
  }

  // ---- Runs ----

  datatype Op =
    | DoWrite(owner: Id, bot: Id, key: Key, patch: Patch, maxBytes: nat, now: int)
    | DoDelete(owner: Id, bot: Id, key: Key, now: int)
    | DoEvent(bot: Id, kind: string, now: int)
    | DoCleanUp(now: int)

  /** The tables, every row ever logged, and the clock. */
  datatype Trace = Trace(db: Db, history: map<(Id, nat), Row>, clock: int)

  const RETENTION := 86_400

  function Apply(db: Db, op: Op): Db {
    match op
    case DoWrite(owner, bot, key, patch, maxBytes, now) => WriteSetting(db, owner, bot, key, patch, maxBytes, now).db
    case DoDelete(owner, bot, key, now) => DeleteSetting(db, owner, bot, key, now).db
    case DoEvent(bot, kind, now) => Prepare(db, bot, Payload(kind, [], None), now)
    case DoCleanUp(now) => db.(log := Retained(db.log, now - RETENTION))
  }

  /** The clock does not go back. */
  function Step(t: Trace, op: Op): Trace {
    if op.now < t.clock then t
    else
      var next := Apply(t.db, op);
      Trace(next, t.history + next.log, op.now)
  }

  function Run(t: Trace, ops: seq<Op>): Trace {
    if ops == [] then t else Step(Run(t, Init(ops)), Last(ops))
  }

  function Start(clock: int): Trace {
    Trace(Db(map[], map[], map[], map[]), map[], clock)
  }

  // ---- The invariant ----

  /** What is retained is an interval that ends just below the next number. */
  ghost predicate Contiguous(log: map<(Id, nat), Row>, botSeq: map<Id, nat>) {
    forall bot, s :: (bot, s) in log ==>
      1 <= s < Next(botSeq, bot) && (s + 1 < Next(botSeq, bot) ==> (bot, s + 1) in log)
  }

  /** Nothing was ever skipped. */
  ghost predicate GapFree(history: map<(Id, nat), Row>, botSeq: map<Id, nat>) {
    && (forall bot :: Next(botSeq, bot) >= 1)
    && forall bot, s: nat :: (bot, s) in history <==> 1 <= s < Next(botSeq, bot)
  }

  ghost predicate Chronological(history: map<(Id, nat), Row>, clock: int) {
    && (forall e :: e in history ==> history[e].at <= clock && history[e].payload.botSeq == Some(e.1))
    && forall bot, r, s :: (bot, r) in history && (bot, s) in history && r <= s ==>
         history[(bot, r)].at <= history[(bot, s)].at
  }

  /** A setting has a client ciphertext exactly when it is not secret. */
  ghost predicate Sealed(settings: map<(Id, Key), Setting>) {
    forall k :: k in settings ==> (settings[k].client.Some? <==> !settings[k].secret)
  }

  ghost predicate Sane(t: Trace) {
    && Contiguous(t.db.log, t.db.botSeq)
    && GapFree(t.history, t.db.botSeq)
    && Chronological(t.history, t.clock)
    && (forall e :: e in t.db.log ==> e in t.history && t.history[e] == t.db.log[e])
    && Sealed(t.db.settings)
  }

  /** An operation logs at most one event, with the next number of its bot, and touches no other sequence. */
  lemma ApplyLogsOnce(db: Db, op: Op)
    requires !op.DoCleanUp?
    ensures var next := Apply(db, op);
            || (next.log == db.log && next.botSeq == db.botSeq && next.settings == db.settings)
            || exists payload: Payload ::
                 && payload.botSeq == Some(Next(db.botSeq, op.bot))
                 && next.log == db.log[(op.bot, Next(db.botSeq, op.bot)) := Row(payload, op.now)]
                 && next.botSeq == db.botSeq[op.bot := Next(db.botSeq, op.bot) + 1]
  {
    var s := Next(db.botSeq, op.bot);
    var payload := (if op.DoEvent? then Payload(op.kind, [], None) else Changed(op.key)).(botSeq := Some(s));
    var next := Apply(db, op);
    assert (next.log == db.log && next.botSeq == db.botSeq && next.settings == db.settings)
        || (next.log == db.log[(op.bot, s) := Row(payload, op.now)] && next.botSeq == db.botSeq[op.bot := s + 1]);
  }

  lemma ApplyKeepsSealed(db: Db, op: Op)
    requires Sealed(db.settings)
    ensures Sealed(Apply(db, op).settings)
  {
    var next := Apply(db, op).settings;
    forall k | k in next
      ensures next[k].client.Some? <==> !next[k].secret
    {
      assert (k in db.settings && next[k] == db.settings[k]) || (op.DoWrite? && k == (op.bot, op.key));
    }
  }

  lemma AppendKeepsOrder(t: Trace, bot: Id, row: Row)
    requires Sane(t) && row.at >= t.clock && row.payload.botSeq == Some(Next(t.db.botSeq, bot))
    ensures var s := Next(t.db.botSeq, bot);
            var log, history := t.db.log[(bot, s) := row], t.history[(bot, s) := row];
            var botSeq := t.db.botSeq[bot := s + 1];
            Contiguous(log, botSeq) && GapFree(history, botSeq) && Chronological(history, row.at)
  {
    var s := Next(t.db.botSeq, bot);
    var log, history, botSeq := t.db.log[(bot, s) := row], t.history[(bot, s) := row], t.db.botSeq[bot := s + 1];
    forall b, r | (b, r) in log
      ensures 1 <= r < Next(botSeq, b) && (r + 1 < Next(botSeq, b) ==> (b, r + 1) in log)
    {
      assert (b, r) == (bot, s) || (b, r) in t.db.log;
    }
    forall b
      ensures Next(botSeq, b) >= 1
    {
      assert Next(t.db.botSeq, b) >= 1;
    }
    forall b, r: nat
      ensures (b, r) in history <==> 1 <= r < Next(botSeq, b)
    {
      assert (b, r) in t.history <==> 1 <= r < Next(t.db.botSeq, b);
    }
  }

  lemma CleanUpKeepsSane(t: Trace, now: int)
    requires Sane(t) && now >= t.clock
    ensures Sane(Step(t, DoCleanUp(now)))
  {
    var next := Step(t, DoCleanUp(now));
    assert next.history == t.history;
    forall bot, s | (bot, s) in next.db.log
      ensures 1 <= s < Next(t.db.botSeq, bot) && (s + 1 < Next(t.db.botSeq, bot) ==> (bot, s + 1) in next.db.log)
    {
      assert (bot, s) in t.db.log;
    }
  }

  lemma AppendKeepsSane(t: Trace, next: Trace, bot: Id, row: Row)
    requires Sane(t) && row.at == next.clock >= t.clock && row.payload.botSeq == Some(Next(t.db.botSeq, bot))
    requires var s := Next(t.db.botSeq, bot);
             && next.db.log == t.db.log[(bot, s) := row] && next.history == t.history + next.db.log
             && next.db.botSeq == t.db.botSeq[bot := s + 1]
    requires Sealed(next.db.settings)
    ensures Sane(next)
  {
    assert next.history == t.history[(bot, Next(t.db.botSeq, bot)) := row];
    AppendKeepsOrder(t, bot, row);
  }

  lemma StepKeepsSane(t: Trace, op: Op)
    requires Sane(t)
    ensures Sane(Step(t, op))
  {
    if op.now >= t.clock {
      if op.DoCleanUp? {
        CleanUpKeepsSane(t, op.now);
      } else {
        var next := Step(t, op);
        ApplyKeepsSealed(t.db, op);
        ApplyLogsOnce(t.db, op);
        if next.db.log == t.db.log && next.db.botSeq == t.db.botSeq {
          assert next.history == t.history;
        } else {
          AppendKeepsSane(t, next, op.bot, next.db.log[(op.bot, Next(t.db.botSeq, op.bot))]);
        }
      }
    }
  }

  /**
   At every moment the retained log of each bot is a contiguous interval that ends just below its next
   number, no number was ever skipped, times rise with numbers, and a setting has a client ciphertext
   exactly when it is not secret.
   */
  lemma {:induction false} RunIsSane(clock: int, ops: seq<Op>)
    ensures Sane(Run(Start(clock), ops))
  {
    if ops != [] {
      RunIsSane(clock, Init(ops));
      StepKeepsSane(Run(Start(clock), Init(ops)), Last(ops));
    }
  }

  /** Only a write that changes something is logged; writing the same values again changes nothing at all. */
  lemma RewriteIsSilent(db: Db, owner: Id, bot: Id, key: Key, patch: Patch, maxBytes: nat, now: int, later: int)
    ensures var first := WriteSetting(db, owner, bot, key, patch, maxBytes, now);
            var again := WriteSetting(first.db, owner, bot, key, patch, maxBytes, later);
            again.db == first.db && again.reply == first.reply
  {
  }

  /** A write is accepted exactly when all its parts are in order, and stores them as they were sent. */
  lemma WriteIsAcceptedIff(db: Db, owner: Id, bot: Id, key: Key, patch: Patch, maxBytes: nat, now: int)
    ensures var out := WriteSetting(db, owner, bot, key, patch, maxBytes, now);
            && (out.reply.Ok? <==>
                  && KeyIsValid(key)
                  && (patch.pubkey.Some? ==> patch.pubkey.value.size == Some(32))
                  && patch.bot.text != "" && patch.bot.size.Some? && 60 <= patch.bot.size.value <= maxBytes
                  && (patch.secret <==> patch.client.None?)
                  && (patch.client.Some? ==>
                        patch.client.value.text != "" && patch.client.value.size.Some?
                            && patch.client.value.size.value <= maxBytes))
            && (out.reply.Ok? ==>
                  && (bot, key) in out.db.settings && SameValues(out.db.settings[(bot, key)], patch)
                  && out.reply.value.userSeq == out.db.settings[(bot, key)].userSeq
                  && out.db.settings == db.settings[(bot, key) := out.db.settings[(bot, key)]])
            && (out.reply.Err? ==> out.db == db)
  {
  }

  /** A change of the stored settings is logged by an event that names the key, and no other setting changes. */
  lemma ChangesAreNamed(db: Db, op: Op, bot: Id, key: Key)
    ensures var next := Apply(db, op);
            var same := if (bot, key) in db.settings then
                          (bot, key) in next.settings && next.settings[(bot, key)] == db.settings[(bot, key)]
                        else (bot, key) !in next.settings;
            same || ((bot, Next(db.botSeq, bot)) in next.log
                && key in next.log[(bot, Next(db.botSeq, bot))].payload.keys)
  {
  }
}
