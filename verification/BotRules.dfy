/** Which settings may be written and deleted, and how the numbers of their owners rise. */
module BotRules {
  import opened Prelude
  import opened BotLog

  // ---- Keys ----

  /** A text of ASCII characters has as many bytes as characters; others have up to four each. */
  lemma {:induction false} TextSizeIs(s: string)
    ensures |s| <= TextSize(s) <= 4 * |s|
    ensures (forall c :: c in s ==> c < '\U{80}') ==> TextSize(s) == |s|
  {
    if s != "" {
      TextSizeIs(Init(s));
      assert Last(s) in s && forall c :: c in Init(s) ==> c in s;
    }
  }

  /** How many bytes UTF-8 needs for a character. */
  lemma CharSizeIs(c: char)
    ensures CharSize(c) == 1 <==> c as int <= 127
    ensures CharSize(c) == 2 <==> 128 <= c as int <= 2_047
    ensures CharSize(c) == 3 <==> 2_048 <= c as int <= 65_535
    ensures CharSize(c) == 4 <==> 65_536 <= c as int
  {
  }

  /** The control characters of ASCII and of Latin-1. */
  lemma ControlIs(c: char)
    ensures IsControl(c) <==> c as int <= 31 || 127 <= c as int <= 159
  {
  }

  /** A key of ASCII characters is valid if it has 1 to 256 of them and none is a control character. */
  lemma AsciiKeyIsValidIff(key: Key)
    requires forall c :: c in key ==> c < '\U{80}'
    ensures KeyIsValid(key) <==> 1 <= |key| <= 256 && forall c :: c in key ==> ' ' <= c <= '~'
  {
    TextSizeIs(key);
  }

  // ---- Writes and deletions ----

  /**
   A write that changes something takes the owner's next number and tells the bot; one that does not changes
   nothing.
   */
  lemma WriteMoves(db: Db, owner: Id, bot: Id, key: Key, patch: Patch, maxBytes: nat, now: int)
    requires WriteSetting(db, owner, bot, key, patch, maxBytes, now).reply.Ok?
    ensures var out := WriteSetting(db, owner, bot, key, patch, maxBytes, now);
            var same := (bot, key) in db.settings
                        && db.settings[(bot, key)].secret == patch.secret
                        && db.settings[(bot, key)].client == ClientText(patch)
                        && db.settings[(bot, key)].bot == patch.bot.text;
            && (same ==> out.db == db)
            && (!same ==>
                  && out.db.settings == db.settings[(bot, key) :=
                       Setting(patch.secret, ClientText(patch), patch.bot.text, Next(db.userSeq, owner))]
                  && out.db.userSeq == db.userSeq[owner := Next(db.userSeq, owner) + 1]
                  && out.db.botSeq == db.botSeq[bot := Next(db.botSeq, bot) + 1]
                  && out.db.log == db.log[(bot, Next(db.botSeq, bot)) :=
                       Row(Payload("bot.settings_updated", [key], Some(Next(db.botSeq, bot))), now)])
            && out.reply.value == OwnerView(ClientText(patch), patch.secret, out.db.settings[(bot, key)].userSeq)
  {
  }

  lemma DeleteIs(db: Db, owner: Id, bot: Id, key: Key, now: int)
    ensures var out := DeleteSetting(db, owner, bot, key, now);
            && (out.reply.Ok? <==> KeyIsValid(key) && (bot, key) in db.settings)
            && (out.reply == Err(InvalidKey) <==> !KeyIsValid(key))
            && (out.reply == Err(SettingNotFound) <==> KeyIsValid(key) && (bot, key) !in db.settings)
            && (out.reply.Err? ==> out.db == db)
            && (out.reply.Ok? ==>
                  && out.db.settings == db.settings - {(bot, key)}
                  && out.db.userSeq == db.userSeq[owner := Next(db.userSeq, owner) + 1]
                  && out.db.botSeq == db.botSeq[bot := Next(db.botSeq, bot) + 1]
                  && out.db.log == db.log[(bot, Next(db.botSeq, bot)) :=
                       Row(Payload("bot.settings_updated", [key], Some(Next(db.botSeq, bot))), now)])
  {
  }

  /** Which objection a refused write meets: the first that holds. */
  lemma WriteIsRefusedFor(db: Db, owner: Id, bot: Id, key: Key, patch: Patch, maxBytes: nat, now: int)
    ensures var reply := WriteSetting(db, owner, bot, key, patch, maxBytes, now).reply;
            var keyed := KeyIsValid(key);
            var signed := keyed && (patch.pubkey.Some? ==> patch.pubkey.value.size == Some(32));
            var sealed := signed && patch.bot.text != "" && patch.bot.size.Some? && 60 <= patch.bot.size.value;
            var fits := sealed && patch.bot.size.value <= maxBytes;
            && (reply == Err(InvalidKey) <==> !keyed)
            && (reply == Err(InvalidPubkey) <==> keyed && !signed)
            && (reply == Err(InvalidBotValue) <==> signed && !sealed)
            && (reply == Err(ClientForbidden) <==> fits && patch.secret && patch.client.Some?)
            && (reply == Err(ClientRequired) <==> fits && !patch.secret && patch.client.None?)
            && (reply == Err(ValueTooLarge) ==>
                  sealed && (patch.bot.size.value > maxBytes
                             || (patch.client.Some? && patch.client.value.size.Some?
                                 && patch.client.value.size.value > maxBytes)))
  {
  }

  /** What is older than 24 hours, 86400 seconds, is deleted by a cleanup, and nothing else. */
  lemma CleanUpIs(t: Trace, now: int, e: (Id, nat))
    requires now >= t.clock
    ensures var next := Step(t, DoCleanUp(now)).db;
            && next == t.db.(log := next.log)
            && (e in next.log <==> e in t.db.log && now - t.db.log[e].at <= 86_400)
            && (e in next.log ==> next.log[e] == t.db.log[e])
  {
  }

  // ---- Over every run ----

  /** The operation writes or deletes for the owner and is not without effect. */
  predicate Moves(t: Trace, op: Op, owner: Id) {
    && op.now >= t.clock && (op.DoWrite? || op.DoDelete?) && op.owner == owner
    && Apply(t.db, op).userSeq != t.db.userSeq
  }

  lemma OneNumberPerMove(t: Trace, op: Op, owner: Id)
    ensures Next(Step(t, op).db.userSeq, owner) ==
            Next(t.db.userSeq, owner) + if Moves(t, op, owner) then 1 else 0
  {
  }

  function CountMoves(t: Trace, ops: seq<Op>, owner: Id): nat {
    if ops == [] then 0
    else CountMoves(t, Init(ops), owner) + if Moves(Run(t, Init(ops)), Last(ops), owner) then 1 else 0
  }

  /**
   Over every run an owner's next number is one more than the changes made for him: none is skipped or given
   twice.
   */
  lemma {:induction false} OwnersNumbersCount(clock: int, ops: seq<Op>, owner: Id)
    ensures Next(Run(Start(clock), ops).db.userSeq, owner) == 1 + CountMoves(Start(clock), ops, owner)
  {
    if ops != [] {
      OwnersNumbersCount(clock, Init(ops), owner);
      OneNumberPerMove(Run(Start(clock), Init(ops)), Last(ops), owner);
    }
  }
}
