/** The tables of settings and events of bots as the server updates them, one transaction per method. */
module BotStore {
  import opened Prelude
  import opened BotLog

  class BotStore {
    var settings: map<(Id, Key), Setting>
    var botSeq: map<Id, nat>
    var userSeq: map<Id, nat>
    var log: map<(Id, nat), Row>
    /** Every row ever logged, and the latest time seen. */
    ghost var history: map<(Id, nat), Row>
    ghost var clock: int

    function State(): Db
      reads this
    {
      Db(settings, botSeq, userSeq, log)
    }

    ghost function Past(): Trace
      reads this
    {
      Trace(State(), history, clock)
    }

    ghost predicate Valid()
      reads this
    {
      Sane(Past())
    }

    constructor (now: int)
      ensures Valid() && Past() == Start(now)
    {
      settings, botSeq, userSeq, log, history, clock := map[], map[], map[], map[], map[], now;
    }

    /** Inserts the sequence with 2, or increments it, and returns the number before. */
    method AllocateUserSeq(owner: Id) returns (seqno: nat)
      modifies this`userSeq
      ensures seqno == Next(old(userSeq), owner) && userSeq == old(userSeq)[owner := seqno + 1]
    {
      if owner !in userSeq {
        userSeq := userSeq[owner := 2];
        return 1;
      }
      seqno := userSeq[owner];
      userSeq := userSeq[owner := seqno + 1];
    }

    method AllocateBotSeq(bot: Id) returns (seqno: nat)
      modifies this`botSeq
      ensures seqno == Next(old(botSeq), bot) && botSeq == old(botSeq)[bot := seqno + 1]
    {
      if bot !in botSeq {
        botSeq := botSeq[bot := 2];
        return 1;
      }
      seqno := botSeq[bot];
      botSeq := botSeq[bot := seqno + 1];
    }

    /** The primary key of the log is the bot and the number. */
    method Append(bot: Id, seqno: nat, payload: Payload, now: int)
      requires (bot, seqno) !in log
      modifies this`log
      ensures log == old(log)[(bot, seqno) := Row(payload, now)]
    {
      log := log[(bot, seqno) := Row(payload, now)];
    }

    method PrepareEvent(bot: Id, payload: Payload, now: int) returns (seqno: nat, sent: Payload)
      requires (bot, Next(botSeq, bot)) !in log
      modifies this`botSeq, this`log
      ensures State() == Prepare(old(State()), bot, payload, now)
      ensures seqno == Next(old(botSeq), bot) && sent == payload.(botSeq := Some(seqno))
    {
      seqno := AllocateBotSeq(bot);
      sent := payload.(botSeq := Some(seqno));
      Append(bot, seqno, sent, now);
    }

    method Write(owner: Id, bot: Id, key: Key, patch: Patch, maxBytes: nat, now: int)
      returns (r: Result<OwnerView, Error>)
      requires Valid() && now >= clock
      modifies this
      ensures Valid() && Past() == Step(old(Past()), DoWrite(owner, bot, key, patch, maxBytes, now))
      ensures r.Ok? ==> (bot, key) in settings && SameValues(settings[(bot, key)], patch)
      ensures r.Err? ==> State() == old(State())
      ensures Outcome(State(), r) == WriteSetting(old(State()), owner, bot, key, patch, maxBytes, now)
    {
      assert Sane(Step(Past(), DoWrite(owner, bot, key, patch, maxBytes, now))) by {
        StepKeepsSane(Past(), DoWrite(owner, bot, key, patch, maxBytes, now));
      }
      assert (bot, Next(botSeq, bot)) !in log by {
        NextIsFree(Past(), bot);
      }
      r := WriteRows(owner, bot, key, patch, maxBytes, now);
      Settle(now);
      assert Past() == Step(old(Past()), DoWrite(owner, bot, key, patch, maxBytes, now));
    }

    method WriteRows(owner: Id, bot: Id, key: Key, patch: Patch, maxBytes: nat, now: int)
      returns (r: Result<OwnerView, Error>)
      requires (bot, Next(botSeq, bot)) !in log
      modifies this`settings, this`botSeq, this`userSeq, this`log
      ensures Outcome(State(), r) == WriteSetting(old(State()), owner, bot, key, patch, maxBytes, now)
    {
      var objection := Validate(key, patch, maxBytes);
      if objection.Some? {
        return Err(objection.value);
      }
      var client := ClientText(patch);
      if (bot, key) in settings {
        var row := settings[(bot, key)];
        if row.secret == patch.secret && row.client == client && row.bot == patch.bot.text {
          return Ok(OwnerView(client, patch.secret, row.userSeq));
        }
      }
      var seqno := AllocateUserSeq(owner);
      settings := settings[(bot, key) := Setting(patch.secret, client, patch.bot.text, seqno)];
      var _, _ := PrepareEvent(bot, Payload(SETTINGS_UPDATED, [key], None), now);
      return Ok(OwnerView(client, patch.secret, seqno));
    }

    /** Keeps the history with the log. */
    ghost method Settle(now: int)
      modifies this`history, this`clock
      ensures history == old(history) + log && clock == now
    {
      history, clock := history + log, now;
    }

    method Validate(key: Key, patch: Patch, maxBytes: nat) returns (objection: Option<Error>)
      ensures objection == Objection(key, patch, maxBytes)
    {
      if key == "" || TextSize(key) > 256 {
        return Some(InvalidKey);
      }
      for i := 0 to |key|
        invariant forall k :: 0 <= k < i ==> !IsControl(key[k])
      {
        if IsControl(key[i]) {
          assert key[i] in key;
          return Some(InvalidKey);
        }
      }
      if patch.pubkey.Some? && patch.pubkey.value.size != Some(32) {
        return Some(InvalidPubkey);
      }
      if patch.bot.text == "" || patch.bot.size.None? || patch.bot.size.value < 60 {
        return Some(InvalidBotValue);
      }
      if patch.bot.size.value > maxBytes {
        return Some(ValueTooLarge);
      }
      if patch.secret {
        if patch.client.Some? {
          return Some(ClientForbidden);
        }
      } else {
        match patch.client
        case None => return Some(ClientRequired);
        case Some(value) =>
          if value.text == "" || value.size.None? {
            return Some(InvalidClientValue);
          }
          if value.size.value > maxBytes {
            return Some(ValueTooLarge);
          }
      }
      return None;
    }

    method Delete(owner: Id, bot: Id, key: Key, now: int) returns (r: Result<(), Error>)
      requires Valid() && now >= clock
      modifies this
      ensures Valid() && Past() == Step(old(Past()), DoDelete(owner, bot, key, now))
      ensures r.Ok? ==> (bot, key) in old(settings) && settings == old(settings) - {(bot, key)}
      ensures r.Err? ==> State() == old(State())
      ensures Outcome(State(), r) == DeleteSetting(old(State()), owner, bot, key, now)
    {
      assert Sane(Step(Past(), DoDelete(owner, bot, key, now))) by {
        StepKeepsSane(Past(), DoDelete(owner, bot, key, now));
      }
      assert (bot, Next(botSeq, bot)) !in log by {
        NextIsFree(Past(), bot);
      }
      r := DeleteRows(owner, bot, key, now);
      Settle(now);
      assert Past() == Step(old(Past()), DoDelete(owner, bot, key, now));
    }

    method DeleteRows(owner: Id, bot: Id, key: Key, now: int) returns (r: Result<(), Error>)
      requires (bot, Next(botSeq, bot)) !in log
      modifies this`settings, this`botSeq, this`userSeq, this`log
      ensures Outcome(State(), r) == DeleteSetting(old(State()), owner, bot, key, now)
    {
      if !KeyIsValid(key) {
        return Err(InvalidKey);
      }
      if (bot, key) !in settings {
        return Err(SettingNotFound);
      }
      var _ := AllocateUserSeq(owner);
      settings := settings - {(bot, key)};
      var _, _ := PrepareEvent(bot, Payload(SETTINGS_UPDATED, [key], None), now);
      return Ok(());
    }

    method CleanUp(now: int)
      requires Valid() && now >= clock
      modifies this
      ensures Valid() && Past() == Step(old(Past()), DoCleanUp(now))
    {
      assert Sane(Step(Past(), DoCleanUp(now))) by {
        CleanUpKeepsSane(Past(), now);
      }
      Prune(now);
    }

    /** DELETE FROM bot_event_log WHERE created_at < now - 24 hours */
    method Prune(now: int)
      requires now >= clock
      modifies this`log, this`history, this`clock
      ensures Past() == Step(old(Past()), DoCleanUp(now))
    {
      var gone := set e | e in log && log[e].at < now - RETENTION;
      log := log - gone;
      assert log == Retained(old(log), now - RETENTION);
      Settle(now);
    }
  }

  lemma NextIsFree(t: Trace, bot: Id)
    requires Sane(t)
    ensures (bot, Next(t.db.botSeq, bot)) !in t.db.log
  {
  }
}
