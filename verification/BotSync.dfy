/** The reply to a bot that asks for the events after a number: four reads, between which others may write. */
module BotSync {
  import opened Prelude
  import opened BotLog

  const I64_MAX := 0x7FFF_FFFF_FFFF_FFFF

  /** The answer of SELECT MIN(bot_seq). */
  ghost predicate IsLowest(log: map<(Id, nat), Row>, bot: Id, lowest: Option<nat>) {
    if lowest.Some? then (bot, lowest.value) in log && forall s: nat :: (bot, s) in log ==> lowest.value <= s
    else forall s: nat :: (bot, s) !in log
  }

  ghost predicate Expired(log: map<(Id, nat), Row>, bot: Id, since: nat, now: int) {
    exists s: nat :: s <= since && (bot, s) in log && log[(bot, s)].at < now - RETENTION
  }

  /** The first number from which a bot may ask, by the highest number allocated and the lowest retained. */
  function From(highest: int, lowest: Option<nat>): int {
    if lowest.Some? then lowest.value else if highest > 0 then highest + 1 else I64_MAX
  }

  /** Whether the reply tells the bot to fetch everything again. */
  predicate AsksForAll(since: nat, highest: int, lowest: Option<nat>, expired: bool) {
    since != 0 && (since < From(highest, lowest) || expired)
  }

  /** The keys named by the retained events after since. */
  function Named(log: map<(Id, nat), Row>, bot: Id, since: nat): set<Key> {
    set e, k | e in log && e.0 == bot && e.1 > since && k in log[e].payload.keys :: k
  }

  /** All events after since and below next are in the log. */
  ghost predicate Complete(log: map<(Id, nat), Row>, bot: Id, since: nat, next: nat) {
    forall s: nat :: since < s < next ==> (bot, s) in log
  }

  /** A poll from 0 after events of the bot have been deleted. */
  predicate Blind(db: Db, bot: Id, since: nat) {
    since == 0 && Next(db.botSeq, bot) > 1 && (bot, 1) !in db.log
  }

  lemma {:induction false} RetainedUpward(db: Db, bot: Id, s: nat, u: nat)
    requires Contiguous(db.log, db.botSeq) && (bot, s) in db.log && s <= u < Next(db.botSeq, bot)
    ensures (bot, u) in db.log
    decreases u - s
  {
    if s < u {
      RetainedUpward(db, bot, s + 1, u);
    }
  }

  /** A retained event has a lowest one below it. */
  lemma {:induction false} LowestBelow(db: Db, bot: Id, s: nat) returns (lowest: nat)
    requires Contiguous(db.log, db.botSeq) && (bot, s) in db.log
    ensures lowest <= s && IsLowest(db.log, bot, Some(lowest))
  {
    if s > 0 && (bot, s - 1) in db.log {
      lowest := LowestBelow(db, bot, s - 1);
    } else {
      lowest := s;
      forall r: nat | (bot, r) in db.log
        ensures s <= r
      {
        if r < s {
          RetainedUpward(db, bot, r, s - 1);
        }
      }
    }
  }

  // ---- What others may do between two reads ----

  /** What is logged stays in the history, numbers only grow, and what is deleted does not come back. */
  ghost predicate GoesOn(t: Trace, next: Trace) {
    && t.clock <= next.clock
    && (forall e :: e in t.history ==> e in next.history && next.history[e] == t.history[e])
    && (forall bot :: Next(t.db.botSeq, bot) <= Next(next.db.botSeq, bot))
    && forall e :: e in next.db.log && e.1 < Next(t.db.botSeq, e.0) ==> e in t.db.log
  }

  lemma StepGoesOn(t: Trace, op: Op)
    requires Sane(t)
    ensures GoesOn(t, Step(t, op))
  {
    var next := Step(t, op);
    if op.now >= t.clock && !op.DoCleanUp? {
      ApplyLogsOnce(t.db, op);
      forall e: (Id, nat) | e in t.history
        ensures e in next.history && next.history[e] == t.history[e]
      {
        assert 1 <= e.1 < Next(t.db.botSeq, e.0);
        assert e in next.db.log ==> e in t.db.log && next.db.log[e] == t.db.log[e];
      }
    }
  }

  lemma {:induction false} RunGoesOn(t: Trace, ops: seq<Op>)
    requires Sane(t)
    ensures Sane(Run(t, ops)) && GoesOn(t, Run(t, ops))
  {
    if ops != [] {
      RunGoesOn(t, Init(ops));
      StepKeepsSane(Run(t, Init(ops)), Last(ops));
      StepGoesOn(Run(t, Init(ops)), Last(ops));
    }
  }

  /** If nothing was logged in between, a bot that is not told to fetch everything gets every event. */
  lemma UndisturbedIsComplete(t: Trace, third: Trace, bot: Id, since: nat, next: nat, lowest: Option<nat>)
    requires Sane(t) && GoesOn(t, third) && next == Next(t.db.botSeq, bot) && !Blind(t.db, bot, since)
    requires IsLowest(third.db.log, bot, lowest) && !AsksForAll(since, next - 1, lowest, false)
    ensures Complete(t.db.log, bot, since, next)
  {
    forall s: nat | since < s < next
      ensures (bot, s) in t.db.log
    {
      var from := if since == 0 then 1 else lowest.value;
      assert (bot, from) in t.db.log;
      RetainedUpward(t.db, bot, from, s);
    }
  }

  lemma {:induction false} RunOfRun(t: Trace, ops: seq<Op>, more: seq<Op>)
    ensures Run(t, ops + more) == Run(Run(t, ops), more)
    decreases more
  {
    if more == [] {
      assert ops + more == ops;
    } else {
      assert Init(ops + more) == ops + Init(more);
      RunOfRun(t, ops, Init(more));
    }
  }

  lemma HonestIff(t: Trace, second: Trace, third: Trace, bot: Id, since: nat, lowest: Option<nat>, expired: bool)
    requires Sane(t) && Sane(second) && GoesOn(t, second) && GoesOn(t, third) && IsLowest(third.db.log, bot, lowest)
    ensures var next := Next(second.db.botSeq, bot);
            var all := AsksForAll(since, next - 1, lowest, expired);
            (all || Complete(t.db.log, bot, since, next)) <==>
              !Blind(t.db, bot, since) && (all || next == Next(t.db.botSeq, bot) || next <= since + 1)
  {
    var next := Next(second.db.botSeq, bot);
    if !AsksForAll(since, next - 1, lowest, expired) {
      if !Blind(t.db, bot, since) && next == Next(t.db.botSeq, bot) {
        UndisturbedIsComplete(t, third, bot, since, next, lowest);
      }
      if Next(t.db.botSeq, bot) < next && since + 1 < next {
        assert since < next - 1 && (bot, next - 1) !in t.db.log;
      }
    }
  }

  /**
   A reply is honest, either listing every event up to the number it ends with or asking for a full fetch,
   exactly when the poll is not blind and no event after since was logged between the reading of the
   events and the reading of the highest number (unless it asks for a full fetch anyway). Whatever is
   written before the two other reads does no harm.
   */
  lemma SyncIsHonestIff(t: Trace, gap: seq<Op>, before: seq<Op>, after: seq<Op>, bot: Id, since: nat,
                        lowest: Option<nat>, now: int, second: Trace, third: Trace, last: Trace)
    requires Sane(t) && second == Run(t, gap) && third == Run(second, before) && last == Run(third, after)
    requires IsLowest(third.db.log, bot, lowest)
    ensures var next := Next(second.db.botSeq, bot);
            var all := AsksForAll(since, next - 1, lowest, Expired(last.db.log, bot, since, now));
            (all || Complete(t.db.log, bot, since, next)) <==>
              !Blind(t.db, bot, since) && (all || next == Next(t.db.botSeq, bot) || next <= since + 1)
  {
    RunGoesOn(t, gap);
    RunGoesOn(t, gap + before);
    RunOfRun(t, gap, before);
    HonestIff(t, second, third, bot, since, lowest, Expired(last.db.log, bot, since, now));
  }

  /** A bot whose number is not beyond the last asks for too much exactly when that event has gone, or is about to. */
  lemma AsksForAllIff(t: Trace, bot: Id, since: nat, lowest: Option<nat>, expired: bool)
    requires Sane(t) && IsLowest(t.db.log, bot, lowest) && since < Next(t.db.botSeq, bot)
    ensures AsksForAll(since, Next(t.db.botSeq, bot) - 1, lowest, expired) <==>
              since != 0 && ((bot, since) !in t.db.log || expired)
  {
    if lowest.Some? && lowest.value <= since {
      RetainedUpward(t.db, bot, lowest.value, since);
    }
  }
}
