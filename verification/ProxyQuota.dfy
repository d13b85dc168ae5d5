/**
 The counters that limit how much an extension may ask of the server on a user's behalf: requests per
 minute and hour, bytes per hour and day, each per extension and in total.
 */
module ProxyQuota {
  import opened Prelude
  import opened TimeWindows

  type Id = string

  datatype Meter = Requests | Bytes

  /** A moment, whose nanos are below 1_000_000_000. Windows start and end on whole seconds. */
  datatype Instant = Instant(second: int, nanos: nat)

  function Fine(meter: Meter): Unit {
    if meter.Requests? then Minute else Hour
  }

  function Coarse(meter: Meter): Unit {
    if meter.Requests? then Hour else Day
  }

  /** How many fine windows a coarse one has. */
  function Parts(meter: Meter): nat {
    if meter.Requests? then 60 else 24
  }

  /** The key of a counter; without an extension it counts over all of them. */
  datatype Row = Row(meter: Meter, user: Id, ext: Option<Id>, unit: Unit, start: int)

  type Table = map<Row, nat>

  datatype Limits = Limits(fine: nat, coarse: nat, fineTotal: nat, coarseTotal: nat)

  datatype Config = Config(requests: Limits, bytes: Limits)

  datatype Window = Window(row: Row, reset: int, limit: nat)

  datatype Error = LimitReached(meter: Meter, retryAfter: int)

  datatype Reply = Accepted | Refused(error: Error)

  datatype Outcome = Outcome(table: Table, reply: Reply)

  // ---- One request ----

  function LimitsOf(config: Config, meter: Meter): Limits {
    if meter.Requests? then config.requests else config.bytes
  }

  function LimitOf(config: Config, row: Row): nat {
    var l := LimitsOf(config, row.meter);
    if row.unit == Fine(row.meter) then if row.ext.Some? then l.fine else l.fineTotal
    else if row.ext.Some? then l.coarse
    else l.coarseTotal
  }

  function WindowAt(config: Config, meter: Meter, user: Id, ext: Option<Id>, unit: Unit, now: Instant): Window {
    var row := Row(meter, user, ext, unit, Floor(unit, now.second));
    Window(row, row.start + Span(unit), LimitOf(config, row))
  }

  /** The four windows that one request counts in. */
  function Windows(config: Config, meter: Meter, user: Id, ext: Id, now: Instant): seq<Window> {
    [WindowAt(config, meter, user, Some(ext), Fine(meter), now),
     WindowAt(config, meter, user, Some(ext), Coarse(meter), now),
     WindowAt(config, meter, user, None, Fine(meter), now),
     WindowAt(config, meter, user, None, Coarse(meter), now)]
  }

  function Get(table: Table, row: Row): nat {
    if row in table then table[row] else 0
  }

  function Bump(table: Table, row: Row, amount: nat): Table {
    table[row := Get(table, row) + amount]
  }

  function BumpAll(table: Table, windows: seq<Window>, amount: nat): Table {
    if windows == [] then table else Bump(BumpAll(table, Init(windows), amount), Last(windows).row, amount)
  }

  predicate Violated(table: Table, w: Window, amount: nat) {
    Get(table, w.row) + amount > w.limit
  }

  /** Whole seconds until the window ends, rounded down. */
  function Left(w: Window, now: Instant): int {
    w.reset - now.second - if now.nanos == 0 then 0 else 1
  }

  function Wait(w: Window, now: Instant): int {
    Max(Left(w, now), 1)
  }

  /** The window has ended when this many seconds have passed. */
  predicate EndsWithin(w: Window, now: Instant, seconds: int) {
    now.second + seconds >= w.reset
  }

  /** The longest wait among the violated windows, if there is one. */
  function LongestWait(table: Table, windows: seq<Window>, amount: nat, now: Instant): Option<int> {
    if windows == [] then None
    else
      var w, longest := Last(windows), LongestWait(table, Init(windows), amount, now);
      if !Violated(table, w, amount) then longest
      else if longest.None? then Some(Wait(w, now))
      else Some(Max(longest.value, Wait(w, now)))
  }

  /** check_rate_limits with an amount of 1, check_and_record_bandwidth with a number of bytes. */
  function Charge(table: Table, config: Config, meter: Meter, user: Id, ext: Id, amount: nat, now: Instant): Outcome {
    var windows := Windows(config, meter, user, ext, now);
    match LongestWait(table, windows, amount, now)
    case None => Outcome(BumpAll(table, windows, amount), Accepted)
    case Some(wait) => Outcome(table, Refused(LimitReached(meter, wait)))
  }

  /** The counters as the server updates them, one transaction per method. */
  class ProxyQuota {
    var rows: Table

    constructor ()
      ensures rows == map[]
    {
      rows := map[];
    }

    /** Inserts the counter or adds to it, and returns what it is now. */
    method Upsert(row: Row, amount: nat) returns (count: nat)
      modifies this
      ensures rows == Bump(old(rows), row, amount) && count == Get(old(rows), row) + amount
    {
      if row in rows {
        rows := rows[row := rows[row] + amount];
      } else {
        rows := rows[row := amount];
      }
      return rows[row];
    }

    method Check(config: Config, meter: Meter, user: Id, ext: Id, amount: nat, now: Instant) returns (reply: Reply)
      modifies this
      ensures Outcome(rows, reply) == Charge(old(rows), config, meter, user, ext, amount, now)
    {
      var windows := Windows(config, meter, user, ext, now);
      var begun, longest := rows, None;
      for i := 0 to |windows|
        invariant rows == BumpAll(begun, windows[..i], amount)
        invariant longest == LongestWait(begun, windows[..i], amount, now)
      {
        var w := windows[i];
        assert Init(windows[..i + 1]) == windows[..i];
        OthersUnchanged(begun, windows, i, amount);
        var count := Upsert(w.row, amount);
        if count > w.limit {
          var retry := Max(Left(w, now), 1);
          longest := Some(if longest.None? then retry else Max(longest.value, retry));
        }
      }
      assert windows[..|windows|] == windows;
      if longest.Some? {
        rows := begun;
        return Refused(LimitReached(meter, longest.value));
      }
      return Accepted;
    }

    /** DELETE FROM rate_limits WHERE window_start < cutoff */
    method CleanUp(cutoff: int)
      modifies this
      ensures rows == Surviving(old(rows), cutoff)
    {
      var gone := set r | r in rows && r.start < cutoff;
      rows := rows - gone;
    }
  }

  function Surviving(table: Table, cutoff: int): Table {
    map r | r in table && r.start >= cutoff :: table[r]
  }

  /** Windows that are all different do not see each other's increments. */
  lemma OthersUnchanged(table: Table, windows: seq<Window>, i: nat, amount: nat)
    requires i < |windows| && forall j, k :: 0 <= j < k < |windows| ==> windows[j].row != windows[k].row
    ensures Get(BumpAll(table, windows[..i], amount), windows[i].row) == Get(table, windows[i].row)
  {
    BumpAllIs(table, windows[..i], amount, windows[i].row);
  }

  lemma {:induction false} BumpAllIs(table: Table, windows: seq<Window>, amount: nat, row: Row)
    requires forall j, k :: 0 <= j < k < |windows| ==> windows[j].row != windows[k].row
    ensures var next := BumpAll(table, windows, amount);
            if exists k :: 0 <= k < |windows| && windows[k].row == row
            then row in next && next[row] == Get(table, row) + amount
            else (row in next <==> row in table) && Get(next, row) == Get(table, row)
  {
    if windows != [] {
      BumpAllIs(table, Init(windows), amount, row);
      assert windows == Init(windows) + [Last(windows)];
      if Last(windows).row == row {
        assert windows[|windows| - 1].row == row;
      } else if k :| 0 <= k < |windows| && windows[k].row == row {
        assert Init(windows)[k].row == row;
      }
    }
  }

  lemma {:induction false} LongestWaitIsMaximum(table: Table, windows: seq<Window>, amount: nat, now: Instant)
    ensures var longest := LongestWait(table, windows, amount, now);
            && (longest.None? <==> forall w :: w in windows ==> !Violated(table, w, amount))
            && (longest.Some? ==>
                  exists w :: w in windows && Violated(table, w, amount) && Wait(w, now) == longest.value)
            && (longest.Some? ==>
                  forall w :: w in windows && Violated(table, w, amount) ==> Wait(w, now) <= longest.value)
  {
    if windows != [] {
      LongestWaitIsMaximum(table, Init(windows), amount, now);
      assert windows == Init(windows) + [Last(windows)];
      var before := LongestWait(table, Init(windows), amount, now);
      if before.Some? {
        var w :| w in Init(windows) && Violated(table, w, amount) && Wait(w, now) == before.value;
        assert w in windows;
      }
      assert Last(windows) in windows;
    }
  }

  /**
   A request is refused exactly when one of its four counters would pass its limit. A refusal changes no
   counter and names the longest wait among the counters that would; otherwise all four move together.
   */
  lemma ChargeIsAllOrNothing(table: Table, config: Config, meter: Meter, user: Id, ext: Id, amount: nat, now: Instant)
    ensures var out := Charge(table, config, meter, user, ext, amount, now);
            var windows := Windows(config, meter, user, ext, now);
            && (out.reply.Refused? <==> exists w :: w in windows && Violated(table, w, amount))
            && (out.reply.Refused? ==>
                  && out.table == table
                  && (exists w ::
                        w in windows && Violated(table, w, amount) && Wait(w, now) == out.reply.error.retryAfter)
                  && forall w :: w in windows && Violated(table, w, amount) ==>
                        Wait(w, now) <= out.reply.error.retryAfter)
            && (out.reply.Accepted? ==>
                  forall row :: Get(out.table, row) ==
                    Get(table, row) + if exists w :: w in windows && w.row == row then amount else 0)
  {
    var out, windows := Charge(table, config, meter, user, ext, amount, now), Windows(config, meter, user, ext, now);
    LongestWaitIsMaximum(table, windows, amount, now);
    if out.reply.Accepted? {
      forall row
        ensures Get(out.table, row) == Get(table, row) + if exists w :: w in windows && w.row == row then amount else 0
      {
        BumpAllIs(table, windows, amount, row);
        if k :| 0 <= k < |windows| && windows[k].row == row {
          assert windows[k] in windows;
        }
      }
    }
  }

  /**
   Waiting for as long as a refusal says is enough for every violated window to end exactly when the
   refusal came on a whole second or all of them end within a second: the wait is rounded down.
   */
  lemma WaitIsEnoughIff(table: Table, config: Config, meter: Meter, user: Id, ext: Id, amount: nat, now: Instant)
    requires Charge(table, config, meter, user, ext, amount, now).reply.Refused?
    ensures var windows, wait := Windows(config, meter, user, ext, now),
                                 Charge(table, config, meter, user, ext, amount, now).reply.error.retryAfter;
            (forall w :: w in windows && Violated(table, w, amount) ==> EndsWithin(w, now, wait))
            <==> now.nanos == 0
                 || forall w :: w in windows && Violated(table, w, amount) ==> EndsWithin(w, now, 1)
  {
    var windows := Windows(config, meter, user, ext, now);
    LongestWaitIsMaximum(table, windows, amount, now);
    var wait := LongestWait(table, windows, amount, now).value;
    var longest :| longest in windows && Violated(table, longest, amount) && Wait(longest, now) == wait;
    if w :| w in windows && Violated(table, w, amount) && !EndsWithin(w, now, 1) {
      assert now.nanos > 0 ==> !EndsWithin(if Wait(w, now) == wait then w else longest, now, wait);
    }
  }

  /** One second more is always enough. */
  lemma OneSecondMoreIsEnough(table: Table, config: Config, meter: Meter, user: Id, ext: Id, amount: nat, now: Instant)
    requires Charge(table, config, meter, user, ext, amount, now).reply.Refused?
    ensures forall w :: w in Windows(config, meter, user, ext, now) && Violated(table, w, amount) ==>
              EndsWithin(w, now, Charge(table, config, meter, user, ext, amount, now).reply.error.retryAfter + 1)
  {
    LongestWaitIsMaximum(table, Windows(config, meter, user, ext, now), amount, now);
  }
}
