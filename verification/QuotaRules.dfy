/**
 The limits of the extension proxy spelled out counter by counter: requests per minute and hour, bytes per
 hour and day, of each extension and of all together.
 */
module QuotaRules {
  import opened Prelude
  import opened ProxyQuota
  import opened QuotaLedger
  import opened TimeWindows

  /** What a user has used since start, through one extension or, without one, through all. */
  function Used(table: Table, meter: Meter, user: Id, ext: Option<Id>, unit: Unit, start: int): nat {
    Get(table, Row(meter, user, ext, unit, start))
  }

  /** Whole seconds from a moment to a later second, rounded down, but at least 1. */
  function Until(now: Instant, end: int): int {
    var left := end - now.second - (if now.nanos > 0 then 1 else 0);
    if left < 1 then 1 else left
  }

  lemma WindowsStart(second: int)
    ensures Floor(Minute, second) == second - second % 60
    ensures Floor(Hour, second) == second - second % 3_600
    ensures Floor(Day, second) == second - second % 86_400
  {
  }

  /** A request is refused exactly when one of four counters would pass its own limit. */
  lemma RequestIsRefusedIff(table: Table, config: Config, user: Id, ext: Id, amount: nat, now: Instant)
    ensures var minute, hour := now.second - now.second % 60, now.second - now.second % 3_600;
            Charge(table, config, Requests, user, ext, amount, now).reply.Refused? <==>
              || Used(table, Requests, user, Some(ext), Minute, minute) + amount > config.requests.fine
              || Used(table, Requests, user, Some(ext), Hour, hour) + amount > config.requests.coarse
              || Used(table, Requests, user, None, Minute, minute) + amount > config.requests.fineTotal
              || Used(table, Requests, user, None, Hour, hour) + amount > config.requests.coarseTotal
  {
    FourWindows(table, config, Requests, user, ext, amount, now);
  }

  lemma BytesAreRefusedIff(table: Table, config: Config, user: Id, ext: Id, amount: nat, now: Instant)
    ensures var hour, day := now.second - now.second % 3_600, now.second - now.second % 86_400;
            Charge(table, config, Bytes, user, ext, amount, now).reply.Refused? <==>
              || Used(table, Bytes, user, Some(ext), Hour, hour) + amount > config.bytes.fine
              || Used(table, Bytes, user, Some(ext), Day, day) + amount > config.bytes.coarse
              || Used(table, Bytes, user, None, Hour, hour) + amount > config.bytes.fineTotal
              || Used(table, Bytes, user, None, Day, day) + amount > config.bytes.coarseTotal
  {
    FourWindows(table, config, Bytes, user, ext, amount, now);
  }

  lemma FourWindows(table: Table, config: Config, meter: Meter, user: Id, ext: Id, amount: nat, now: Instant)
    ensures var windows := Windows(config, meter, user, ext, now);
            Charge(table, config, meter, user, ext, amount, now).reply.Refused? <==>
              || Violated(table, windows[0], amount) || Violated(table, windows[1], amount)
              || Violated(table, windows[2], amount) || Violated(table, windows[3], amount)
  {
    LongestWaitIsMaximum(table, Windows(config, meter, user, ext, now), amount, now);
  }

  /** The four counters of a request. */
  predicate IsCharged(row: Row, meter: Meter, user: Id, ext: Id, second: int) {
    && row.meter == meter && row.user == user && (row.ext.None? || row.ext == Some(ext))
    && match row.unit
       case Minute => meter.Requests? && row.start == second - second % 60
       case Hour => row.start == second - second % 3_600
       case Day => meter.Bytes? && row.start == second - second % 86_400
  }

  /** An accepted request moves its four counters by its amount, and nothing else moves; a refused one moves nothing. */
  lemma ChargeMoves(table: Table, config: Config, meter: Meter, user: Id, ext: Id, amount: nat, now: Instant, row: Row)
    ensures var out := Charge(table, config, meter, user, ext, amount, now);
            && (out.reply.Refused? ==> out.table == table && out.reply.error.meter == meter)
            && (out.reply.Accepted? ==>
                  Get(out.table, row) ==
                    Get(table, row) + (if IsCharged(row, meter, user, ext, now.second) then amount else 0))
  {
    var windows := Windows(config, meter, user, ext, now);
    if Charge(table, config, meter, user, ext, amount, now).reply.Accepted? {
      BumpAllIs(table, windows, amount, row);
      if IsCharged(row, meter, user, ext, now.second) {
        assert row == windows[0].row || row == windows[1].row || row == windows[2].row || row == windows[3].row;
      }
    }
  }

  /** The wait that a refusal names is the longest until a window ends that would be overdrawn. */
  lemma RefusalNamesLongestWait(table: Table, config: Config, meter: Meter, user: Id, ext: Id, amount: nat,
                                now: Instant)
    requires Charge(table, config, meter, user, ext, amount, now).reply.Refused?
    ensures var wait, l := Charge(table, config, meter, user, ext, amount, now).reply.error.retryAfter,
                           if meter.Requests? then config.requests else config.bytes;
            var short, long := if meter.Requests? then Minute else Hour, if meter.Requests? then Hour else Day;
            var shortStart, longStart := Floor(short, now.second), Floor(long, now.second);
            var a := Used(table, meter, user, Some(ext), short, shortStart) + amount > l.fine
                     || Used(table, meter, user, None, short, shortStart) + amount > l.fineTotal;
            var b := Used(table, meter, user, Some(ext), long, longStart) + amount > l.coarse
                     || Used(table, meter, user, None, long, longStart) + amount > l.coarseTotal;
            wait == if b then Until(now, longStart + Span(long)) else Until(now, shortStart + Span(short))
  {
    var windows := Windows(config, meter, user, ext, now);
    var wait := LongestWait(table, windows, amount, now).value;
    LongestWaitIsMaximum(table, windows, amount, now);
    ShortEndsFirst(if meter.Requests? then Minute else Hour, if meter.Requests? then Hour else Day, now.second);
    assert windows[0] in windows && windows[1] in windows && windows[2] in windows && windows[3] in windows;
    var w :| w in windows && Violated(table, w, amount) && Wait(w, now) == wait;
    assert w == windows[0] || w == windows[1] || w == windows[2] || w == windows[3];
    assert Wait(windows[0], now) == Wait(windows[2], now) <= Wait(windows[1], now) == Wait(windows[3], now);
  }

  /** A minute ends no later than its hour, an hour no later than its day. */
  lemma ShortEndsFirst(short: Unit, long: Unit, second: int)
    requires (short == Minute && long == Hour) || (short == Hour && long == Day)
    ensures Floor(short, second) + Span(short) <= Floor(long, second) + Span(long)
  {
    if short == Minute {
      var a, c := second / 60, second / 3_600;
      assert Floor(Minute, second) == 60 * a <= second && Floor(Hour, second) == 3_600 * c;
      assert second < 3_600 * c + 3_600;
      assert a < 60 * c + 60;
    } else {
      var a, c := second / 3_600, second / 86_400;
      assert Floor(Hour, second) == 3_600 * a <= second && Floor(Day, second) == 86_400 * c;
      assert second < 86_400 * c + 86_400;
      assert a < 24 * c + 24;
    }
  }

  /** Over every run no counter passes the limit of its kind. */
  lemma CountersStayWithin(second: int, config: Config, ops: seq<Op>, user: Id, ext: Id, start: int)
    ensures var table := Run(Start(second), config, ops).table;
            && Used(table, Requests, user, Some(ext), Minute, start) <= config.requests.fine
            && Used(table, Requests, user, Some(ext), Hour, start) <= config.requests.coarse
            && Used(table, Requests, user, None, Minute, start) <= config.requests.fineTotal
            && Used(table, Requests, user, None, Hour, start) <= config.requests.coarseTotal
            && Used(table, Bytes, user, Some(ext), Hour, start) <= config.bytes.fine
            && Used(table, Bytes, user, Some(ext), Day, start) <= config.bytes.coarse
            && Used(table, Bytes, user, None, Hour, start) <= config.bytes.fineTotal
            && Used(table, Bytes, user, None, Day, start) <= config.bytes.coarseTotal
  {
    RunIsSane(second, config, ops);
  }

  lemma Flat(f: string, u: string, s: string, t: string, b: string)
    ensures f + ":" + (u + ":" + (s + (t + ":" + b))) == f + ":" + u + ":" + s + t + ":" + b
  {
    assert u + ":" + (s + (t + ":" + b)) == u + ":" + s + t + ":" + b;
  }

  /** How the keys of the counters are written. */
  lemma KeyTextIs(row: Row, bound: string)
    ensures var family := if row.meter.Requests? then "extension_proxy" else "extension_proxy_bw";
            var scope := if row.ext.Some? then row.ext.value + ":" else "";
            var unit := if row.unit == Minute then "min" else if row.unit == Hour then "hour" else "day";
            KeyText(row, bound) ==
              (if row.ext.Some? then family else family + "_total") + ":" + row.user + ":" + scope + unit + ":" + bound
  {
    Flat(Family(row), row.user, Scope(row), UnitText(row.unit), bound);
    assert "extension_proxy" + "_total" == "extension_proxy_total";
    assert "extension_proxy_bw" + "_total" == "extension_proxy_bw_total";
  }
}
