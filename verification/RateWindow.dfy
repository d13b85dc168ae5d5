/** Fixed-window rate limits: every check counts, and the first limit checks of a window are allowed. */
module RateWindow {
  import opened Prelude
  import opened TimeWindows

  /** A key text; its tag names the unit of its window. */
  datatype Key = Key(name: string, unit: Unit)

  type Counters = map<(Key, int), nat>

  datatype Decision = Decision(allowed: bool, remaining: nat, resetAt: int)

  function Count(counters: Counters, key: Key, start: int): nat {
    if (key, start) in counters then counters[(key, start)] else 0
  }

  function Increment(counters: Counters, key: Key, second: int): Counters {
    var start := Floor(key.unit, second);
    counters[(key, start) := Count(counters, key, start) + 1]
  }

  function Decide(counters: Counters, key: Key, limit: nat, second: int): Decision {
    var start := Floor(key.unit, second);
    var count := Count(counters, key, start) + 1;
    Decision(count <= limit, if count <= limit then limit - count else 0, start + Span(key.unit))
  }

  class RateLimiter {
    var counters: Counters

    constructor ()
      ensures counters == map[]
    {
      counters := map[];
    }

    method Check(key: Key, limit: nat, second: int) returns (d: Decision)
      modifies this
      ensures counters == Increment(old(counters), key, second) && d == Decide(old(counters), key, limit, second)
    {
      var start := Floor(key.unit, second);
      var reset := start + Span(key.unit);
      if (key, start) in counters {
        counters := counters[(key, start) := counters[(key, start)] + 1];
      } else {
        counters := counters[(key, start) := 1];
      }
      var count := counters[(key, start)];
      var allowed := count <= limit;
      var remaining := 0;
      if allowed {
        remaining := limit - count;
      }
      return Decision(allowed, remaining, reset);
    }
  }

  // ---- Runs ----

  datatype Check = Check(key: Key, second: int, allowed: bool)

  datatype Op = DoCheck(key: Key, second: int) | DoCleanUp(second: int, cutoff: int)

  datatype Trace = Trace(counters: Counters, log: seq<Check>, clock: int, horizon: int)

  predicate Possible(t: Trace, op: Op) {
    op.second >= t.clock && (op.DoCleanUp? ==> op.cutoff <= op.second - Span(Day))
  }

  function Surviving(counters: Counters, cutoff: int): Counters {
    map c | c in counters && c.1 >= cutoff :: counters[c]
  }

  function Step(t: Trace, limits: Key -> nat, op: Op): Trace {
    if !Possible(t, op) then t
    else
      match op
      case DoCheck(key, second) =>
        Trace(Increment(t.counters, key, second),
              t.log + [Check(key, second, Decide(t.counters, key, limits(key), second).allowed)], second, t.horizon)
      case DoCleanUp(second, cutoff) => Trace(Surviving(t.counters, cutoff), t.log, second, Max(t.horizon, cutoff))
  }

  function Start(second: int): Trace {
    Trace(map[], [], second, second - Span(Day))
  }

  function Run(t: Trace, limits: Key -> nat, ops: seq<Op>): Trace {
    if ops == [] then t else Step(Run(t, limits, Init(ops)), limits, Last(ops))
  }

  // ---- What is allowed ----

  /** Checks of the key in a window. */
  function Attempts(log: seq<Check>, key: Key, start: int): nat {
    if log == [] then 0
    else
      Attempts(Init(log), key, start)
      + if Last(log).key == key && Floor(key.unit, Last(log).second) == start then 1 else 0
  }

  function Allowed(log: seq<Check>, key: Key, start: int): nat {
    if log == [] then 0
    else
      Allowed(Init(log), key, start)
      + if Last(log).allowed && Last(log).key == key && Floor(key.unit, Last(log).second) == start then 1 else 0
  }

  function Min(a: nat, b: nat): nat {
    if a < b then a else b
  }

  ghost predicate Sane(t: Trace, limits: Key -> nat) {
    && t.horizon <= t.clock - Span(Day)
    && (forall key, start :: start >= t.horizon ==> Count(t.counters, key, start) == Attempts(t.log, key, start))
    && forall key, start :: Allowed(t.log, key, start) == Min(limits(key), Attempts(t.log, key, start))
  }

  lemma CheckKeepsSane(t: Trace, limits: Key -> nat, key: Key, second: int)
    requires Sane(t, limits) && second >= t.clock
    ensures Sane(Step(t, limits, DoCheck(key, second)), limits)
  {
    var next := Step(t, limits, DoCheck(key, second));
    assert Init(next.log) == t.log;
    assert Floor(key.unit, second) >= t.horizon;
    forall k, start | start >= t.horizon
      ensures Count(next.counters, k, start) == Attempts(next.log, k, start)
    {
      assert Count(t.counters, k, start) == Attempts(t.log, k, start);
    }
    forall k, start
      ensures Allowed(next.log, k, start) == Min(limits(k), Attempts(next.log, k, start))
    {
      assert Allowed(t.log, k, start) == Min(limits(k), Attempts(t.log, k, start));
      assert start >= t.horizon ==> Count(t.counters, k, start) == Attempts(t.log, k, start);
    }
  }

  /** In every window the checks that are allowed are the first ones, as many as the limit or as there are. */
  lemma {:induction false} FirstChecksAreAllowed(second: int, limits: Key -> nat, ops: seq<Op>)
    ensures Sane(Run(Start(second), limits, ops), limits)
  {
    if ops != [] {
      FirstChecksAreAllowed(second, limits, Init(ops));
      var t, op := Run(Start(second), limits, Init(ops)), Last(ops);
      if Possible(t, op) {
        match op
        case DoCheck(key, at) => CheckKeepsSane(t, limits, key, at);
        case DoCleanUp(_, _) =>
      }
    }
  }

  /** A check says truly how many more the window allows, and the next one is allowed exactly when some are left. */
  lemma RemainingIsExact(t: Trace, limits: Key -> nat, key: Key, second: int, later: int)
    requires Sane(t, limits) && second >= t.clock
    requires later < Decide(t.counters, key, limits(key), second).resetAt && later >= second
    ensures var next, d := Step(t, limits, DoCheck(key, second)), Decide(t.counters, key, limits(key), second);
            && d.remaining == limits(key) - Allowed(next.log, key, Floor(key.unit, second))
            && (Decide(next.counters, key, limits(key), later).allowed <==> d.remaining > 0)
  {
    var next, start := Step(t, limits, DoCheck(key, second)), Floor(key.unit, second);
    CheckKeepsSane(t, limits, key, second);
    assert Allowed(next.log, key, start) == Min(limits(key), Attempts(next.log, key, start));
    assert Count(next.counters, key, start) == Attempts(next.log, key, start);
    SameWindow(key.unit, second, later);
  }

  function AllowedBetween(log: seq<Check>, key: Key, from: int, to: int): nat {
    if log == [] then 0
    else
      AllowedBetween(Init(log), key, from, to)
      + if Last(log).allowed && Last(log).key == key && from <= Last(log).second <= to then 1 else 0
  }

  lemma {:induction false} SpanMeetsTwoWindows(log: seq<Check>, key: Key, from: int)
    ensures var start := Floor(key.unit, from);
            AllowedBetween(log, key, from, from + Span(key.unit))
            <= Allowed(log, key, start) + Allowed(log, key, start + Span(key.unit))
  {
    if log != [] {
      SpanMeetsTwoWindows(Init(log), key, from);
      var start := Floor(key.unit, from);
      FloorIsAligned(key.unit, from);
      FloorIs(key.unit, Last(log).second, start / Span(key.unit));
      FloorIs(key.unit, Last(log).second, start / Span(key.unit) + 1);
      assert start <= from < start + Span(key.unit);
    }
  }

  /** No stretch of time as long as one window lets through more than twice the limit. */
  lemma AtMostTwiceTheLimit(second: int, limits: Key -> nat, ops: seq<Op>, key: Key, from: int, to: int)
    requires to <= from + Span(key.unit)
    ensures AllowedBetween(Run(Start(second), limits, ops).log, key, from, to) <= 2 * limits(key)
  {
    var t, start := Run(Start(second), limits, ops), Floor(key.unit, from);
    FirstChecksAreAllowed(second, limits, ops);
    SpanMeetsTwoWindows(t.log, key, from);
    ShorterSpanAllowsLess(t.log, key, from, to, from + Span(key.unit));
    assert Allowed(t.log, key, start) <= limits(key) && Allowed(t.log, key, start + Span(key.unit)) <= limits(key);
  }

  lemma {:induction false} ShorterSpanAllowsLess(log: seq<Check>, key: Key, from: int, to: int, later: int)
    requires to <= later
    ensures AllowedBetween(log, key, from, to) <= AllowedBetween(log, key, from, later)
  {
    if log != [] {
      ShorterSpanAllowsLess(Init(log), key, from, to, later);
    }
  }

  // ---- The bound is reached ----

  function Burst(key: Key, second: int, n: nat): seq<Op> {
    if n == 0 then [] else Burst(key, second, n - 1) + [DoCheck(key, second)]
  }

  lemma {:induction false} RunAppends(t: Trace, limits: Key -> nat, ops: seq<Op>, more: seq<Op>)
    ensures Run(t, limits, ops + more) == Run(Run(t, limits, ops), limits, more)
  {
    if more == [] {
      assert ops + more == ops;
    } else {
      RunAppends(t, limits, ops, Init(more));
      assert Init(ops + more) == ops + Init(more);
    }
  }

  /** What a check does to the counts while its window has room. */
  lemma CheckWithRoom(t: Trace, limits: Key -> nat, key: Key, second: int, from: int)
    requires Sane(t, limits) && from <= second && second >= t.clock
    requires Attempts(t.log, key, Floor(key.unit, second)) < limits(key)
    ensures var next := Step(t, limits, DoCheck(key, second));
            && Sane(next, limits) && next.clock == second
            && AllowedBetween(next.log, key, from, second) == AllowedBetween(t.log, key, from, second) + 1
            && forall start :: Attempts(next.log, key, start)
                            == Attempts(t.log, key, start) + if start == Floor(key.unit, second) then 1 else 0
  {
    CheckKeepsSane(t, limits, key, second);
    var next := Step(t, limits, DoCheck(key, second));
    assert Count(t.counters, key, Floor(key.unit, second)) == Attempts(t.log, key, Floor(key.unit, second));
    assert Init(next.log) == t.log;
  }

  lemma {:induction false} BurstIsAllowed(t: Trace, limits: Key -> nat, key: Key, second: int, n: nat, from: int)
    requires Sane(t, limits) && from <= second && second >= t.clock && n <= limits(key)
    requires Attempts(t.log, key, Floor(key.unit, second)) == 0
    ensures var next := Run(t, limits, Burst(key, second, n));
            && Sane(next, limits) && next.clock <= second
            && AllowedBetween(next.log, key, from, second) == AllowedBetween(t.log, key, from, second) + n
            && forall start :: Attempts(next.log, key, start)
                            == Attempts(t.log, key, start) + if start == Floor(key.unit, second) then n else 0
    decreases n
  {
    if n > 0 {
      BurstIsAllowed(t, limits, key, second, n - 1, from);
      assert Init(Burst(key, second, n)) == Burst(key, second, n - 1);
      CheckWithRoom(Run(t, limits, Burst(key, second, n - 1)), limits, key, second, from);
    }
  }

  /** Twice the limit can pass within two neighbouring seconds: as many as allowed before a window ends and after. */
  lemma TwiceTheLimitIsReached(limits: Key -> nat, key: Key)
    ensures var n, edge := limits(key), Span(key.unit);
            var end := Run(Start(0), limits, Burst(key, edge - 1, n) + Burst(key, edge, n));
            AllowedBetween(end.log, key, edge - 1, edge) == 2 * n
  {
    var n, edge := limits(key), Span(key.unit);
    FloorIs(key.unit, edge - 1, 0);
    FloorIs(key.unit, edge, 1);
    BurstIsAllowed(Start(0), limits, key, edge - 1, n, edge - 1);
    var t := Run(Start(0), limits, Burst(key, edge - 1, n));
    assert Attempts(t.log, key, edge) == Attempts(Start(0).log, key, edge);
    BurstIsAllowed(t, limits, key, edge, n, edge - 1);
    RunAppends(Start(0), limits, Burst(key, edge - 1, n), Burst(key, edge, n));
    AllAtOneSecond(Start(0), limits, key, edge - 1, n);
  }

  /** Widening the span past the burst counts nothing new. */
  lemma {:induction false} AllAtOneSecond(t: Trace, limits: Key -> nat, key: Key, second: int, n: nat)
    requires t.log == []
    ensures var log := Run(t, limits, Burst(key, second, n)).log;
            AllowedBetween(log, key, second, second + 1) == AllowedBetween(log, key, second, second)
    decreases n
  {
    if n > 0 {
      AllAtOneSecond(t, limits, key, second, n - 1);
      assert Init(Burst(key, second, n)) == Burst(key, second, n - 1);
      var before := Run(t, limits, Burst(key, second, n - 1));
      var check := Check(key, second, Decide(before.counters, key, limits(key), second).allowed);
      assert Init(before.log + [check]) == before.log;
    }
  }

  /** The reset that a check names is the first second of the next window: until then all share one counter. */
  lemma ResetIsExact(counters: Counters, key: Key, limit: nat, second: int, later: int)
    requires second <= later
    ensures later < Decide(counters, key, limit, second).resetAt <==> Floor(key.unit, later) == Floor(key.unit, second)
  {
    var start := Floor(key.unit, second);
    FloorIsAligned(key.unit, second);
    FloorIs(key.unit, later, start / Span(key.unit));
    assert start <= second;
  }
}
