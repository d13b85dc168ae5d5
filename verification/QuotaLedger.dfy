/** What the quota counters add up to over any run of requests and cleanups, and how their keys are written. */
module QuotaLedger {
  import opened Prelude
  import opened ProxyQuota
  import opened TextSplit
  import opened TimeWindows

  // ---- Runs ----

  /** An accepted request. */
  datatype Event = Event(meter: Meter, user: Id, ext: Id, amount: nat, second: int)

  datatype Op =
    | Request(meter: Meter, user: Id, ext: Id, amount: nat, now: Instant)
    | CleanUp(second: int, cutoff: int)

  /** The table with the requests accepted so far, the clock, and the latest cutoff of a cleanup. */
  datatype Trace = Trace(table: Table, log: seq<Event>, clock: int, horizon: int)

  /** The clock does not go back; a cleanup looks back at least 24 hours. */
  predicate Possible(t: Trace, op: Op) {
    match op
    case Request(_, _, _, _, now) => now.second >= t.clock
    case CleanUp(second, cutoff) => second >= t.clock && cutoff <= second - Span(Day)
  }

  function Step(t: Trace, config: Config, op: Op): Trace {
    if !Possible(t, op) then t
    else
      match op
      case Request(meter, user, ext, amount, now) =>
        var out := Charge(t.table, config, meter, user, ext, amount, now);
        Trace(out.table,
              if out.reply.Accepted? then t.log + [Event(meter, user, ext, amount, now.second)] else t.log,
              now.second, t.horizon)
      case CleanUp(second, cutoff) => Trace(Surviving(t.table, cutoff), t.log, second, Max(t.horizon, cutoff))
  }

  function Start(second: int): Trace {
    Trace(map[], [], second, second - Span(Day))
  }

  function Run(t: Trace, config: Config, ops: seq<Op>): Trace {
    if ops == [] then t else Step(Run(t, config, Init(ops)), config, Last(ops))
  }

  // ---- Counters against the log ----

  predicate Counts(row: Row, e: Event) {
    && row.meter == e.meter && row.user == e.user
    && (row.ext.None? || row.ext == Some(e.ext))
    && row.start == Floor(row.unit, e.second)
  }

  function Tally(log: seq<Event>, row: Row): nat {
    if log == [] then 0
    else Tally(Init(log), row) + if Counts(row, Last(log)) then Last(log).amount else 0
  }

  predicate Stored(row: Row) {
    row.unit == Fine(row.meter) || row.unit == Coarse(row.meter)
  }

  /** A counter of a window that no cleanup has reached counts exactly the accepted requests of the window. */
  ghost predicate Reconciled(t: Trace) {
    forall row :: Stored(row) && row.start >= t.horizon ==> Get(t.table, row) == Tally(t.log, row)
  }

  ghost predicate Bounded(table: Table, config: Config) {
    forall row :: row in table ==> table[row] <= LimitOf(config, row)
  }

  ghost predicate Sane(t: Trace, config: Config) {
    && t.horizon <= t.clock - Span(Day)
    && (forall row :: row in t.table ==> Stored(row) && row.start >= t.horizon)
    && Reconciled(t)
    && Bounded(t.table, config)
  }

  lemma TallySnoc(log: seq<Event>, e: Event, row: Row)
    ensures Tally(log + [e], row) == Tally(log, row) + if Counts(row, e) then e.amount else 0
  {
    assert Init(log + [e]) == log;
  }

  /** The four windows of a request are the counters that count it. */
  lemma WindowsAreCounters(config: Config, meter: Meter, user: Id, ext: Id, amount: nat, now: Instant, row: Row)
    requires Stored(row)
    ensures (exists w :: w in Windows(config, meter, user, ext, now) && w.row == row)
            <==> Counts(row, Event(meter, user, ext, amount, now.second))
  {
    var windows := Windows(config, meter, user, ext, now);
    if Counts(row, Event(meter, user, ext, amount, now.second)) {
      assert row == windows[0].row || row == windows[1].row || row == windows[2].row || row == windows[3].row;
    }
  }

  /** An accepted request adds its amount to a counter exactly if the counter counts it. */
  lemma RequestMovesCounter(table: Table, config: Config, meter: Meter, user: Id, ext: Id, amount: nat,
        now: Instant, row: Row)
    requires Stored(row) && Charge(table, config, meter, user, ext, amount, now).reply.Accepted?
    ensures Get(Charge(table, config, meter, user, ext, amount, now).table, row) ==
            Get(table, row) + if Counts(row, Event(meter, user, ext, amount, now.second)) then amount else 0
  {
    var windows := Windows(config, meter, user, ext, now);
    WindowsAreCounters(config, meter, user, ext, amount, now, row);
    BumpAllIs(table, windows, amount, row);
    if k :| 0 <= k < |windows| && windows[k].row == row {
      assert windows[k] in windows;
    }
  }

  lemma RequestKeepsRow(t: Trace, config: Config, op: Op, row: Row)
    requires op.Request? && Stored(row) && Get(t.table, row) == Tally(t.log, row)
    ensures Get(Step(t, config, op).table, row) == Tally(Step(t, config, op).log, row)
  {
    if Possible(t, op) && Charge(t.table, config, op.meter, op.user, op.ext, op.amount, op.now).reply.Accepted? {
      RequestMovesCounter(t.table, config, op.meter, op.user, op.ext, op.amount, op.now, row);
      TallySnoc(t.log, Event(op.meter, op.user, op.ext, op.amount, op.now.second), row);
    }
  }

  lemma RequestKeepsReconciled(t: Trace, config: Config, op: Op)
    requires op.Request? && Reconciled(t)
    ensures Reconciled(Step(t, config, op))
  {
    forall row | Stored(row) && row.start >= t.horizon
      ensures Get(Step(t, config, op).table, row) == Tally(Step(t, config, op).log, row)
    {
      RequestKeepsRow(t, config, op, row);
    }
  }

  lemma AcceptedStaysBounded(t: Trace, config: Config, meter: Meter, user: Id, ext: Id, amount: nat, now: Instant)
    requires Bounded(t.table, config)
    ensures Bounded(Charge(t.table, config, meter, user, ext, amount, now).table, config)
  {
    var windows := Windows(config, meter, user, ext, now);
    LongestWaitIsMaximum(t.table, windows, amount, now);
    if LongestWait(t.table, windows, amount, now).None? {
      forall row | row in BumpAll(t.table, windows, amount)
        ensures BumpAll(t.table, windows, amount)[row] <= LimitOf(config, row)
      {
        BumpAllIs(t.table, windows, amount, row);
        if k :| 0 <= k < |windows| && windows[k].row == row {
          assert windows[k] in windows && !Violated(t.table, windows[k], amount);
        }
      }
    }
  }

  lemma NewRowsAreRecent(t: Trace, config: Config, op: Op, row: Row)
    requires op.Request? && Possible(t, op) && t.horizon <= t.clock - Span(Day)
    requires row in Step(t, config, op).table && row !in t.table
    ensures Stored(row) && row.start >= t.horizon
  {
    var windows := Windows(config, op.meter, op.user, op.ext, op.now);
    BumpAllIs(t.table, windows, op.amount, row);
    var k :| 0 <= k < |windows| && windows[k].row == row;
  }

  lemma StepKeepsSane(t: Trace, config: Config, op: Op)
    requires Sane(t, config)
    ensures Sane(Step(t, config, op), config)
  {
    if Possible(t, op) {
      match op
      case Request(meter, user, ext, amount, now) =>
        RequestKeepsReconciled(t, config, op);
        AcceptedStaysBounded(t, config, meter, user, ext, amount, now);
        forall row | row in Step(t, config, op).table && row !in t.table
          ensures Stored(row) && row.start >= t.horizon
        {
          NewRowsAreRecent(t, config, op, row);
        }
      case CleanUp(_, _) =>
    }
  }

  /** No counter ever passes its limit, and every counter is exact until a cleanup reaches its window. */
  lemma {:induction false} RunIsSane(second: int, config: Config, ops: seq<Op>)
    ensures Sane(Run(Start(second), config, ops), config)
  {
    if ops != [] {
      RunIsSane(second, config, Init(ops));
      StepKeepsSane(Run(Start(second), config, Init(ops)), config, Last(ops));
    }
  }

  // ---- Totals over extensions ----

  function SumOfExtensions(table: Table, row: Row, exts: seq<Id>): nat {
    if exts == [] then 0
    else SumOfExtensions(table, row, Init(exts)) + Get(table, row.(ext := Some(Last(exts))))
  }

  function TallyOfExtensions(log: seq<Event>, row: Row, exts: seq<Id>): nat {
    if exts == [] then 0
    else TallyOfExtensions(log, row, Init(exts)) + Tally(log, row.(ext := Some(Last(exts))))
  }

  predicate AllDifferent(exts: seq<Id>) {
    forall j, k :: 0 <= j < k < |exts| ==> exts[j] != exts[k]
  }

  lemma {:induction false} TallyOfExtensionsGrows(log: seq<Event>, row: Row, exts: seq<Id>)
    requires log != [] && row.ext.None? && AllDifferent(exts)
    ensures TallyOfExtensions(log, row, exts) == TallyOfExtensions(Init(log), row, exts)
              + if Counts(row, Last(log)) && Last(log).ext in exts then Last(log).amount else 0
  {
    if exts != [] {
      TallyOfExtensionsGrows(log, row, Init(exts));
      assert exts == Init(exts) + [Last(exts)];
    }
  }

  lemma {:induction false} TallyOfExtensionsIsTotal(log: seq<Event>, row: Row, exts: seq<Id>)
    requires row.ext.None? && AllDifferent(exts)
    requires forall e :: e in log && Counts(row, e) && e.amount > 0 ==> e.ext in exts
    ensures TallyOfExtensions(log, row, exts) == Tally(log, row)
  {
    if log == [] {
      NothingToTally(row, exts);
    } else {
      TallyOfExtensionsIsTotal(Init(log), row, exts);
      TallyOfExtensionsGrows(log, row, exts);
      assert Last(log) in log;
    }
  }

  lemma {:induction false} NothingToTally(row: Row, exts: seq<Id>)
    ensures TallyOfExtensions([], row, exts) == 0
  {
    if exts != [] {
      NothingToTally(row, Init(exts));
    }
  }

  lemma {:induction false} TallyHolds(log: seq<Event>, row: Row, e: Event)
    requires e in log && Counts(row, e)
    ensures Tally(log, row) >= e.amount
  {
    if e != Last(log) {
      TallyHolds(Init(log), row, e);
    }
  }

  lemma {:induction false} SumIsTally(t: Trace, row: Row, exts: seq<Id>)
    requires Reconciled(t) && Stored(row) && row.start >= t.horizon
    ensures SumOfExtensions(t.table, row, exts) == TallyOfExtensions(t.log, row, exts)
  {
    if exts != [] {
      SumIsTally(t, row, Init(exts));
    }
  }

  /** The total of a user in a window is the sum over the extensions that have a counter there. */
  lemma TotalIsSumOfExtensions(t: Trace, config: Config, row: Row, exts: seq<Id>)
    requires Sane(t, config) && row in t.table && row.ext.None? && AllDifferent(exts)
    requires forall x :: row.(ext := Some(x)) in t.table ==> x in exts
    ensures t.table[row] == SumOfExtensions(t.table, row, exts)
  {
    assert Get(t.table, row) == Tally(t.log, row);
    forall e | e in t.log && Counts(row, e) && e.amount > 0
      ensures e.ext in exts
    {
      var part := row.(ext := Some(e.ext));
      TallyHolds(t.log, part, e);
      assert Get(t.table, part) == Tally(t.log, part);
    }
    TallyOfExtensionsIsTotal(t.log, row, exts);
    SumIsTally(t, row, exts);
  }

  // ---- Coarse windows over fine ones ----

  /** The i-th fine window within a coarse one. */
  function Part(row: Row, i: nat): Row {
    row.(unit := Fine(row.meter), start := row.start + i * Span(Fine(row.meter)))
  }

  function SumOfParts(table: Table, row: Row, n: nat): nat {
    if n == 0 then 0 else SumOfParts(table, row, n - 1) + Get(table, Part(row, n - 1))
  }

  function TallyOfParts(log: seq<Event>, row: Row, n: nat): nat {
    if n == 0 then 0 else TallyOfParts(log, row, n - 1) + Tally(log, Part(row, n - 1))
  }

  /** A second lies in the first n fine windows that a coarse window is cut into. */
  predicate WithinParts(row: Row, n: nat, second: int) {
    row.start <= second < row.start + n * Span(Fine(row.meter))
  }

  lemma PartHolds(row: Row, k: int, i: nat, second: int)
    requires row.start == k * Span(Fine(row.meter))
    ensures Floor(Fine(row.meter), second) == Part(row, i).start
            <==> WithinParts(row, i + 1, second) && !WithinParts(row, i, second)
  {
    FloorIs(Fine(row.meter), second, k + i);
  }

  lemma {:induction false} TallyOfPartsGrows(log: seq<Event>, row: Row, k: int, n: nat)
    requires log != [] && row.start == k * Span(Fine(row.meter))
    ensures var e := Last(log);
            TallyOfParts(log, row, n) == TallyOfParts(Init(log), row, n)
              + if row.meter == e.meter && row.user == e.user && (row.ext.None? || row.ext == Some(e.ext))
                   && WithinParts(row, n, e.second) then e.amount else 0
    decreases n
  {
    if n > 0 {
      TallyOfPartsGrows(log, row, k, n - 1);
      PartHolds(row, k, n - 1, Last(log).second);
    }
  }

  lemma {:induction false} NoPartsToTally(row: Row, n: nat)
    ensures TallyOfParts([], row, n) == 0
  {
    if n > 0 {
      NoPartsToTally(row, n - 1);
    }
  }

  lemma {:induction false} TallyOfPartsIsWhole(log: seq<Event>, row: Row, k: int)
    requires row.unit == Coarse(row.meter) && row.start == k * Span(row.unit)
    ensures TallyOfParts(log, row, Parts(row.meter)) == Tally(log, row)
  {
    if log == [] {
      NoPartsToTally(row, Parts(row.meter));
    } else {
      TallyOfPartsIsWhole(Init(log), row, k);
      FloorIs(row.unit, Last(log).second, k);
      TallyOfPartsGrows(log, row, k * Parts(row.meter), Parts(row.meter));
    }
  }

  lemma {:induction false} SumOfPartsIsTally(t: Trace, row: Row, n: nat)
    requires Reconciled(t) && row.start >= t.horizon
    ensures SumOfParts(t.table, row, n) == TallyOfParts(t.log, row, n)
  {
    if n > 0 {
      SumOfPartsIsTally(t, row, n - 1);
      assert Stored(Part(row, n - 1));
    }
  }

  /** While the counter of an hour (or day) is in the table, it is the sum of those of its minutes (or hours). */
  lemma CoarseIsSumOfFine(t: Trace, config: Config, row: Row)
    requires Sane(t, config) && row in t.table && row.unit == Coarse(row.meter) && row.start % Span(row.unit) == 0
    ensures t.table[row] == SumOfParts(t.table, row, Parts(row.meter))
  {
    assert Get(t.table, row) == Tally(t.log, row);
    TallyOfPartsIsWhole(t.log, row, row.start / Span(row.unit));
    SumOfPartsIsTally(t, row, Parts(row.meter));
  }

  ghost predicate Whole(t: Trace) {
    forall row :: row in t.table ==> row.start % Span(row.unit) == 0
  }

  /** Every counter that a run leaves is of a window that starts where windows start. */
  lemma {:induction false} RunIsWhole(second: int, config: Config, ops: seq<Op>)
    ensures Whole(Run(Start(second), config, ops))
  {
    if ops != [] {
      RunIsWhole(second, config, Init(ops));
      var t, op := Run(Start(second), config, Init(ops)), Last(ops);
      if op.Request? {
        forall row | row in Step(t, config, op).table && row !in t.table
          ensures row.start % Span(row.unit) == 0
        {
          NewRowsStartAtFloors(t, config, op, row);
          FloorIsAligned(row.unit, op.now.second);
        }
      }
    }
  }

  lemma NewRowsStartAtFloors(t: Trace, config: Config, op: Op, row: Row)
    requires op.Request? && row in Step(t, config, op).table && row !in t.table
    ensures row.start == Floor(row.unit, op.now.second)
  {
    var windows := Windows(config, op.meter, op.user, op.ext, op.now);
    BumpAllIs(t.table, windows, op.amount, row);
    var k :| 0 <= k < |windows| && windows[k].row == row;
  }

  // ---- How keys are written ----

  function Family(row: Row): string {
    match row.meter
    case Requests => if row.ext.Some? then "extension_proxy" else "extension_proxy_total"
    case Bytes => if row.ext.Some? then "extension_proxy_bw" else "extension_proxy_bw_total"
  }

  function UnitText(unit: Unit): string {
    match unit
    case Minute => "min"
    case Hour => "hour"
    case Day => "day"
  }

  /** The text of the key column; bound is the start of the window, written without colons. */
  function KeyText(row: Row, bound: string): string {
    Family(row) + ":" + (row.user + ":" + (Scope(row) + (UnitText(row.unit) + ":" + bound)))
  }

  function Scope(row: Row): string {
    if row.ext.Some? then row.ext.value + ":" else ""
  }

  /**
   Two counters with the same key text have the same meter, user, extension and unit, whatever the
   extension is called, as long as user ids hold no colon.
   */
  lemma KeysAreUnambiguous(a: Row, boundA: string, b: Row, boundB: string)
    requires Lacks(a.user, ':') && Lacks(b.user, ':') && Lacks(boundA, ':') && Lacks(boundB, ':')
    requires KeyText(a, boundA) == KeyText(b, boundB)
    ensures a.(start := b.start) == b && boundA == boundB
  {
    var unitA, unitB := UnitText(a.unit), UnitText(b.unit);
    var endA, endB := unitA + ":" + boundA, unitB + ":" + boundB;
    SplitAtFirst(':', Family(a), a.user + ":" + (Scope(a) + endA), Family(b), b.user + ":" + (Scope(b) + endB));
    FamilyTells(a, b);
    SplitAtFirst(':', a.user, Scope(a) + endA, b.user, Scope(b) + endB);
    TailTells(a, boundA, b, boundB);
  }

  lemma FamilyTells(a: Row, b: Row)
    requires Family(a) == Family(b)
    ensures a.meter == b.meter && a.ext.Some? == b.ext.Some?
  {
    assert |Family(a)| == |Family(b)|;
  }

  lemma TailTells(a: Row, boundA: string, b: Row, boundB: string)
    requires Lacks(boundA, ':') && Lacks(boundB, ':') && a.ext.Some? == b.ext.Some?
    requires Scope(a) + (UnitText(a.unit) + ":" + boundA) == Scope(b) + (UnitText(b.unit) + ":" + boundB)
    ensures a.ext == b.ext && a.unit == b.unit && boundA == boundB
  {
    var unitA, unitB := UnitText(a.unit), UnitText(b.unit);
    if a.ext.Some? {
      assert Scope(a) + (unitA + ":" + boundA) == (Scope(a) + unitA) + ":" + boundA;
      assert Scope(b) + (unitB + ":" + boundB) == (Scope(b) + unitB) + ":" + boundB;
      SplitAtLast(':', Scope(a) + unitA, boundA, Scope(b) + unitB, boundB);
      SplitAtLast(':', a.ext.value, unitA, b.ext.value, unitB);
    } else {
      assert Scope(a) + (unitA + ":" + boundA) == unitA + ":" + boundA;
      assert Scope(b) + (unitB + ":" + boundB) == unitB + ":" + boundB;
      SplitAtFirst(':', unitA, boundA, unitB, boundB);
    }
    assert unitA[0] == unitB[0];
  }
}
