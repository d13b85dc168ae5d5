/**
 What an empty page hides. The pattern of the query lets through whispers to users whose ids are near the
 reader's; the exact filter removes them afterwards, and when they fill the page nothing is left of it.
 */
module PagingStall {
  import opened Prelude
  import opened MessageLog
  import opened EpochOrder
  import opened WhisperFilter
  import opened MessagePaging
  import opened PagingEdges

  // ---- Blockers ----

  /** A row after the cursor that the query lets through and the reader may not see. */
  predicate Stray(r: Row, room: RoomId, reader: UserId, cursor: Clock) {
    Matches(r, room, reader, Some(cursor)) && !Visible(r, reader)
  }

  /** The strays that no outstanding row comes before. */
  ghost function Blockers(rows: seq<Row>, room: RoomId, reader: UserId, cursor: Clock): set<Row> {
    set c | c in rows && Stray(c, room, reader, cursor)
            && forall o :: Outstanding(rows, room, reader, cursor, o) ==> !Before(Key(o), Key(c))
  }

  /** The strays that come before all outstanding rows. */
  ghost function StrictBlockers(rows: seq<Row>, room: RoomId, reader: UserId, cursor: Clock): set<Row> {
    set c | c in rows && Stray(c, room, reader, cursor)
            && forall o :: Outstanding(rows, room, reader, cursor, o) ==> Before(Key(c), Key(o))
  }

  function Elements(s: seq<Row>): set<Row> {
    set r | r in s
  }

  lemma {:induction false} DistinctSize(s: seq<Row>)
    requires DistinctIds(s)
    ensures |Elements(s)| == |s|
  {
    if s != [] {
      DistinctSize(Init(s));
      assert Elements(s) == Elements(Init(s)) + {Last(s)};
      assert Last(s) !in Init(s);
    }
  }

  lemma {:induction false} FilterIsDistinct(rows: seq<Row>, keep: Row -> bool)
    requires DistinctIds(rows)
    ensures DistinctIds(Filter(rows, keep))
  {
    if rows != [] {
      var rest := Filter(Init(rows), keep);
      FilterIsDistinct(Init(rows), keep);
      forall i | 0 <= i < |rest|
        ensures rest[i].id != Last(rows).id
      {
        assert rest[i] in Init(rows);
      }
    }
  }

  // ---- Some page is empty ----

  /** An answer that leaves nothing of the page consists of blockers. */
  lemma EmptyPageIsBlocked(rows: seq<Row>, room: RoomId, reader: UserId, cursor: Clock, limit: int, fetched: seq<Row>,
                           o: Row)
    requires Plain(reader) && Outstanding(rows, room, reader, cursor, o)
    requires AnswersSince(rows, room, reader, cursor, Clamp(limit) + 1, fetched)
    requires Cut(Kept(fetched, reader), Clamp(limit)) == []
    ensures |fetched| == Clamp(limit) + 1 && Elements(fetched) <= Blockers(rows, room, reader, cursor)
    ensures |Blockers(rows, room, reader, cursor)| >= Clamp(limit) + 1
  {
    EmptyPageHidesRows(rows, room, reader, cursor, limit, fetched, o);
    forall c | c in fetched
      ensures c in Blockers(rows, room, reader, cursor)
    {
      forall p | Outstanding(rows, room, reader, cursor, p)
        ensures !Before(Key(p), Key(c))
      {
        VisibleIsCandidate(p, reader);
        LastIsGreatest(fetched, c);
      }
    }
    DistinctSize(fetched);
    SubsetIsNoLarger(Elements(fetched), Blockers(rows, room, reader, cursor));
  }

  /** The rows without those that are outstanding. */
  function WithoutOutstanding(rows: seq<Row>, room: RoomId, reader: UserId, cursor: Clock): seq<Row> {
    Filter(rows, (r: Row) => !(r.room == room && Visible(r, reader) && Before(cursor, Key(r))))
  }

  /** What answers the query on the strays alone consists of blockers, if there are enough of them. */
  lemma StraysAreBlockers(rows: seq<Row>, room: RoomId, reader: UserId, cursor: Clock, n: nat, fetched: seq<Row>)
    requires n > 0 && |Blockers(rows, room, reader, cursor)| >= n
    requires AnswersSince(WithoutOutstanding(rows, room, reader, cursor), room, reader, cursor, n, fetched)
    ensures |fetched| == n
    ensures forall o :: Outstanding(rows, room, reader, cursor, o) ==> !Before(Key(o), Key(Last(fetched)))
  {
    var blockers := Blockers(rows, room, reader, cursor);
    DistinctSize(fetched);
    if |fetched| < n {
      assert blockers <= Elements(fetched);
      SubsetIsNoLarger(blockers, Elements(fetched));
    }
    assert Last(fetched) in fetched;
    forall o | Outstanding(rows, room, reader, cursor, o) && Before(Key(o), Key(Last(fetched)))
      ensures false
    {
      assert blockers <= Elements(fetched) - {Last(fetched)};
      SubsetIsNoLarger(blockers, Elements(fetched) - {Last(fetched)});
    }
  }

  lemma BlockersFillAnAnswer(rows: seq<Row>, room: RoomId, reader: UserId, cursor: Clock, limit: int)
    returns (fetched: seq<Row>)
    requires DistinctIds(rows) && |Blockers(rows, room, reader, cursor)| >= Clamp(limit) + 1
    ensures AnswersSince(rows, room, reader, cursor, Clamp(limit) + 1, fetched)
    ensures Cut(Kept(fetched, reader), Clamp(limit)) == []
  {
    var strays := WithoutOutstanding(rows, room, reader, cursor);
    FilterIsDistinct(rows, (r: Row) => !(r.room == room && Visible(r, reader) && Before(cursor, Key(r))));
    fetched := AnswerExists(strays, room, reader, cursor, Clamp(limit) + 1);
    StraysAreBlockers(rows, room, reader, cursor, Clamp(limit) + 1, fetched);
    forall r | r in rows && Matches(r, room, reader, Some(cursor)) && r !in fetched
      ensures !Before(Key(r), Key(Last(fetched)))
    {
      assert r in strays || Outstanding(rows, room, reader, cursor, r);
    }
    if Kept(fetched, reader) != [] {
      SomeMember(Kept(fetched, reader));
    }
  }

  /**
   While something is outstanding, the database may answer so that the page is empty if and only if at
   least as many strays as one query fetches come no later than the first outstanding row.
   */
  lemma EmptyPageIff(rows: seq<Row>, room: RoomId, reader: UserId, cursor: Clock, limit: int)
    requires Sound(rows) && Plain(reader) && exists o :: Outstanding(rows, room, reader, cursor, o)
    ensures (exists fetched :: AnswersSince(rows, room, reader, cursor, Clamp(limit) + 1, fetched)
                               && Cut(Kept(fetched, reader), Clamp(limit)) == [])
       <==> |Blockers(rows, room, reader, cursor)| >= Clamp(limit) + 1
  {
    SoundIsDistinct(rows);
    var o :| Outstanding(rows, room, reader, cursor, o);
    if |Blockers(rows, room, reader, cursor)| >= Clamp(limit) + 1 {
      var fetched := BlockersFillAnAnswer(rows, room, reader, cursor, limit);
    } else if fetched :| AnswersSince(rows, room, reader, cursor, Clamp(limit) + 1, fetched)
                         && Cut(Kept(fetched, reader), Clamp(limit)) == [] {
      EmptyPageIsBlocked(rows, room, reader, cursor, limit, fetched, o);
    }
  }

  // ---- Every page is empty ----

  lemma {:induction false} FirstOutstanding(rows: seq<Row>, room: RoomId, reader: UserId, cursor: Clock, from: seq<Row>)
    returns (first: Row)
    requires forall r :: r in from ==> r in rows
    requires exists o :: o in from && Outstanding(rows, room, reader, cursor, o)
    ensures first in from && Outstanding(rows, room, reader, cursor, first)
    ensures forall o :: o in from && Outstanding(rows, room, reader, cursor, o) ==> !Before(Key(o), Key(first))
  {
    var r := Last(from);
    assert forall x :: x in from <==> x in Init(from) || x == r;
    if exists o :: o in Init(from) && Outstanding(rows, room, reader, cursor, o) {
      first := FirstOutstanding(rows, room, reader, cursor, Init(from));
      if Outstanding(rows, room, reader, cursor, r) && Before(Key(r), Key(first)) {
        first := r;
      }
    } else {
      first := r;
    }
  }

  /**
   With too few strict blockers, the last row of an answer without visible rows can give way to the first
   outstanding.
   */
  lemma LastGivesWay(rows: seq<Row>, room: RoomId, reader: UserId, cursor: Clock, limit: int, fetched: seq<Row>, o: Row)
    requires Plain(reader) && Outstanding(rows, room, reader, cursor, o)
    requires forall p :: Outstanding(rows, room, reader, cursor, p) ==> !Before(Key(p), Key(o))
    requires AnswersSince(rows, room, reader, cursor, Clamp(limit) + 1, fetched)
    requires Cut(Kept(fetched, reader), Clamp(limit)) == []
    requires |StrictBlockers(rows, room, reader, cursor)| <= Clamp(limit)
    ensures fetched != [] && Key(Last(fetched)) == Key(o)
  {
    EmptyPageIsBlocked(rows, room, reader, cursor, limit, fetched, o);
    assert Last(fetched) in Elements(fetched);
    if Before(Key(Last(fetched)), Key(o)) {
      forall c | c in fetched
        ensures c in StrictBlockers(rows, room, reader, cursor)
      {
        assert c in Elements(fetched);
        LastIsGreatest(fetched, c);
      }
      DistinctSize(fetched);
      SubsetIsNoLarger(Elements(fetched), StrictBlockers(rows, room, reader, cursor));
    }
  }

  lemma SwapAscends(rows: seq<Row>, fetched: seq<Row>, o: Row)
    requires DistinctIds(rows) && Ascending(fetched) && (forall r :: r in fetched ==> r in rows) && o in rows
    requires fetched != [] && Key(Last(fetched)) == Key(o) && o !in fetched
    ensures Ascending(Init(fetched) + [o])
  {
    forall i | 0 <= i < |fetched| - 1
      ensures fetched[i].id != o.id && !Before(Key(o), Key(fetched[i]))
    {
      assert fetched[i] in fetched;
      LastIsGreatest(fetched, fetched[i]);
      SameIdSameRow(rows, fetched[i], o);
    }
  }

  lemma SwapAnswers(rows: seq<Row>, room: RoomId, reader: UserId, cursor: Clock, n: nat, fetched: seq<Row>, o: Row)
    requires Plain(reader) && DistinctIds(rows) && Outstanding(rows, room, reader, cursor, o)
    requires AnswersSince(rows, room, reader, cursor, n, fetched) && |fetched| == n > 0
    requires Key(Last(fetched)) == Key(o) && o !in fetched
    ensures AnswersSince(rows, room, reader, cursor, n, Init(fetched) + [o])
  {
    var swapped := Init(fetched) + [o];
    VisibleIsCandidate(o, reader);
    SwapAscends(rows, fetched, o);
    assert Last(swapped) == o && Last(fetched) in fetched;
    forall r | r in swapped
      ensures r in rows && Matches(r, room, reader, Some(cursor))
    {
      assert r == o || r in fetched;
    }
    forall r | r in rows && Matches(r, room, reader, Some(cursor)) && r !in swapped
      ensures !Before(Key(r), Key(o))
    {
      LeftOut(fetched, r, o);
    }
  }

  lemma LeftOut(fetched: seq<Row>, r: Row, o: Row)
    requires fetched != [] && r !in Init(fetched) + [o]
    ensures r !in fetched || r == Last(fetched)
  {
    assert fetched == Init(fetched) + [Last(fetched)];
  }

  lemma SwapShows(fetched: seq<Row>, reader: UserId, limit: nat, o: Row)
    requires fetched != [] && limit > 0 && Visible(o, reader) && forall r :: r in fetched ==> !Visible(r, reader)
    ensures Cut(Kept(Init(fetched) + [o], reader), limit) == [o]
  {
    var swapped := Init(fetched) + [o];
    assert Init(swapped) == Init(fetched) && Last(swapped) == o;
    NoneKept(Init(fetched), reader);
  }

  lemma NoneKept(s: seq<Row>, reader: UserId)
    requires forall r :: r in s ==> !Visible(r, reader)
    ensures Kept(s, reader) == []
  {
    if Kept(s, reader) != [] {
      SomeMember(Kept(s, reader));
    }
  }

  lemma SameIdSameRow(rows: seq<Row>, a: Row, b: Row)
    requires DistinctIds(rows) && a in rows && b in rows && a != b
    ensures a.id != b.id
  {
    var i :| 0 <= i < |rows| && rows[i] == a;
    var j :| 0 <= j < |rows| && rows[j] == b;
  }

  /** Strict blockers enough for one query leave no room for a visible row. */
  lemma StrictBlockersStarve(rows: seq<Row>, room: RoomId, reader: UserId, cursor: Clock, limit: int, fetched: seq<Row>)
    requires AnswersSince(rows, room, reader, cursor, Clamp(limit) + 1, fetched)
    requires |StrictBlockers(rows, room, reader, cursor)| >= Clamp(limit) + 1
    ensures Cut(Kept(fetched, reader), Clamp(limit)) == []
  {
    var strict := StrictBlockers(rows, room, reader, cursor);
    if Kept(fetched, reader) != [] {
      SomeMember(Kept(fetched, reader));
      var v :| v in Kept(fetched, reader);
      LastIsGreatest(fetched, v);
      assert Outstanding(rows, room, reader, cursor, v);
      assert strict + {v} <= Elements(fetched);
      DistinctSize(fetched);
      SubsetIsNoLarger(strict + {v}, Elements(fetched));
    }
  }

  lemma FewBlockersLeaveAPage(rows: seq<Row>, room: RoomId, reader: UserId, cursor: Clock, limit: int)
    returns (fetched: seq<Row>)
    requires DistinctIds(rows) && Plain(reader) && exists o :: Outstanding(rows, room, reader, cursor, o)
    requires |StrictBlockers(rows, room, reader, cursor)| <= Clamp(limit)
    ensures AnswersSince(rows, room, reader, cursor, Clamp(limit) + 1, fetched)
    ensures Cut(Kept(fetched, reader), Clamp(limit)) != []
  {
    fetched := AnswerExists(rows, room, reader, cursor, Clamp(limit) + 1);
    if Cut(Kept(fetched, reader), Clamp(limit)) == [] {
      var o := FirstOutstanding(rows, room, reader, cursor, rows);
      LastGivesWay(rows, room, reader, cursor, limit, fetched, o);
      EmptyPageHidesRows(rows, room, reader, cursor, limit, fetched, o);
      SwapAnswers(rows, room, reader, cursor, Clamp(limit) + 1, fetched, o);
      SwapShows(fetched, reader, Clamp(limit), o);
      fetched := Init(fetched) + [o];
    }
  }

  /**
   While something is outstanding, the page is empty however the database answers if and only if at least
   as many strays as one query fetches come before the first outstanding row.
   */
  lemma EveryPageIsEmptyIff(rows: seq<Row>, room: RoomId, reader: UserId, cursor: Clock, limit: int)
    requires Sound(rows) && Plain(reader) && exists o :: Outstanding(rows, room, reader, cursor, o)
    ensures (forall fetched :: AnswersSince(rows, room, reader, cursor, Clamp(limit) + 1, fetched) ==>
                                 Cut(Kept(fetched, reader), Clamp(limit)) == [])
       <==> |StrictBlockers(rows, room, reader, cursor)| >= Clamp(limit) + 1
  {
    SoundIsDistinct(rows);
    if |StrictBlockers(rows, room, reader, cursor)| >= Clamp(limit) + 1 {
      forall fetched | AnswersSince(rows, room, reader, cursor, Clamp(limit) + 1, fetched)
        ensures Cut(Kept(fetched, reader), Clamp(limit)) == []
      {
        StrictBlockersStarve(rows, room, reader, cursor, limit, fetched);
      }
    } else {
      var fetched := FewBlockersLeaveAPage(rows, room, reader, cursor, limit);
    }
  }

  // ---- Strangers' whispers ----

  /** n strays in a row, of the cursor's epoch, with nothing outstanding before them. */
  ghost predicate Blocked(rows: seq<Row>, room: RoomId, reader: UserId, cursor: Clock, from: nat, n: nat) {
    && from + n <= |rows|
    && (forall k :: from <= k < from + n ==>
          Stray(rows[k], room, reader, cursor) && IsOriginal(rows[k], room) && rows[k].epoch == cursor.epoch)
    && forall k :: 0 <= k < from && rows[k].room == room && Visible(rows[k], reader) ==> !Before(cursor, Key(rows[k]))
  }

  lemma BlockedComesFirst(rows: seq<Row>, room: RoomId, reader: UserId, cursor: Clock, from: nat, n: nat, k: nat,
                          o: Row)
    requires Sound(rows) && Blocked(rows, room, reader, cursor, from, n) && from <= k < from + n
    requires Outstanding(rows, room, reader, cursor, o)
    ensures Before(Key(rows[k]), Key(o))
  {
    var m :| 0 <= m < |rows| && rows[m] == o;
    assert m >= from + n;
    OnlyOriginalsAreNumbered(rows, o);
    SoundPrefix(rows, m);
    NothingAheadOfTheClock(rows[..m], room, k);
  }

  lemma BlockedIsStrict(rows: seq<Row>, room: RoomId, reader: UserId, cursor: Clock, from: nat, n: nat, k: nat)
    requires Sound(rows) && Blocked(rows, room, reader, cursor, from, n) && from <= k < from + n
    ensures rows[k] in StrictBlockers(rows, room, reader, cursor)
  {
    forall o | Outstanding(rows, room, reader, cursor, o)
      ensures Before(Key(rows[k]), Key(o))
    {
      BlockedComesFirst(rows, room, reader, cursor, from, n, k, o);
    }
  }

  lemma SliceIsDistinct(rows: seq<Row>, from: nat, n: nat)
    requires DistinctIds(rows) && from + n <= |rows|
    ensures DistinctIds(rows[from..from + n])
  {
  }

  /** A slice of rows that all are in a set is no longer than the set is large. */
  lemma SliceFits(rows: seq<Row>, from: nat, n: nat, all: set<Row>)
    requires DistinctIds(rows) && from + n <= |rows| && forall k :: from <= k < from + n ==> rows[k] in all
    ensures n <= |all|
  {
    var slice := rows[from..from + n];
    SliceIsDistinct(rows, from, n);
    DistinctSize(slice);
    ElementsWithin(slice, all);
    SubsetIsNoLarger(Elements(slice), all);
  }

  lemma BlockedAreMany(rows: seq<Row>, room: RoomId, reader: UserId, cursor: Clock, from: nat, n: nat)
    requires Sound(rows) && Blocked(rows, room, reader, cursor, from, n)
    ensures |StrictBlockers(rows, room, reader, cursor)| >= n
  {
    SoundIsDistinct(rows);
    forall k | from <= k < from + n
      ensures rows[k] in StrictBlockers(rows, room, reader, cursor)
    {
      BlockedIsStrict(rows, room, reader, cursor, from, n, k);
    }
    SliceFits(rows, from, n, StrictBlockers(rows, room, reader, cursor));
  }

  lemma BlockedStarves(rows: seq<Row>, room: RoomId, reader: UserId, cursor: Clock, from: nat, n: nat, limit: int,
                       fetched: seq<Row>)
    requires Sound(rows) && Blocked(rows, room, reader, cursor, from, n) && n >= Clamp(limit) + 1
    requires AnswersSince(rows, room, reader, cursor, Clamp(limit) + 1, fetched)
    ensures Cut(Kept(fetched, reader), Clamp(limit)) == []
  {
    BlockedAreMany(rows, room, reader, cursor, from, n);
    StrictBlockersStarve(rows, room, reader, cursor, limit, fetched);
  }

  lemma ElementsWithin(s: seq<Row>, all: set<Row>)
    requires forall i :: 0 <= i < |s| ==> s[i] in all
    ensures Elements(s) <= all
  {
  }

  lemma RowsStay(log: Log, op: Op, k: nat)
    requires k < |log.rows|
    ensures var b := Step(log, op).rows; k < |b| && b[k].(deletedAt := None) == log.rows[k].(deletedAt := None)
  {
    var a, b := log.rows, Step(log, op).rows;
    StepShape(log, op);
    assert b != [] && Init(b) == a ==> b[k] == Init(b)[k];
  }

  lemma WriteKeepsBlocked(log: Log, op: Op, room: RoomId, reader: UserId, cursor: Clock, from: nat, n: nat)
    requires Blocked(log.rows, room, reader, cursor, from, n)
    ensures Blocked(Step(log, op).rows, room, reader, cursor, from, n)
  {
    var a, b := log.rows, Step(log, op).rows;
    assert |a| <= |b| by {
      if a != [] {
        RowsStay(log, op, |a| - 1);
      }
    }
    forall k | from <= k < from + n
      ensures Stray(b[k], room, reader, cursor) && IsOriginal(b[k], room) && b[k].epoch == cursor.epoch
    {
      RowsStay(log, op, k);
    }
    forall k | 0 <= k < from && b[k].room == room && Visible(b[k], reader)
      ensures !Before(cursor, Key(b[k]))
    {
      RowsStay(log, op, k);
    }
  }

  /** All polls ask for pages of at most n - 1 rows. */
  predicate AskForLessThan(events: seq<Event>, n: nat) {
    forall e :: e in events && e.Poll? ==> Clamp(e.limit) < n
  }

  /** A reader behind n strays gets nothing by asking for fewer, whatever is written meanwhile. */
  lemma {:induction false} BlockedStalls(s: Session, events: seq<Event>, room: RoomId, reader: UserId, from: nat,
                                         n: nat)
    requires WellFormed(s.log) && Blocked(s.log.rows, room, reader, s.cursor, from, n) && AskForLessThan(events, n)
    ensures var end := Play(s, events, room, reader);
            && end.got == s.got && end.cursor == s.cursor
            && WellFormed(end.log) && Blocked(end.log.rows, room, reader, s.cursor, from, n)
  {
    if events != [] {
      var mid, e := Play(s, Init(events), room, reader), Last(events);
      assert e in events && forall x :: x in Init(events) ==> x in events;
      BlockedStalls(s, Init(events), room, reader, from, n);
      if e.Write? {
        StepKeepsWellFormed(mid.log, e.op);
        WriteKeepsBlocked(mid.log, e.op, room, reader, s.cursor, from, n);
      } else {
        PollOutcome(mid, e.limit, e.fetched, room, reader);
        if Advance(mid, e, room, reader) != mid {
          BlockedStarves(mid.log.rows, room, reader, mid.cursor, from, n, e.limit, e.fetched);
        }
      }
    }
  }

  function Message(room: RoomId, sender: UserId, epoch: nat, targets: Option<seq<UserId>>): SubmitRequest {
    SubmitRequest(room, sender, "phone", epoch, Application, [], None, None, targets)
  }

  function StoredMessage(room: RoomId, sender: UserId, at: Clock, targets: Option<seq<UserId>>, id: Id): Row {
    Row(id, room, sender, "phone", at.epoch, at.sequence, Application, [], None, targets, None, 0, 0, None)
  }

  /** The sender whispers to somebody, once with each id. */
  function Whispers(room: RoomId, sender: UserId, epoch: nat, other: UserId, ids: seq<Id>): seq<Op> {
    if ids == [] then []
    else
      Whispers(room, sender, epoch, other, Init(ids))
      + [DoSubmit(Message(room, sender, epoch, Some([other])), Last(ids), 0)]
  }

  lemma MessageIsStored(log: Log, room: RoomId, sender: UserId, targets: Option<seq<UserId>>, id: Id)
    requires room in log.epochs && (room, sender) in log.roles && Find(log.rows, id).None?
    ensures var at := Clock(log.epochs[room].epoch, log.epochs[room].sequence + 1);
            var next := Step(log, DoSubmit(Message(room, sender, at.epoch, targets), id, 0));
            && next.rows == log.rows + [StoredMessage(room, sender, at, targets, id)]
            && next.roles == log.roles
            && next.epochs == log.epochs[room := Epoch(at.epoch, at.sequence, log.epochs[room].transcript)]
  {
  }

  ghost predicate Fresh(rows: seq<Row>, ids: seq<Id>) {
    && (forall id :: id in ids ==> Find(rows, id).None?)
    && forall i, j :: 0 <= i < j < |ids| ==> ids[i] != ids[j]
  }

  /** The rows of the whispers, numbered from the next number on. */
  function WhisperRows(room: RoomId, sender: UserId, at: Clock, other: UserId, ids: seq<Id>): (rows: seq<Row>)
    ensures |rows| == |ids|
  {
    if ids == [] then []
    else
      WhisperRows(room, sender, at, other, Init(ids))
      + [StoredMessage(room, sender, Clock(at.epoch, at.sequence + |ids|), Some([other]), Last(ids))]
  }

  lemma {:induction false} WhisperRowAt(room: RoomId, sender: UserId, at: Clock, other: UserId, ids: seq<Id>, k: nat)
    requires k < |ids|
    ensures WhisperRows(room, sender, at, other, ids)[k] ==
            StoredMessage(room, sender, Clock(at.epoch, at.sequence + k + 1), Some([other]), ids[k])
  {
    if k < |ids| - 1 {
      WhisperRowAt(room, sender, at, other, Init(ids), k);
    }
  }

  lemma StillFresh(rows: seq<Row>, room: RoomId, sender: UserId, at: Clock, other: UserId, ids: seq<Id>, id: Id)
    requires Find(rows, id).None? && id !in ids
    ensures Find(rows + WhisperRows(room, sender, at, other, ids), id).None?
  {
    var whispers := WhisperRows(room, sender, at, other, ids);
    forall k | 0 <= k < |rows + whispers|
      ensures (rows + whispers)[k].id != id
    {
      if k >= |rows| {
        WhisperRowAt(room, sender, at, other, ids, k - |rows|);
      }
    }
  }

  lemma NextWhisperRow(rows: seq<Row>, room: RoomId, sender: UserId, at: Clock, other: UserId, ids: seq<Id>)
    requires ids != []
    ensures rows + WhisperRows(room, sender, at, other, Init(ids))
          + [StoredMessage(room, sender, Clock(at.epoch, at.sequence + |ids|), Some([other]), Last(ids))]
         == rows + WhisperRows(room, sender, at, other, ids)
  {
  }

  lemma InitIsFresh(rows: seq<Row>, ids: seq<Id>)
    requires Fresh(rows, ids) && ids != []
    ensures Fresh(rows, Init(ids)) && Last(ids) !in Init(ids) && Find(rows, Last(ids)).None?
  {
    assert forall id :: id in Init(ids) ==> id in ids;
    assert Last(ids) in ids;
  }

  lemma UpdateTwice(epochs: map<RoomId, Epoch>, room: RoomId, a: Epoch, b: Epoch)
    ensures epochs[room := a][room := b] == epochs[room := b]
  {
  }

  /** The tables after the whispers of a log whose clock, for the room, was at. */
  ghost predicate HasWhispers(log: Log, next: Log, room: RoomId, sender: UserId, other: UserId, ids: seq<Id>, at: Clock)
    requires room in log.epochs
  {
    && next.rows == log.rows + WhisperRows(room, sender, at, other, ids)
    && next.epochs == log.epochs[room := Epoch(at.epoch, at.sequence + |ids|, log.epochs[room].transcript)]
    && next.roles == log.roles
  }

  lemma OneMoreWhisper(log: Log, mid: Log, room: RoomId, sender: UserId, other: UserId, ids: seq<Id>, at: Clock)
    requires room in log.epochs && (room, sender) in log.roles && ids != [] && Find(mid.rows, Last(ids)).None?
    requires HasWhispers(log, mid, room, sender, other, Init(ids), at)
    ensures HasWhispers(log, Step(mid, DoSubmit(Message(room, sender, at.epoch, Some([other])), Last(ids), 0)),
                        room, sender, other, ids, at)
  {
    var transcript := log.epochs[room].transcript;
    MessageIsStored(mid, room, sender, Some([other]), Last(ids));
    NextWhisperRow(log.rows, room, sender, at, other, ids);
    UpdateTwice(log.epochs, room, Epoch(at.epoch, at.sequence + |Init(ids)|, transcript),
                Epoch(at.epoch, at.sequence + |ids|, transcript));
  }

  lemma {:induction false} WhispersAreStored(log: Log, room: RoomId, sender: UserId, other: UserId, ids: seq<Id>,
                                             at: Clock)
    requires room in log.epochs && (room, sender) in log.roles && Fresh(log.rows, ids)
    requires at == Clock(log.epochs[room].epoch, log.epochs[room].sequence)
    ensures HasWhispers(log, Run(log, Whispers(room, sender, at.epoch, other, ids)), room, sender, other, ids, at)
  {
    if ids == [] {
      assert log.epochs[room := log.epochs[room]] == log.epochs;
    } else {
      var before := Whispers(room, sender, at.epoch, other, Init(ids));
      InitIsFresh(log.rows, ids);
      WhispersAreStored(log, room, sender, other, Init(ids), at);
      StillFresh(log.rows, room, sender, at, other, Init(ids), Last(ids));
      OneMoreWhisper(log, Run(log, before), room, sender, other, ids, at);
      RunSnoc(log, before, DoSubmit(Message(room, sender, at.epoch, Some([other])), Last(ids), 0));
    }
  }

  /** What the tables hold after the whispers and the message. */
  lemma WhisperedAndSpoken(log: Log, room: RoomId, sender: UserId, other: UserId, ids: seq<Id>, last: Id)
    requires WellFormed(log) && room in log.epochs && (room, sender) in log.roles && Fresh(log.rows, ids + [last])
    ensures var at := log.epochs[room];
            var cursor := Clock(at.epoch, at.sequence);
            var whispered := Run(log, Whispers(room, sender, at.epoch, other, ids));
            var spoken := Step(whispered, DoSubmit(Message(room, sender, at.epoch, None), last, 0));
            && WellFormed(spoken)
            && spoken.rows == log.rows + WhisperRows(room, sender, cursor, other, ids)
                              + [StoredMessage(room, sender, Clock(at.epoch, at.sequence + |ids| + 1), None, last)]
  {
    var at := log.epochs[room];
    var ops := Whispers(room, sender, at.epoch, other, ids);
    InitIsFresh(log.rows, ids + [last]);
    assert Init(ids + [last]) == ids;
    WhispersAreStored(log, room, sender, other, ids, Clock(at.epoch, at.sequence));
    StillFresh(log.rows, room, sender, Clock(at.epoch, at.sequence), other, ids, last);
    MessageIsStored(Run(log, ops), room, sender, None, last);
    RunKeepsWellFormed(log, ops);
    StepKeepsWellFormed(Run(log, ops), DoSubmit(Message(room, sender, at.epoch, None), last, 0));
  }

  lemma WordIsOutstanding(rows: seq<Row>, room: RoomId, reader: UserId, cursor: Clock, word: Row)
    requires word.room == room && word.targets.None? && Before(cursor, Key(word))
    ensures Outstanding(rows + [word], room, reader, cursor, word)
  {
  }

  lemma WhispersStall(s: Session, log: Log, room: RoomId, reader: UserId, other: UserId, sender: UserId, ids: seq<Id>,
                      word: Row, events: seq<Event>)
    requires WellFormed(log) && WellFormed(s.log) && room in log.epochs
    requires s.cursor == Clock(log.epochs[room].epoch, log.epochs[room].sequence)
    requires Registered(reader) && Registered(other) && Near(reader, other) && reader != other && sender != reader
    requires word.room == room && word.targets.None? && Before(s.cursor, Key(word)) && AskForLessThan(events, |ids|)
    requires s.log.rows == log.rows + WhisperRows(room, sender, s.cursor, other, ids) + [word]
    ensures exists o :: Outstanding(s.log.rows, room, reader, s.cursor, o)
    ensures Play(s, events, room, reader).got == s.got && Play(s, events, room, reader).cursor == s.cursor
  {
    WhispersBlock(log, room, reader, other, sender, ids, word);
    WordIsOutstanding(log.rows + WhisperRows(room, sender, s.cursor, other, ids), room, reader, s.cursor, word);
    BlockedStalls(s, events, room, reader, |log.rows|, |ids|);
  }

  /**
   Any two members whose ids are near each other: somebody else who whispers to one of them as often as one
   query of the other fetches, and then speaks to all, cuts the other off. In a reader who had read
   everything, no continuation in which the pages asked for are not larger brings anything more, although a
   message for everybody is outstanding.
   */
  lemma StrangersWhispersStallAReader(log: Log, s: Session, room: RoomId, reader: UserId, other: UserId,
                                      sender: UserId, limit: int, ids: seq<Id>, last: Id, events: seq<Event>)
    requires WellFormed(log) && room in log.epochs
    requires (room, reader) in log.roles && (room, other) in log.roles && (room, sender) in log.roles
    requires Registered(reader) && Registered(other) && Near(reader, other) && reader != other && sender != reader
    requires |ids| == Clamp(limit) + 1 && Fresh(log.rows, ids + [last]) && AskForLessThan(events, |ids|)
    requires s.cursor == Clock(log.epochs[room].epoch, log.epochs[room].sequence)
    requires var whispered := Run(log, Whispers(room, sender, s.cursor.epoch, other, ids));
             s.log == Step(whispered, DoSubmit(Message(room, sender, s.cursor.epoch, None), last, 0))
    ensures exists o :: Outstanding(s.log.rows, room, reader, s.cursor, o)
    ensures Play(s, events, room, reader).got == s.got && Play(s, events, room, reader).cursor == s.cursor
  {
    var word := StoredMessage(room, sender, Clock(s.cursor.epoch, s.cursor.sequence + |ids| + 1), None, last);
    WhisperedAndSpoken(log, room, sender, other, ids, last);
    WhispersStall(s, log, room, reader, other, sender, ids, word, events);
  }

  lemma WhisperIsStray(room: RoomId, reader: UserId, other: UserId, sender: UserId, cursor: Clock, seqno: nat, id: Id)
    requires Registered(reader) && Registered(other) && Near(reader, other) && reader != other && sender != reader
    requires seqno > cursor.sequence
    ensures var r := StoredMessage(room, sender, Clock(cursor.epoch, seqno), Some([other]), id);
            Stray(r, room, reader, cursor) && IsOriginal(r, room) && r.epoch == cursor.epoch
  {
    var r := StoredMessage(room, sender, Clock(cursor.epoch, seqno), Some([other]), id);
    assert r.targets == Some([other]) && other in [other];
    CandidateMayBeInvisible(r, reader);
  }

  lemma WhispersBlock(log: Log, room: RoomId, reader: UserId, other: UserId, sender: UserId, ids: seq<Id>, last: Row)
    requires WellFormed(log) && room in log.epochs
    requires Registered(reader) && Registered(other) && Near(reader, other) && reader != other && sender != reader
    ensures var cursor := Clock(log.epochs[room].epoch, log.epochs[room].sequence);
            Blocked(log.rows + WhisperRows(room, sender, cursor, other, ids) + [last],
                    room, reader, cursor, |log.rows|, |ids|)
  {
    var cursor, n := Clock(log.epochs[room].epoch, log.epochs[room].sequence), |log.rows|;
    var whispers := WhisperRows(room, sender, cursor, other, ids);
    var rows := log.rows + whispers + [last];
    forall k | n <= k < n + |ids|
      ensures Stray(rows[k], room, reader, cursor) && IsOriginal(rows[k], room) && rows[k].epoch == cursor.epoch
    {
      assert rows[k] == whispers[k - n];
      WhisperRowAt(room, sender, cursor, other, ids, k - n);
      WhisperIsStray(room, reader, other, sender, cursor, cursor.sequence + (k - n) + 1, ids[k - n]);
    }
    forall k | 0 <= k < n && rows[k].room == room
      ensures !Before(cursor, Key(rows[k]))
    {
      assert rows[k] == log.rows[k];
      NothingAheadOfTheClock(log.rows, room, k);
    }
  }
}
