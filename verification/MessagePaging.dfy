/**
 Paging through the messages of a room while others write: what list_messages returns, and what a
 reader who keeps following next_cursor has received after any run of writes and polls.
 */
module MessagePaging {
  import opened Prelude
  import opened MessageLog
  import opened EpochOrder
  import opened WhisperFilter

  datatype Page = Page(messages: seq<Row>, next: Option<Clock>, hasMore: bool)

  function Clamp(limit: int): nat {
    if limit <= 0 then 50 else if limit > 500 then 500 else limit
  }

  // ---- The two queries ----

  /** No row twice, keys ascending; rows with one key may come in any order. */
  ghost predicate Ascending(fetched: seq<Row>) {
    forall i, j :: 0 <= i < j < |fetched| ==>
      fetched[i].id != fetched[j].id && !Before(Key(fetched[j]), Key(fetched[i]))
  }

  ghost predicate Descending(fetched: seq<Row>) {
    forall i, j :: 0 <= i < j < |fetched| ==>
      fetched[i].id != fetched[j].id && !Before(Key(fetched[i]), Key(fetched[j]))
  }

  /** A row that the query may return: let through, and after the cursor if there is one. */
  predicate Matches(r: Row, room: RoomId, reader: UserId, since: Option<Clock>) {
    Candidate(r, room, reader) && (since.Some? ==> Before(since.value, Key(r)))
  }

  /** An answer of SELECT ... (epoch, seq) > since ORDER BY epoch ASC, seq ASC LIMIT n. */
  ghost predicate AnswersSince(rows: seq<Row>, room: RoomId, reader: UserId, since: Clock, n: nat, fetched: seq<Row>) {
    && |fetched| <= n
    && Ascending(fetched)
    && (forall r :: r in fetched ==> r in rows && Matches(r, room, reader, Some(since)))
    && (forall r :: r in rows && Matches(r, room, reader, Some(since)) && r !in fetched ==>
          |fetched| == n && (n > 0 ==> !Before(Key(r), Key(Last(fetched)))))
  }

  /** An answer of SELECT ... ORDER BY epoch DESC, seq DESC LIMIT n. */
  ghost predicate AnswersLatest(rows: seq<Row>, room: RoomId, reader: UserId, n: nat, fetched: seq<Row>) {
    && |fetched| <= n
    && Descending(fetched)
    && (forall r :: r in fetched ==> r in rows && Matches(r, room, reader, None))
    && (forall r :: r in rows && Matches(r, room, reader, None) && r !in fetched ==>
          |fetched| == n && (n > 0 ==> !Before(Key(Last(fetched)), Key(r))))
  }

  ghost predicate Answers(rows: seq<Row>, room: RoomId, reader: UserId, since: Option<Clock>, limit: int,
        fetched: seq<Row>) {
    match since
    case Some(c) => AnswersSince(rows, room, reader, c, Clamp(limit) + 1, fetched)
    case None => AnswersLatest(rows, room, reader, Clamp(limit) + 1, fetched)
  }

  // ---- The page ----

  function Kept(fetched: seq<Row>, reader: UserId): seq<Row> {
    Filter(fetched, (r: Row) => Visible(r, reader))
  }

  /** One row more than the limit was fetched; if it was kept, it is popped. */
  function Cut(kept: seq<Row>, limit: nat): seq<Row> {
    if |kept| > limit then Init(kept) else kept
  }

  function Reversed<T>(s: seq<T>): seq<T> {
    if s == [] then [] else [Last(s)] + Reversed(Init(s))
  }

  function List(log: Log, room: RoomId, reader: UserId, since: Option<Clock>, limit: int,
        fetched: seq<Row>): Result<Page, Error> {
    if (room, reader) !in log.roles then Err(NotAMember)
    else
      var kept := Kept(fetched, reader);
      var page := Cut(kept, Clamp(limit));
      var messages := if since.Some? then page else Reversed(page);
      Ok(Page(messages, if messages == [] then None else Some(Key(Last(messages))), |kept| > Clamp(limit)))
  }

  // ---- A reader that polls between the writes of others ----

  datatype Session = Session(log: Log, cursor: Clock, got: seq<Row>)

  datatype Event = Write(op: Op) | Poll(limit: int, fetched: seq<Row>)

  /** A poll counts when the database could answer it so; the reader then moves to next_cursor. */
  ghost function Advance(s: Session, e: Event, room: RoomId, reader: UserId): Session {
    match e
    case Write(op) => s.(log := Step(s.log, op))
    case Poll(limit, fetched) =>
      if !Answers(s.log.rows, room, reader, Some(s.cursor), limit, fetched) then s
      else
        match List(s.log, room, reader, Some(s.cursor), limit, fetched)
        case Err(_) => s
        case Ok(page) =>
          Session(s.log, if page.next.Some? then page.next.value else s.cursor, s.got + page.messages)
  }

  ghost function Play(s: Session, events: seq<Event>, room: RoomId, reader: UserId): Session {
    if events == [] then s else Advance(Play(s, Init(events), room, reader), Last(events), room, reader)
  }

  /** The originals among the rows received, as (id, key), in the order of arrival. */
  function Received(got: seq<Row>, room: RoomId): seq<(Id, Clock)> {
    if got == [] then []
    else Received(Init(got), room) + if IsOriginal(Last(got), room) then [(Last(got).id, Key(Last(got)))] else []
  }

  /** The originals of the room that the reader may see, up to a key, in submission order. */
  function Due(rows: seq<Row>, room: RoomId, reader: UserId, upTo: Clock): seq<(Id, Clock)> {
    if rows == [] then []
    else
      var r := Last(rows);
      Due(Init(rows), room, reader, upTo)
      + if IsOriginal(r, room) && Visible(r, reader) && !Before(upTo, Key(r)) then [(r.id, Key(r))] else []
  }

  // ---- Lists of originals ----

  ghost predicate Rising(s: seq<(Id, Clock)>) {
    forall i, j :: 0 <= i < j < |s| ==> Before(s[i].1, s[j].1)
  }

  /** A rising list is determined by its elements. */
  lemma {:induction false} RisingIsUnique(a: seq<(Id, Clock)>, b: seq<(Id, Clock)>)
    requires Rising(a) && Rising(b)
    requires forall x :: x in a <==> x in b
    ensures a == b
  {
    assert a == [] || Last(a) in a;
    assert b == [] || Last(b) in b;
    if a != [] {
      assert Last(a) == Last(b);
      forall x
        ensures x in Init(a) <==> x in Init(b)
      {
        assert x in Init(a) <==> x in a && x != Last(a);
        assert x in Init(b) <==> x in b && x != Last(b);
      }
      RisingIsUnique(Init(a), Init(b));
    }
  }

  lemma {:induction false} DueMembers(rows: seq<Row>, room: RoomId, reader: UserId, upTo: Clock)
    ensures forall x :: x in Due(rows, room, reader, upTo) <==>
              exists r :: r in rows && IsOriginal(r, room) && Visible(r, reader) && !Before(upTo, Key(r))
                  && x == (r.id, Key(r))
  {
    if rows != [] {
      DueMembers(Init(rows), room, reader, upTo);
      assert forall r :: r in rows <==> r in Init(rows) || r == Last(rows);
    }
  }

  lemma {:induction false} DueRises(rows: seq<Row>, room: RoomId, reader: UserId, upTo: Clock)
    requires Sound(rows)
    ensures Rising(Due(rows, room, reader, upTo))
  {
    if rows != [] {
      var before, r := Init(rows), Last(rows);
      DueRises(before, room, reader, upTo);
      DueMembers(before, room, reader, upTo);
      forall x | x in Due(before, room, reader, upTo) && IsOriginal(r, room)
        ensures Before(x.1, Key(r))
      {
        var o :| o in before && IsOriginal(o, room) && x == (o.id, Key(o));
        var k :| 0 <= k < |before| && before[k] == o;
        NothingAheadOfTheClock(before, room, k);
      }
    }
  }

  lemma {:induction false} ReceivedMembers(got: seq<Row>, room: RoomId)
    ensures forall x :: x in Received(got, room) <==> exists r :: r in got && IsOriginal(r, room) && x == (r.id, Key(r))
  {
    if got != [] {
      ReceivedMembers(Init(got), room);
      assert forall r :: r in got <==> r in Init(got) || r == Last(got);
    }
  }

  lemma {:induction false} ReceivedSplits(a: seq<Row>, b: seq<Row>, room: RoomId)
    ensures Received(a + b, room) == Received(a, room) + Received(b, room)
  {
    if b == [] {
      assert a + b == a;
    } else {
      assert Init(a + b) == a + Init(b);
      ReceivedSplits(a, Init(b), room);
    }
  }

  /** Originals that arrive in key order without repetition rise. */
  lemma {:induction false} ReceivedRises(rows: seq<Row>, got: seq<Row>, room: RoomId)
    requires Sound(rows) && Ascending(got) && forall r :: r in got ==> r in rows
    ensures Rising(Received(got, room))
  {
    if got != [] {
      var rest, r := Init(got), Last(got);
      ReceivedRises(rows, rest, room);
      ReceivedMembers(rest, room);
      forall x | x in Received(rest, room) && IsOriginal(r, room)
        ensures Before(x.1, Key(r))
      {
        var o :| o in rest && IsOriginal(o, room) && x == (o.id, Key(o));
        var k :| 0 <= k < |rest| && rest[k] == o;
        assert got[k].id != r.id && !Before(Key(r), Key(got[k]));
        if Key(o) == Key(r) {
          KeysOfOriginalsAreUnique(rows, room, o, r);
        }
      }
    }
  }

  // ---- What holds between two events ----

  ghost predicate CursorBehind(log: Log, room: RoomId, cursor: Clock) {
    !Before(Replay(log.rows, room), cursor)
  }

  /** Each received row is, but for a later tombstone, a row of the log. */
  ghost predicate Known(rows: seq<Row>, got: seq<Row>) {
    forall r :: r in got ==> exists k :: 0 <= k < |rows| && rows[k].(deletedAt := None) == r.(deletedAt := None)
  }

  ghost predicate Served(s: Session, room: RoomId, reader: UserId) {
    && WellFormed(s.log)
    && CursorBehind(s.log, room, s.cursor)
    && Received(s.got, room) == Due(s.log.rows, room, reader, s.cursor)
    && Ascending(s.got) && Known(s.log.rows, s.got)
    && forall r :: r in s.got ==> r.room == room && Visible(r, reader) && !Before(s.cursor, Key(r))
  }

  // ---- Writes do not disturb the reader ----

  lemma {:induction false} TombstonesKeepDue(a: seq<Row>, b: seq<Row>, room: RoomId, reader: UserId, upTo: Clock)
    requires SameButTombstones(a, b)
    ensures Due(a, room, reader, upTo) == Due(b, room, reader, upTo)
  {
    if a != [] {
      assert Last(a).(deletedAt := None) == Last(b).(deletedAt := None);
      TombstonesKeepDue(Init(a), Init(b), room, reader, upTo);
    }
  }

  lemma WriteKeepsKnown(log: Log, op: Op, got: seq<Row>)
    requires Known(log.rows, got)
    ensures Known(Step(log, op).rows, got)
  {
    var a, b := log.rows, Step(log, op).rows;
    StepShape(log, op);
    forall r | r in got
      ensures exists k :: 0 <= k < |b| && b[k].(deletedAt := None) == r.(deletedAt := None)
    {
      var k :| 0 <= k < |a| && a[k].(deletedAt := None) == r.(deletedAt := None);
      assert b[k].(deletedAt := None) == a[k].(deletedAt := None);
    }
  }

  /** What is due up to the cursor stays as it is: a new original is always after the cursor. */
  lemma WriteKeepsDue(log: Log, op: Op, room: RoomId, reader: UserId, cursor: Clock)
    requires WellFormed(log) && CursorBehind(log, room, cursor)
    ensures WellFormed(Step(log, op)) && CursorBehind(Step(log, op), room, cursor)
    ensures Due(Step(log, op).rows, room, reader, cursor) == Due(log.rows, room, reader, cursor)
  {
    var a, b := log.rows, Step(log, op).rows;
    StepKeepsWellFormed(log, op);
    StepShape(log, op);
    if b != [] && Init(b) == a {
      assert Fits(a, Last(b));
    } else {
      TombstonesKeepQueries(a, b, "", room);
      TombstonesKeepDue(a, b, room, reader, cursor);
    }
  }

  lemma WriteKeepsServed(s: Session, op: Op, room: RoomId, reader: UserId)
    requires Served(s, room, reader)
    ensures Served(s.(log := Step(s.log, op)), room, reader)
  {
    WriteKeepsDue(s.log, op, room, reader, s.cursor);
    WriteKeepsKnown(s.log, op, s.got);
  }

  // ---- A poll delivers exactly the next originals ----

  lemma {:induction false} KeptIsAscending(fetched: seq<Row>, reader: UserId)
    requires Ascending(fetched)
    ensures Ascending(Kept(fetched, reader))
  {
    if fetched != [] {
      var kept := Kept(Init(fetched), reader);
      KeptIsAscending(Init(fetched), reader);
      forall i | 0 <= i < |kept|
        ensures kept[i].id != Last(fetched).id && !Before(Key(Last(fetched)), Key(kept[i]))
      {
        assert kept[i] in Init(fetched);
      }
    }
  }

  /** The rows of a page, ascending, lie after the old cursor and up to the new one. */
  lemma PageLiesBetween(rows: seq<Row>, room: RoomId, reader: UserId, cursor: Clock, limit: nat, fetched: seq<Row>)
    requires AnswersSince(rows, room, reader, cursor, limit + 1, fetched)
    ensures var page := Cut(Kept(fetched, reader), limit);
            && Ascending(page)
            && forall r :: r in page ==>
                 r in rows && r.room == room && Visible(r, reader) && Before(cursor, Key(r))
                     && !Before(Key(Last(page)), Key(r))
  {
    var kept := Kept(fetched, reader);
    var page := Cut(kept, limit);
    KeptIsAscending(fetched, reader);
    assert Ascending(page);
    forall r | r in page
      ensures r in fetched && Visible(r, reader) && !Before(Key(Last(page)), Key(r))
    {
      assert r in kept;
      var i :| 0 <= i < |page| && page[i] == r;
      assert i == |page| - 1 || !Before(Key(page[|page| - 1]), Key(page[i]));
    }
  }

  /** A visible row between the two cursors is on the page. */
  lemma NothingIsSkipped(
    rows: seq<Row>, room: RoomId, reader: UserId, cursor: Clock, limit: nat, fetched: seq<Row>, r: Row)
    requires AnswersSince(rows, room, reader, cursor, limit + 1, fetched)
    requires r in rows && r.room == room && Plain(reader) && Visible(r, reader)
    requires var page := Cut(Kept(fetched, reader), limit);
             page != [] && Before(cursor, Key(r)) && Before(Key(r), Key(Last(page)))
    ensures r in Cut(Kept(fetched, reader), limit)
  {
    var kept := Kept(fetched, reader);
    var page := Cut(kept, limit);
    VisibleIsCandidate(r, reader);
    assert Last(page) in kept;
    LastIsGreatest(fetched, Last(page));
    assert r in fetched;
    assert r in kept;
    KeptIsAscending(fetched, reader);
    LastIsGreatest(kept, Last(page));
    assert kept == page || kept == page + [Last(kept)];
  }

  lemma LastIsGreatest(s: seq<Row>, r: Row)
    requires Ascending(s) && r in s
    ensures !Before(Key(Last(s)), Key(r))
  {
    var i :| 0 <= i < |s| && s[i] == r;
    assert i == |s| - 1 || !Before(Key(s[|s| - 1]), Key(s[i]));
  }

  lemma DueIsReceived(s: Session, room: RoomId, reader: UserId, limit: nat, fetched: seq<Row>, x: (Id, Clock))
    requires Served(s, room, reader) && Plain(reader)
    requires AnswersSince(s.log.rows, room, reader, s.cursor, limit + 1, fetched)
    requires var page := Cut(Kept(fetched, reader), limit);
             page != [] && x in Due(s.log.rows, room, reader, Key(Last(page)))
    ensures x in Received(s.got, room) || x in Received(Cut(Kept(fetched, reader), limit), room)
  {
    var rows, page := s.log.rows, Cut(Kept(fetched, reader), limit);
    DueMembers(rows, room, reader, Key(Last(page)));
    var r :| r in rows && IsOriginal(r, room) && Visible(r, reader) && !Before(Key(Last(page)), Key(r))
        && x == (r.id, Key(r));
    if Before(s.cursor, Key(r)) {
      OriginalIsOnPage(rows, room, reader, s.cursor, limit, fetched, r);
      ReceivedMembers(page, room);
    } else {
      DueMembers(rows, room, reader, s.cursor);
    }
  }

  lemma ReceivedIsDue(s: Session, room: RoomId, reader: UserId, limit: nat, fetched: seq<Row>, x: (Id, Clock))
    requires Served(s, room, reader)
    requires AnswersSince(s.log.rows, room, reader, s.cursor, limit + 1, fetched)
    requires Cut(Kept(fetched, reader), limit) != []
    requires x in Received(s.got, room) || x in Received(Cut(Kept(fetched, reader), limit), room)
    ensures x in Due(s.log.rows, room, reader, Key(Last(Cut(Kept(fetched, reader), limit))))
  {
    var rows, page := s.log.rows, Cut(Kept(fetched, reader), limit);
    PageLiesBetween(rows, room, reader, s.cursor, limit, fetched);
    DueMembers(rows, room, reader, Key(Last(page)));
    if x in Received(page, room) {
      ReceivedMembers(page, room);
    } else {
      DueMembers(rows, room, reader, s.cursor);
      assert Last(page) in page;
      var r :| r in rows && IsOriginal(r, room) && Visible(r, reader) && !Before(s.cursor, Key(r))
          && x == (r.id, Key(r));
      assert !Before(Key(Last(page)), Key(r));
    }
  }

  lemma ReceivedKeepsRising(s: Session, room: RoomId, reader: UserId, limit: nat, fetched: seq<Row>)
    requires Served(s, room, reader)
    requires AnswersSince(s.log.rows, room, reader, s.cursor, limit + 1, fetched)
    ensures Rising(Received(s.got, room) + Received(Cut(Kept(fetched, reader), limit), room))
  {
    var rows, page := s.log.rows, Cut(Kept(fetched, reader), limit);
    PageLiesBetween(rows, room, reader, s.cursor, limit, fetched);
    DueRises(rows, room, reader, s.cursor);
    DueMembers(rows, room, reader, s.cursor);
    ReceivedRises(rows, page, room);
    ReceivedMembers(page, room);
    forall x, y | x in Received(s.got, room) && y in Received(page, room)
      ensures Before(x.1, y.1)
    {
      assert !Before(s.cursor, x.1) && Before(s.cursor, y.1);
    }
  }

  /** Everything received so far and the page together are what is due up to the new cursor. */
  lemma PageCompletesDue(s: Session, room: RoomId, reader: UserId, limit: nat, fetched: seq<Row>)
    requires Served(s, room, reader) && Plain(reader)
    requires AnswersSince(s.log.rows, room, reader, s.cursor, limit + 1, fetched)
    requires Cut(Kept(fetched, reader), limit) != []
    ensures var page := Cut(Kept(fetched, reader), limit);
            Received(s.got + page, room) == Due(s.log.rows, room, reader, Key(Last(page)))
  {
    var page := Cut(Kept(fetched, reader), limit);
    var all := Due(s.log.rows, room, reader, Key(Last(page)));
    ReceivedSplits(s.got, page, room);
    forall x
      ensures x in Received(s.got, room) + Received(page, room) <==> x in all
    {
      if x in all {
        DueIsReceived(s, room, reader, limit, fetched, x);
      } else if x in Received(s.got, room) + Received(page, room) {
        ReceivedIsDue(s, room, reader, limit, fetched, x);
      }
    }
    ReceivedKeepsRising(s, room, reader, limit, fetched);
    DueRises(s.log.rows, room, reader, Key(Last(page)));
    RisingIsUnique(Received(s.got, room) + Received(page, room), all);
  }

  /** A due original after the old cursor is on the page, also when its key is the new cursor. */
  lemma OriginalIsOnPage(
    rows: seq<Row>, room: RoomId, reader: UserId, cursor: Clock, limit: nat, fetched: seq<Row>, r: Row)
    requires Sound(rows) && Plain(reader)
    requires AnswersSince(rows, room, reader, cursor, limit + 1, fetched)
    requires r in rows && IsOriginal(r, room) && Visible(r, reader) && Before(cursor, Key(r))
    requires var page := Cut(Kept(fetched, reader), limit); page != [] && !Before(Key(Last(page)), Key(r))
    ensures r in Cut(Kept(fetched, reader), limit)
  {
    var last := Last(Cut(Kept(fetched, reader), limit));
    PageLiesBetween(rows, room, reader, cursor, limit, fetched);
    if Key(r) == Key(last) {
      OnlyOriginalsAreNumbered(rows, r);
      OnlyOriginalsAreNumbered(rows, last);
      KeysOfOriginalsAreUnique(rows, room, r, last);
    } else {
      NothingIsSkipped(rows, room, reader, cursor, limit, fetched, r);
    }
  }

  /** Commits and edits are stored with sequence number 0, originals are not. */
  lemma OnlyOriginalsAreNumbered(rows: seq<Row>, r: Row)
    requires Sound(rows) && r in rows
    ensures r.seqno > 0 <==> IsOriginal(r, r.room)
  {
    var k :| 0 <= k < |rows| && rows[k] == r;
    SoundPrefix(rows, k);
  }

  lemma PageKeepsServed(s: Session, limit: nat, fetched: seq<Row>, room: RoomId, reader: UserId)
    requires Served(s, room, reader) && Plain(reader)
    requires AnswersSince(s.log.rows, room, reader, s.cursor, limit + 1, fetched)
    requires Cut(Kept(fetched, reader), limit) != []
    ensures var page := Cut(Kept(fetched, reader), limit);
            Served(Session(s.log, Key(Last(page)), s.got + page), room, reader)
  {
    var rows, page := s.log.rows, Cut(Kept(fetched, reader), limit);
    PageLiesBetween(rows, room, reader, s.cursor, limit, fetched);
    assert Last(page) in page;
    assert CursorBehind(s.log, room, Key(Last(page))) by {
      var k :| 0 <= k < |rows| && rows[k] == Last(page);
      NothingAheadOfTheClock(rows, room, k);
    }
    PageCompletesDue(s, room, reader, limit, fetched);
    PageIsNew(rows, s.got, page, s.cursor);
    forall r | r in s.got + page
      ensures r.room == room && Visible(r, reader) && !Before(Key(Last(page)), Key(r))
    {
      assert r in s.got || r in page;
    }
  }

  /** A poll either changes nothing or brings a page and moves the cursor to its last row. */
  lemma PollOutcome(s: Session, limit: int, fetched: seq<Row>, room: RoomId, reader: UserId)
    ensures var next, page := Advance(s, Poll(limit, fetched), room, reader), Cut(Kept(fetched, reader), Clamp(limit));
            || next == s
            || (page != [] && AnswersSince(s.log.rows, room, reader, s.cursor, Clamp(limit) + 1, fetched)
                && next == Session(s.log, Key(Last(page)), s.got + page))
  {
    assert s.got + [] == s.got;
  }

  lemma PollKeepsServed(s: Session, limit: int, fetched: seq<Row>, room: RoomId, reader: UserId)
    requires Served(s, room, reader) && Plain(reader)
    ensures Served(Advance(s, Poll(limit, fetched), room, reader), room, reader)
  {
    PollOutcome(s, limit, fetched, room, reader);
    if Advance(s, Poll(limit, fetched), room, reader) != s {
      PageKeepsServed(s, Clamp(limit), fetched, room, reader);
    }
  }

  lemma PageIsNew(rows: seq<Row>, got: seq<Row>, page: seq<Row>, cursor: Clock)
    requires Sound(rows) && Ascending(got) && Ascending(page) && Known(rows, got)
    requires forall r :: r in got ==> !Before(cursor, Key(r))
    requires forall r :: r in page ==> r in rows && Before(cursor, Key(r))
    ensures Ascending(got + page) && Known(rows, got + page)
  {
    forall i, j | 0 <= i < |got| && 0 <= j < |page|
      ensures got[i].id != page[j].id && !Before(Key(page[j]), Key(got[i]))
    {
      assert got[i] in got && page[j] in page;
      var k :| 0 <= k < |rows| && rows[k].(deletedAt := None) == got[i].(deletedAt := None);
      var m :| 0 <= m < |rows| && rows[m] == page[j];
      FindIsUnique(rows, k);
      FindIsUnique(rows, m);
    }
  }

  // ---- The theorems ----

  lemma {:induction false} PlayKeepsServed(s: Session, events: seq<Event>, room: RoomId, reader: UserId)
    requires Served(s, room, reader) && Plain(reader)
    ensures Served(Play(s, events, room, reader), room, reader)
  {
    if events != [] {
      var mid := Play(s, Init(events), room, reader);
      PlayKeepsServed(s, Init(events), room, reader);
      match Last(events)
      case Write(op) => WriteKeepsServed(mid, op, room, reader);
      case Poll(limit, fetched) => PollKeepsServed(mid, limit, fetched, room, reader);
    }
  }

  /** At the start nothing is due: sequence numbers begin with 1. */
  lemma {:induction false} NothingDueAtTheStart(rows: seq<Row>, room: RoomId, reader: UserId)
    requires Sound(rows)
    ensures Due(rows, room, reader, Clock(0, 0)) == []
  {
    if rows != [] {
      NothingDueAtTheStart(Init(rows), room, reader);
    }
  }

  /**
   Delivery, over every run: a reader starts paging at (0, 0) in any state the server can reach and goes
   on following next_cursor while others submit, edit and delete. Whatever extra rows the query lets
   through and however it orders rows with one key, the originals received are exactly the visible
   originals up to the cursor, each once and in submission order; no row at all is received twice, and
   no whisper that was not for the reader.
   */
  lemma PagingDeliversExactlyOnce(history: seq<Op>, events: seq<Event>, room: RoomId, reader: UserId)
    requires Plain(reader)
    ensures var s := Play(Session(Run(EMPTY, history), Clock(0, 0), []), events, room, reader);
            && Received(s.got, room) == Due(s.log.rows, room, reader, s.cursor)
            && Rising(Received(s.got, room))
            && (forall i, j :: 0 <= i < j < |s.got| ==> s.got[i].id != s.got[j].id)
            && (forall r :: r in s.got ==> r.room == room && Visible(r, reader))
  {
    var log := Run(EMPTY, history);
    RunIsWellFormed(history);
    NothingDueAtTheStart(log.rows, room, reader);
    PlayKeepsServed(Session(log, Clock(0, 0), []), events, room, reader);
    var s := Play(Session(log, Clock(0, 0), []), events, room, reader);
    DueRises(s.log.rows, room, reader, s.cursor);
  }
}
