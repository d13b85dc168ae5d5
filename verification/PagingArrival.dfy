/**
 Which rows ever reach a reader who follows next_cursor. Commits and edits are stored with sequence
 number 0: they may come to lie behind the cursor, or share their key with other rows.
 */
module PagingArrival {
  import opened Prelude
  import opened MessageLog
  import opened EpochOrder
  import opened WhisperFilter
  import opened MessagePaging
  import opened PagingEdges

  // ---- One page ----

  /** The row does not come later in the answer than the last row of the page. */
  ghost predicate ComesBy(fetched: seq<Row>, r: Row, last: Row) {
    exists j :: 0 <= j < |fetched| && fetched[j] == last && r in fetched[..j + 1]
  }

  /** The page ends with a row of the same key, before the row. */
  ghost predicate CutOff(fetched: seq<Row>, reader: UserId, limit: nat, r: Row) {
    var page := Cut(Kept(fetched, reader), limit);
    page != [] && Key(Last(page)) == Key(r) && !ComesBy(fetched, r, Last(page))
  }

  /** What is kept of a prefix of the answer is a prefix of what is kept. */
  lemma {:induction false} KeptPrefix(fetched: seq<Row>, reader: UserId, n: nat) returns (j: nat)
    requires 0 < n <= |Kept(fetched, reader)|
    ensures j < |fetched| && Visible(fetched[j], reader)
    ensures Kept(fetched[..j + 1], reader) == Kept(fetched, reader)[..n]
  {
    var kept := Kept(Init(fetched), reader);
    if n <= |kept| {
      j := KeptPrefix(Init(fetched), reader, n);
      assert fetched[..j + 1] == Init(fetched)[..j + 1];
      assert Kept(fetched, reader)[..n] == kept[..n];
    } else {
      j := |fetched| - 1;
      assert fetched[..j + 1] == fetched;
    }
  }

  /** The page holds exactly the visible rows of the answer up to its last row. */
  lemma PageIsPrefix(fetched: seq<Row>, reader: UserId, limit: nat, r: Row)
    requires Ascending(fetched) && Cut(Kept(fetched, reader), limit) != []
    ensures var page := Cut(Kept(fetched, reader), limit);
            r in page <==> Visible(r, reader) && ComesBy(fetched, r, Last(page))
  {
    var page := Cut(Kept(fetched, reader), limit);
    var j := KeptPrefix(fetched, reader, |page|);
    assert page == Kept(fetched[..j + 1], reader);
    assert Init(fetched[..j + 1]) == fetched[..j] && Last(fetched[..j + 1]) == fetched[j];
    assert Last(page) == fetched[j];
    forall i | 0 <= i < |fetched| && fetched[i] == fetched[j]
      ensures i == j
    {
    }
  }

  /** A visible row of the room is on a page exactly when the page passes it and is not cut off before it. */
  lemma RowIsOnPageIff(rows: seq<Row>, room: RoomId, reader: UserId, cursor: Clock, limit: nat, fetched: seq<Row>,
                       r: Row)
    requires AnswersSince(rows, room, reader, cursor, limit + 1, fetched)
    requires r in rows && r.room == room && Plain(reader) && Visible(r, reader)
    requires Cut(Kept(fetched, reader), limit) != []
    ensures var page := Cut(Kept(fetched, reader), limit);
            r in page <==>
              Before(cursor, Key(r)) && !Before(Key(Last(page)), Key(r)) && !CutOff(fetched, reader, limit, r)
  {
    var page := Cut(Kept(fetched, reader), limit);
    PageLiesBetween(rows, room, reader, cursor, limit, fetched);
    PageIsPrefix(fetched, reader, limit, r);
    if Before(cursor, Key(r)) && Before(Key(r), Key(Last(page))) {
      NothingIsSkipped(rows, room, reader, cursor, limit, fetched, r);
    }
  }

  /** Only a row that is stored with number 0 can be cut off, and only by another such row of its epoch. */
  lemma CutOffIsATie(rows: seq<Row>, room: RoomId, reader: UserId, cursor: Clock, limit: nat, fetched: seq<Row>, r: Row)
    requires Sound(rows) && AnswersSince(rows, room, reader, cursor, limit + 1, fetched)
    requires r in rows && r.room == room && Visible(r, reader) && CutOff(fetched, reader, limit, r)
    ensures var last := Last(Cut(Kept(fetched, reader), limit));
            last != r && last.epoch == r.epoch && last.seqno == r.seqno == 0
            && (last.editOf.Some? || r.editOf.Some?)
  {
    var page := Cut(Kept(fetched, reader), limit);
    var last := Last(page);
    PageLiesBetween(rows, room, reader, cursor, limit, fetched);
    PageIsPrefix(fetched, reader, limit, r);
    assert last in page;
    OnlyOriginalsAreNumbered(rows, r);
    OnlyOriginalsAreNumbered(rows, last);
    if r.seqno > 0 {
      KeysOfOriginalsAreUnique(rows, room, r, last);
    }
    if last.editOf.None? && r.editOf.None? {
      KeysOfCommitsAreUnique(rows, room, r, last);
    }
  }

  lemma KeysOfCommitsAreUnique(rows: seq<Row>, room: RoomId, a: Row, b: Row)
    requires Sound(rows) && a in rows && b in rows
    requires IsCommit(a, room) && IsCommit(b, room) && Key(a) == Key(b)
    ensures a == b
  {
    var cs := Commits(rows, room);
    CommitsFormALine(rows, room);
    assert a in cs && b in cs;
    var i :| 0 <= i < |cs| && cs[i] == a;
    var j :| 0 <= j < |cs| && cs[j] == b;
  }

  // ---- Runs ----

  predicate Has(rows: seq<Row>, id: Id) {
    exists r :: r in rows && r.id == id
  }

  /** The poll moves the cursor over the row, which is already stored, and is not cut off before it. */
  ghost predicate Passes(s: Session, e: Event, room: RoomId, reader: UserId, r: Row) {
    && e.Poll? && r in s.log.rows
    && Before(s.cursor, Key(r)) && !Before(Advance(s, e, room, reader).cursor, Key(r))
    && !CutOff(e.fetched, reader, Clamp(e.limit), r)
  }

  ghost predicate Brings(s: Session, e: Event, room: RoomId, reader: UserId, id: Id) {
    exists r :: Passes(s, e, room, reader, r) && r.id == id && r.room == room && Visible(r, reader)
  }

  lemma EventBringsIff(s: Session, e: Event, room: RoomId, reader: UserId, id: Id)
    requires Plain(reader)
    ensures Has(Advance(s, e, room, reader).got, id) <==> Has(s.got, id) || Brings(s, e, room, reader, id)
  {
    if e.Poll? {
      var rows, next, page := s.log.rows, Advance(s, e, room, reader), Cut(Kept(e.fetched, reader), Clamp(e.limit));
      PollOutcome(s, e.limit, e.fetched, room, reader);
      if next != s {
        PageLiesBetween(rows, room, reader, s.cursor, Clamp(e.limit), e.fetched);
        forall r | r in rows && r.room == room && Visible(r, reader)
          ensures r in page <==> Passes(s, e, room, reader, r)
        {
          RowIsOnPageIff(rows, room, reader, s.cursor, Clamp(e.limit), e.fetched, r);
        }
        assert forall r :: r in next.got <==> r in s.got || r in page;
      }
    }
  }

  /** Event n of a run brings the row. */
  ghost predicate IsBroughtAt(s: Session, events: seq<Event>, n: nat, room: RoomId, reader: UserId, id: Id) {
    n < |events| && Brings(Play(s, events[..n], room, reader), events[n], room, reader, id)
  }

  lemma BroughtEarlier(s: Session, events: seq<Event>, n: nat, room: RoomId, reader: UserId, id: Id)
    requires n < |events| - 1
    ensures IsBroughtAt(s, Init(events), n, room, reader, id) <==> IsBroughtAt(s, events, n, room, reader, id)
  {
    assert Init(events)[..n] == events[..n];
  }

  lemma BroughtLast(s: Session, events: seq<Event>, room: RoomId, reader: UserId, id: Id)
    requires events != []
    ensures IsBroughtAt(s, events, |events| - 1, room, reader, id) <==>
              Brings(Play(s, Init(events), room, reader), Last(events), room, reader, id)
  {
    assert events[..|events| - 1] == Init(events);
  }

  /**
   Over every run, whatever was received before: a row arrives if and only if some poll moves the cursor
   over it, after it was stored, and its page is not cut off before it by a row with the same key.
   */
  lemma {:induction false} RowArrivesIff(s: Session, events: seq<Event>, room: RoomId, reader: UserId, id: Id)
    requires Plain(reader)
    ensures Has(Play(s, events, room, reader).got, id) <==>
              Has(s.got, id) || exists n: nat :: IsBroughtAt(s, events, n, room, reader, id)
  {
    if events != [] {
      RowArrivesIff(s, Init(events), room, reader, id);
      EventBringsIff(Play(s, Init(events), room, reader), Last(events), room, reader, id);
      BroughtLast(s, events, room, reader, id);
      forall n: nat | n < |events| - 1
        ensures IsBroughtAt(s, Init(events), n, room, reader, id) <==> IsBroughtAt(s, events, n, room, reader, id)
      {
        BroughtEarlier(s, events, n, room, reader, id);
      }
    }
  }

  // ---- Commits ----

  /** A row with the id of a commit is that commit. */
  ghost predicate IsCommitId(rows: seq<Row>, room: RoomId, id: Id) {
    forall r :: r in rows && r.id == id ==> IsCommit(r, room)
  }

  /** The reader is in an earlier epoch and goes beyond the commit, or to it without being cut off before it. */
  ghost predicate PassesCommit(s: Session, e: Event, room: RoomId, reader: UserId, commit: Row) {
    && e.Poll? && commit in s.log.rows
    && s.cursor.epoch < commit.epoch <= Advance(s, e, room, reader).cursor.epoch
    && !CutOff(e.fetched, reader, Clamp(e.limit), commit)
  }

  lemma CommitPassesIff(s: Session, e: Event, room: RoomId, reader: UserId, commit: Row)
    requires Sound(s.log.rows) && (commit in s.log.rows ==> IsCommit(commit, room))
    ensures Passes(s, e, room, reader, commit) <==> PassesCommit(s, e, room, reader, commit)
    ensures commit in s.log.rows ==> Visible(commit, reader)
  {
    if commit in s.log.rows {
      CommitIsVisible(s.log.rows, room, reader, commit);
    }
  }

  lemma CommitIsVisible(rows: seq<Row>, room: RoomId, reader: UserId, commit: Row)
    requires Sound(rows) && commit in rows && IsCommit(commit, room)
    ensures Visible(commit, reader) && commit.seqno == 0
  {
    var k :| 0 <= k < |rows| && rows[k] == commit;
    SoundPrefix(rows, k);
  }

  /** Rows stay what they are, so what is a commit in the end was one before. */
  lemma {:induction false} WasCommitId(s: Session, events: seq<Event>, n: nat, room: RoomId, reader: UserId, id: Id)
    requires n <= |events| && IsCommitId(Play(s, events, room, reader).log.rows, room, id)
    ensures IsCommitId(Play(s, events[..n], room, reader).log.rows, room, id)
  {
    if n == |events| {
      assert events[..n] == events;
    } else {
      var before, e := Play(s, Init(events), room, reader), Last(events);
      assert Init(events)[..n] == events[..n];
      forall r | r in before.log.rows && r.id == id
        ensures IsCommit(r, room)
      {
        if e.Write? {
          StepKeepsCommit(before.log, e.op, room, r);
        }
      }
      WasCommitId(s, Init(events), n, room, reader, id);
    }
  }

  lemma StepKeepsCommit(log: Log, op: Op, room: RoomId, r: Row)
    requires r in log.rows && IsCommitId(Step(log, op).rows, room, r.id)
    ensures IsCommit(r, room)
  {
    var a, b := log.rows, Step(log, op).rows;
    StepShape(log, op);
    var k :| 0 <= k < |a| && a[k] == r;
    assert b[k].(deletedAt := None) == r.(deletedAt := None);
    assert b[k] in b;
  }

  lemma BringsCommitIff(s: Session, e: Event, room: RoomId, reader: UserId, id: Id)
    requires Sound(s.log.rows) && IsCommitId(s.log.rows, room, id)
    ensures Brings(s, e, room, reader, id) <==>
              exists commit :: PassesCommit(s, e, room, reader, commit) && commit.id == id
  {
    forall r | r in s.log.rows && r.id == id
      ensures Passes(s, e, room, reader, r) <==> PassesCommit(s, e, room, reader, r)
      ensures r.room == room && Visible(r, reader)
    {
      CommitPassesIff(s, e, room, reader, r);
    }
  }

  /**
   Over every run: a commit arrives if and only if it was already stored at the poll with which the reader
   leaves the earlier epochs, and the page does not end, before it, with an edit of a message of its epoch.
   */
  lemma CommitArrivesIff(s: Session, events: seq<Event>, room: RoomId, reader: UserId, id: Id)
    requires Served(s, room, reader) && Plain(reader)
    requires IsCommitId(Play(s, events, room, reader).log.rows, room, id)
    ensures Has(Play(s, events, room, reader).got, id) <==>
              || Has(s.got, id)
              || exists n: nat, commit: Row :: n < |events| && commit.id == id
                   && PassesCommit(Play(s, events[..n], room, reader), events[n], room, reader, commit)
  {
    RowArrivesIff(s, events, room, reader, id);
    forall n: nat | n < |events|
      ensures IsBroughtAt(s, events, n, room, reader, id) <==>
                exists commit :: PassesCommit(Play(s, events[..n], room, reader), events[n], room, reader, commit)
                                 && commit.id == id
    {
      PlayKeepsServed(s, events[..n], room, reader);
      WasCommitId(s, events, n, room, reader, id);
      BringsCommitIff(Play(s, events[..n], room, reader), events[n], room, reader, id);
    }
  }

  // ---- Ties ----

  lemma TiePage(s: Session, room: RoomId, reader: UserId, edit: Row, commit: Row)
    requires Served(s, room, reader) && Plain(reader) && (room, reader) in s.log.roles
    requires edit in s.log.rows && edit.room == room && edit.editOf.Some? && Visible(edit, reader)
    requires commit in s.log.rows && IsCommit(commit, room) && edit.epoch == commit.epoch > s.cursor.epoch
    requires forall r :: r in s.log.rows && Matches(r, room, reader, Some(s.cursor)) ==> !Before(Key(r), Key(commit))
    ensures Answers(s.log.rows, room, reader, Some(s.cursor), 1, [edit, commit])
    ensures Advance(s, Poll(1, [edit, commit]), room, reader) == Session(s.log, Key(commit), s.got + [edit])
  {
    OnlyOriginalsAreNumbered(s.log.rows, edit);
    CommitIsVisible(s.log.rows, room, reader, commit);
    TwoRowsAnswer(s.log.rows, room, reader, s.cursor, edit, commit);
    PageOfTwo(edit, commit, reader);
  }

  /** With a limit of 1, an edit that shares the key of a commit may fill the page, and the commit is lost for good. */
  lemma TieLosesCommit(s: Session, events: seq<Event>, room: RoomId, reader: UserId, edit: Row, commit: Row)
    requires Served(s, room, reader) && Plain(reader) && (room, reader) in s.log.roles
    requires edit in s.log.rows && edit.room == room && edit.editOf.Some? && Visible(edit, reader)
    requires commit in s.log.rows && IsCommit(commit, room) && edit.epoch == commit.epoch > s.cursor.epoch
    requires forall r :: r in s.log.rows && Matches(r, room, reader, Some(s.cursor)) ==> !Before(Key(r), Key(commit))
    ensures Answers(s.log.rows, room, reader, Some(s.cursor), 1, [edit, commit])
    ensures var next := Advance(s, Poll(1, [edit, commit]), room, reader);
            var end := Play(next, events, room, reader);
            && next == Session(s.log, Key(commit), s.got + [edit])
            && forall k :: |next.got| <= k < |end.got| && IsCommit(end.got[k], room) ==>
                 end.got[k].epoch > commit.epoch
  {
    TiePage(s, room, reader, edit, commit);
    PollKeepsServed(s, 1, [edit, commit], room, reader);
    CommitOfReachedEpochNeverArrives(Advance(s, Poll(1, [edit, commit]), room, reader), events, room, reader);
  }

  lemma PageOfTwo(a: Row, b: Row, reader: UserId)
    requires Visible(a, reader) && Visible(b, reader)
    ensures Cut(Kept([a, b], reader), 1) == [a]
  {
    assert Init([a, b]) == [a] && Init([a]) == [];
    assert Kept([a], reader) == [a];
    assert Kept([a, b], reader) == [a, b];
  }

  lemma TwoRowsAnswer(rows: seq<Row>, room: RoomId, reader: UserId, cursor: Clock, a: Row, b: Row)
    requires Sound(rows) && a in rows && b in rows && a != b && Key(a) == Key(b)
    requires a.room == b.room == room && Visible(a, reader) && Visible(b, reader) && Plain(reader)
             && Before(cursor, Key(a))
    requires forall r :: r in rows && Matches(r, room, reader, Some(cursor)) ==> !Before(Key(r), Key(b))
    ensures AnswersSince(rows, room, reader, cursor, 2, [a, b])
  {
    VisibleIsCandidate(a, reader);
    VisibleIsCandidate(b, reader);
    var i :| 0 <= i < |rows| && rows[i] == a;
    var j :| 0 <= j < |rows| && rows[j] == b;
    FindIsUnique(rows, i);
    FindIsUnique(rows, j);
  }

  // ---- A run that ends in a tie ----

  function CommitRequest(room: RoomId, user: UserId, epoch: nat): SubmitRequest {
    SubmitRequest(room, user, "phone", epoch, Commit, [], Some([]), None, None)
  }

  function MessageRequest(room: RoomId, user: UserId): SubmitRequest {
    SubmitRequest(room, user, "phone", 1, Application, [], None, None, None)
  }

  /** Two commits, and between them a message that is edited. */
  function TieHistory(room: RoomId, user: UserId): seq<Op> {
    [OpenRoom(room, user)] + [DoSubmit(CommitRequest(room, user, 0), "c0", 0)]
    + [DoSubmit(MessageRequest(room, user), "m", 0)]
    + [DoEdit(EditRequest(room, "m", user, "phone", [], None), 60, "e", 0)]
    + [DoSubmit(CommitRequest(room, user, 1), "c1", 0)]
  }

  function CommitRow(room: RoomId, user: UserId, id: Id, epoch: nat): Row {
    Row(id, room, user, "phone", epoch, 0, Commit, [], None, None, None, 0, 0, None)
  }

  function MessageRow(room: RoomId, user: UserId): Row {
    Row("m", room, user, "phone", 1, 1, Application, [], None, None, None, 0, 0, None)
  }

  function TieLog(room: RoomId, user: UserId, rows: seq<Row>, epoch: Epoch): Log {
    Log(rows, map[room := epoch], map[(room, user) := Owner])
  }

  lemma RunOfFive(log: Log, o1: Op, o2: Op, o3: Op, o4: Op, o5: Op)
    ensures Run(log, [o1] + [o2] + [o3] + [o4] + [o5]) == Step(Step(Step(Step(Step(log, o1), o2), o3), o4), o5)
  {
    RunSnoc(log, [], o1);
    RunSnoc(log, [o1], o2);
    RunSnoc(log, [o1] + [o2], o3);
    RunSnoc(log, [o1] + [o2] + [o3], o4);
    RunSnoc(log, [o1] + [o2] + [o3] + [o4], o5);
    assert [] + [o1] == [o1];
  }

  function EditRow(room: RoomId, user: UserId): Row {
    MessageRow(room, user).(id := "e", seqno := 0, editOf := Some("m"), editSeq := 1)
  }

  lemma CommitIsStored(room: RoomId, user: UserId, rows: seq<Row>, epoch: Epoch, id: Id)
    requires forall r :: r in rows ==> r.id != id
    ensures Step(TieLog(room, user, rows, epoch), DoSubmit(CommitRequest(room, user, epoch.epoch), id, 0))
         == TieLog(room, user, rows + [CommitRow(room, user, id, epoch.epoch)], Epoch(epoch.epoch + 1, 0, Some([])))
  {
  }

  lemma MessageIsStored(room: RoomId, user: UserId, rows: seq<Row>)
    requires forall r :: r in rows ==> r.id != "m"
    ensures Step(TieLog(room, user, rows, Epoch(1, 0, Some([]))), DoSubmit(MessageRequest(room, user), "m", 0))
         == TieLog(room, user, rows + [MessageRow(room, user)], Epoch(1, 1, Some([])))
  {
  }

  lemma EditIsStored(room: RoomId, user: UserId, rows: seq<Row>, epoch: Epoch)
    requires rows != [] && Last(rows) == MessageRow(room, user)
    requires (forall r :: r in rows ==> r.id != "e") && MaxEditSeq(rows, "m") == 0
    ensures Step(TieLog(room, user, rows, epoch), DoEdit(EditRequest(room, "m", user, "phone", [], None), 60, "e", 0))
         == TieLog(room, user, rows + [EditRow(room, user)], epoch)
  {
  }

  lemma {:induction false} NoEditsYet(rows: seq<Row>, id: Id)
    requires forall r :: r in rows ==> r.editOf.None?
    ensures MaxEditSeq(rows, id) == 0
  {
    if rows != [] {
      assert Last(rows) in rows;
      NoEditsYet(Init(rows), id);
    }
  }

  lemma FirstHalfRuns(room: RoomId, user: UserId)
    ensures var h, rows := TieHistory(room, user), [CommitRow(room, user, "c0", 0)] + [MessageRow(room, user)];
            Step(Step(Step(EMPTY, h[0]), h[1]), h[2]) == TieLog(room, user, rows, Epoch(1, 1, Some([])))
  {
    var c0 := CommitRow(room, user, "c0", 0);
    assert Step(EMPTY, OpenRoom(room, user)) == TieLog(room, user, [], Epoch(0, 0, None));
    CommitIsStored(room, user, [], Epoch(0, 0, None), "c0");
    assert [] + [c0] == [c0];
    MessageIsStored(room, user, [c0]);
  }

  lemma SecondHalfRuns(room: RoomId, user: UserId, rows: seq<Row>)
    requires rows == [CommitRow(room, user, "c0", 0)] + [MessageRow(room, user)]
    ensures var h, c1 := TieHistory(room, user), CommitRow(room, user, "c1", 1);
            Step(Step(TieLog(room, user, rows, Epoch(1, 1, Some([]))), h[3]), h[4])
            == TieLog(room, user, rows + [EditRow(room, user)] + [c1], Epoch(2, 0, Some([])))
  {
    NoEditsYet(rows, "m");
    EditIsStored(room, user, rows, Epoch(1, 1, Some([])));
    CommitIsStored(room, user, rows + [EditRow(room, user)], Epoch(1, 1, Some([])), "c1");
  }

  /** What the history leads to. */
  lemma TieHistoryRuns(room: RoomId, user: UserId)
    ensures var rows := [CommitRow(room, user, "c0", 0)] + [MessageRow(room, user)];
            Run(EMPTY, TieHistory(room, user))
            == TieLog(room, user, rows + [EditRow(room, user)] + [CommitRow(room, user, "c1", 1)],
                      Epoch(2, 0, Some([])))
  {
    var h := TieHistory(room, user);
    FirstHalfRuns(room, user);
    SecondHalfRuns(room, user, [CommitRow(room, user, "c0", 0)] + [MessageRow(room, user)]);
    RunOfFive(EMPTY, h[0], h[1], h[2], h[3], h[4]);
    assert h == [h[0]] + [h[1]] + [h[2]] + [h[3]] + [h[4]];
  }

  /**
   A reader at (0, 0), who has never been inside epoch 1, asks with a limit of 1, and the database answers
   with the edit and the commit of epoch 1, which share the key (1, 0): the commit never arrives.
   */
  lemma EditMayHideACommit(room: RoomId, user: UserId, events: seq<Event>)
    requires Plain(user)
    ensures var log := Run(EMPTY, TieHistory(room, user));
            && |log.rows| == 4 && log.rows[3] == CommitRow(room, user, "c1", 1)
            && var fetched := [log.rows[2], log.rows[3]];
               && Answers(log.rows, room, user, Some(Clock(0, 0)), 1, fetched)
               && var next := Advance(Session(log, Clock(0, 0), []), Poll(1, fetched), room, user);
                  && next == Session(log, Clock(1, 0), [log.rows[2]])
                  && var end := Play(next, events, room, user);
                     forall k :: 1 <= k < |end.got| && IsCommit(end.got[k], room) ==> end.got[k].epoch > 1
  {
    TieHistoryRuns(room, user);
    RunIsWellFormed(TieHistory(room, user));
    NothingDueAtTheStart(Run(EMPTY, TieHistory(room, user)).rows, room, user);
    HiddenFromTheStart(Run(EMPTY, TieHistory(room, user)), events, room, user);
  }

  lemma HiddenFromTheStart(log: Log, events: seq<Event>, room: RoomId, user: UserId)
    requires WellFormed(log) && Due(log.rows, room, user, Clock(0, 0)) == [] && Plain(user) && (room, user) in log.roles
    requires |log.rows| == 4 && log.rows[0] == CommitRow(room, user, "c0", 0) && log.rows[1] == MessageRow(room, user)
    requires log.rows[2] == EditRow(room, user) && log.rows[3] == CommitRow(room, user, "c1", 1)
    ensures var fetched := [log.rows[2], log.rows[3]];
            && Answers(log.rows, room, user, Some(Clock(0, 0)), 1, fetched)
            && var next := Advance(Session(log, Clock(0, 0), []), Poll(1, fetched), room, user);
               && next == Session(log, Clock(1, 0), [log.rows[2]])
               && var end := Play(next, events, room, user);
                  forall k :: 1 <= k < |end.got| && IsCommit(end.got[k], room) ==> end.got[k].epoch > 1
  {
    assert [] + [log.rows[2]] == [log.rows[2]];
    forall r | r in log.rows && Matches(r, room, user, Some(Clock(0, 0)))
      ensures !Before(Key(r), Key(log.rows[3]))
    {
      var k :| 0 <= k < |log.rows| && log.rows[k] == r;
    }
    TieLosesCommit(Session(log, Clock(0, 0), []), events, room, user, log.rows[2], log.rows[3]);
  }
}
