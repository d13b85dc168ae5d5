/**
 The edges of message paging: what an empty page means, which rows a cursor hides, what the newest
 page holds, and that the database always has an answer to give.
 */
module PagingEdges {
  import opened Prelude
  import opened MessageLog
  import opened EpochOrder
  import opened WhisperFilter
  import opened MessagePaging

  /** The query lets nothing through but what the reader may see. */
  ghost predicate Exact(rows: seq<Row>, room: RoomId, reader: UserId) {
    forall r :: r in rows && Candidate(r, room, reader) ==> Visible(r, reader)
  }

  /** A row of the room that the reader may see and that lies after the cursor. */
  ghost predicate Outstanding(rows: seq<Row>, room: RoomId, reader: UserId, cursor: Clock, r: Row) {
    r in rows && r.room == room && Visible(r, reader) && Before(cursor, Key(r))
  }

  /** Where the query is exact, an empty page means that nothing is outstanding. */
  lemma EmptyPageMeansCaughtUp(rows: seq<Row>, room: RoomId, reader: UserId, cursor: Clock, limit: int,
                               fetched: seq<Row>)
    requires Plain(reader) && Exact(rows, room, reader)
    requires AnswersSince(rows, room, reader, cursor, Clamp(limit) + 1, fetched)
    ensures Cut(Kept(fetched, reader), Clamp(limit)) == [] <==>
              !exists r :: Outstanding(rows, room, reader, cursor, r)
  {
    var page := Cut(Kept(fetched, reader), Clamp(limit));
    PageLiesBetween(rows, room, reader, cursor, Clamp(limit), fetched);
    if page != [] {
      assert Last(page) in page && Outstanding(rows, room, reader, cursor, Last(page));
    }
    if r :| Outstanding(rows, room, reader, cursor, r) {
      VisibleIsCandidate(r, reader);
      assert fetched != [];
      assert Last(fetched) in fetched;
      assert Last(fetched) in Kept(fetched, reader);
    }
  }

  /** In general an empty page hides outstanding rows exactly when strangers' whispers fill the fetch limit. */
  lemma EmptyPageHidesRows(rows: seq<Row>, room: RoomId, reader: UserId, cursor: Clock, limit: int,
        fetched: seq<Row>, r: Row)
    requires Plain(reader) && Outstanding(rows, room, reader, cursor, r)
    requires AnswersSince(rows, room, reader, cursor, Clamp(limit) + 1, fetched)
    ensures Cut(Kept(fetched, reader), Clamp(limit)) == [] <==>
              |fetched| == Clamp(limit) + 1 && forall f :: f in fetched ==> !Visible(f, reader)
  {
    var kept := Kept(fetched, reader);
    VisibleIsCandidate(r, reader);
    assert kept == [] <==> forall f :: f in fetched ==> !Visible(f, reader) by {
      assert kept == [] || kept[0] in kept;
    }
    if |fetched| < Clamp(limit) + 1 {
      assert r in fetched;
    }
  }

  /** A poll that brings rows moves the cursor on, and brings only rows after the old cursor. */
  lemma PagesMakeProgress(s: Session, limit: int, fetched: seq<Row>, room: RoomId, reader: UserId)
    ensures var next := Advance(s, Poll(limit, fetched), room, reader);
            && (next == s || Before(s.cursor, next.cursor))
            && |s.got| <= |next.got| && next.got[..|s.got|] == s.got
            && forall k :: |s.got| <= k < |next.got| ==> Before(s.cursor, Key(next.got[k]))
  {
    var next, page := Advance(s, Poll(limit, fetched), room, reader), Cut(Kept(fetched, reader), Clamp(limit));
    PollOutcome(s, limit, fetched, room, reader);
    if next != s {
      PageLiesBetween(s.log.rows, room, reader, s.cursor, Clamp(limit), fetched);
      assert Last(page) in page;
      forall k | |s.got| <= k < |next.got|
        ensures Before(s.cursor, Key(next.got[k]))
      {
        assert next.got[k] == page[k - |s.got|];
        assert next.got[k] in page;
      }
    }
  }

  /** Whatever happens, only rows after the cursor are still delivered. */
  lemma {:induction false} CursorOnlyAdvances(s: Session, events: seq<Event>, room: RoomId, reader: UserId)
    ensures var end := Play(s, events, room, reader);
            && !Before(end.cursor, s.cursor)
            && |s.got| <= |end.got| && end.got[..|s.got|] == s.got
            && forall k :: |s.got| <= k < |end.got| ==> Before(s.cursor, Key(end.got[k]))
  {
    if events != [] {
      var mid, e := Play(s, Init(events), room, reader), Last(events);
      CursorOnlyAdvances(s, Init(events), room, reader);
      if e.Poll? {
        var end := Advance(mid, e, room, reader);
        PagesMakeProgress(mid, e.limit, e.fetched, room, reader);
        assert forall k :: |s.got| <= k < |mid.got| ==> end.got[..|mid.got|][k] == mid.got[k];
      }
    }
  }

  /**
   Paging alone does not retrieve missed commits: once the cursor is inside epoch e, the commit that
   ends epoch e is never delivered, in no continuation of the run. Nor is any further edit of a message of
   epoch e, for edits too are stored with number 0.
   */
  lemma CommitOfReachedEpochNeverArrives(s: Session, events: seq<Event>, room: RoomId, reader: UserId)
    requires Served(s, room, reader) && Plain(reader)
    ensures var end := Play(s, events, room, reader);
            forall k :: |s.got| <= k < |end.got| && (IsCommit(end.got[k], room) || end.got[k].editOf.Some?) ==>
              end.got[k].epoch > s.cursor.epoch
  {
    CursorOnlyAdvances(s, events, room, reader);
    PlayKeepsServed(s, events, room, reader);
    var end := Play(s, events, room, reader);
    forall k | |s.got| <= k < |end.got| && (IsCommit(end.got[k], room) || end.got[k].editOf.Some?)
      ensures end.got[k].epoch > s.cursor.epoch
    {
      var rows := end.log.rows;
      assert end.got[k] in end.got;
      var j :| 0 <= j < |rows| && rows[j].(deletedAt := None) == end.got[k].(deletedAt := None);
      OnlyOriginalsAreNumbered(rows, rows[j]);
    }
  }

  /** From (0, 0), where a reader begins, the commit of epoch 0 and the edits of its messages never arrive. */
  lemma EpochZeroIsOutOfReach(history: seq<Op>, events: seq<Event>, room: RoomId, reader: UserId)
    requires Plain(reader)
    ensures var end := Play(Session(Run(EMPTY, history), Clock(0, 0), []), events, room, reader);
            forall r :: r in end.got && (IsCommit(r, room) || r.editOf.Some?) ==> r.epoch > 0
  {
    var log := Run(EMPTY, history);
    RunIsWellFormed(history);
    NothingDueAtTheStart(log.rows, room, reader);
    CommitOfReachedEpochNeverArrives(Session(log, Clock(0, 0), []), events, room, reader);
  }

  // ---- The newest page ----

  lemma {:induction false} ReversedFlips(s: seq<Row>)
    ensures |Reversed(s)| == |s| && forall k :: 0 <= k < |s| ==> Reversed(s)[k] == s[|s| - 1 - k]
  {
    if s != [] {
      ReversedFlips(Init(s));
    }
  }

  lemma {:induction false} KeptIsDescending(fetched: seq<Row>, reader: UserId)
    requires Descending(fetched)
    ensures Descending(Kept(fetched, reader))
  {
    if fetched != [] {
      var kept := Kept(Init(fetched), reader);
      KeptIsDescending(Init(fetched), reader);
      forall i | 0 <= i < |kept|
        ensures kept[i].id != Last(fetched).id && !Before(Key(kept[i]), Key(Last(fetched)))
      {
        assert kept[i] in Init(fetched);
      }
    }
  }

  lemma ReversedIsAscending(s: seq<Row>)
    requires Descending(s)
    ensures Ascending(Reversed(s))
    ensures forall r :: r in Reversed(s) <==> r in s
  {
    var t := Reversed(s);
    ReversedFlips(s);
    forall i, j | 0 <= i < j < |t|
      ensures t[i].id != t[j].id && !Before(Key(t[j]), Key(t[i]))
    {
      assert t[i] == s[|s| - 1 - i] && t[j] == s[|s| - 1 - j];
    }
    forall r | r in s
      ensures r in t
    {
      var k :| 0 <= k < |s| && s[k] == r;
      assert t[|s| - 1 - k] == r;
    }
  }

  lemma NewestPageSkipsNothing(
    rows: seq<Row>, room: RoomId, reader: UserId, limit: nat, fetched: seq<Row>, r: Row)
    requires Plain(reader) && AnswersLatest(rows, room, reader, limit + 1, fetched)
    requires r in rows && r.room == room && Visible(r, reader)
    requires var cut := Cut(Kept(fetched, reader), limit); cut != [] && Before(Key(Last(cut)), Key(r))
    ensures r in Cut(Kept(fetched, reader), limit)
  {
    var kept := Kept(fetched, reader);
    var cut := Cut(kept, limit);
    VisibleIsCandidate(r, reader);
    assert Last(cut) in kept;
    LastIsLeast(fetched, Last(cut));
    assert r in kept;
    KeptIsDescending(fetched, reader);
    LastIsLeast(kept, Last(cut));
    assert kept == cut || kept == cut + [Last(kept)];
  }

  /** Without a cursor the page is ascending, ends with a newest row and skips nothing after its first row. */
  lemma NewestPageIsTheTail(log: Log, room: RoomId, reader: UserId, limit: int, fetched: seq<Row>)
    requires Plain(reader) && (room, reader) in log.roles
    requires AnswersLatest(log.rows, room, reader, Clamp(limit) + 1, fetched)
    ensures var page := List(log, room, reader, None, limit, fetched).value;
            && Ascending(page.messages) && |page.messages| <= Clamp(limit)
            && (forall r :: r in page.messages ==> r in log.rows && r.room == room && Visible(r, reader))
            && (page.messages != [] ==>
                  && page.next == Some(Key(Last(page.messages)))
                  && forall r :: Outstanding(log.rows, room, reader, Key(page.messages[0]), r) ==> r in page.messages)
  {
    var cut := Cut(Kept(fetched, reader), Clamp(limit));
    KeptIsDescending(fetched, reader);
    ReversedIsAscending(cut);
    ReversedFlips(cut);
    assert forall r :: r in cut ==> r in Kept(fetched, reader);
    if cut != [] {
      forall r | r in log.rows && r.room == room && Visible(r, reader) && Before(Key(Last(cut)), Key(r))
        ensures r in cut
      {
        NewestPageSkipsNothing(log.rows, room, reader, Clamp(limit), fetched, r);
      }
    }
  }

  lemma LastIsLeast(s: seq<Row>, r: Row)
    requires Descending(s) && r in s
    ensures !Before(Key(r), Key(Last(s)))
  {
    var i :| 0 <= i < |s| && s[i] == r;
    assert i == |s| - 1 || !Before(Key(s[i]), Key(s[|s| - 1]));
  }

  // ---- The database always has an answer ----

  /** The id is the primary key. */
  ghost predicate DistinctIds(rows: seq<Row>) {
    forall i, j :: 0 <= i < j < |rows| ==> rows[i].id != rows[j].id
  }

  lemma SoundIsDistinct(rows: seq<Row>)
    requires Sound(rows)
    ensures DistinctIds(rows)
  {
    forall i, j | 0 <= i < j < |rows|
      ensures rows[i].id != rows[j].id
    {
      FindIsUnique(rows, i);
      FindIsUnique(rows, j);
    }
  }

  /** Whatever the rows, some sequence answers the query: the polls above are never empty talk. */
  lemma {:induction false} AnswerExists(rows: seq<Row>, room: RoomId, reader: UserId, since: Clock, n: nat)
    returns (fetched: seq<Row>)
    requires DistinctIds(rows) && n > 0
    ensures AnswersSince(rows, room, reader, since, n, fetched)
  {
    if rows == [] {
      fetched := [];
    } else {
      var r := Last(rows);
      var rest := AnswerExists(Init(rows), room, reader, since, n);
      assert forall x :: x in rows <==> x in Init(rows) || x == r;
      if Matches(r, room, reader, Some(since)) {
        forall x | x in Init(rows)
          ensures x.id != r.id
        {
        }
        fetched := InsertInto(rest, r, n);
      } else {
        fetched := rest;
      }
    }
  }

  lemma InsertInto(s: seq<Row>, r: Row, n: nat) returns (t: seq<Row>)
    requires Ascending(s) && n > 0 && |s| <= n && forall x :: x in s ==> x.id != r.id
    ensures Ascending(t) && |t| <= n
    ensures forall x :: x in t ==> x in s || x == r
    ensures |s| == n ==> |t| == n && !Before(Key(Last(s)), Key(Last(t)))
    ensures forall x :: (x in s || x == r) && x !in t ==> |t| == n && !Before(Key(x), Key(Last(t)))
  {
    var p := PlaceOf(s, r);
    var all := Inserted(s, r, p);
    t := if |all| > n then Init(all) else all;
    assert all == t || all == t + [Last(all)];
    assert all != t ==> !Before(Key(all[|all| - 1]), Key(all[|all| - 2]));
  }

  function PutAt(s: seq<Row>, r: Row, p: nat): (all: seq<Row>)
    requires p <= |s|
    ensures |all| == |s| + 1
    ensures forall k :: 0 <= k < |all| ==> all[k] == if k < p then s[k] else if k == p then r else s[k - 1]
  {
    s[..p] + [r] + s[p..]
  }

  lemma PutAtMembers(s: seq<Row>, r: Row, p: nat)
    requires p <= |s|
    ensures forall x :: x in PutAt(s, r, p) <==> x in s || x == r
  {
    assert s == s[..p] + s[p..];
  }

  lemma PutAtAscends(s: seq<Row>, r: Row, p: nat)
    requires Ascending(s) && p <= |s| && forall x :: x in s ==> x.id != r.id
    requires forall i :: 0 <= i < p ==> !Before(Key(r), Key(s[i]))
    requires forall i :: p <= i < |s| ==> Before(Key(r), Key(s[i]))
    ensures Ascending(PutAt(s, r, p))
  {
    var all := PutAt(s, r, p);
    forall i, j | 0 <= i < j < |all|
      ensures all[i].id != all[j].id && !Before(Key(all[j]), Key(all[i]))
    {
      assert forall k :: 0 <= k < |s| ==> s[k] in s;
    }
  }

  lemma Inserted(s: seq<Row>, r: Row, p: nat) returns (all: seq<Row>)
    requires Ascending(s) && p <= |s| && forall x :: x in s ==> x.id != r.id
    requires forall i :: 0 <= i < p ==> !Before(Key(r), Key(s[i]))
    requires forall i :: p <= i < |s| ==> Before(Key(r), Key(s[i]))
    ensures |all| == |s| + 1 && Ascending(all)
    ensures forall x :: x in all <==> x in s || x == r
    ensures s != [] ==> !Before(Key(Last(all)), Key(Last(s))) && (Last(all) == Last(s) || all == s + [r])
  {
    all := PutAt(s, r, p);
    PutAtMembers(s, r, p);
    PutAtAscends(s, r, p);
    if s != [] && p == |s| {
      assert all == s + [r];
    }
  }

  lemma {:induction false} PlaceOf(s: seq<Row>, r: Row) returns (p: nat)
    requires Ascending(s)
    ensures p <= |s|
    ensures forall i :: 0 <= i < p ==> !Before(Key(r), Key(s[i]))
    ensures forall i :: p <= i < |s| ==> Before(Key(r), Key(s[i]))
  {
    if s == [] {
      p := 0;
    } else if Before(Key(r), Key(Last(s))) {
      p := PlaceOf(Init(s), r);
    } else {
      p := |s|;
    }
  }
}
