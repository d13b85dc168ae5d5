/** Who is given a page, what is on it, and what has_more and next_cursor say. */
module PageRules {
  import opened Prelude
  import opened MessageLog
  import opened EpochOrder
  import opened WhisperFilter
  import opened MessagePaging
  import opened PagingEdges

  /** A limit is read as 50 when it is not positive, and as 500 when it is greater. */
  lemma ClampIs(limit: int)
    ensures 1 <= Clamp(limit) <= 500
    ensures 1 <= limit <= 500 ==> Clamp(limit) == limit
    ensures limit <= 0 ==> Clamp(limit) == 50
    ensures limit > 500 ==> Clamp(limit) == 500
  {
  }

  /** Listing is refused to those who are not members, and to nobody else. */
  lemma ListIsRefusedIff(log: Log, room: RoomId, reader: UserId, since: Option<Clock>, limit: int, fetched: seq<Row>)
    ensures var reply := List(log, room, reader, since, limit, fetched);
            && (reply.Err? <==> (room, reader) !in log.roles)
            && (reply.Err? <==> reply == Err(NotAMember))
  {
  }

  /**
   Of the rows of the answer that the reader may see a page holds the first, as many as the limit, in the
   order of the query or, without a cursor, backwards. has_more says whether that leaves any out, and
   next_cursor is the key of the last row of the page.
   */
  lemma PageIs(log: Log, room: RoomId, reader: UserId, since: Option<Clock>, limit: int, fetched: seq<Row>)
    requires (room, reader) in log.roles && |fetched| <= Clamp(limit) + 1
    ensures var page, kept := List(log, room, reader, since, limit, fetched).value, Kept(fetched, reader);
            var n := |page.messages|;
            && n == Min(|kept|, Clamp(limit))
            && (page.hasMore <==> |kept| > n)
            && (forall k :: 0 <= k < n ==> page.messages[k] == if since.Some? then kept[k] else kept[n - 1 - k])
            && (if n == 0 then page.next.None? else page.next == Some(Key(page.messages[n - 1])))
  {
    CutIs(Kept(fetched, reader), Clamp(limit));
    ReversedFlips(Cut(Kept(fetched, reader), Clamp(limit)));
  }

  lemma CutIs(kept: seq<Row>, limit: nat)
    requires |kept| <= limit + 1
    ensures var cut := Cut(kept, limit);
            |cut| == Min(|kept|, limit) && forall k :: 0 <= k < |cut| ==> cut[k] == kept[k]
  {
  }

  function Min(a: nat, b: nat): nat {
    if a < b then a else b
  }

  /** has_more is never wrong when it is true: some row that the reader may see is after the whole page. */
  lemma MoreIsMore(rows: seq<Row>, room: RoomId, reader: UserId, cursor: Clock, limit: int, fetched: seq<Row>)
    requires AnswersSince(rows, room, reader, cursor, Clamp(limit) + 1, fetched)
    requires |Kept(fetched, reader)| > Clamp(limit)
    ensures var page := Cut(Kept(fetched, reader), Clamp(limit));
            exists r :: Outstanding(rows, room, reader, cursor, r) && r !in page && !Before(Key(r), Key(Last(page)))
  {
    var kept := Kept(fetched, reader);
    var page, r := Init(kept), Last(kept);
    KeptIsAscending(fetched, reader);
    assert r in kept && page != [];
    assert Outstanding(rows, room, reader, cursor, r);
    assert !Before(Key(kept[|kept| - 1]), Key(kept[|kept| - 2]));
    forall k | 0 <= k < |page|
      ensures page[k] != r
    {
      assert kept[k].id != kept[|kept| - 1].id;
    }
  }

  /** Where the query is exact, has_more is right also when it is false. */
  lemma NoMoreIsAll(rows: seq<Row>, room: RoomId, reader: UserId, cursor: Clock, limit: int, fetched: seq<Row>)
    requires Plain(reader) && Exact(rows, room, reader)
    requires AnswersSince(rows, room, reader, cursor, Clamp(limit) + 1, fetched)
    ensures var page := Cut(Kept(fetched, reader), Clamp(limit));
            |Kept(fetched, reader)| > Clamp(limit) <==>
              exists r :: Outstanding(rows, room, reader, cursor, r) && r !in page
  {
    var kept := Kept(fetched, reader);
    forall k | 0 <= k < |fetched|
      ensures Visible(fetched[k], reader)
    {
      assert fetched[k] in fetched;
    }
    AllAreKept(fetched, reader);
    if |kept| > Clamp(limit) {
      MoreIsMore(rows, room, reader, cursor, limit, fetched);
    } else if r :| Outstanding(rows, room, reader, cursor, r) && r !in kept {
      VisibleIsCandidate(r, reader);
    }
  }

  lemma {:induction false} AllAreKept(fetched: seq<Row>, reader: UserId)
    requires forall k :: 0 <= k < |fetched| ==> Visible(fetched[k], reader)
    ensures Kept(fetched, reader) == fetched
  {
    if fetched != [] {
      assert Visible(fetched[|fetched| - 1], reader) && fetched == Init(fetched) + [Last(fetched)];
      AllAreKept(Init(fetched), reader);
    }
  }

  // ---- Outsiders ----

  /** The operation makes the reader a member of the room. */
  predicate Admits(op: Op, room: RoomId, reader: UserId) {
    || (op.OpenRoom? && op.room == room && op.owner == reader)
    || (op.SetRole? && op.room == room && op.user == reader && op.role.Some?)
  }

  predicate NeverAdmits(events: seq<Event>, room: RoomId, reader: UserId) {
    forall e :: e in events && e.Write? ==> !Admits(e.op, room, reader)
  }

  /** Somebody who is not a member, and is not made one, receives nothing whatever is asked and written. */
  lemma {:induction false} OutsiderReceivesNothing(s: Session, events: seq<Event>, room: RoomId, reader: UserId)
    requires (room, reader) !in s.log.roles && NeverAdmits(events, room, reader)
    ensures var end := Play(s, events, room, reader);
            end.got == s.got && end.cursor == s.cursor && (room, reader) !in end.log.roles
  {
    if events != [] {
      assert Last(events) in events;
      assert forall e :: e in Init(events) ==> e in events;
      OutsiderReceivesNothing(s, Init(events), room, reader);
      StaysOutside(Play(s, Init(events), room, reader), Last(events), room, reader);
    }
  }

  lemma StaysOutside(s: Session, e: Event, room: RoomId, reader: UserId)
    requires (room, reader) !in s.log.roles && (e.Write? ==> !Admits(e.op, room, reader))
    ensures var next := Advance(s, e, room, reader);
            next.got == s.got && next.cursor == s.cursor && (room, reader) !in next.log.roles
  {
    if e.Write? {
      StaysWithoutRole(s.log, e.op, room, reader);
    }
  }

  lemma StaysWithoutRole(log: Log, op: Op, room: RoomId, reader: UserId)
    requires (room, reader) !in log.roles && !Admits(op, room, reader)
    ensures (room, reader) !in Step(log, op).roles
  {
  }
}
