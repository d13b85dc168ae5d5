/** The message tables as the server updates them, one transaction per method. */
module MessageStore {
  import opened Prelude
  import opened MessageLog
  import opened EpochOrder
  import opened WhisperFilter
  import opened MessagePaging

  class MessageStore {
    var rows: seq<Row>
    var epochs: map<RoomId, Epoch>
    var roles: map<(RoomId, UserId), Role>

    /** The tables as one value. */
    function State(): Log
      reads this
    {
      Log(rows, epochs, roles)
    }

    ghost predicate Valid()
      reads this
    {
      WellFormed(State())
    }

    constructor ()
      ensures Valid() && State() == EMPTY
    {
      rows, epochs, roles := [], map[], map[];
    }

    method SubmitMessage(req: SubmitRequest, id: Id, now: int) returns (r: Result<Outcome, Error>)
      requires Valid()
      modifies this
      ensures Valid() && Done(State(), r) == Submit(old(State()), req, id, now)
      ensures r.Ok? ==> rows != [] && Init(rows) == old(rows) && Last(rows).id == id && Last(rows).sender == req.sender
      ensures r.Err? ==> State() == old(State())
    {
      SubmitKeepsWellFormed(State(), req, id, now);
      SubmitAppends(State(), req, id, now);
      r := SubmitRow(req, id, now);
    }

    method SubmitRow(req: SubmitRequest, id: Id, now: int) returns (r: Result<Outcome, Error>)
      modifies this`rows, this`epochs
      ensures Done(State(), r) == Submit(old(State()), req, id, now)
    {
      if (req.room, req.sender) !in roles {
        return Err(NotAMember);
      }
      if req.room !in epochs {
        return Err(RoomNotFound);
      }
      var cur := epochs[req.room];
      if req.epoch != cur.epoch {
        return Err(EpochMismatch(cur.epoch, req.epoch));
      }
      if req.content.Commit? {
        if req.transcript.None? {
          return Err(MissingTranscriptHash);
        }
        if Find(rows, id).Some? {
          return Err(Database);
        }
        rows := rows + [Row(id, req.room, req.sender, req.client, cur.epoch, 0, Commit, req.ciphertext,
                            None, None, None, 0, now, None)];
        var newEpoch := cur.epoch + 1;
        epochs := epochs[req.room := Epoch(newEpoch, 0, req.transcript)];
        return Ok(Committed(id, newEpoch, req.transcript.value));
      }
      if req.replyTo.Some? {
        var target := Find(rows, req.replyTo.value);
        if target.None? {
          return Err(ReplyToNotFound);
        }
        if rows[target.value].room != req.room {
          return Err(ReplyToNotInRoom);
        }
      }
      var next := cur.sequence + 1;
      if Find(rows, id).Some? {
        return Err(Database);
      }
      rows := rows + [Row(id, req.room, req.sender, req.client, cur.epoch, next, req.content, req.ciphertext,
                          req.replyTo, req.targets, None, 0, now, None)];
      epochs := epochs[req.room := cur.(sequence := next)];
      return Ok(Stored(id, cur.epoch, next));
    }

    method EditMessage(req: EditRequest, window: int, id: Id, now: int) returns (r: Result<Outcome, Error>)
      requires Valid()
      modifies this
      ensures Valid() && Done(State(), r) == Edit(old(State()), req, window, id, now)
      ensures r.Ok? ==> rows != [] && Init(rows) == old(rows)
      ensures r.Ok? ==> rows != [] && Last(rows).id == id && Last(rows).editOf == Some(req.message)
      ensures r.Err? ==> State() == old(State())
    {
      EditKeepsWellFormed(State(), req, window, id, now);
      EditAppends(State(), req, window, id, now);
      r := EditRow(req, window, id, now);
    }

    method EditRow(req: EditRequest, window: int, id: Id, now: int) returns (r: Result<Outcome, Error>)
      requires Valid()
      modifies this`rows
      ensures Done(State(), r) == Edit(old(State()), req, window, id, now)
    {
      if (req.room, req.requester) !in roles {
        return Err(NotAMember);
      }
      var at := FindInRoom(rows, req.message, req.room);
      if at.None? {
        return Err(MessageNotFound);
      }
      var o := rows[at.value];
      if o.editOf.Some? {
        return Err(CannotEditEdit);
      }
      if o.deletedAt.Some? {
        return Err(EditDeleted);
      }
      if !o.content.Application? {
        return Err(NotEditable);
      }
      if req.content.Some? && req.content.value != o.content {
        return Err(ContentTypeMismatch);
      }
      if o.sender != req.requester {
        return Err(NotSender);
      }
      if now - o.createdAt > window {
        return Err(WindowExpired);
      }
      if Find(rows, id).Some? {
        return Err(Database);
      }
      var next := NextEditSequence(req.message);
      var content := if req.content.Some? then req.content.value else o.content;
      var row := Row(id, req.room, req.requester, req.client, o.epoch, 0, content, req.ciphertext,
                     o.replyTo, o.targets, Some(req.message), next, now, None);
      rows := rows + [row];
      return Ok(Edited(row));
    }

    /** SELECT MAX(edit_sequence) ... WHERE edit_of = ?, plus one. */
    method NextEditSequence(original: Id) returns (next: nat)
      requires Valid()
      ensures next == MaxEditSeq(rows, original) + 1 == |EditsOf(rows, original)| + 1
    {
      var max, i := 0, 0;
      while i < |rows|
        invariant i <= |rows|
        invariant max == MaxEditSeq(rows[..i], original)
      {
        assert Init(rows[..i + 1]) == rows[..i];
        if rows[i].editOf == Some(original) && rows[i].editSeq > max {
          max := rows[i].editSeq;
        }
        i := i + 1;
      }
      assert rows[..i] == rows;
      MaxIsCount(rows, original);
      CountOfEdits(rows, original);
      next := max + 1;
    }

    method DeleteMessage(req: DeleteRequest, now: int) returns (r: Result<Outcome, Error>)
      requires Valid()
      modifies this
      ensures Valid() && Done(State(), r) == Delete(old(State()), req, now)
      ensures r.Ok? ==> SameButTombstones(old(rows), rows)
      ensures r.Err? ==> State() == old(State())
    {
      DeleteKeepsWellFormed(State(), req, now);
      if (req.room, req.requester) !in roles {
        return Err(NotAMember);
      }
      var role := roles[(req.room, req.requester)];
      var at := FindInRoom(rows, req.message, req.room);
      if at.None? {
        return Err(MessageNotFound);
      }
      var m := rows[at.value];
      if m.deletedAt.Some? {
        return Err(AlreadyDeleted);
      }
      var authorized := req.requester == m.sender || role == Owner || (role == Moderator && req.discord);
      if !authorized {
        return Err(Forbidden);
      }
      rows := rows[at.value := m.(deletedAt := Some(now))];
      return Ok(Deleted(m.sender, m.targets));
    }

    /** One page; `fetched` is the database's answer to the query. */
    method ListMessages(room: RoomId, reader: UserId, since: Option<Clock>, limit: int, fetched: seq<Row>)
      returns (r: Result<Page, Error>)
      requires (room, reader) in roles ==> Answers(rows, room, reader, since, limit, fetched)
      ensures r == List(State(), room, reader, since, limit, fetched)
    {
      if (room, reader) !in roles {
        return Err(NotAMember);
      }
      var msgs: seq<Row> := [];
      for i := 0 to |fetched|
        invariant msgs == Kept(fetched[..i], reader)
      {
        assert Init(fetched[..i + 1]) == fetched[..i];
        if fetched[i].targets.Some? {
          var isSender := fetched[i].sender == reader;
          if !isSender && reader !in fetched[i].targets.value {
            continue;
          }
        }
        msgs := msgs + [fetched[i]];
      }
      assert fetched[..|fetched|] == fetched;
      var hasMore := |msgs| > Clamp(limit);
      if hasMore {
        msgs := msgs[..|msgs| - 1];
      }
      if since.None? {
        msgs := Reverse(msgs);
      }
      var next := if msgs == [] then None else Some(Key(msgs[|msgs| - 1]));
      return Ok(Page(msgs, next, hasMore));
    }
  }

  lemma SubmitAppends(log: Log, req: SubmitRequest, id: Id, now: int)
    ensures var done := Submit(log, req, id, now);
            if done.result.Err? then done.log == log
            else
              && done.log.rows != [] && Init(done.log.rows) == log.rows
              && Last(done.log.rows).id == id && Last(done.log.rows).sender == req.sender
  {
  }

  lemma EditAppends(log: Log, req: EditRequest, window: int, id: Id, now: int)
    ensures var done := Edit(log, req, window, id, now);
            if done.result.Err? then done.log == log
            else
              && done.log.rows != [] && Init(done.log.rows) == log.rows
              && Last(done.log.rows).id == id && Last(done.log.rows).editOf == Some(req.message)
  {
  }

  method Reverse(s: seq<Row>) returns (t: seq<Row>)
    ensures t == Reversed(s)
  {
    t := [];
    for i := 0 to |s|
      invariant t == Reversed(s[..i])
    {
      assert Init(s[..i + 1]) == s[..i];
      t := [s[i]] + t;
    }
    assert s[..|s|] == s;
  }

  lemma {:induction false} CountOfEdits(rows: seq<Row>, original: Id)
    ensures Edits(rows, original) == |EditsOf(rows, original)|
  {
    if rows != [] {
      CountOfEdits(Init(rows), original);
    }
  }
}
