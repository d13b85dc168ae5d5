/**
 Who may submit, edit and delete what, in terms of the tables and the request alone; and that over every
 run each stored row is what somebody sent who was allowed to.
 */
module MessageRules {
  import opened Prelude
  import opened MessageLog

  predicate IsFree(rows: seq<Row>, id: Id) {
    forall r :: r in rows ==> r.id != id
  }

  predicate IsRowOf(rows: seq<Row>, r: Row, id: Id, room: RoomId) {
    r in rows && r.id == id && r.room == room
  }

  /** A row of the room has the id. */
  ghost predicate IsIn(rows: seq<Row>, id: Id, room: RoomId) {
    exists r :: IsRowOf(rows, r, id, room)
  }

  lemma FreeIff(rows: seq<Row>, id: Id)
    ensures Find(rows, id).None? <==> IsFree(rows, id)
  {
  }

  lemma FoundIff(rows: seq<Row>, id: Id, room: RoomId)
    requires Sound(rows)
    ensures FindInRoom(rows, id, room).Some? <==> IsIn(rows, id, room)
    ensures forall r :: IsRowOf(rows, r, id, room) ==>
              FindInRoom(rows, id, room).Some? && rows[FindInRoom(rows, id, room).value] == r
  {
    forall r | IsRowOf(rows, r, id, room)
      ensures FindInRoom(rows, id, room).Some? && rows[FindInRoom(rows, id, room).value] == r
    {
      var k :| 0 <= k < |rows| && rows[k] == r;
      FindIsUnique(rows, k);
    }
    var at := FindInRoom(rows, id, room);
    assert at.Some? ==> IsRowOf(rows, rows[at.value], id, room);
  }

  // ---- Submitting ----

  /** A submit is in order: its sender is a member, it was sent for the current epoch, and what it names is there. */
  ghost predicate MaySubmit(log: Log, req: SubmitRequest, id: Id) {
    && (req.room, req.sender) in log.roles
    && req.room in log.epochs && req.epoch == log.epochs[req.room].epoch
    && (req.content.Commit? ==> req.transcript.Some?)
    && (!req.content.Commit? && req.replyTo.Some? ==> IsIn(log.rows, req.replyTo.value, req.room))
    && IsFree(log.rows, id)
  }

  /** The row carries what was sent, under the epoch that it was sent for. */
  predicate CarriesSubmit(r: Row, req: SubmitRequest, id: Id, now: int) {
    && r.id == id && r.room == req.room && r.sender == req.sender && r.client == req.client
    && r.epoch == req.epoch && r.content == req.content && r.ciphertext == req.ciphertext && r.createdAt == now
    && r.editOf.None? && r.editSeq == 0
    && r.replyTo == (if req.content.Commit? then None else req.replyTo)
    && r.targets == (if req.content.Commit? then None else req.targets)
  }

  lemma SubmitAppends(log: Log, req: SubmitRequest, id: Id, now: int)
    ensures var done := Submit(log, req, id, now);
            && (done.result.Err? ==> done.log == log)
            && (done.result.Ok? ==>
                  && done.log.rows != [] && Init(done.log.rows) == log.rows && done.log.roles == log.roles
                  && CarriesSubmit(Last(done.log.rows), req, id, now) && Last(done.log.rows).deletedAt.None?)
  {
  }

  /** A submit is accepted exactly when it is in order; then one row is appended that carries it. */
  lemma SubmitIsAcceptedIff(log: Log, req: SubmitRequest, id: Id, now: int)
    requires Sound(log.rows)
    ensures var done := Submit(log, req, id, now);
            && (done.result.Ok? <==> MaySubmit(log, req, id))
            && (done.result.Err? ==> done.log == log)
            && (done.result.Ok? ==>
                  && done.log.rows != [] && Init(done.log.rows) == log.rows && done.log.roles == log.roles
                  && CarriesSubmit(Last(done.log.rows), req, id, now) && Last(done.log.rows).deletedAt.None?)
  {
    SubmitAppends(log, req, id, now);
    assert Submit(log, req, id, now).result.Ok? <==> MaySubmit(log, req, id) by {
      FreeIff(log.rows, id);
      if req.replyTo.Some? {
        FoundIff(log.rows, req.replyTo.value, req.room);
      }
    }
  }

  /** An accepted commit ends the epoch; any other message takes the next number in it. */
  lemma SubmitCounts(log: Log, req: SubmitRequest, id: Id, now: int)
    requires Submit(log, req, id, now).result.Ok?
    ensures var done := Submit(log, req, id, now);
            var before := log.epochs[req.room];
            && done.log.epochs.Keys == log.epochs.Keys
            && (forall room :: room in log.epochs && room != req.room ==> done.log.epochs[room] == log.epochs[room])
            && var after := done.log.epochs[req.room];
               if req.content.Commit? then
                 && after.epoch == before.epoch + 1 && after.sequence == 0 && after.transcript == req.transcript
                 && Last(done.log.rows).seqno == 0
                 && done.result == Ok(Committed(id, before.epoch + 1, req.transcript.value))
               else
                 && after.epoch == before.epoch && after.sequence == before.sequence + 1
                 && after.transcript == before.transcript && Last(done.log.rows).seqno == after.sequence
                 && done.result == Ok(Stored(id, before.epoch, after.sequence))
  {
  }

  /** Each refusal says what is wrong, in this order of precedence. */
  lemma SubmitIsRefusedFor(log: Log, req: SubmitRequest, id: Id, now: int)
    requires Sound(log.rows)
    ensures var reply := Submit(log, req, id, now).result;
            var member := (req.room, req.sender) in log.roles;
            var known := member && req.room in log.epochs;
            var current := known && req.epoch == log.epochs[req.room].epoch;
            var answers := current && !req.content.Commit? && req.replyTo.Some?;
            && (reply == Err(NotAMember) <==> !member)
            && (reply == Err(RoomNotFound) <==> member && !known)
            && (known && !current <==> known && reply == Err(EpochMismatch(log.epochs[req.room].epoch, req.epoch)))
            && (reply == Err(MissingTranscriptHash) <==> current && req.content.Commit? && req.transcript.None?)
            && (reply == Err(ReplyToNotFound) <==> answers && IsFree(log.rows, req.replyTo.value))
            && (reply == Err(ReplyToNotInRoom) <==>
                  answers && !IsFree(log.rows, req.replyTo.value) && !IsIn(log.rows, req.replyTo.value, req.room))
  {
    FreeIff(log.rows, id);
    if req.replyTo.Some? {
      FreeIff(log.rows, req.replyTo.value);
      FoundIff(log.rows, req.replyTo.value, req.room);
    }
  }

  // ---- Editing ----

  /** The row is an original message that its sender may still edit. */
  predicate IsEditable(log: Log, o: Row, req: EditRequest, window: int, now: int) {
    && IsRowOf(log.rows, o, req.message, req.room)
    && o.editOf.None? && o.deletedAt.None? && o.content.Application?
    && (req.content.Some? ==> req.content.value.Application?)
    && o.sender == req.requester && now <= o.createdAt + window
  }

  ghost predicate MayEdit(log: Log, req: EditRequest, window: int, id: Id, now: int) {
    && (req.room, req.requester) in log.roles
    && (exists o :: IsEditable(log, o, req, window, now))
    && IsFree(log.rows, id)
  }

  /** The row carries the new text, and all else from the original that it names. */
  predicate CarriesEdit(r: Row, o: Row, req: EditRequest, id: Id, now: int) {
    && r.id == id && r.room == req.room && r.sender == req.requester && r.client == req.client
    && r.ciphertext == req.ciphertext && r.createdAt == now && r.editOf == Some(req.message)
    && r.epoch == o.epoch && r.content == o.content && r.replyTo == o.replyTo && r.targets == o.targets
  }

  lemma EditIsAcceptedIff(log: Log, req: EditRequest, window: int, id: Id, now: int)
    requires Sound(log.rows)
    ensures var done := Edit(log, req, window, id, now);
            && (done.result.Ok? <==> MayEdit(log, req, window, id, now))
            && (done.result.Err? ==> done.log == log)
            && (done.result.Ok? ==>
                  && done.log.rows != [] && Init(done.log.rows) == log.rows
                  && done.log.epochs == log.epochs && done.log.roles == log.roles
                  && done.result == Ok(Edited(Last(done.log.rows))) && Last(done.log.rows).deletedAt.None?
                  && exists o :: IsEditable(log, o, req, window, now)
                                 && CarriesEdit(Last(done.log.rows), o, req, id, now))
  {
    FreeIff(log.rows, id);
    FoundIff(log.rows, req.message, req.room);
    var at := FindInRoom(log.rows, req.message, req.room);
    var done := Edit(log, req, window, id, now);
    if done.result.Ok? {
      assert IsEditable(log, log.rows[at.value], req, window, now);
      assert CarriesEdit(Last(done.log.rows), log.rows[at.value], req, id, now);
    }
  }

  /** Each refusal says what is wrong, in this order of precedence. */
  lemma EditIsRefusedFor(log: Log, req: EditRequest, window: int, id: Id, now: int, o: Row)
    requires Sound(log.rows) && IsRowOf(log.rows, o, req.message, req.room) && (req.room, req.requester) in log.roles
    ensures var reply := Edit(log, req, window, id, now).result;
            var edit := o.editOf.Some?;
            var deleted := !edit && o.deletedAt.Some?;
            var other := !edit && !deleted && !o.content.Application?;
            var clash := !edit && !deleted && !other && req.content.Some? && req.content.value != o.content;
            var fits := !edit && !deleted && !other && !clash;
            && (reply == Err(CannotEditEdit) <==> edit)
            && (reply == Err(EditDeleted) <==> deleted)
            && (reply == Err(NotEditable) <==> other)
            && (reply == Err(ContentTypeMismatch) <==> clash)
            && (reply == Err(NotSender) <==> fits && o.sender != req.requester)
            && (reply == Err(WindowExpired) <==> fits && o.sender == req.requester && now > o.createdAt + window)
  {
    FoundIff(log.rows, req.message, req.room);
  }

  lemma EditOfNothing(log: Log, req: EditRequest, window: int, id: Id, now: int)
    requires Sound(log.rows)
    ensures var reply := Edit(log, req, window, id, now).result;
            && (reply == Err(NotAMember) <==> (req.room, req.requester) !in log.roles)
            && (reply == Err(MessageNotFound) <==>
                  (req.room, req.requester) in log.roles && !IsIn(log.rows, req.message, req.room))
  {
    FoundIff(log.rows, req.message, req.room);
  }

  // ---- Deleting ----

  /** Senders delete their own messages, owners all, and moderators all where there is moderation. */
  predicate IsDeletable(log: Log, m: Row, req: DeleteRequest) {
    && IsRowOf(log.rows, m, req.message, req.room) && m.deletedAt.None?
    && (req.room, req.requester) in log.roles
    && var role := log.roles[(req.room, req.requester)];
       m.sender == req.requester || role == Owner || (role == Moderator && req.discord)
  }

  /** A deletion is accepted exactly when the message may be deleted; then it, and no other row, gets a tombstone. */
  lemma DeleteIsAcceptedIff(log: Log, req: DeleteRequest, now: int)
    requires Sound(log.rows)
    ensures var done := Delete(log, req, now);
            && (done.result.Ok? <==> exists m :: IsDeletable(log, m, req))
            && (done.result.Err? ==> done.log == log)
            && (done.result.Ok? ==>
                  && done.log == log.(rows := done.log.rows) && |done.log.rows| == |log.rows|
                  && forall k :: 0 <= k < |log.rows| ==>
                       if log.rows[k].id == req.message then
                         done.log.rows[k] == log.rows[k].(deletedAt := Some(now))
                         && done.result == Ok(Deleted(log.rows[k].sender, log.rows[k].targets))
                       else done.log.rows[k] == log.rows[k])
  {
    FoundIff(log.rows, req.message, req.room);
    var at := FindInRoom(log.rows, req.message, req.room);
    if Delete(log, req, now).result.Ok? {
      assert IsDeletable(log, log.rows[at.value], req);
      forall k | 0 <= k < |log.rows| && log.rows[k].id == req.message
        ensures k == at.value
      {
        FindIsUnique(log.rows, k);
      }
    }
  }

  lemma DeleteIsRefusedFor(log: Log, req: DeleteRequest, now: int, m: Row)
    requires Sound(log.rows) && IsRowOf(log.rows, m, req.message, req.room) && (req.room, req.requester) in log.roles
    ensures var reply := Delete(log, req, now).result;
            && (reply == Err(AlreadyDeleted) <==> m.deletedAt.Some?)
            && (reply == Err(Forbidden) <==> m.deletedAt.None? && !IsDeletable(log, m, req))
  {
    FoundIff(log.rows, req.message, req.room);
  }

  lemma DeleteOfNothing(log: Log, req: DeleteRequest, now: int)
    requires Sound(log.rows)
    ensures var reply := Delete(log, req, now).result;
            && (reply == Err(NotAMember) <==> (req.room, req.requester) !in log.roles)
            && (reply == Err(MessageNotFound) <==>
                  (req.room, req.requester) in log.roles && !IsIn(log.rows, req.message, req.room))
  {
    FoundIff(log.rows, req.message, req.room);
  }

  // ---- Over every run ----

  predicate Accepts(log: Log, op: Op) {
    op.DoSubmit? && Submit(log, op.submit, op.id, op.now).result.Ok?
  }

  predicate IsCommitFor(op: Op, room: RoomId, epoch: int) {
    op.DoSubmit? && op.submit.content.Commit? && op.submit.room == room && op.submit.epoch == epoch
  }

  /** Once a commit for an epoch has been accepted the room is beyond that epoch for good. */
  lemma {:induction false} EpochIsPast(ops: seq<Op>, i: nat, j: nat, room: RoomId, epoch: int)
    requires i < j <= |ops| && IsCommitFor(ops[i], room, epoch) && Accepts(Run(EMPTY, ops[..i]), ops[i])
    ensures room in Run(EMPTY, ops[..j]).epochs && Run(EMPTY, ops[..j]).epochs[room].epoch > epoch
    decreases j
  {
    var before := Run(EMPTY, ops[..j - 1]);
    assert Init(ops[..j]) == ops[..j - 1] && Last(ops[..j]) == ops[j - 1];
    if i < j - 1 {
      EpochIsPast(ops, i, j - 1, room, epoch);
      EpochNeverFalls(before, ops[j - 1], room);
    } else {
      CommitEndsEpoch(before, ops[i], room, epoch);
    }
  }

  lemma CommitEndsEpoch(log: Log, op: Op, room: RoomId, epoch: int)
    requires IsCommitFor(op, room, epoch) && Accepts(log, op)
    ensures room in Step(log, op).epochs && Step(log, op).epochs[room].epoch == epoch + 1
  {
  }

  lemma EpochNeverFalls(log: Log, op: Op, room: RoomId)
    requires room in log.epochs
    ensures room in Step(log, op).epochs && Step(log, op).epochs[room].epoch >= log.epochs[room].epoch
  {
  }

  /** Of two commits that were sent for the same epoch of a room at most one is ever accepted. */
  lemma OneCommitPerEpoch(ops: seq<Op>, i: nat, j: nat, room: RoomId, epoch: int)
    requires i < j < |ops| && IsCommitFor(ops[i], room, epoch) && IsCommitFor(ops[j], room, epoch)
    ensures !(Accepts(Run(EMPTY, ops[..i]), ops[i]) && Accepts(Run(EMPTY, ops[..j]), ops[j]))
  {
    if Accepts(Run(EMPTY, ops[..i]), ops[i]) && Accepts(Run(EMPTY, ops[..j]), ops[j]) {
      EpochIsPast(ops, i, j, room, epoch);
      RunIsWellFormed(ops[..j]);
      SubmitIsAcceptedIff(Run(EMPTY, ops[..j]), ops[j].submit, ops[j].id, ops[j].now);
    }
  }

  /** The row, but for its tombstone and its numbers, is what the operation was allowed to store. */
  ghost predicate Stores(log: Log, op: Op, r: Row) {
    match op
    case DoSubmit(req, id, now) => MaySubmit(log, req, id) && CarriesSubmit(r, req, id, now)
    case DoEdit(req, window, id, now) =>
      MayEdit(log, req, window, id, now)
      && exists o :: IsEditable(log, o, req, window, now) && CarriesEdit(r, o, req, id, now)
    case _ => false
  }

  ghost predicate Entombs(log: Log, op: Op, r: Row) {
    op.DoDelete? && r.deletedAt == Some(op.now) && r.id == op.delete.message
    && exists m :: IsDeletable(log, m, op.delete)
  }

  lemma SubmitOrEditStores(log: Log, op: Op, k: nat)
    requires Sound(log.rows) && k < |Step(log, op).rows| && (op.DoSubmit? || op.DoEdit?)
    ensures var r := Step(log, op).rows[k];
            if k >= |log.rows| then Stores(log, op, r) && r.deletedAt.None? else r == log.rows[k]
  {
    if op.DoSubmit? {
      SubmitIsAcceptedIff(log, op.submit, op.id, op.now);
    } else {
      EditIsAcceptedIff(log, op.edit, op.window, op.id, op.now);
    }
    var next := Step(log, op).rows;
    assert k < |log.rows| && next != log.rows ==> Init(next)[k] == log.rows[k];
  }

  /** A step stores only what it may, and deletes only what it may. */
  lemma StepStores(log: Log, op: Op, k: nat)
    requires Sound(log.rows) && k < |Step(log, op).rows|
    ensures var r := Step(log, op).rows[k];
            if k >= |log.rows| then Stores(log, op, r) && r.deletedAt.None?
            else r.(deletedAt := None) == log.rows[k].(deletedAt := None)
                 && (r.deletedAt == log.rows[k].deletedAt || Entombs(log, op, r))
  {
    if op.DoSubmit? || op.DoEdit? {
      SubmitOrEditStores(log, op, k);
    } else if op.DoDelete? {
      DeleteIsAcceptedIff(log, op.delete, op.now);
    }
  }

  /**
   Over every run each row was stored by a request that was in order when it came, and carries exactly what
   was sent: so a message lies only in the epoch that it was sent for, and nobody writes in another's name.
   */
  lemma {:induction false} RowsWereSent(ops: seq<Op>, k: nat)
    requires k < |Run(EMPTY, ops).rows|
    ensures exists i :: 0 <= i < |ops| && Stores(Run(EMPTY, ops[..i]), ops[i], Run(EMPTY, ops).rows[k])
  {
    var before := Run(EMPTY, Init(ops));
    var r := Run(EMPTY, ops).rows[k];
    RunIsWellFormed(Init(ops));
    StepStores(before, Last(ops), k);
    assert ops[..|ops| - 1] == Init(ops);
    if k < |before.rows| {
      RowsWereSent(Init(ops), k);
      var i :| 0 <= i < |ops| - 1 && Stores(Run(EMPTY, Init(ops)[..i]), Init(ops)[i], before.rows[k]);
      assert Init(ops)[..i] == ops[..i];
      StoresButTombstone(Run(EMPTY, ops[..i]), ops[i], before.rows[k], r);
    } else {
      assert Stores(Run(EMPTY, ops[..|ops| - 1]), ops[|ops| - 1], r);
    }
  }

  lemma StoresButTombstone(log: Log, op: Op, a: Row, b: Row)
    requires Stores(log, op, a) && a.(deletedAt := None) == b.(deletedAt := None)
    ensures Stores(log, op, b)
  {
    if op.DoEdit? {
      var o :| IsEditable(log, o, op.edit, op.window, op.now) && CarriesEdit(a, o, op.edit, op.id, op.now);
      assert CarriesEdit(b, o, op.edit, op.id, op.now);
    }
  }

  /** Over every run each tombstone was set by somebody who might delete the message, at the time it names. */
  lemma {:induction false} TombstonesWereAllowed(ops: seq<Op>, k: nat)
    requires k < |Run(EMPTY, ops).rows| && Run(EMPTY, ops).rows[k].deletedAt.Some?
    ensures exists i :: 0 <= i < |ops| && Entombs(Run(EMPTY, ops[..i]), ops[i], Run(EMPTY, ops).rows[k])
  {
    var before := Run(EMPTY, Init(ops));
    var r := Run(EMPTY, ops).rows[k];
    RunIsWellFormed(Init(ops));
    StepStores(before, Last(ops), k);
    assert ops[..|ops| - 1] == Init(ops);
    if k < |before.rows| && r.deletedAt == before.rows[k].deletedAt {
      TombstonesWereAllowed(Init(ops), k);
      var i :| 0 <= i < |ops| - 1 && Entombs(Run(EMPTY, Init(ops)[..i]), Init(ops)[i], before.rows[k]);
      assert Init(ops)[..i] == ops[..i];
      assert Entombs(Run(EMPTY, ops[..i]), ops[i], r);
    } else {
      assert Entombs(Run(EMPTY, ops[..|ops| - 1]), ops[|ops| - 1], r);
    }
  }
}
