/**
 The message tables of the server: room_messages, room_epochs and the roles that guard them.
 Each operation is one BEGIN IMMEDIATE transaction on the only database connection, hence one
 atomic step. The functions Submit, Edit and Delete say what a step does to the tables;
 class MessageStore performs it on its fields.
 */
module MessageLog {
  import opened Prelude

  type Id = string
  type RoomId = string
  type UserId = string

  datatype Role = Owner | Moderator | Member

  datatype Content = Application | Proposal | Commit

  /** A row of room_messages written by a user. Times are whole seconds. */
  datatype Row = Row(
    id: Id, room: RoomId, sender: UserId, client: string,
    epoch: nat, seqno: nat, content: Content, ciphertext: Blob,
    replyTo: Option<Id>, targets: Option<seq<UserId>>,
    editOf: Option<Id>, editSeq: nat, createdAt: int, deletedAt: Option<int>)

  /** A row of room_epochs. */
  datatype Epoch = Epoch(epoch: nat, sequence: nat, transcript: Option<Blob>)

  datatype Log = Log(rows: seq<Row>, epochs: map<RoomId, Epoch>, roles: map<(RoomId, UserId), Role>)

  datatype Error =
    | NotAMember | RoomNotFound
    | EpochMismatch(expected: nat, received: int) | MissingTranscriptHash
    | ReplyToNotFound | ReplyToNotInRoom
    | MessageNotFound | AlreadyDeleted | Forbidden
    | EditDeleted | CannotEditEdit | NotEditable | ContentTypeMismatch | NotSender | WindowExpired
    | Database

  datatype SubmitRequest = SubmitRequest(
    room: RoomId, sender: UserId, client: string, epoch: int, content: Content,
    ciphertext: Blob, transcript: Option<Blob>, replyTo: Option<Id>, targets: Option<seq<UserId>>)

  datatype EditRequest = EditRequest(
    room: RoomId, message: Id, requester: UserId, client: string,
    ciphertext: Blob, content: Option<Content>)

  datatype DeleteRequest = DeleteRequest(
    room: RoomId, message: Id, requester: UserId, discord: bool)

  datatype Outcome =
    | Stored(id: Id, epoch: nat, seqno: nat)
    | Committed(id: Id, newEpoch: nat, transcript: Blob)
    | Edited(row: Row)
    | Deleted(sender: UserId, targets: Option<seq<UserId>>)

  datatype Done = Done(log: Log, result: Result<Outcome, Error>)

  // ---- Queries ----

  /** Where the row with the given primary key is. */
  function Find(rows: seq<Row>, id: Id): (at: Option<nat>)
    ensures at.Some? ==> at.value < |rows| && rows[at.value].id == id
    ensures at.None? <==> forall k :: 0 <= k < |rows| ==> rows[k].id != id
  {
    if rows == [] then None
    else if Last(rows).id == id then Some(|rows| - 1)
    else Find(Init(rows), id)
  }

  function FindInRoom(rows: seq<Row>, id: Id, room: RoomId): (at: Option<nat>)
    ensures at.Some? ==> at.value < |rows| && rows[at.value].id == id && rows[at.value].room == room
  {
    var at := Find(rows, id);
    if at.Some? && rows[at.value].room == room then at else None
  }

  /** MAX(edit_sequence) over the edits of a message, 0 when there is none. */
  function MaxEditSeq(rows: seq<Row>, original: Id): nat {
    if rows == [] then 0
    else
      var m := MaxEditSeq(Init(rows), original);
      if Last(rows).editOf == Some(original) && Last(rows).editSeq > m then Last(rows).editSeq else m
  }

  // ---- Transactions ----

  function Insert(log: Log, row: Row): Log {
    log.(rows := log.rows + [row])
  }

  function Submit(log: Log, req: SubmitRequest, id: Id, now: int): Done {
    if (req.room, req.sender) !in log.roles then Done(log, Err(NotAMember))
    else if req.room !in log.epochs then Done(log, Err(RoomNotFound))
    else
      var cur := log.epochs[req.room];
      if req.epoch != cur.epoch then Done(log, Err(EpochMismatch(cur.epoch, req.epoch)))
      else if req.content.Commit? then
        if req.transcript.None? then Done(log, Err(MissingTranscriptHash))
        else if Find(log.rows, id).Some? then Done(log, Err(Database))
        else
          var row := Row(id, req.room, req.sender, req.client, cur.epoch, 0, Commit, req.ciphertext,
                         None, None, None, 0, now, None);
          Done(Insert(log, row).(epochs := log.epochs[req.room := Epoch(cur.epoch + 1, 0, req.transcript)]),
               Ok(Committed(id, cur.epoch + 1, req.transcript.value)))
      else
        var target := if req.replyTo.Some? then Find(log.rows, req.replyTo.value) else None;
        if req.replyTo.Some? && target.None? then Done(log, Err(ReplyToNotFound))
        else if req.replyTo.Some? && log.rows[target.value].room != req.room then Done(log, Err(ReplyToNotInRoom))
        else if Find(log.rows, id).Some? then Done(log, Err(Database))
        else
          var row := Row(id, req.room, req.sender, req.client, cur.epoch, cur.sequence + 1, req.content,
                         req.ciphertext, req.replyTo, req.targets, None, 0, now, None);
          Done(Insert(log, row).(epochs := log.epochs[req.room := cur.(sequence := cur.sequence + 1)]),
               Ok(Stored(id, cur.epoch, cur.sequence + 1)))
  }

  function Edit(log: Log, req: EditRequest, window: int, id: Id, now: int): Done {
    if (req.room, req.requester) !in log.roles then Done(log, Err(NotAMember))
    else
      var at := FindInRoom(log.rows, req.message, req.room);
      if at.None? then Done(log, Err(MessageNotFound))
      else
        var o := log.rows[at.value];
        if o.editOf.Some? then Done(log, Err(CannotEditEdit))
        else if o.deletedAt.Some? then Done(log, Err(EditDeleted))
        else if !o.content.Application? then Done(log, Err(NotEditable))
        else if req.content.Some? && req.content.value != o.content then Done(log, Err(ContentTypeMismatch))
        else if o.sender != req.requester then Done(log, Err(NotSender))
        else if now - o.createdAt > window then Done(log, Err(WindowExpired))
        else if Find(log.rows, id).Some? then Done(log, Err(Database))
        else
          var row := Row(id, req.room, req.requester, req.client, o.epoch, 0, o.content, req.ciphertext,
                         o.replyTo, o.targets, Some(req.message), MaxEditSeq(log.rows, req.message) + 1, now, None);
          Done(Insert(log, row), Ok(Edited(row)))
  }

  function Delete(log: Log, req: DeleteRequest, now: int): Done {
    if (req.room, req.requester) !in log.roles then Done(log, Err(NotAMember))
    else
      var role := log.roles[(req.room, req.requester)];
      var at := FindInRoom(log.rows, req.message, req.room);
      if at.None? then Done(log, Err(MessageNotFound))
      else
        var m := log.rows[at.value];
        if m.deletedAt.Some? then Done(log, Err(AlreadyDeleted))
        else if req.requester != m.sender && role != Owner && !(role == Moderator && req.discord)
        then Done(log, Err(Forbidden))
        else
          Done(log.(rows := log.rows[at.value := m.(deletedAt := Some(now))]), Ok(Deleted(m.sender, m.targets)))
  }

  /** What may happen to the tables: the three transactions, a room being created, a role being set or dropped. */
  datatype Op =
    | OpenRoom(room: RoomId, owner: UserId)
    | SetRole(room: RoomId, user: UserId, role: Option<Role>)
    | DoSubmit(submit: SubmitRequest, id: Id, now: int)
    | DoEdit(edit: EditRequest, window: int, id: Id, now: int)
    | DoDelete(delete: DeleteRequest, now: int)

  function Step(log: Log, op: Op): Log {
    match op
    case OpenRoom(room, owner) =>
      if room in log.epochs then log
      else log.(epochs := log.epochs[room := Epoch(0, 0, None)], roles := log.roles[(room, owner) := Owner])
    case SetRole(room, user, role) =>
      log.(roles := if role.Some? then log.roles[(room, user) := role.value] else log.roles - {(room, user)})
    case DoSubmit(req, id, now) => Submit(log, req, id, now).log
    case DoEdit(req, window, id, now) => Edit(log, req, window, id, now).log
    case DoDelete(req, now) => Delete(log, req, now).log
  }

  function Run(log: Log, ops: seq<Op>): Log {
    if ops == [] then log else Step(Run(log, Init(ops)), Last(ops))
  }

  const EMPTY := Log([], map[], map[])

  // ---- The invariant ----

  /** The (epoch, sequence) pair that the rows of a room, replayed in insertion order, lead to. */
  datatype Clock = Clock(epoch: nat, sequence: nat)

  function Tick(c: Clock, row: Row, room: RoomId): Clock {
    if row.room != room || row.editOf.Some? then c
    else if row.content.Commit? then Clock(c.epoch + 1, 0)
    else Clock(c.epoch, c.sequence + 1)
  }

  function Replay(rows: seq<Row>, room: RoomId): Clock {
    if rows == [] then Clock(0, 0) else Tick(Replay(Init(rows), room), Last(rows), room)
  }

  /** How many edits of a message there are. */
  function Edits(rows: seq<Row>, original: Id): nat {
    if rows == [] then 0
    else Edits(Init(rows), original) + if Last(rows).editOf == Some(original) then 1 else 0
  }

  /** An edit repeats all of its original but the text. */
  predicate Mirrors(e: Row, o: Row) {
    o.editOf.None? && o.content.Application? && e.content.Application? && e.room == o.room && e.sender == o.sender
    && e.epoch == o.epoch && e.replyTo == o.replyTo && e.targets == o.targets
  }

  /** Row r, inserted after the rows before it, carries the right numbers and points only backwards. */
  ghost predicate Fits(before: seq<Row>, r: Row) {
    var c := Replay(before, r.room);
    && Find(before, r.id).None?
    && (r.replyTo.Some? ==> FindInRoom(before, r.replyTo.value, r.room).Some?)
    && match r.editOf
       case None =>
         && r.editSeq == 0 && r.epoch == c.epoch
         && r.seqno == (if r.content.Commit? then 0 else c.sequence + 1)
         && (r.content.Commit? ==> r.targets.None?)
       case Some(o) =>
         var at := FindInRoom(before, o, r.room);
         at.Some? && Mirrors(r, before[at.value]) && r.seqno == 0 && r.editSeq == Edits(before, o) + 1
  }

  ghost predicate Sound(rows: seq<Row>) {
    rows == [] || (Sound(Init(rows)) && Fits(Init(rows), Last(rows)))
  }

  ghost predicate WellFormed(log: Log) {
    && Sound(log.rows)
    && (forall k :: 0 <= k < |log.rows| ==> log.rows[k].room in log.epochs)
    && (forall room :: room in log.epochs ==>
          Replay(log.rows, room) == Clock(log.epochs[room].epoch, log.epochs[room].sequence))
  }

  // ---- Every step keeps the invariant ----

  lemma {:induction false} MaxIsCount(rows: seq<Row>, original: Id)
    requires Sound(rows)
    ensures MaxEditSeq(rows, original) == Edits(rows, original)
  {
    if rows != [] {
      MaxIsCount(Init(rows), original);
    }
  }

  /** A room that no row names is still at (0, 0). */
  lemma {:induction false} ReplayOfSilence(rows: seq<Row>, room: RoomId)
    requires forall k :: 0 <= k < |rows| ==> rows[k].room != room
    ensures Replay(rows, room) == Clock(0, 0)
  {
    if rows != [] {
      ReplayOfSilence(Init(rows), room);
    }
  }

  /** The same rows up to tombstones. */
  ghost predicate SameButTombstones(a: seq<Row>, b: seq<Row>) {
    |a| == |b| && forall k :: 0 <= k < |a| ==> a[k].(deletedAt := None) == b[k].(deletedAt := None)
  }

  lemma {:induction false} TombstonesKeepQueries(a: seq<Row>, b: seq<Row>, id: Id, room: RoomId)
    requires SameButTombstones(a, b)
    ensures Find(a, id) == Find(b, id) && FindInRoom(a, id, room) == FindInRoom(b, id, room)
    ensures Replay(a, room) == Replay(b, room) && Edits(a, id) == Edits(b, id)
  {
    if a != [] {
      assert Last(a).(deletedAt := None) == Last(b).(deletedAt := None);
      TombstonesKeepQueries(Init(a), Init(b), id, room);
    }
  }

  lemma {:induction false} TombstonesKeepSound(a: seq<Row>, b: seq<Row>)
    requires SameButTombstones(a, b) && Sound(a)
    ensures Sound(b)
  {
    if a != [] {
      var p, q, r := Init(a), Init(b), Last(a);
      assert r.(deletedAt := None) == Last(b).(deletedAt := None);
      TombstonesKeepSound(p, q);
      TombstonesKeepQueries(p, q, r.id, r.room);
      if r.replyTo.Some? {
        TombstonesKeepQueries(p, q, r.replyTo.value, r.room);
      }
      if r.editOf.Some? {
        TombstonesKeepQueries(p, q, r.editOf.value, r.room);
      }
    }
  }

  lemma AppendKeepsWellFormed(log: Log, row: Row, epochs: map<RoomId, Epoch>)
    requires WellFormed(log) && Fits(log.rows, row) && row.room in log.epochs
    requires epochs.Keys == log.epochs.Keys
    requires forall room :: room in epochs && room != row.room ==> epochs[room] == log.epochs[room]
    requires Tick(Replay(log.rows, row.room), row, row.room) ==
             Clock(epochs[row.room].epoch, epochs[row.room].sequence)
    ensures WellFormed(Insert(log, row).(epochs := epochs))
  {
    var rows := log.rows + [row];
    assert Init(rows) == log.rows && Last(rows) == row;
  }

  lemma SubmitKeepsWellFormed(log: Log, req: SubmitRequest, id: Id, now: int)
    requires WellFormed(log)
    ensures WellFormed(Submit(log, req, id, now).log)
  {
    var next := Submit(log, req, id, now).log;
    if next != log {
      var row := Last(next.rows);
      assert Fits(log.rows, row);
      AppendKeepsWellFormed(log, row, next.epochs);
    }
  }

  lemma EditKeepsWellFormed(log: Log, req: EditRequest, window: int, id: Id, now: int)
    requires WellFormed(log)
    ensures WellFormed(Edit(log, req, window, id, now).log)
  {
    var next := Edit(log, req, window, id, now).log;
    if next != log {
      var row := Last(next.rows);
      var at := FindInRoom(log.rows, req.message, req.room).value;
      MaxIsCount(log.rows, req.message);
      if log.rows[at].replyTo.Some? {
        ReplyOf(log.rows, at);
      }
      assert Fits(log.rows, row);
      AppendKeepsWellFormed(log, row, next.epochs);
    }
  }

  lemma TombstonesKeepWellFormed(log: Log, rows: seq<Row>)
    requires WellFormed(log) && SameButTombstones(log.rows, rows)
    ensures WellFormed(log.(rows := rows))
  {
    TombstonesKeepSound(log.rows, rows);
    forall k | 0 <= k < |rows|
      ensures rows[k].room in log.epochs
    {
      assert rows[k].(deletedAt := None) == log.rows[k].(deletedAt := None);
    }
    forall room | room in log.epochs
      ensures Replay(rows, room) == Replay(log.rows, room)
    {
      TombstonesKeepQueries(log.rows, rows, "", room);
    }
  }

  lemma DeleteKeepsWellFormed(log: Log, req: DeleteRequest, now: int)
    requires WellFormed(log)
    ensures WellFormed(Delete(log, req, now).log)
  {
    TombstonesKeepWellFormed(log, Delete(log, req, now).log.rows);
  }

  lemma StepKeepsWellFormed(log: Log, op: Op)
    requires WellFormed(log)
    ensures WellFormed(Step(log, op))
  {
    match op
    case OpenRoom(room, owner) =>
      if room !in log.epochs {
        ReplayOfSilence(log.rows, room);
      }
    case SetRole(_, _, _) =>
    case DoSubmit(req, id, now) => SubmitKeepsWellFormed(log, req, id, now);
    case DoEdit(req, window, id, now) => EditKeepsWellFormed(log, req, window, id, now);
    case DoDelete(req, now) => DeleteKeepsWellFormed(log, req, now);
  }

  lemma RunSnoc(log: Log, ops: seq<Op>, op: Op)
    ensures Run(log, ops + [op]) == Step(Run(log, ops), op)
  {
    assert Init(ops + [op]) == ops;
  }

  lemma {:induction false} RunKeepsWellFormed(log: Log, ops: seq<Op>)
    requires WellFormed(log)
    ensures WellFormed(Run(log, ops))
  {
    if ops != [] {
      RunKeepsWellFormed(log, Init(ops));
      StepKeepsWellFormed(Run(log, Init(ops)), Last(ops));
    }
  }

  /** Every state the server can reach from an empty database satisfies the invariant. */
  lemma RunIsWellFormed(ops: seq<Op>)
    ensures WellFormed(Run(EMPTY, ops))
  {
    RunKeepsWellFormed(EMPTY, ops);
  }

  // ---- Links between rows ----

  /** In a sound log the row found under a key is the only one with that key. */
  lemma {:induction false} FindIsUnique(rows: seq<Row>, k: nat)
    requires Sound(rows) && k < |rows|
    ensures Find(rows, rows[k].id) == Some(k)
  {
    if k < |rows| - 1 {
      FindIsUnique(Init(rows), k);
    }
  }

  lemma {:induction false} FindPrefix(rows: seq<Row>, n: nat, id: Id)
    requires Sound(rows) && n <= |rows| && Find(rows[..n], id).Some?
    ensures Sound(rows[..n]) && Find(rows, id) == Find(rows[..n], id)
  {
    if n < |rows| {
      assert rows[..n] == Init(rows)[..n];
      FindPrefix(Init(rows), n, id);
    } else {
      assert rows[..n] == rows;
    }
  }

  lemma {:induction false} SoundPrefix(rows: seq<Row>, k: nat)
    requires Sound(rows) && k < |rows|
    ensures Sound(rows[..k]) && Fits(rows[..k], rows[k])
  {
    if k < |rows| - 1 {
      assert rows[..k] == Init(rows)[..k];
      SoundPrefix(Init(rows), k);
    } else {
      assert rows[..k] == Init(rows);
    }
  }

  /** reply_to leads to a row of the same room that was inserted earlier. */
  lemma ReplyOf(rows: seq<Row>, k: nat)
    requires Sound(rows) && k < |rows| && rows[k].replyTo.Some?
    ensures var at := FindInRoom(rows, rows[k].replyTo.value, rows[k].room); at.Some? && at.value < k
  {
    SoundPrefix(rows, k);
    FindPrefix(rows, k, rows[k].replyTo.value);
  }
}
