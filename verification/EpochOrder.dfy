/**
 What the message tables promise over whole runs: the epochs of a room form one line of commits,
 sequence numbers have no gaps, and rows point backwards only.
 */
module EpochOrder {
  import opened Prelude
  import opened MessageLog

  predicate IsOriginal(r: Row, room: RoomId) {
    r.room == room && r.editOf.None? && !r.content.Commit?
  }

  predicate IsCommit(r: Row, room: RoomId) {
    r.room == room && r.editOf.None? && r.content.Commit?
  }

  function Key(r: Row): Clock {
    Clock(r.epoch, r.seqno)
  }

  /** The order that SQL gives to row values (epoch, seq). */
  predicate Before(a: Clock, b: Clock) {
    a.epoch < b.epoch || (a.epoch == b.epoch && a.sequence < b.sequence)
  }

  /** The commits of a room in submission order. */
  function Commits(rows: seq<Row>, room: RoomId): seq<Row> {
    Filter(rows, (r: Row) => IsCommit(r, room))
  }

  /** The application messages and proposals of a room, without edits, in submission order. */
  function Originals(rows: seq<Row>, room: RoomId): seq<Row> {
    Filter(rows, (r: Row) => IsOriginal(r, room))
  }

  function OriginalsOfEpoch(rows: seq<Row>, room: RoomId, epoch: nat): seq<Row> {
    Filter(rows, (r: Row) => IsOriginal(r, room) && r.epoch == epoch)
  }

  /** The edits of a message in submission order. */
  function EditsOf(rows: seq<Row>, original: Id): seq<Row> {
    Filter(rows, (r: Row) => r.editOf == Some(original))
  }

  // ---- Commits ----

  /** Commit number e is the commit of epoch e, and the clock's epoch is their number. */
  lemma {:induction false} CommitsFormALine(rows: seq<Row>, room: RoomId)
    requires Sound(rows)
    ensures |Commits(rows, room)| == Replay(rows, room).epoch
    ensures forall e :: 0 <= e < |Commits(rows, room)| ==> Key(Commits(rows, room)[e]) == Clock(e, 0)
  {
    if rows != [] {
      CommitsFormALine(Init(rows), room);
    }
  }

  // ---- Sequence numbers ----

  /** No row is ahead of the clock of its room. */
  lemma {:induction false} NothingAheadOfTheClock(rows: seq<Row>, room: RoomId, k: nat)
    requires Sound(rows) && k < |rows| && rows[k].room == room
    ensures !Before(Replay(rows, room), Key(rows[k]))
    ensures rows[k].epoch == Replay(rows, room).epoch ==> !IsCommit(rows[k], room)
  {
    var before := Init(rows);
    if k < |before| {
      NothingAheadOfTheClock(before, room, k);
    } else if rows[k].editOf.Some? {
      NothingAheadOfTheClock(before, room, FindInRoom(before, rows[k].editOf.value, room).value);
    }
  }

  /** The originals of an epoch are numbered 1, 2, ... up to the clock's sequence in the current epoch. */
  lemma {:induction false} SequenceHasNoGaps(rows: seq<Row>, room: RoomId, epoch: nat)
    requires Sound(rows)
    ensures var c, os := Replay(rows, room), OriginalsOfEpoch(rows, room, epoch);
            && (forall i :: 0 <= i < |os| ==> os[i].seqno == i + 1)
            && (epoch == c.epoch ==> |os| == c.sequence)
            && (epoch > c.epoch ==> os == [])
  {
    if rows != [] {
      SequenceHasNoGaps(Init(rows), room, epoch);
      var os := OriginalsOfEpoch(Init(rows), room, epoch);
      assert OriginalsOfEpoch(rows, room, epoch) ==
             os + if IsOriginal(Last(rows), room) && Last(rows).epoch == epoch then [Last(rows)] else [];
    }
  }

  /** Submission order is the lexicographic order of (epoch, seq). */
  lemma {:induction false} SubmissionOrderIsKeyOrder(rows: seq<Row>, room: RoomId)
    requires Sound(rows)
    ensures var os := Originals(rows, room);
            && (forall i, j :: 0 <= i < j < |os| ==> Before(Key(os[i]), Key(os[j])))
            && (forall i :: 0 <= i < |os| ==> os[i].seqno >= 1)
  {
    if rows != [] {
      var before, os := Init(rows), Originals(Init(rows), room);
      SubmissionOrderIsKeyOrder(before, room);
      if IsOriginal(Last(rows), room) {
        forall i | 0 <= i < |os|
          ensures Before(Key(os[i]), Key(Last(rows)))
        {
          assert os[i] in before;
          var k :| 0 <= k < |before| && before[k] == os[i];
          NothingAheadOfTheClock(before, room, k);
        }
      }
    }
  }

  /** Two originals of a room with one key are one row. */
  lemma KeysOfOriginalsAreUnique(rows: seq<Row>, room: RoomId, a: Row, b: Row)
    requires Sound(rows) && a in rows && b in rows
    requires IsOriginal(a, room) && IsOriginal(b, room) && Key(a) == Key(b)
    ensures a == b
  {
    var os := Originals(rows, room);
    SubmissionOrderIsKeyOrder(rows, room);
    assert a in os && b in os;
    var i :| 0 <= i < |os| && os[i] == a;
    var j :| 0 <= j < |os| && os[j] == b;
  }

  /**
   Epoch linearisation, over every run: the epoch of a room is the number of its accepted commits,
   each past epoch has exactly one commit and the current one none, the originals of every epoch are
   numbered without gaps, and submission order is key order.
   */
  lemma EpochsAreLinear(ops: seq<Op>, room: RoomId)
    requires room in Run(EMPTY, ops).epochs
    ensures var log := Run(EMPTY, ops);
            var cs, os := Commits(log.rows, room), Originals(log.rows, room);
            && log.epochs[room].epoch == |cs|
            && (forall e :: 0 <= e < |cs| ==> cs[e].epoch == e)
            && |OriginalsOfEpoch(log.rows, room, |cs|)| == log.epochs[room].sequence
            && (forall e: nat, i: nat :: i < |OriginalsOfEpoch(log.rows, room, e)| ==>
                  OriginalsOfEpoch(log.rows, room, e)[i].seqno == i + 1)
            && (forall e: nat :: e > |cs| ==> OriginalsOfEpoch(log.rows, room, e) == [])
            && (forall i, j :: 0 <= i < j < |os| ==> Before(Key(os[i]), Key(os[j])))
  {
    var log := Run(EMPTY, ops);
    RunIsWellFormed(ops);
    CommitsFormALine(log.rows, room);
    SubmissionOrderIsKeyOrder(log.rows, room);
    forall e: nat
      ensures forall i: nat :: i < |OriginalsOfEpoch(log.rows, room, e)| ==>
                OriginalsOfEpoch(log.rows, room, e)[i].seqno == i + 1
      ensures e == |Commits(log.rows, room)| ==>
                |OriginalsOfEpoch(log.rows, room, e)| == log.epochs[room].sequence
      ensures e > |Commits(log.rows, room)| ==> OriginalsOfEpoch(log.rows, room, e) == []
    {
      SequenceHasNoGaps(log.rows, room, e);
    }
  }

  // ---- Replies and edits ----

  /** Row k names row j as the message it replies to or edits. */
  ghost predicate Names(rows: seq<Row>, k: nat, j: nat) {
    && k < |rows| && j < |rows|
    && (rows[k].replyTo == Some(rows[j].id) || rows[k].editOf == Some(rows[j].id))
  }

  ghost predicate IsTrail(rows: seq<Row>, trail: seq<nat>) {
    && trail != [] && trail[0] < |rows|
    && forall i :: 0 < i < |trail| ==> Names(rows, trail[i - 1], trail[i])
  }

  lemma NamesEarlierRowOfTheRoom(rows: seq<Row>, k: nat, j: nat)
    requires Sound(rows) && Names(rows, k, j)
    ensures j < k && rows[j].room == rows[k].room
  {
    SoundPrefix(rows, k);
    FindIsUnique(rows, j);
    FindPrefix(rows, k, rows[j].id);
  }

  /** However replies and edits are followed, the walk stays in the room and ends. */
  lemma {:induction false} TrailsEnd(rows: seq<Row>, trail: seq<nat>)
    requires Sound(rows) && IsTrail(rows, trail)
    ensures |trail| <= trail[0] + 1
    ensures Last(trail) < |rows| && rows[Last(trail)].room == rows[trail[0]].room
  {
    if |trail| > 1 {
      var rest := trail[1..];
      assert Names(rows, trail[0], trail[1]);
      NamesEarlierRowOfTheRoom(rows, trail[0], trail[1]);
      assert forall i :: 0 < i < |rest| ==> rest[i - 1] == trail[i] && rest[i] == trail[i + 1];
      TrailsEnd(rows, rest);
    }
  }

  /** The edits of a message are numbered 1, 2, ... and repeat its sender, type, epoch, reply and targets. */
  lemma {:induction false} EditsAreNumbered(rows: seq<Row>, k: nat)
    requires Sound(rows) && k < |rows|
    ensures var es := EditsOf(rows, rows[k].id);
            && |es| == Edits(rows, rows[k].id)
            && (forall i :: 0 <= i < |es| ==> es[i].editSeq == i + 1 && Mirrors(es[i], rows[k]))
  {
    var before, o := Init(rows), rows[k];
    if k < |before| {
      EditsAreNumbered(before, k);
      FindIsUnique(before, k);
    } else {
      forall e | e in before
        ensures e.editOf != Some(o.id)
      {
        if e.editOf == Some(o.id) {
          var i :| 0 <= i < |before| && before[i] == e;
          SoundPrefix(before, i);
          FindPrefix(before, i, o.id);
        }
      }
      NoEdits(before, o.id);
    }
  }

  lemma {:induction false} NoEdits(rows: seq<Row>, id: Id)
    requires forall e :: e in rows ==> e.editOf != Some(id)
    ensures Edits(rows, id) == 0 && EditsOf(rows, id) == []
  {
    if rows != [] {
      assert Last(rows) in rows;
      NoEdits(Init(rows), id);
    }
  }

  /** A step leaves the rows alone, appends one, or sets tombstones on rows that had none. */
  lemma StepShape(log: Log, op: Op)
    ensures var a, b := log.rows, Step(log, op).rows;
            || (b != [] && Init(b) == a)
            || (SameButTombstones(a, b) && forall k :: 0 <= k < |a| && a[k].deletedAt.Some? ==> b[k] == a[k])
  {
  }

  /** No step adds an edit to a deleted message. */
  lemma EditsSpareTheDeleted(log: Log, k: nat, op: Op)
    requires WellFormed(log) && k < |log.rows| && log.rows[k].deletedAt.Some?
    requires var b := Step(log, op).rows; b != [] && Init(b) == log.rows
    ensures Last(Step(log, op).rows).editOf != Some(log.rows[k].id)
  {
    FindIsUnique(log.rows, k);
  }

  lemma StepKeepsTombstone(log: Log, k: nat, op: Op)
    requires WellFormed(log) && k < |log.rows| && log.rows[k].deletedAt.Some?
    ensures var next := Step(log, op);
            && k < |next.rows| && next.rows[k] == log.rows[k]
            && Edits(next.rows, log.rows[k].id) == Edits(log.rows, log.rows[k].id)
  {
    var a, b := log.rows, Step(log, op).rows;
    StepShape(log, op);
    if b != [] && Init(b) == a {
      EditsSpareTheDeleted(log, k, op);
    } else {
      TombstonesKeepQueries(a, b, a[k].id, a[k].room);
    }
  }

  /** After its tombstone a message stays deleted and gets no further edit, whatever happens. */
  lemma {:induction false} TombstoneFreezesEdits(log: Log, k: nat, ops: seq<Op>)
    requires WellFormed(log) && k < |log.rows| && log.rows[k].deletedAt.Some?
    ensures var end := Run(log, ops);
            && WellFormed(end) && k < |end.rows| && end.rows[k] == log.rows[k]
            && Edits(end.rows, log.rows[k].id) == Edits(log.rows, log.rows[k].id)
  {
    if ops != [] {
      TombstoneFreezesEdits(log, k, Init(ops));
      StepKeepsTombstone(Run(log, Init(ops)), k, Last(ops));
      StepKeepsWellFormed(Run(log, Init(ops)), Last(ops));
    }
  }
}
