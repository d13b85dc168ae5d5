/** Attachment requests as the server carries them out, one transaction or storage call at a time. */
module AttachmentStore {
  import opened Prelude
  import opened Attachments
  import opened AttachmentPruning

  datatype PruneReport = PruneReport(roomsScanned: nat, attachmentsDeleted: nat, blobsDeleted: nat, blobErrors: nat)

  class AttachmentStore {
    var rows: map<Id, Row>
    var blobs: map<string, Blob>

    function State(): Store
      reads this
    {
      Store(rows, blobs)
    }

    constructor ()
      ensures State() == EMPTY
    {
      rows, blobs := map[], map[];
    }

    method Write(key: string, data: Blob)
      modifies this`blobs
      ensures State() == Apply(old(State()), WriteBlob(key, data))
    {
      blobs := blobs[key := data];
    }

    method Insert(id: Id, row: Row)
      modifies this`rows
      ensures State() == Apply(old(State()), InsertRow(id, row))
    {
      rows := rows[id := row];
    }

    /** DELETE FROM attachments WHERE id IN (...) */
    method DeleteAll(ids: seq<Id>) returns (affected: nat)
      modifies this`rows
      ensures State() == Apply(old(State()), DeleteRows(ids)) && affected == |old(rows)| - |rows|
    {
      affected := 0;
      assert Keep(rows, []) == rows;
      for i := 0 to |ids|
        invariant rows == Keep(old(rows), ids[..i]) && unchanged(`blobs)
        invariant affected == |old(rows)| - |rows|
      {
        assert ids[..i + 1] == ids[..i] + [ids[i]];
        KeepSnoc(old(rows), ids[..i], ids[i]);
        if ids[i] in rows {
          KeysShrink(rows, ids[i]);
          affected := affected + 1;
        } else {
          assert rows - {ids[i]} == rows;
        }
        rows := rows - {ids[i]};
      }
      assert ids[..|ids|] == ids;
    }

    method DeleteOne(key: string, fate: Fate) returns (ok: bool)
      modifies this`blobs
      ensures State() == Apply(old(State()), DeleteBlob(key, fate)) && ok == (fate == Gone)
    {
      if fate != Failed {
        blobs := blobs - {key};
      }
      return fate == Gone;
    }

    method Upload(hash: Blob -> Id, config: Config, req: Request, member: bool, now: int)
      returns (r: Result<Row, Error>)
      modifies this
      ensures var plan := Attachments.Upload(old(State()), hash, config, req, member, now);
              State() == ApplyAll(old(State()), plan.effects) && r == plan.reply
    {
      var id := req.claimedId;
      if !IsValidId(id) {
        return Err(InvalidManifest);
      }
      if |req.data| !in config.bucketSizes {
        return Err(InvalidBucketSize(|req.data|));
      }
      if !ManifestIsValid(config, req) {
        return Err(InvalidManifest);
      }
      var computed := hash(req.data);
      if computed != id {
        return Err(HashMismatch(id, computed));
      }
      if req.room.Some? && !member {
        return Err(NotAMember);
      }
      var key := KeyFor(id);
      if id in rows {
        if rows[id].room == req.room && rows[id].uploader == req.uploader {
          if key !in blobs {
            Write(key, req.data);
          }
          return Ok(rows[id]);
        } else {
          return Err(AlreadyExists);
        }
      }
      var row := Row(req.room, req.uploader, key, req.manifest, now);
      ApplyTwo(State(), WriteBlob(key, req.data), InsertRow(id, row));
      Write(key, req.data);
      Insert(id, row);
      return Ok(row);
    }

    method Delete(id: Id, requester: User, fate: Fate) returns (r: Result<(), Error>)
      modifies this
      ensures var plan := Attachments.Delete(old(State()), id, requester, fate);
              State() == ApplyAll(old(State()), plan.effects) && r == plan.reply
    {
      if id !in rows || |id| < 4 {
        return Err(NotFound);
      }
      if rows[id].uploader != requester {
        return Err(Forbidden);
      }
      ApplyTwo(State(), DeleteRows([id]), DeleteBlob(KeyFor(id), fate));
      var _ := DeleteAll([id]);
      var _ := DeleteOne(KeyFor(id), fate);
      return Ok(());
    }

    /** The blobs of a chunk, one by one. */
    method DeleteBlobs(ids: seq<Id>, fate: Id -> Fate) returns (ok: nat, errors: nat)
      modifies this`blobs
      ensures State() == ApplyAll(old(State()), BlobEffects(ids, fate)) && ok + errors == |ids|
    {
      ok, errors := 0, 0;
      for i := 0 to |ids|
        invariant ApplyAll(State(), BlobEffects(ids[i..], fate)) == ApplyAll(old(State()), BlobEffects(ids, fate))
        invariant ok + errors == i && unchanged(`rows)
      {
        ghost var rest := BlobEffects(ids[i..], fate);
        assert ids[i..][0] == ids[i] && ids[i..][1..] == ids[i + 1..];
        assert rest[1..] == BlobEffects(ids[i + 1..], fate);
        var deleted := DeleteOne(KeyOrEmpty(ids[i]), fate(ids[i]));
        if deleted {
          ok := ok + 1;
        } else {
          errors := errors + 1;
        }
      }
    }

    method PruneChunk(ids: seq<Id>, fate: Id -> Fate, report: PruneReport) returns (next: PruneReport)
      requires forall j, k :: 0 <= j < k < |ids| ==> ids[j] != ids[k]
      requires forall id :: id in ids ==> id in rows
      modifies this
      ensures State() == ApplyAll(old(State()), ChunkEffects(ids, fate))
      ensures next.roomsScanned == report.roomsScanned
      ensures next.attachmentsDeleted == report.attachmentsDeleted + (|old(rows)| - |rows|)
      ensures next.blobsDeleted + next.blobErrors == report.blobsDeleted + report.blobErrors + (|old(rows)| - |rows|)
    {
      assert ChunkEffects(ids, fate)[1..] == BlobEffects(ids, fate);
      AllGoOnce(rows, ids);
      var affected := DeleteAll(ids);
      var ok, errors := DeleteBlobs(ids, fate);
      next := report.(attachmentsDeleted := report.attachmentsDeleted + affected,
                      blobsDeleted := report.blobsDeleted + ok, blobErrors := report.blobErrors + errors);
    }

    /** The expired rows of one room, in chunks. */
    method PruneRoom(expired: seq<Id>, fate: Id -> Fate, report: PruneReport) returns (next: PruneReport)
      requires forall j, k :: 0 <= j < k < |expired| ==> expired[j] != expired[k]
      requires forall id :: id in expired ==> id in rows
      modifies this
      ensures State() == ApplyAll(old(State()), RoomEffects(expired, fate))
      ensures next.roomsScanned == report.roomsScanned
      ensures next.attachmentsDeleted == report.attachmentsDeleted + (|old(rows)| - |rows|)
      ensures next.blobsDeleted + next.blobErrors == report.blobsDeleted + report.blobErrors + (|old(rows)| - |rows|)
    {
      next := report;
      var at := 0;
      while at < |expired|
        invariant 0 <= at <= |expired|
        invariant ApplyAll(State(), RoomEffects(expired[at..], fate))
                  == ApplyAll(old(State()), RoomEffects(expired, fate))
        invariant forall id :: id in expired[at..] ==> id in rows
        invariant next.roomsScanned == report.roomsScanned
        invariant next.attachmentsDeleted == report.attachmentsDeleted + (|old(rows)| - |rows|)
        invariant next.blobsDeleted + next.blobErrors
                  == report.blobsDeleted + report.blobErrors + (|old(rows)| - |rows|)
      {
        var end := if |expired| - at <= CHUNK then |expired| else at + CHUNK;
        var chunk := expired[at..end];
        ChunkOfRoom(State(), expired, at, end, fate);
        ChunkRemoves(State(), chunk, fate);
        next := PruneChunk(chunk, fate, next);
        LaterRemain(expired, at, end);
        at := end;
      }
    }

    /** scans are the database's answers. */
    method Prune(scans: seq<Scan>, limits: Limits, fate: Id -> Fate) returns (report: PruneReport)
      requires CoversRooms(rows, scans)
      requires forall k :: 0 <= k < |scans| ==> IsAnswer(rows, scans[k], limits)
      modifies this
      ensures State() == ApplyAll(old(State()), PruneEffects(scans, limits, fate))
      ensures report.roomsScanned == |scans|
      ensures report.attachmentsDeleted == |old(rows)| - |rows| == report.blobsDeleted + report.blobErrors
    {
      report := PruneReport(0, 0, 0, 0);
      for i := 0 to |scans|
        invariant ApplyAll(State(), PruneEffects(scans[i..], limits, fate))
                  == ApplyAll(old(State()), PruneEffects(scans, limits, fate))
        invariant forall k :: i <= k < |scans| ==> IsAnswer(rows, scans[k], limits)
        invariant report.roomsScanned == i
        invariant report.attachmentsDeleted == |old(rows)| - |rows| == report.blobsDeleted + report.blobErrors
      {
        assert scans[i..][0] == scans[i] && scans[i..][1..] == scans[i + 1..];
        report := report.(roomsScanned := report.roomsScanned + 1);
        ghost var before := rows;
        if Retention(scans[i], limits) != 0 {
          ApplyAllThen(State(), RoomEffects(scans[i].expired, fate), PruneEffects(scans[i + 1..], limits, fate));
          RoomRemoves(State(), scans[i].expired, fate);
          report := PruneRoom(scans[i].expired, fate, report);
          forall k | i + 1 <= k < |scans|
            ensures IsAnswer(rows, scans[k], limits)
          {
            OtherAnswersStay(before, rows, scans, limits, i, k);
          }
        } else {
          assert [] + PruneEffects(scans[i + 1..], limits, fate) == PruneEffects(scans[i + 1..], limits, fate);
        }
      }
    }
  }

  lemma KeepSnoc(rows: map<Id, Row>, ids: seq<Id>, id: Id)
    ensures Keep(rows, ids + [id]) == Keep(rows, ids) - {id}
  {
  }

  lemma KeysShrink(rows: map<Id, Row>, id: Id)
    requires id in rows
    ensures |rows - {id}| == |rows| - 1
  {
    assert (rows - {id}).Keys == rows.Keys - {id};
    assert |(rows - {id}).Keys| == |rows - {id}|;
  }

  /** Deleting rows that are there and all different deletes as many as there are ids. */
  lemma {:induction false} AllGoOnce(rows: map<Id, Row>, ids: seq<Id>)
    requires forall j, k :: 0 <= j < k < |ids| ==> ids[j] != ids[k]
    requires forall id :: id in ids ==> id in rows
    ensures |Keep(rows, ids)| == |rows| - |ids|
  {
    if ids == [] {
      assert Keep(rows, ids) == rows;
    } else {
      var id, rest := Last(ids), Init(ids);
      assert ids == rest + [id];
      AllGoOnce(rows, rest);
      KeepSnoc(rows, rest, id);
      KeysShrink(Keep(rows, rest), id);
    }
  }

  lemma ChunkOfRoom(s: Store, expired: seq<Id>, at: nat, end: nat, fate: Id -> Fate)
    requires at < |expired| && end == if |expired| - at <= CHUNK then |expired| else at + CHUNK
    ensures ApplyAll(s, RoomEffects(expired[at..], fate))
         == ApplyAll(ApplyAll(s, ChunkEffects(expired[at..end], fate)), RoomEffects(expired[end..], fate))
  {
    var rest := expired[at..];
    if end < |expired| {
      assert rest[..CHUNK] == expired[at..end] && rest[CHUNK..] == expired[end..];
      ApplyAllThen(s, ChunkEffects(expired[at..end], fate), RoomEffects(expired[end..], fate));
    } else {
      assert rest == expired[at..end];
    }
  }

  lemma LaterRemain(expired: seq<Id>, at: nat, end: nat)
    requires at <= end <= |expired| && forall j, k :: 0 <= j < k < |expired| ==> expired[j] != expired[k]
    ensures forall id :: id in expired[end..] ==> id in expired[at..] && id !in expired[at..end]
  {
    forall id | id in expired[end..]
      ensures id in expired[at..] && id !in expired[at..end]
    {
      var k :| 0 <= k < |expired[end..]| && expired[end..][k] == id;
      assert expired[at..][end - at + k] == id;
    }
  }

  /** Pruning one room leaves the answers for the others as they are. */
  lemma OtherAnswersStay(before: map<Id, Row>, after: map<Id, Row>, scans: seq<Scan>, limits: Limits, i: nat, k: nat)
    requires i < k < |scans| && scans[i].room != scans[k].room
    requires IsAnswer(before, scans[i], limits) && IsAnswer(before, scans[k], limits)
    requires forall id :: id in after <==> id in before && id !in ToSet(scans[i].expired)
    requires forall id :: id in after ==> after[id] == before[id]
    ensures IsAnswer(after, scans[k], limits)
  {
    forall id
      ensures IsExpired(after, scans[k], limits, id) <==> IsExpired(before, scans[k], limits, id)
    {
      assert id in scans[i].expired ==> IsExpired(before, scans[i], limits, id);
    }
  }
}
