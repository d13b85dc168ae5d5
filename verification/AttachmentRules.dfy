/** Which uploads and deletions are accepted and what rows they leave, and who can make a row go away. */
module AttachmentRules {
  import opened Prelude
  import opened Attachments
  import opened AttachmentPruning

  // ---- Uploads ----

  /** What must be true of the bytes and the manifest before anything is looked up. */
  predicate IsWellFormed(hash: Blob -> Id, config: Config, req: Request) {
    var m := req.manifest;
    && |req.claimedId| == 64 && (forall c :: c in req.claimedId ==> c in "0123456789abcdef")
    && hash(req.data) == req.claimedId && |req.data| in config.bucketSizes
    && m.chunkSize == config.chunkSize && m.chunkCount >= 1
    && 1 <= m.plaintextSize <= m.encryptedSize
    && req.nonceSize.Some? && req.nonceSize.value == 7
    && 0 <= m.baseCounter <= 4_294_967_295
    && 1 <= |m.contentType| <= 128 && (forall c :: c in m.contentType ==> 0x20 <= c as int < 0x7F)
  }

  /** The attachment is not there, or it is there for the same room and from the same user. */
  predicate IsTheirs(s: Store, req: Request) {
    req.claimedId in s.rows ==>
      s.rows[req.claimedId].room == req.room && s.rows[req.claimedId].uploader == req.uploader
  }

  lemma HexDigits(c: char)
    ensures IsHexDigit(c) <==> c in "0123456789abcdef"
  {
    if IsHexDigit(c) {
      var digits := "0123456789abcdef";
      assert c <= '9' ==> digits[c as int - 48] == c;
      assert c >= 'a' ==> digits[c as int - 87] == c;
    }
  }

  lemma WellFormedIff(hash: Blob -> Id, config: Config, req: Request)
    ensures IsWellFormed(hash, config, req) <==>
              && IsValidId(req.claimedId) && |req.data| in config.bucketSizes && ManifestIsValid(config, req)
              && hash(req.data) == req.claimedId
  {
    forall c
      ensures IsHexDigit(c) <==> c in "0123456789abcdef"
    {
      HexDigits(c);
    }
  }

  /**
   An upload is accepted exactly when its bytes and manifest are in order, its uploader is in the room, if it
   has one, and the attachment is not somebody else's. Its row is then the one there was, or carries what was
   sent.
   */
  lemma UploadIsAcceptedIff(s: Store, hash: Blob -> Id, config: Config, req: Request, member: bool, now: int)
    ensures var plan, id := Upload(s, hash, config, req, member, now), req.claimedId;
            && (plan.reply.Ok? <==>
                  IsWellFormed(hash, config, req) && (req.room.Some? ==> member) && IsTheirs(s, req))
            && (plan.reply.Err? ==> plan.effects == [])
            && (plan.reply.Ok? ==>
                  var next, row := ApplyAll(s, plan.effects), plan.reply.value;
                  && next.rows == s.rows[id := row]
                  && KeyOrEmpty(id) in next.blobs && next.blobs - {KeyOrEmpty(id)} == s.blobs - {KeyOrEmpty(id)}
                  && (id in s.rows ==> row == s.rows[id])
                  && (id !in s.rows ==> row == Row(req.room, req.uploader, KeyOrEmpty(id), req.manifest, now))
                  && (id in s.rows && KeyOrEmpty(id) in s.blobs ==> next == s)
                  && (id !in s.rows || KeyOrEmpty(id) !in s.blobs ==> next.blobs[KeyOrEmpty(id)] == req.data))
  {
    WellFormedIff(hash, config, req);
    var plan := Upload(s, hash, config, req, member, now);
    if |plan.effects| == 2 {
      ApplyTwo(s, plan.effects[0], plan.effects[1]);
      assert plan.effects == [plan.effects[0], plan.effects[1]];
    }
  }

  lemma UploadIsRefusedFor(s: Store, hash: Blob -> Id, config: Config, req: Request, member: bool, now: int)
    ensures var reply := Upload(s, hash, config, req, member, now).reply;
            var inRoom := IsWellFormed(hash, config, req) && (req.room.Some? ==> member);
            && (reply == Err(NotAMember) <==> IsWellFormed(hash, config, req) && !inRoom)
            && (reply == Err(AlreadyExists) <==> inRoom && !IsTheirs(s, req))
            && (reply.Err? && reply.error.HashMismatch? ==>
                  reply.error.expected == req.claimedId && reply.error.computed == hash(req.data) != req.claimedId)
            && (reply.Err? && reply.error.InvalidBucketSize? ==>
                  reply.error.size == |req.data| && |req.data| !in config.bucketSizes)
  {
    WellFormedIff(hash, config, req);
  }

  // ---- Deletions ----

  /** Only its uploader deletes an attachment; its row goes, and its blob unless that fails, and nothing else. */
  lemma DeleteIs(s: Store, hash: Blob -> Id, id: Id, requester: User, fate: Fate)
    requires Sane(s, hash)
    ensures var plan := Delete(s, id, requester, fate);
            && (plan.reply.Ok? <==> id in s.rows && s.rows[id].uploader == requester)
            && (plan.reply == Err(NotFound) <==> id !in s.rows)
            && (plan.reply == Err(Forbidden) <==> id in s.rows && s.rows[id].uploader != requester)
            && (plan.reply.Err? ==> plan.effects == [])
            && (plan.reply.Ok? ==>
                  var next := ApplyAll(s, plan.effects);
                  && next.rows.Keys == s.rows.Keys - {id}
                  && (forall other :: other in next.rows ==> next.rows[other] == s.rows[other])
                  && next.blobs == (if fate.Failed? then s.blobs else s.blobs - {KeyOrEmpty(id)}))
  {
    var plan := Delete(s, id, requester, fate);
    if plan.reply.Ok? {
      ApplyTwo(s, plan.effects[0], plan.effects[1]);
      assert plan.effects == [plan.effects[0], plan.effects[1]];
    }
  }

  /** Where a blob is kept: below two directories that are named by the beginning of its id. */
  lemma KeyIs(id: Id)
    requires IsValidId(id)
    ensures KeyOrEmpty(id) == "attachments/" + [id[0], id[1]] + "/" + [id[2], id[3]] + "/" + id
  {
    assert id[0..2] == [id[0], id[1]] && id[2..4] == [id[2], id[3]];
    var a, b, c := id[0..2], id[2..4], "attachments/";
    assert c + (a + "/" + b + "/" + id) == c + a + "/" + b + "/" + id;
  }

  /** A room's attachments are pruned in transactions of 500 rows, and the rest in one more. */
  lemma FirstChunkIs(expired: seq<Id>, fate: Id -> Fate)
    requires expired != []
    ensures var n := if |expired| <= 500 then |expired| else 500;
            && |RoomEffects(expired, fate)| > 0 && RoomEffects(expired, fate)[0] == DeleteRows(expired[..n])
  {
    assert |expired| <= 500 ==> expired[..|expired|] == expired;
  }

  /** With a room go the rows of its attachments; their blobs stay. */
  lemma DropRoomIs(s: Store, hash: Blob -> Id, room: Room)
    ensures var next := Step(s, hash, DropRoom(room));
            && next.blobs == s.blobs
            && (forall id :: id in next.rows <==> id in s.rows && s.rows[id].room != Some(room))
            && forall id :: id in next.rows ==> next.rows[id] == s.rows[id]
  {
  }

  // ---- What takes rows away ----

  /** A prune takes what is older than the retention of its room, in days of 86400 seconds. */
  lemma ExpiredIff(rows: map<Id, Row>, scan: Scan, limits: Limits, id: Id)
    ensures IsExpired(rows, scan, limits, id) <==>
              && id in rows && rows[id].room.Some? && rows[id].room.value == scan.room
              && EffectiveRetention(scan.retention, limits.instance, limits.server) >= 1
              && scan.now - rows[id].createdAt >
                   EffectiveRetention(scan.retention, limits.instance, limits.server) * 86_400
  {
  }

  ghost predicate AreAnswers(rows: map<Id, Row>, scans: seq<Scan>, limits: Limits) {
    forall k :: 0 <= k < |scans| ==> IsAnswer(rows, scans[k], limits)
  }

  lemma {:induction false} CutTakesOnly(s: Store, effects: seq<Effect>, cut: Cut, id: Id)
    requires id in s.rows && id !in ApplyCut(s, effects, cut).rows
    ensures exists k :: 0 <= k < |effects| && effects[k].DeleteRows? && id in effects[k].ids
    decreases |effects|
  {
    if effects != [] && cut.n > 0 && id in Apply(s, effects[0]).rows {
      var rest := effects[1..];
      if cut.n < |effects| {
        assert effects[..cut.n][1..] == rest[..cut.n - 1];
      }
      CutTakesOnly(Apply(s, effects[0]), rest, cut.(n := cut.n - 1), id);
      var k :| 0 <= k < |rest| && rest[k].DeleteRows? && id in rest[k].ids;
      assert effects[k + 1] == rest[k];
    } else if effects != [] && cut.n > 0 {
      assert effects[0].DeleteRows?;
    }
  }

  lemma {:induction false} BlobEffectsDeleteNoRow(ids: seq<Id>, fate: Id -> Fate)
    ensures forall e :: e in BlobEffects(ids, fate) ==> e.DeleteBlob?
    decreases |ids|
  {
    if ids != [] {
      BlobEffectsDeleteNoRow(ids[1..], fate);
    }
  }

  lemma {:induction false} RoomDeletesOnly(expired: seq<Id>, fate: Id -> Fate, e: Effect, id: Id)
    requires e in RoomEffects(expired, fate) && e.DeleteRows? && id in e.ids
    ensures id in expired
    decreases |expired|
  {
    BlobEffectsDeleteNoRow(if |expired| <= CHUNK then expired else expired[..CHUNK], fate);
    if |expired| > CHUNK {
      assert expired == expired[..CHUNK] + expired[CHUNK..];
      if e in RoomEffects(expired[CHUNK..], fate) {
        RoomDeletesOnly(expired[CHUNK..], fate, e, id);
      }
    }
  }

  lemma {:induction false} PruneDeletesOnly(scans: seq<Scan>, limits: Limits, fate: Id -> Fate, e: Effect, id: Id)
    requires e in PruneEffects(scans, limits, fate) && e.DeleteRows? && id in e.ids
    ensures exists k :: 0 <= k < |scans| && id in scans[k].expired
    decreases |scans|
  {
    if Retention(scans[0], limits) != 0 && e in RoomEffects(scans[0].expired, fate) {
      RoomDeletesOnly(scans[0].expired, fate, e, id);
    } else {
      PruneDeletesOnly(scans[1..], limits, fate, e, id);
      var k :| 0 <= k < |scans[1..]| && id in scans[1..][k].expired;
      assert scans[k + 1] == scans[1..][k];
    }
  }

  /**
   The operation may take the row of the id away: its uploader's deletion, a prune that is due, or the end of
   its room.
   */
  ghost predicate Takes(s: Store, op: Op, id: Id)
    requires id in s.rows
  {
    match op
    case DoDelete(deleted, requester, _, _) => deleted == id && requester == s.rows[id].uploader
    case DoPrune(scans, limits, _, _) => exists k :: 0 <= k < |scans| && IsExpired(s.rows, scans[k], limits, id)
    case DropRoom(room) => s.rows[id].room == Some(room)
    case DoUpload(_, _, _, _, _) => false
  }

  /** However far a request gets, a row goes only by these. */
  lemma RowsGoOnlyBy(s: Store, hash: Blob -> Id, op: Op, id: Id)
    requires id in s.rows && id !in Step(s, hash, op).rows
    requires op.DoPrune? ==> AreAnswers(s.rows, op.scans, op.limits)
    ensures Takes(s, op, id)
  {
    match op
    case DoUpload(config, req, member, now, cut) =>
      CutTakesOnly(s, Upload(s, hash, config, req, member, now).effects, cut, id);
    case DoDelete(deleted, requester, fate, cut) =>
      CutTakesOnly(s, Delete(s, deleted, requester, fate).effects, cut, id);
    case DoPrune(scans, limits, fates, cut) =>
      var effects := PruneEffects(scans, limits, fates);
      CutTakesOnly(s, effects, cut, id);
      var k :| 0 <= k < |effects| && effects[k].DeleteRows? && id in effects[k].ids;
      PruneDeletesOnly(scans, limits, fates, effects[k], id);
      var j :| 0 <= j < |scans| && id in scans[j].expired;
      assert IsAnswer(s.rows, scans[j], limits);
    case DropRoom(_) =>
  }
}
