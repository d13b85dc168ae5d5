/** What a completed prune removes, and the retention it goes by. */
module AttachmentPruning {
  import opened Prelude
  import opened Attachments

  // ---- Retention ----

  /** The tiers that limit a room: its own one counts only if it is not negative. */
  predicate IsTier(days: int, roomOverride: Option<int>, instance: int, server: int) {
    days == instance || days == server || (roomOverride == Some(days) && days >= 0)
  }

  /** 0 in any tier keeps attachments forever; otherwise the least tier decides. */
  lemma RetentionIsLeastTier(roomOverride: Option<int>, instance: int, server: int, days: int)
    requires instance >= 0 && server >= 0
    ensures var effective := EffectiveRetention(roomOverride, instance, server);
            && (effective == 0 <==> IsTier(0, roomOverride, instance, server))
            && IsTier(effective, roomOverride, instance, server)
            && (effective > 0 && IsTier(days, roomOverride, instance, server) ==> effective <= days)
  {
  }

  // ---- Which rows and blobs go ----

  /** s is t without the rows of these ids and without their blobs, except those that could not be deleted. */
  ghost predicate Without(s: Store, t: Store, ids: set<Id>, fate: Id -> Fate) {
    && (forall id :: id in t.rows <==> id in s.rows && id !in ids)
    && (forall id :: id in t.rows ==> t.rows[id] == s.rows[id])
    && (forall key :: key in t.blobs <==>
          key in s.blobs && !exists id :: id in ids && !fate(id).Failed? && KeyOrEmpty(id) == key)
    && forall key :: key in t.blobs ==> t.blobs[key] == s.blobs[key]
  }

  function ToSet(ids: seq<Id>): set<Id> {
    set id | id in ids
  }

  lemma WithoutMore(s: Store, t: Store, u: Store, a: set<Id>, b: set<Id>, fate: Id -> Fate)
    requires Without(s, t, a, fate) && Without(t, u, b, fate)
    ensures Without(s, u, a + b, fate)
  {
  }

  lemma {:induction false} BlobEffectsRemove(s: Store, ids: seq<Id>, fate: Id -> Fate)
    ensures var t := ApplyAll(s, BlobEffects(ids, fate));
            && t.rows == s.rows
            && (forall key :: key in t.blobs <==>
                  key in s.blobs && !exists id :: id in ids && !fate(id).Failed? && KeyOrEmpty(id) == key)
            && forall key :: key in t.blobs ==> t.blobs[key] == s.blobs[key]
    decreases |ids|
  {
    if ids != [] {
      var e := DeleteBlob(KeyOrEmpty(ids[0]), fate(ids[0]));
      BlobEffectsRemove(Apply(s, e), ids[1..], fate);
      assert BlobEffects(ids, fate)[1..] == BlobEffects(ids[1..], fate);
      assert forall id :: id in ids <==> id == ids[0] || id in ids[1..];
    }
  }

  lemma ChunkRemoves(s: Store, ids: seq<Id>, fate: Id -> Fate)
    ensures Without(s, ApplyAll(s, ChunkEffects(ids, fate)), ToSet(ids), fate)
  {
    var rows := Apply(s, DeleteRows(ids));
    BlobEffectsRemove(rows, ids, fate);
    assert ChunkEffects(ids, fate)[1..] == BlobEffects(ids, fate);
  }

  lemma {:induction false} RoomRemoves(s: Store, expired: seq<Id>, fate: Id -> Fate)
    ensures Without(s, ApplyAll(s, RoomEffects(expired, fate)), ToSet(expired), fate)
    decreases |expired|
  {
    if 0 < |expired| <= CHUNK {
      ChunkRemoves(s, expired, fate);
    } else if expired != [] {
      var first, later := expired[..CHUNK], expired[CHUNK..];
      var t := ApplyAll(s, ChunkEffects(first, fate));
      ChunkRemoves(s, first, fate);
      RoomRemoves(t, later, fate);
      ApplyAllThen(s, ChunkEffects(first, fate), RoomEffects(later, fate));
      WithoutMore(s, t, ApplyAll(t, RoomEffects(later, fate)), ToSet(first), ToSet(later), fate);
      assert expired == first + later;
      assert ToSet(expired) == ToSet(first) + ToSet(later);
    }
  }

  function AllExpired(scans: seq<Scan>): set<Id> {
    set k, id | 0 <= k < |scans| && id in scans[k].expired :: id
  }

  lemma {:induction false} PruneRemoves(s: Store, scans: seq<Scan>, limits: Limits, fate: Id -> Fate)
    requires forall k :: 0 <= k < |scans| && Retention(scans[k], limits) == 0 ==> scans[k].expired == []
    ensures Without(s, ApplyAll(s, PruneEffects(scans, limits, fate)), AllExpired(scans), fate)
    decreases |scans|
  {
    if scans != [] {
      var head := if Retention(scans[0], limits) == 0 then [] else RoomEffects(scans[0].expired, fate);
      var t, rest := ApplyAll(s, head), PruneEffects(scans[1..], limits, fate);
      RoomRemoves(s, scans[0].expired, fate);
      PruneRemoves(t, scans[1..], limits, fate);
      ApplyAllThen(s, head, rest);
      WithoutMore(s, t, ApplyAll(t, rest), ToSet(scans[0].expired), AllExpired(scans[1..]), fate);
      assert AllExpired(scans) == ToSet(scans[0].expired) + AllExpired(scans[1..]) by {
        forall id | id in AllExpired(scans)
          ensures id in ToSet(scans[0].expired) + AllExpired(scans[1..])
        {
          var k :| 0 <= k < |scans| && id in scans[k].expired;
          assert k > 0 ==> scans[k] == scans[1..][k - 1];
        }
        forall id | id in AllExpired(scans[1..])
          ensures id in AllExpired(scans)
        {
          var k :| 0 <= k < |scans[1..]| && id in scans[1..][k].expired;
          assert scans[k + 1] == scans[1..][k];
        }
      }
    }
  }

  /** The row belongs to a room whose effective retention is not 0 and was created before it began. */
  ghost predicate IsDue(rows: map<Id, Row>, scans: seq<Scan>, limits: Limits, id: Id) {
    exists k :: 0 <= k < |scans| && IsExpired(rows, scans[k], limits, id)
  }

  /**
   A prune that completes removes exactly the rows that are older than the effective retention of their
   room, across chunks, and of the blobs exactly theirs, but for those whose deletion failed.
   */
  lemma CompletedPruneIsExact(s: Store, scans: seq<Scan>, limits: Limits, fate: Id -> Fate)
    requires forall k :: 0 <= k < |scans| ==> IsAnswer(s.rows, scans[k], limits)
    ensures var t := ApplyAll(s, PruneEffects(scans, limits, fate));
            && (forall id :: id in t.rows <==> id in s.rows && !IsDue(s.rows, scans, limits, id))
            && (forall id :: id in t.rows ==> t.rows[id] == s.rows[id])
            && forall key :: key in t.blobs <==>
                 key in s.blobs && !exists id ::
                       IsDue(s.rows, scans, limits, id) && !fate(id).Failed? && KeyOrEmpty(id) == key
  {
    forall k | 0 <= k < |scans| && Retention(scans[k], limits) == 0
      ensures scans[k].expired == []
    {
      if scans[k].expired != [] {
        SomeMember(scans[k].expired);
      }
    }
    PruneRemoves(s, scans, limits, fate);
    forall id
      ensures id in AllExpired(scans) <==> IsDue(s.rows, scans, limits, id)
    {
      if id in AllExpired(scans) {
        var k :| 0 <= k < |scans| && id in scans[k].expired;
        assert IsExpired(s.rows, scans[k], limits, id);
      }
    }
  }

  /** With one scan per room, a row is due exactly by the scan of its own room. */
  lemma DueByItsOwnRoom(rows: map<Id, Row>, scans: seq<Scan>, limits: Limits, id: Id, k: nat)
    requires CoversRooms(rows, scans) && k < |scans| && id in rows && rows[id].room == Some(scans[k].room)
    ensures IsDue(rows, scans, limits, id) <==>
            Retention(scans[k], limits) > 0 && rows[id].createdAt < scans[k].now - Retention(scans[k], limits) * DAY
  {
    if j :| 0 <= j < |scans| && IsExpired(rows, scans[j], limits, id) {
      assert j == k;
    }
    assert IsExpired(rows, scans[k], limits, id) ==> IsDue(rows, scans, limits, id);
  }

  /** Uploading the same bytes again changes nothing and returns the same row. */
  lemma UploadIsIdempotent(s: Store, hash: Blob -> Id, config: Config, req: Request, member: bool, now: int, later: int)
    requires Sane(s, hash) && Upload(s, hash, config, req, member, now).reply.Ok?
    ensures var first := Upload(s, hash, config, req, member, now);
            var t := ApplyAll(s, first.effects);
            && req.claimedId in t.rows && first.reply == Ok(t.rows[req.claimedId])
            && KeyFor(req.claimedId) in t.blobs && hash(t.blobs[KeyFor(req.claimedId)]) == hash(req.data)
            && Upload(t, hash, config, req, member, later) == Plan([], first.reply)
  {
    var first := Upload(s, hash, config, req, member, now);
    if first.effects != [] {
      assert first.effects == [first.effects[0], first.effects[1]];
      ApplyTwo(s, first.effects[0], first.effects[1]);
    }
  }

  /** The requests must not overlap: a deletion whose second half comes after a new upload takes the new blob. */
  lemma OverlapLosesABlob(s: Store, hash: Blob -> Id, config: Config, req: Request, member: bool, now: int)
    requires Sane(s, hash) && req.claimedId in s.rows && s.rows[req.claimedId].uploader == req.uploader
    requires Upload(EMPTY, hash, config, req, member, now).reply.Ok?
    ensures var id := req.claimedId;
            var deletion := Delete(s, id, req.uploader, Gone);
            |deletion.effects| == 2 &&
            var s1 := Apply(s, deletion.effects[0]);
            var upload := Upload(s1, hash, config, req, member, now);
            var s2 := ApplyAll(s1, upload.effects);
            var s3 := Apply(s2, deletion.effects[1]);
            upload.reply.Ok? && Sane(s2, hash) && id in s3.rows && KeyFor(id) !in s3.blobs
  {
    var id := req.claimedId;
    var s1 := Apply(s, DeleteRows([id]));
    var effects := Upload(s1, hash, config, req, member, now).effects;
    assert effects == [effects[0], effects[1]];
    ApplyTwo(s1, effects[0], effects[1]);
    UploadIsSafe(s1, hash, config, req, member, now);
    CutKeepsSane(s1, hash, effects, Cut(2, None));
  }
}
