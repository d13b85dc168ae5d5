/**
 Attachment rows in the database and their blobs in storage. Every request is a list of effects, each of
 which is one transaction or one storage call, and may fail between any two of them.
 */
module Attachments {
  import opened Prelude

  type Id = string
  type User = string
  type Room = string

  datatype Manifest = Manifest(
    contentType: string, plaintextSize: int, encryptedSize: int, chunkSize: int, chunkCount: int, nonce: string,
    baseCounter: int)

  /** nonceSize is the length of what the nonce decodes to, if it decodes. */
  datatype Request = Request(
    room: Option<Room>, uploader: User, data: Blob, claimedId: Id, manifest: Manifest, nonceSize: Option<nat>)

  datatype Row = Row(room: Option<Room>, uploader: User, key: string, manifest: Manifest, createdAt: int)

  datatype Store = Store(rows: map<Id, Row>, blobs: map<string, Blob>)

  datatype Config = Config(bucketSizes: set<nat>, chunkSize: nat)

  datatype Error =
    | InvalidManifest | InvalidBucketSize(size: nat) | HashMismatch(expected: Id, computed: Id)
    | NotAMember | AlreadyExists | NotFound | Forbidden

  /** What came of deleting a blob: it is gone, the call failed, or it failed although the blob is gone. */
  datatype Fate = Gone | Failed | FailedButGone

  datatype Effect =
    | WriteBlob(key: string, data: Blob)
    | InsertRow(id: Id, row: Row)
    | DeleteRows(ids: seq<Id>)
    | DeleteBlob(key: string, fate: Fate)

  /** A request as it is carried out: its effects, and the reply once all of them are done. */
  datatype Plan<T> = Plan(effects: seq<Effect>, reply: Result<T, Error>)

  // ---- Effects ----

  function Keep(rows: map<Id, Row>, gone: seq<Id>): map<Id, Row> {
    map id | id in rows && id !in gone :: rows[id]
  }

  function Apply(s: Store, e: Effect): Store {
    match e
    case WriteBlob(key, data) => s.(blobs := s.blobs[key := data])
    case InsertRow(id, row) => s.(rows := s.rows[id := row])
    case DeleteRows(ids) => s.(rows := Keep(s.rows, ids))
    case DeleteBlob(key, fate) => if fate.Failed? then s else s.(blobs := s.blobs - {key})
  }

  function ApplyAll(s: Store, effects: seq<Effect>): Store
    decreases |effects|
  {
    if effects == [] then s else ApplyAll(Apply(s, effects[0]), effects[1..])
  }

  lemma ApplyTwo(s: Store, first: Effect, second: Effect)
    ensures ApplyAll(s, [first, second]) == Apply(Apply(s, first), second)
  {
    assert [first, second][1..] == [second] && [second][1..] == [];
    assert ApplyAll(Apply(s, first), [second]) == Apply(Apply(s, first), second);
  }

  /** Where a request stopped: after n effects, perhaps in the middle of writing a blob. */
  datatype Cut = Cut(n: nat, junk: Option<Blob>)

  function ApplyCut(s: Store, effects: seq<Effect>, cut: Cut): Store {
    if cut.n >= |effects| then ApplyAll(s, effects)
    else
      var t := ApplyAll(s, effects[..cut.n]);
      if effects[cut.n].WriteBlob? && cut.junk.Some? then
        t.(blobs := t.blobs[effects[cut.n].key := cut.junk.value])
      else t
  }

  // ---- Requests ----

  predicate IsHexDigit(c: char) {
    '0' <= c <= '9' || 'a' <= c <= 'f'
  }

  predicate IsValidId(id: Id) {
    |id| == 64 && forall c :: c in id ==> IsHexDigit(c)
  }

  function KeyFor(id: Id): string
    requires |id| >= 4
  {
    "attachments/" + (id[0..2] + "/" + id[2..4] + "/" + id)
  }

  predicate IsPrintable(c: char) {
    ' ' <= c <= '~'
  }

  predicate ManifestIsValid(config: Config, req: Request) {
    var m := req.manifest;
    && m.chunkSize == config.chunkSize && m.chunkCount > 0
    && 0 < m.plaintextSize <= m.encryptedSize
    && req.nonceSize == Some(7)
    && 0 <= m.baseCounter < 0x1_0000_0000
    && 0 < |m.contentType| <= 128 && forall c :: c in m.contentType ==> IsPrintable(c)
  }

  /** member tells whether the uploader is in the room of the request, if it has one. */
  function Upload(s: Store, hash: Blob -> Id, config: Config, req: Request, member: bool, now: int): Plan<Row> {
    var id, refused := req.claimedId, e => Plan([], Err(e));
    if !IsValidId(id) then refused(InvalidManifest)
    else if |req.data| !in config.bucketSizes then refused(InvalidBucketSize(|req.data|))
    else if !ManifestIsValid(config, req) then refused(InvalidManifest)
    else if hash(req.data) != id then refused(HashMismatch(id, hash(req.data)))
    else if req.room.Some? && !member then refused(NotAMember)
    else if id in s.rows then
      if s.rows[id].room != req.room || s.rows[id].uploader != req.uploader then refused(AlreadyExists)
      else Plan(if KeyFor(id) in s.blobs then [] else [WriteBlob(KeyFor(id), req.data)], Ok(s.rows[id]))
    else
      var row := Row(req.room, req.uploader, KeyFor(id), req.manifest, now);
      Plan([WriteBlob(KeyFor(id), req.data), InsertRow(id, row)], Ok(row))
  }

  /** A blob that cannot be deleted is logged, and the deletion succeeds. */
  function Delete(s: Store, id: Id, requester: User, fate: Fate): Plan<()> {
    if id !in s.rows || |id| < 4 then Plan([], Err(NotFound))
    else if s.rows[id].uploader != requester then Plan([], Err(Forbidden))
    else Plan([DeleteRows([id]), DeleteBlob(KeyFor(id), fate)], Ok(()))
  }

  // ---- Pruning ----

  const DAY := 86_400

  /** 0 keeps forever; a negative override counts as none. */
  function EffectiveRetention(roomOverride: Option<int>, instance: int, server: int): int {
    var candidate :=
      if roomOverride.Some? && roomOverride.value > 0 then
        if roomOverride.value < instance then roomOverride.value else instance
      else if roomOverride == Some(0) then 0
      else instance;
    if candidate == 0 || instance == 0 || server == 0 then 0
    else if candidate < server then candidate
    else server
  }

  /** A room with attachments: its own retention, the time of its query and the ids it returns. */
  datatype Scan = Scan(room: Room, retention: Option<int>, now: int, expired: seq<Id>)

  datatype Limits = Limits(instance: int, server: int)

  function Retention(scan: Scan, limits: Limits): int {
    EffectiveRetention(scan.retention, limits.instance, limits.server)
  }

  predicate IsExpired(rows: map<Id, Row>, scan: Scan, limits: Limits, id: Id) {
    && id in rows && rows[id].room == Some(scan.room)
    && Retention(scan, limits) > 0
    && rows[id].createdAt < scan.now - Retention(scan, limits) * DAY
  }

  /** The answer of the query for the expired rows of a room; it is asked unless the retention is 0. */
  ghost predicate IsAnswer(rows: map<Id, Row>, scan: Scan, limits: Limits) {
    && (forall j, k :: 0 <= j < k < |scan.expired| ==> scan.expired[j] != scan.expired[k])
    && forall id :: id in scan.expired <==> IsExpired(rows, scan, limits, id)
  }

  /** The answer of the query for the rooms that have attachments. */
  ghost predicate CoversRooms(rows: map<Id, Row>, scans: seq<Scan>) {
    && (forall j, k :: 0 <= j < k < |scans| ==> scans[j].room != scans[k].room)
    && forall id :: id in rows && rows[id].room.Some? ==>
          exists k :: 0 <= k < |scans| && Some(scans[k].room) == rows[id].room
  }

  const CHUNK := 500

  function KeyOrEmpty(id: Id): string {
    if |id| >= 4 then KeyFor(id) else ""
  }

  function BlobEffects(ids: seq<Id>, fate: Id -> Fate): seq<Effect> {
    if ids == [] then [] else [DeleteBlob(KeyOrEmpty(ids[0]), fate(ids[0]))] + BlobEffects(ids[1..], fate)
  }

  /** For each chunk: its rows in one transaction, then its blobs one by one. */
  function RoomEffects(expired: seq<Id>, fate: Id -> Fate): seq<Effect> {
    if expired == [] then []
    else if |expired| <= CHUNK then [DeleteRows(expired)] + BlobEffects(expired, fate)
    else [DeleteRows(expired[..CHUNK])] + BlobEffects(expired[..CHUNK], fate) + RoomEffects(expired[CHUNK..], fate)
  }

  function PruneEffects(scans: seq<Scan>, limits: Limits, fate: Id -> Fate): seq<Effect> {
    if scans == [] then []
    else
      (if Retention(scans[0], limits) == 0 then [] else RoomEffects(scans[0].expired, fate))
      + PruneEffects(scans[1..], limits, fate)
  }

  // ---- Runs ----

  datatype Op =
    | DoUpload(config: Config, req: Request, member: bool, now: int, cut: Cut)
    | DoDelete(id: Id, requester: User, fate: Fate, cut: Cut)
    | DoPrune(scans: seq<Scan>, limits: Limits, fates: Id -> Fate, cut: Cut)
    | DropRoom(room: Room)

  function Step(s: Store, hash: Blob -> Id, op: Op): Store {
    match op
    case DoUpload(config, req, member, now, cut) => ApplyCut(s, Upload(s, hash, config, req, member, now).effects, cut)
    case DoDelete(id, requester, fate, cut) => ApplyCut(s, Delete(s, id, requester, fate).effects, cut)
    case DoPrune(scans, limits, fates, cut) => ApplyCut(s, PruneEffects(scans, limits, fates), cut)
    case DropRoom(room) => s.(rows := map id | id in s.rows && s.rows[id].room != Some(room) :: s.rows[id])
  }

  function Run(s: Store, hash: Blob -> Id, ops: seq<Op>): Store {
    if ops == [] then s else Step(Run(s, hash, Init(ops)), hash, Last(ops))
  }

  const EMPTY := Store(map[], map[])

  // ---- Every row has its blob ----

  ghost predicate Sane(s: Store, hash: Blob -> Id) {
    forall id :: id in s.rows ==>
      IsValidId(id) && s.rows[id].key == KeyFor(id) && s.rows[id].key in s.blobs && hash(s.blobs[s.rows[id].key]) == id
  }

  /** Blobs are written and deleted only while no row names them, and a row is inserted only beside its blob. */
  predicate IsSafe(s: Store, hash: Blob -> Id, e: Effect) {
    match e
    case WriteBlob(key, _) => forall id :: id in s.rows ==> s.rows[id].key != key
    case InsertRow(id, row) => IsValidId(id) && row.key == KeyFor(id) && row.key in s.blobs
        && hash(s.blobs[row.key]) == id
    case DeleteRows(_) => true
    case DeleteBlob(key, _) => forall id :: id in s.rows ==> s.rows[id].key != key
  }

  predicate AreSafe(s: Store, hash: Blob -> Id, effects: seq<Effect>)
    decreases |effects|
  {
    effects != [] ==> IsSafe(s, hash, effects[0]) && AreSafe(Apply(s, effects[0]), hash, effects[1..])
  }

  /** Safe effects may be cut anywhere. */
  lemma {:induction false} CutKeepsSane(s: Store, hash: Blob -> Id, effects: seq<Effect>, cut: Cut)
    requires Sane(s, hash) && AreSafe(s, hash, effects)
    ensures Sane(ApplyCut(s, effects, cut), hash)
    decreases |effects|
  {
    if effects != [] && cut.n > 0 {
      var rest := effects[1..];
      CutKeepsSane(Apply(s, effects[0]), hash, rest, cut.(n := cut.n - 1));
      if cut.n < |effects| {
        assert effects[..cut.n][1..] == rest[..cut.n - 1];
      }
    }
  }

  lemma KeysAreDifferent(a: Id, b: Id)
    requires |a| >= 4 && |b| >= 4 && KeyFor(a) == KeyFor(b)
    ensures a == b
  {
    var prefix := "attachments/";
    assert KeyFor(a)[|prefix| + 6..] == a && KeyFor(b)[|prefix| + 6..] == b;
  }

  lemma UploadIsSafe(s: Store, hash: Blob -> Id, config: Config, req: Request, member: bool, now: int)
    requires Sane(s, hash)
    ensures AreSafe(s, hash, Upload(s, hash, config, req, member, now).effects)
  {
    var effects := Upload(s, hash, config, req, member, now).effects;
    if |effects| == 2 {
      forall id | id in s.rows
        ensures s.rows[id].key != KeyFor(req.claimedId)
      {
        if s.rows[id].key == KeyFor(req.claimedId) {
          KeysAreDifferent(id, req.claimedId);
        }
      }
      assert effects[1..] == [effects[1]];
    }
  }

  lemma {:induction false} BlobEffectsAreSafe(s: Store, hash: Blob -> Id, ids: seq<Id>, fate: Id -> Fate)
    requires Sane(s, hash) && forall id :: id in ids ==> id !in s.rows
    ensures AreSafe(s, hash, BlobEffects(ids, fate))
    ensures Sane(ApplyAll(s, BlobEffects(ids, fate)), hash) && ApplyAll(s, BlobEffects(ids, fate)).rows == s.rows
    decreases |ids|
  {
    if ids != [] {
      var e := DeleteBlob(KeyOrEmpty(ids[0]), fate(ids[0]));
      forall id | id in s.rows
        ensures s.rows[id].key != e.key
      {
        if |ids[0]| >= 4 && KeyFor(id) == KeyFor(ids[0]) {
          KeysAreDifferent(id, ids[0]);
        }
      }
      BlobEffectsAreSafe(Apply(s, e), hash, ids[1..], fate);
      assert BlobEffects(ids, fate)[1..] == BlobEffects(ids[1..], fate);
    }
  }

  lemma {:induction false} SafeThen(s: Store, hash: Blob -> Id, a: seq<Effect>, b: seq<Effect>)
    requires AreSafe(s, hash, a) && AreSafe(ApplyAll(s, a), hash, b)
    ensures AreSafe(s, hash, a + b)
    decreases |a|
  {
    if a == [] {
      assert a + b == b;
    } else {
      SafeThen(Apply(s, a[0]), hash, a[1..], b);
      assert (a + b)[1..] == a[1..] + b;
    }
  }

  lemma {:induction false} ApplyAllThen(s: Store, a: seq<Effect>, b: seq<Effect>)
    ensures ApplyAll(s, a + b) == ApplyAll(ApplyAll(s, a), b)
    decreases |a|
  {
    if a == [] {
      assert a + b == b;
    } else {
      ApplyAllThen(Apply(s, a[0]), a[1..], b);
      assert (a + b)[1..] == a[1..] + b;
    }
  }

  function ChunkEffects(ids: seq<Id>, fate: Id -> Fate): seq<Effect> {
    [DeleteRows(ids)] + BlobEffects(ids, fate)
  }

  lemma ChunkIsSafe(s: Store, hash: Blob -> Id, ids: seq<Id>, fate: Id -> Fate)
    requires Sane(s, hash)
    ensures AreSafe(s, hash, ChunkEffects(ids, fate)) && Sane(ApplyAll(s, ChunkEffects(ids, fate)), hash)
  {
    BlobEffectsAreSafe(Apply(s, DeleteRows(ids)), hash, ids, fate);
    assert ChunkEffects(ids, fate)[1..] == BlobEffects(ids, fate);
  }

  lemma {:induction false} RoomIsSafe(s: Store, hash: Blob -> Id, expired: seq<Id>, fate: Id -> Fate)
    requires Sane(s, hash)
    ensures AreSafe(s, hash, RoomEffects(expired, fate)) && Sane(ApplyAll(s, RoomEffects(expired, fate)), hash)
    decreases |expired|
  {
    if 0 < |expired| <= CHUNK {
      ChunkIsSafe(s, hash, expired, fate);
    } else if expired != [] {
      var head, rest := ChunkEffects(expired[..CHUNK], fate), RoomEffects(expired[CHUNK..], fate);
      ChunkIsSafe(s, hash, expired[..CHUNK], fate);
      RoomIsSafe(ApplyAll(s, head), hash, expired[CHUNK..], fate);
      SafeThen(s, hash, head, rest);
      ApplyAllThen(s, head, rest);
    }
  }

  lemma {:induction false} PruneIsSafe(s: Store, hash: Blob -> Id, scans: seq<Scan>, limits: Limits, fate: Id -> Fate)
    requires Sane(s, hash)
    ensures AreSafe(s, hash, PruneEffects(scans, limits, fate))
    decreases |scans|
  {
    if scans != [] {
      var head := if Retention(scans[0], limits) == 0 then [] else RoomEffects(scans[0].expired, fate);
      RoomIsSafe(s, hash, scans[0].expired, fate);
      PruneIsSafe(ApplyAll(s, head), hash, scans[1..], limits, fate);
      SafeThen(s, hash, head, PruneEffects(scans[1..], limits, fate));
    }
  }

  lemma StepKeepsSane(s: Store, hash: Blob -> Id, op: Op)
    requires Sane(s, hash)
    ensures Sane(Step(s, hash, op), hash)
  {
    match op
    case DoUpload(config, req, member, now, cut) =>
      UploadIsSafe(s, hash, config, req, member, now);
      CutKeepsSane(s, hash, Upload(s, hash, config, req, member, now).effects, cut);
    case DoDelete(id, requester, fate, cut) =>
      if Delete(s, id, requester, fate).effects != [] {
        ChunkIsSafe(s, hash, [id], _ => fate);
        assert BlobEffects([id], _ => fate) == [DeleteBlob(KeyFor(id), fate)];
        assert ChunkEffects([id], _ => fate) == Delete(s, id, requester, fate).effects;
      }
      CutKeepsSane(s, hash, Delete(s, id, requester, fate).effects, cut);
    case DoPrune(scans, limits, fates, cut) =>
      PruneIsSafe(s, hash, scans, limits, fates);
      CutKeepsSane(s, hash, PruneEffects(scans, limits, fates), cut);
    case DropRoom(_) =>
  }

  lemma {:induction false} RunIsSane(hash: Blob -> Id, ops: seq<Op>)
    ensures Sane(Run(EMPTY, hash, ops), hash)
  {
    if ops != [] {
      RunIsSane(hash, Init(ops));
      StepKeepsSane(Run(EMPTY, hash, Init(ops)), hash, Last(ops));
    }
  }

  /**
   Uploads, deletions, prunes and room deletions, any of which may stop after any of its effects or in the
   middle of writing a blob, leave every row with a blob under its key whose hash is its id.
   */
  lemma EveryRowHasItsBlob(hash: Blob -> Id, ops: seq<Op>, id: Id)
    requires id in Run(EMPTY, hash, ops).rows
    ensures var s := Run(EMPTY, hash, ops);
            IsValidId(id) && s.rows[id].key == KeyFor(id) && KeyFor(id) in s.blobs && hash(s.blobs[KeyFor(id)]) == id
  {
    RunIsSane(hash, ops);
  }
}
