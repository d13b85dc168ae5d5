/**
 Uploads, deletions and prunes that overlap. Each query, storage call and transaction of a request is a
 step of its task, the steps of different tasks interleave freely, and a task may stop at any time.
 */
module AttachmentRaces {
  import opened Prelude
  import opened Attachments

  /** Where a request stands. */
  datatype Task =
    | Rechecking(id: Id, data: Blob)          // upload: there is a row, the blob has not been looked for
    | Rewriting(id: Id, data: Blob)           // upload: there was a row but no blob
    | Writing(id: Id, data: Blob, row: Row)   // upload: there was no row
    | Inserting(id: Id, row: Row)             // upload: the blob is written
    | Removing(ids: seq<Id>, later: seq<Id>)  // deletion or prune: the rows of a chunk are to be deleted
    | Unlinking(ids: seq<Id>, later: seq<Id>) // deletion or prune: their blobs are to be deleted one by one

  datatype State = State(store: Store, tasks: map<nat, Task>)

  /** A storage call may be torn, which ends the request and leaves junk, and a deletion has its fate. */
  datatype Op =
    | StartUpload(task: nat, config: Config, req: Request, member: bool, now: int)
    | StartDelete(task: nat, id: Id, requester: User)
    | StartPrune(task: nat, scan: Scan, limits: Limits)
    | Continue(task: nat, torn: Option<Blob>, fate: Fate)
    | Stop(task: nat)
    | Drop(room: Room)

  // ---- Steps ----

  /** The checks of an upload that do not depend on what is stored. */
  predicate Passes(hash: Blob -> Id, config: Config, req: Request, member: bool, now: int) {
    Upload(EMPTY, hash, config, req, member, now).reply.Ok?
  }

  function Begin(s: State, task: nat, next: Task): State {
    s.(tasks := s.tasks[task := next])
  }

  function End(s: State, task: nat): State {
    s.(tasks := s.tasks - {task})
  }

  function Chunk(ids: seq<Id>): Task {
    if |ids| <= CHUNK then Removing(ids, []) else Removing(ids[..CHUNK], ids[CHUNK..])
  }

  function WithBlob(s: Store, id: Id, data: Blob): Store {
    s.(blobs := s.blobs[KeyOrEmpty(id) := data])
  }

  /** The next step of a task. */
  function Advance(s: State, task: nat, torn: Option<Blob>, fate: Fate): State
    requires task in s.tasks
  {
    match s.tasks[task]
    case Rechecking(id, data) =>
      if KeyOrEmpty(id) in s.store.blobs then End(s, task) else Begin(s, task, Rewriting(id, data))
    case Rewriting(id, data) =>
      End(s, task).(store := WithBlob(s.store, id, if torn.Some? then torn.value else data))
    case Writing(id, data, row) =>
      if torn.Some? then End(s, task).(store := WithBlob(s.store, id, torn.value))
      else Begin(s, task, Inserting(id, row)).(store := WithBlob(s.store, id, data))
    case Inserting(id, row) =>
      if id in s.store.rows then End(s, task) else End(s, task).(store := s.store.(rows := s.store.rows[id := row]))
    case Removing(ids, later) =>
      Begin(s, task, Unlinking(ids, later)).(store := s.store.(rows := Keep(s.store.rows, ids)))
    case Unlinking(ids, later) =>
      if ids != [] then
        Begin(s, task, Unlinking(ids[1..], later)).(store := Apply(s.store, DeleteBlob(KeyOrEmpty(ids[0]), fate)))
      else if later == [] then End(s, task)
      else Begin(s, task, Chunk(later))
  }

  ghost function Step(s: State, hash: Blob -> Id, op: Op): State {
    match op
    case StartUpload(task, config, req, member, now) =>
      var id, rows := req.claimedId, s.store.rows;
      if task in s.tasks || !Passes(hash, config, req, member, now) then s
      else if id !in rows then
        Begin(s, task, Writing(id, req.data, Row(req.room, req.uploader, KeyFor(id), req.manifest, now)))
      else if rows[id].room != req.room || rows[id].uploader != req.uploader then s
      else Begin(s, task, Rechecking(id, req.data))
    case StartDelete(task, id, requester) =>
      if task in s.tasks || id !in s.store.rows || s.store.rows[id].uploader != requester then s
      else Begin(s, task, Removing([id], []))
    case StartPrune(task, scan, limits) =>
      if task in s.tasks || !IsAnswer(s.store.rows, scan, limits) then s else Begin(s, task, Chunk(scan.expired))
    case Continue(task, torn, fate) => if task in s.tasks then Advance(s, task, torn, fate) else s
    case Stop(task) => End(s, task)
    case Drop(room) => s.(store := Attachments.Step(s.store, hash, DropRoom(room)))
  }

  predicate IsStart(op: Op) {
    op.StartUpload? || op.StartDelete? || op.StartPrune?
  }

  ghost function Play(s: State, hash: Blob -> Id, ops: seq<Op>): State
    decreases |ops|
  {
    if ops == [] then s else Play(Step(s, hash, ops[0]), hash, ops[1..])
  }

  // ---- What may go wrong ----

  /** The blob of the id is there and is right. */
  predicate HasBlob(s: Store, hash: Blob -> Id, id: Id) {
    KeyOrEmpty(id) in s.blobs && hash(s.blobs[KeyOrEmpty(id)]) == id
  }

  /** An upload that is going to insert the row. */
  predicate Uploads(t: Task, id: Id) {
    (t.Writing? || t.Inserting?) && t.id == id
  }

  /** An upload that is going to write the blob, and may fail to. */
  predicate Writes(t: Task, id: Id) {
    (t.Writing? || t.Rewriting?) && t.id == id
  }

  /** A deletion or prune that has yet to delete the row, and will then delete the blob. */
  predicate WillRemove(t: Task, id: Id) {
    (t.Removing? && (id in t.ids || id in t.later)) || (t.Unlinking? && id in t.later)
  }

  /** One that has deleted the row and has yet to delete the blob. */
  predicate WillUnlink(t: Task, id: Id) {
    t.Unlinking? && id in t.ids
  }

  /** A task that by itself can leave the row of the id without its blob. */
  predicate Harms(s: Store, hash: Blob -> Id, t: Task, id: Id) {
    if id in s.rows then WillUnlink(t, id) || Writes(t, id)
    else t.Inserting? && t.id == id && !HasBlob(s, hash, id)
  }

  /** Two tasks that together can. */
  predicate Clash(s: Store, t: Task, u: Task, id: Id) {
    || (Uploads(u, id) && (WillRemove(t, id) || WillUnlink(t, id) || Writes(t, id)))
    || (t.Rechecking? && u.Writing? && t.id == u.id == id && id !in s.rows && KeyOrEmpty(id) !in s.blobs)
  }

  ghost predicate Safe(s: State, hash: Blob -> Id, id: Id) {
    && (forall i :: i in s.tasks ==> !Harms(s.store, hash, s.tasks[i], id))
    && forall i, j :: i in s.tasks && j in s.tasks && i != j ==> !Clash(s.store, s.tasks[i], s.tasks[j], id)
  }

  predicate AllValid(ids: seq<Id>) {
    forall id :: id in ids ==> IsValidId(id)
  }

  /** What a task will write is right, and what it will delete has a proper id. */
  predicate IsSound(t: Task, hash: Blob -> Id) {
    match t
    case Rechecking(id, data) => IsValidId(id) && hash(data) == id
    case Rewriting(id, data) => IsValidId(id) && hash(data) == id
    case Writing(id, data, row) => IsValidId(id) && hash(data) == id && row.key == KeyFor(id)
    case Inserting(id, row) => IsValidId(id) && row.key == KeyFor(id)
    case Removing(ids, later) => AllValid(ids) && AllValid(later)
    case Unlinking(ids, later) => AllValid(ids) && AllValid(later)
  }

  ghost predicate Sound(s: State, hash: Blob -> Id) {
    forall i :: i in s.tasks ==> IsSound(s.tasks[i], hash)
  }

  // ---- Tasks without risk go on without risk ----

  predicate SaneAt(s: Store, hash: Blob -> Id, id: Id) {
    id in s.rows ==> IsValidId(id) && s.rows[id].key == KeyFor(id) && HasBlob(s, hash, id)
  }

  lemma SaneEverywhere(s: Store, hash: Blob -> Id)
    ensures Sane(s, hash) <==> forall id :: SaneAt(s, hash, id)
  {
    if forall id :: SaneAt(s, hash, id) {
      forall id | id in s.rows
        ensures IsValidId(id) && s.rows[id].key == KeyFor(id) && s.rows[id].key in s.blobs
        ensures hash(s.blobs[s.rows[id].key]) == id
      {
        assert SaneAt(s, hash, id);
      }
    }
  }

  /** Another blob is under another key. */
  lemma OtherBlob(id: Id, other: Id)
    requires IsValidId(id) && IsValidId(other) && id != other
    ensures KeyOrEmpty(id) != KeyOrEmpty(other)
  {
    if KeyOrEmpty(id) == KeyOrEmpty(other) {
      KeysAreDifferent(id, other);
    }
  }

  /** The row and the blob of the id are as before. */
  predicate SameAt(a: Store, b: Store, id: Id) {
    && (id in a.rows <==> id in b.rows) && (id in a.rows ==> a.rows[id] == b.rows[id])
    && (KeyOrEmpty(id) in a.blobs <==> KeyOrEmpty(id) in b.blobs)
    && (KeyOrEmpty(id) in a.blobs ==> a.blobs[KeyOrEmpty(id)] == b.blobs[KeyOrEmpty(id)])
  }

  /** As far as the id is concerned, t may do no more than u. */
  predicate NoMore(t: Task, u: Task, id: Id) {
    && (Uploads(t, id) ==> Uploads(u, id)) && (Writes(t, id) ==> Writes(u, id))
    && (WillRemove(t, id) ==> WillRemove(u, id)) && (WillUnlink(t, id) ==> WillUnlink(u, id) )
    && (t.Inserting? && t.id == id ==> u == t)
    && (t.Rechecking? && t.id == id ==> u == t) && (t.Writing? && t.id == id ==> u == t)
  }

  /** Only task k has changed, if it is still there. */
  ghost predicate OnlyTask(s: State, next: State, k: nat) {
    && (forall i :: i in next.tasks ==> i == k || (i in s.tasks && next.tasks[i] == s.tasks[i]))
    && k in s.tasks
  }

  lemma UntouchedStaysSafe(s: State, next: State, hash: Blob -> Id, k: nat, id: Id)
    requires Safe(s, hash, id) && OnlyTask(s, next, k) && SameAt(s.store, next.store, id)
    requires k in next.tasks ==> NoMore(next.tasks[k], s.tasks[k], id)
    ensures Safe(next, hash, id)
  {
    forall i, j | i in next.tasks && j in next.tasks && i != j
      ensures !Clash(next.store, next.tasks[i], next.tasks[j], id)
    {
      assert !Clash(s.store, s.tasks[i], s.tasks[j], id);
    }
    forall i | i in next.tasks
      ensures !Harms(next.store, hash, next.tasks[i], id)
    {
      assert !Harms(s.store, hash, s.tasks[i], id);
    }
  }

  lemma RewriteKeepsSafe(s: State, hash: Blob -> Id, k: nat, torn: Option<Blob>, fate: Fate, id: Id)
    requires Safe(s, hash, id) && SaneAt(s.store, hash, id) && Sound(s, hash) && IsValidId(id)
    requires k in s.tasks && (s.tasks[k].Rechecking? || s.tasks[k].Rewriting?)
    ensures Safe(Advance(s, k, torn, fate), hash, id) && SaneAt(Advance(s, k, torn, fate).store, hash, id)
  {
    var next, t := Advance(s, k, torn, fate), s.tasks[k];
    if t.id != id {
      OtherBlob(id, t.id);
      UntouchedStaysSafe(s, next, hash, k, id);
    } else {
      assert !Harms(s.store, hash, t, id);
      forall i | i in next.tasks
        ensures !Harms(next.store, hash, next.tasks[i], id)
        ensures i != k ==> !Clash(next.store, t, next.tasks[i], id) && !Clash(next.store, next.tasks[i], t, id)
      {
        if i != k {
          assert !Harms(s.store, hash, s.tasks[i], id);
          assert !Clash(s.store, t, s.tasks[i], id) && !Clash(s.store, s.tasks[i], t, id);
        }
      }
    }
  }

  lemma WriteKeepsSafe(s: State, hash: Blob -> Id, k: nat, torn: Option<Blob>, fate: Fate, id: Id)
    requires Safe(s, hash, id) && SaneAt(s.store, hash, id) && Sound(s, hash) && IsValidId(id)
    requires k in s.tasks && s.tasks[k].Writing?
    ensures Safe(Advance(s, k, torn, fate), hash, id) && SaneAt(Advance(s, k, torn, fate).store, hash, id)
  {
    var next, t := Advance(s, k, torn, fate), s.tasks[k];
    if t.id != id {
      OtherBlob(id, t.id);
      UntouchedStaysSafe(s, next, hash, k, id);
    } else {
      assert !Harms(s.store, hash, t, id);
      forall i | i in next.tasks && i != k
        ensures !Harms(next.store, hash, next.tasks[i], id) && !Uploads(next.tasks[i], id)
        ensures !WillRemove(next.tasks[i], id) && !WillUnlink(next.tasks[i], id) && !Writes(next.tasks[i], id)
      {
        assert !Harms(s.store, hash, s.tasks[i], id);
        assert !Clash(s.store, t, s.tasks[i], id) && !Clash(s.store, s.tasks[i], t, id);
      }
    }
  }

  lemma InsertKeepsSafe(s: State, hash: Blob -> Id, k: nat, torn: Option<Blob>, fate: Fate, id: Id)
    requires Safe(s, hash, id) && SaneAt(s.store, hash, id) && Sound(s, hash) && IsValidId(id)
    requires k in s.tasks && s.tasks[k].Inserting?
    ensures Safe(Advance(s, k, torn, fate), hash, id) && SaneAt(Advance(s, k, torn, fate).store, hash, id)
  {
    var next, t := Advance(s, k, torn, fate), s.tasks[k];
    if t.id != id || id in s.store.rows {
      UntouchedStaysSafe(s, next, hash, k, id);
    } else {
      assert !Harms(s.store, hash, t, id);
      forall i | i in next.tasks
        ensures !WillRemove(next.tasks[i], id) && !WillUnlink(next.tasks[i], id) && !Writes(next.tasks[i], id)
      {
        assert !Clash(s.store, s.tasks[i], t, id);
      }
    }
  }

  lemma RemoveKeepsSafe(s: State, hash: Blob -> Id, k: nat, torn: Option<Blob>, fate: Fate, id: Id)
    requires Safe(s, hash, id) && SaneAt(s.store, hash, id) && Sound(s, hash) && IsValidId(id)
    requires k in s.tasks && s.tasks[k].Removing?
    ensures Safe(Advance(s, k, torn, fate), hash, id) && SaneAt(Advance(s, k, torn, fate).store, hash, id)
  {
    var next, t := Advance(s, k, torn, fate), s.tasks[k];
    if id !in t.ids {
      UntouchedStaysSafe(s, next, hash, k, id);
    } else {
      forall i | i in next.tasks && i != k
        ensures !Uploads(next.tasks[i], id)
      {
        assert !Clash(s.store, t, s.tasks[i], id);
      }
    }
  }

  lemma UnlinkKeepsSafe(s: State, hash: Blob -> Id, k: nat, torn: Option<Blob>, fate: Fate, id: Id)
    requires Safe(s, hash, id) && SaneAt(s.store, hash, id) && Sound(s, hash) && IsValidId(id)
    requires k in s.tasks && s.tasks[k].Unlinking?
    ensures Safe(Advance(s, k, torn, fate), hash, id) && SaneAt(Advance(s, k, torn, fate).store, hash, id)
  {
    var next, t := Advance(s, k, torn, fate), s.tasks[k];
    if t.ids != [] && t.ids[0] == id {
      assert !Harms(s.store, hash, t, id);
      forall i | i in next.tasks && i != k
        ensures !Uploads(next.tasks[i], id)
      {
        assert !Clash(s.store, t, s.tasks[i], id);
      }
    } else {
      if t.ids != [] {
        OtherBlob(id, t.ids[0]);
      } else if |t.later| > CHUNK {
        assert t.later == t.later[..CHUNK] + t.later[CHUNK..];
      }
      UntouchedStaysSafe(s, next, hash, k, id);
    }
  }

  lemma OthersKeepSafe(s: State, hash: Blob -> Id, op: Op, id: Id)
    requires Safe(s, hash, id) && SaneAt(s.store, hash, id) && (op.Stop? || op.Drop?)
    ensures Safe(Step(s, hash, op), hash, id) && SaneAt(Step(s, hash, op).store, hash, id)
  {
    var next := Step(s, hash, op);
    forall i, j | i in next.tasks && j in next.tasks && i != j
      ensures !Clash(next.store, next.tasks[i], next.tasks[j], id)
    {
      assert !Clash(s.store, s.tasks[i], s.tasks[j], id);
      assert !Harms(s.store, hash, s.tasks[j], id);
    }
    forall i | i in next.tasks
      ensures !Harms(next.store, hash, next.tasks[i], id)
    {
      assert !Harms(s.store, hash, s.tasks[i], id);
    }
  }

  lemma NoTaskOfInvalidId(s: State, hash: Blob -> Id, id: Id)
    requires Sound(s, hash) && !IsValidId(id)
    ensures Safe(s, hash, id)
  {
  }

  lemma ChunkIsSound(ids: seq<Id>, hash: Blob -> Id)
    requires AllValid(ids)
    ensures IsSound(Chunk(ids), hash)
  {
    if |ids| > CHUNK {
      assert ids == ids[..CHUNK] + ids[CHUNK..];
    }
  }

  lemma AdvanceKeepsSound(s: State, hash: Blob -> Id, task: nat, torn: Option<Blob>, fate: Fate)
    requires Sound(s, hash) && task in s.tasks
    ensures Sound(Advance(s, task, torn, fate), hash)
  {
    var next := Advance(s, task, torn, fate);
    assert IsSound(s.tasks[task], hash);
    if s.tasks[task].Unlinking? && s.tasks[task].ids == [] {
      ChunkIsSound(s.tasks[task].later, hash);
    }
    forall i | i in next.tasks
      ensures IsSound(next.tasks[i], hash)
    {
      if i != task {
        assert i in s.tasks && next.tasks[i] == s.tasks[i];
      }
    }
  }

  lemma StepKeepsSound(s: State, hash: Blob -> Id, op: Op)
    requires Sound(s, hash) && Sane(s.store, hash)
    ensures Sound(Step(s, hash, op), hash)
  {
    match op
    case Continue(task, torn, fate) =>
      if task in s.tasks {
        AdvanceKeepsSound(s, hash, task, torn, fate);
      }
    case StartPrune(_, scan, limits) =>
      if IsAnswer(s.store.rows, scan, limits) {
        ChunkIsSound(scan.expired, hash);
      }
    case _ =>
  }

  /** Without a start, what is safe stays safe and sane. */
  lemma StepKeepsSafe(s: State, hash: Blob -> Id, op: Op, id: Id)
    requires Sound(s, hash) && Sane(s.store, hash) && Safe(s, hash, id) && !IsStart(op)
    ensures Safe(Step(s, hash, op), hash, id) && SaneAt(Step(s, hash, op).store, hash, id)
  {
    SaneEverywhere(s.store, hash);
    StepKeepsSound(s, hash, op);
    if !IsValidId(id) {
      NoTaskOfInvalidId(Step(s, hash, op), hash, id);
    } else if op.Continue? && op.task in s.tasks {
      match s.tasks[op.task]
      case Rechecking(_, _) => RewriteKeepsSafe(s, hash, op.task, op.torn, op.fate, id);
      case Rewriting(_, _) => RewriteKeepsSafe(s, hash, op.task, op.torn, op.fate, id);
      case Writing(_, _, _) => WriteKeepsSafe(s, hash, op.task, op.torn, op.fate, id);
      case Inserting(_, _) => InsertKeepsSafe(s, hash, op.task, op.torn, op.fate, id);
      case Removing(_, _) => RemoveKeepsSafe(s, hash, op.task, op.torn, op.fate, id);
      case Unlinking(_, _) => UnlinkKeepsSafe(s, hash, op.task, op.torn, op.fate, id);
    } else if !op.Continue? {
      OthersKeepSafe(s, hash, op, id);
    }
  }

  ghost predicate NoRisk(s: State, hash: Blob -> Id) {
    forall id :: Safe(s, hash, id)
  }

  predicate AreContinuing(ops: seq<Op>) {
    forall op :: op in ops ==> !IsStart(op)
  }

  lemma {:induction false} PlayStaysSane(s: State, hash: Blob -> Id, ops: seq<Op>)
    requires Sound(s, hash) && Sane(s.store, hash) && NoRisk(s, hash) && AreContinuing(ops)
    ensures Sane(Play(s, hash, ops).store, hash)
    decreases |ops|
  {
    if ops != [] {
      var next := Step(s, hash, ops[0]);
      StepKeepsSound(s, hash, ops[0]);
      forall id
        ensures Safe(next, hash, id) && SaneAt(next.store, hash, id)
      {
        StepKeepsSafe(s, hash, ops[0], id);
      }
      SaneEverywhere(next.store, hash);
      PlayStaysSane(next, hash, ops[1..]);
    }
  }

  // ---- Where there is a risk, something can be lost ----

  /** The requests under way can leave some row without its blob. */
  ghost predicate CanFail(s: State, hash: Blob -> Id) {
    exists ops :: AreContinuing(ops) && !Sane(Play(s, hash, ops).store, hash)
  }

  lemma FailsNow(s: State, hash: Blob -> Id, id: Id)
    requires !SaneAt(s.store, hash, id)
    ensures CanFail(s, hash)
  {
    SaneEverywhere(s.store, hash);
    assert AreContinuing([]) && Play(s, hash, []) == s;
  }

  lemma FailsAfter(s: State, hash: Blob -> Id, op: Op)
    requires !IsStart(op) && CanFail(Step(s, hash, op), hash)
    ensures CanFail(s, hash)
  {
    var ops :| AreContinuing(ops) && !Sane(Play(Step(s, hash, op), hash, ops).store, hash);
    var all := [op] + ops;
    assert all[1..] == ops;
    assert AreContinuing(all) && Play(s, hash, all) == Play(Step(s, hash, op), hash, ops);
  }

  lemma LoseByTear(s: State, hash: Blob -> Id, k: nat, id: Id, junk: Blob)
    requires k in s.tasks && Writes(s.tasks[k], id) && id in s.store.rows && hash(junk) != id
    ensures CanFail(s, hash)
  {
    var op := Continue(k, Some(junk), Gone);
    FailsNow(Step(s, hash, op), hash, id);
    FailsAfter(s, hash, op);
  }

  lemma LoseByInsert(s: State, hash: Blob -> Id, k: nat, id: Id)
    requires k in s.tasks && s.tasks[k].Inserting? && s.tasks[k].id == id
    requires id !in s.store.rows && !HasBlob(s.store, hash, id)
    ensures CanFail(s, hash)
  {
    var op := Continue(k, None, Gone);
    FailsNow(Step(s, hash, op), hash, id);
    FailsAfter(s, hash, op);
  }

  lemma {:induction false} LoseByUnlink(s: State, hash: Blob -> Id, k: nat, id: Id)
    requires k in s.tasks && WillUnlink(s.tasks[k], id) && id in s.store.rows
    ensures CanFail(s, hash)
    decreases |s.tasks[k].ids|
  {
    var ids := s.tasks[k].ids;
    var op := Continue(k, None, if ids[0] == id then Gone else Failed);
    var next := Step(s, hash, op);
    if ids[0] == id {
      FailsNow(next, hash, id);
    } else {
      LoseByUnlink(next, hash, k, id);
    }
    FailsAfter(s, hash, op);
  }

  /** All tasks but k are as before. */
  ghost predicate OthersStay(s: State, next: State, k: nat) {
    forall i :: i in s.tasks && i != k ==> i in next.tasks && next.tasks[i] == s.tasks[i]
  }

  /** An upload can go on until its row is inserted. */
  lemma FinishUpload(s: State, hash: Blob -> Id, k: nat, id: Id) returns (next: State)
    requires k in s.tasks && Uploads(s.tasks[k], id) && id !in s.store.rows
    ensures CanFail(next, hash) ==> CanFail(s, hash)
    ensures id in next.store.rows && OthersStay(s, next, k)
  {
    var op := Continue(k, None, Gone);
    next := Step(s, hash, op);
    if s.tasks[k].Writing? {
      var written := next;
      next := Step(written, hash, op);
      if CanFail(next, hash) {
        FailsAfter(written, hash, op);
      }
    }
    if CanFail(Step(s, hash, op), hash) {
      FailsAfter(s, hash, op);
    }
  }

  /** A deletion or prune can go on until the row has gone and the blob has not. */
  lemma {:induction false} RemoveRow(s: State, hash: Blob -> Id, k: nat, id: Id) returns (next: State)
    requires k in s.tasks && WillRemove(s.tasks[k], id)
    ensures CanFail(next, hash) ==> CanFail(s, hash)
    ensures k in next.tasks && WillUnlink(next.tasks[k], id) && id !in next.store.rows && OthersStay(s, next, k)
    decreases |s.tasks[k].later|, if s.tasks[k].Removing? then 1 else 0, |s.tasks[k].ids|
  {
    var t, op := s.tasks[k], Continue(k, None, Failed);
    var first := Step(s, hash, op);
    if t.Unlinking? && t.ids == [] && |t.later| > CHUNK {
      assert t.later == t.later[..CHUNK] + t.later[CHUNK..];
    }
    if t.Removing? && id in t.ids {
      next := first;
    } else {
      next := RemoveRow(first, hash, k, id);
    }
    if CanFail(first, hash) {
      FailsAfter(s, hash, op);
    }
  }

  lemma ClashIsReal(s: State, hash: Blob -> Id, i: nat, j: nat, id: Id, junk: Blob)
    requires i in s.tasks && j in s.tasks && i != j && hash(junk) != id && Uploads(s.tasks[j], id)
    requires WillRemove(s.tasks[i], id) || WillUnlink(s.tasks[i], id) || Writes(s.tasks[i], id)
    ensures CanFail(s, hash)
  {
    var t := s;
    if WillRemove(s.tasks[i], id) && !WillUnlink(s.tasks[i], id) {
      t := RemoveRow(s, hash, i, id);
    }
    var u := t;
    if id !in t.store.rows {
      u := FinishUpload(t, hash, j, id);
    }
    if WillUnlink(u.tasks[i], id) {
      LoseByUnlink(u, hash, i, id);
    } else {
      LoseByTear(u, hash, i, id, junk);
    }
  }

  lemma RiskIsReal(s: State, hash: Blob -> Id, id: Id, junk: Blob)
    requires !Safe(s, hash, id) && hash(junk) != id
    ensures CanFail(s, hash)
  {
    if i :| i in s.tasks && Harms(s.store, hash, s.tasks[i], id) {
      if id !in s.store.rows {
        LoseByInsert(s, hash, i, id);
      } else if WillUnlink(s.tasks[i], id) {
        LoseByUnlink(s, hash, i, id);
      } else {
        LoseByTear(s, hash, i, id, junk);
      }
    } else {
      var i, j :| i in s.tasks && j in s.tasks && i != j && Clash(s.store, s.tasks[i], s.tasks[j], id);
      if s.tasks[i].Rechecking? {
        var op := Continue(i, None, Gone);
        ClashIsReal(Step(s, hash, op), hash, i, j, id, junk);
        FailsAfter(s, hash, op);
      } else {
        ClashIsReal(s, hash, i, j, id, junk);
      }
    }
  }

  /**
   Requests under way on a store in which every row has its blob: they cannot leave a row without it,
   however they interleave, stop, fail and tear, if and only if no id is at risk. An id is at risk when its
   blob is to be deleted or written while its row is there, when its row is to be inserted and its blob is
   not there, or when an upload that will insert its row overlaps with a deletion, a prune or another write
   of the same id. (The hash must tell something apart, so that junk can differ.)
   */
  lemma OverlapIsHarmlessIff(s: State, hash: Blob -> Id)
    requires Sound(s, hash) && Sane(s.store, hash) && exists a, b :: hash(a) != hash(b)
    ensures !CanFail(s, hash) <==> forall id :: Safe(s, hash, id)
  {
    if id :| !Safe(s, hash, id) {
      var a, b :| hash(a) != hash(b);
      RiskIsReal(s, hash, id, if hash(a) != id then a else b);
    } else if CanFail(s, hash) {
      var ops :| AreContinuing(ops) && !Sane(Play(s, hash, ops).store, hash);
      PlayStaysSane(s, hash, ops);
    }
  }

  // ---- Which requests may begin ----

  /** No upload that will insert the row is under way. */
  ghost predicate NoUploadOf(s: State, id: Id) {
    forall i :: i in s.tasks ==> !Uploads(s.tasks[i], id)
  }

  /** What begins does not concern an id that another task is about to upload, or is an upload of an id left alone. */
  ghost predicate MayBegin(s: State, hash: Blob -> Id, op: Op) {
    match op
    case StartUpload(task, config, req, member, now) =>
      var id := req.claimedId;
      task !in s.tasks && Passes(hash, config, req, member, now) && id !in s.store.rows ==>
        forall i :: i in s.tasks ==>
          var t := s.tasks[i];
          && !Uploads(t, id) && !Writes(t, id) && !WillRemove(t, id) && !WillUnlink(t, id)
          && (t.Rechecking? && t.id == id ==> KeyOrEmpty(id) in s.store.blobs)
    case StartDelete(task, id, requester) =>
      task !in s.tasks && id in s.store.rows && s.store.rows[id].uploader == requester ==>
        NoUploadOf(s, id)
    case StartPrune(task, scan, limits) =>
      task !in s.tasks && IsAnswer(s.store.rows, scan, limits) ==>
        forall id :: id in scan.expired ==> NoUploadOf(s, id)
    case _ => true
  }

  /** With one more task there is no more risk than that of the task itself and of it with each other. */
  lemma OneMoreTask(s: State, next: State, hash: Blob -> Id, k: nat, id: Id)
    requires Safe(s, hash, id) && k !in s.tasks && k in next.tasks && next == Begin(s, k, next.tasks[k])
    ensures Safe(next, hash, id) <==>
              && !Harms(s.store, hash, next.tasks[k], id)
              && forall i :: i in s.tasks ==>
                   !Clash(s.store, s.tasks[i], next.tasks[k], id) && !Clash(s.store, next.tasks[k], s.tasks[i], id)
  {
    assert forall i :: i in next.tasks <==> i in s.tasks || i == k;
    assert forall i :: i in s.tasks ==> next.tasks[i] == s.tasks[i] && i != k;
  }

  lemma BeginUploadIff(s: State, next: State, hash: Blob -> Id, k: nat, id: Id)
    requires NoRisk(s, hash) && k !in s.tasks && k in next.tasks && next == Begin(s, k, next.tasks[k])
    requires next.tasks[k].Writing? && next.tasks[k].id == id && id !in s.store.rows
    ensures NoRisk(next, hash) <==>
              forall i :: i in s.tasks ==>
                var t := s.tasks[i];
                && !Uploads(t, id) && !Writes(t, id) && !WillRemove(t, id) && !WillUnlink(t, id)
                && (t.Rechecking? && t.id == id ==> KeyOrEmpty(id) in s.store.blobs)
  {
    forall other
      ensures other != id ==> Safe(next, hash, other)
    {
      OneMoreTask(s, next, hash, k, other);
    }
    OneMoreTask(s, next, hash, k, id);
  }

  lemma BeginRecheck(s: State, next: State, hash: Blob -> Id, k: nat, id: Id)
    requires NoRisk(s, hash) && k !in s.tasks && k in next.tasks && next == Begin(s, k, next.tasks[k])
    requires next.tasks[k].Rechecking? && next.tasks[k].id == id && id in s.store.rows
    ensures NoRisk(next, hash)
  {
    forall other
      ensures Safe(next, hash, other)
    {
      OneMoreTask(s, next, hash, k, other);
    }
  }

  lemma BeginRemovalIff(s: State, next: State, hash: Blob -> Id, k: nat, ids: seq<Id>)
    requires NoRisk(s, hash) && k !in s.tasks && k in next.tasks && next == Begin(s, k, Chunk(ids))
    ensures NoRisk(next, hash) <==> forall id :: id in ids ==> NoUploadOf(s, id)
  {
    if |ids| > CHUNK {
      assert ids == ids[..CHUNK] + ids[CHUNK..];
    }
    assert forall id :: id in ids <==> WillRemove(Chunk(ids), id);
    forall id
      ensures Safe(next, hash, id) <==> (id in ids ==> NoUploadOf(s, id))
    {
      OneMoreTask(s, next, hash, k, id);
    }
  }

  /** A request that begins puts no id at risk if and only if it may begin in this sense. */
  lemma StartIsHarmlessIff(s: State, hash: Blob -> Id, op: Op)
    requires Sound(s, hash) && Sane(s.store, hash) && NoRisk(s, hash) && IsStart(op)
    ensures NoRisk(Step(s, hash, op), hash) <==> MayBegin(s, hash, op)
  {
    var next := Step(s, hash, op);
    match op
    case StartUpload(task, _, req, _, _) =>
      if next != s && req.claimedId !in s.store.rows {
        BeginUploadIff(s, next, hash, task, req.claimedId);
      } else if next != s {
        BeginRecheck(s, next, hash, task, req.claimedId);
      }
    case StartDelete(task, id, _) =>
      assert Chunk([id]) == Removing([id], []);
      assert forall other :: other in [id] <==> other == id;
      if task !in s.tasks && task in next.tasks {
        BeginRemovalIff(s, next, hash, task, [id]);
      }
    case StartPrune(task, scan, _) =>
      if next != s {
        BeginRemovalIff(s, next, hash, task, scan.expired);
      }
  }

  /** Every request of the run may begin when it does. */
  ghost predicate IsCareful(s: State, hash: Blob -> Id, ops: seq<Op>)
    decreases |ops|
  {
    ops != [] ==> MayBegin(s, hash, ops[0]) && IsCareful(Step(s, hash, ops[0]), hash, ops[1..])
  }

  lemma StepKeepsNoRisk(s: State, hash: Blob -> Id, op: Op)
    requires Sound(s, hash) && Sane(s.store, hash) && NoRisk(s, hash) && MayBegin(s, hash, op)
    ensures var next := Step(s, hash, op);
            Sound(next, hash) && Sane(next.store, hash) && NoRisk(next, hash)
  {
    StepKeepsSound(s, hash, op);
    if IsStart(op) {
      StartIsHarmlessIff(s, hash, op);
    } else {
      forall id
        ensures Safe(Step(s, hash, op), hash, id) && SaneAt(Step(s, hash, op).store, hash, id)
      {
        StepKeepsSafe(s, hash, op, id);
      }
      SaneEverywhere(Step(s, hash, op).store, hash);
    }
  }

  lemma {:induction false} CarefulStaysSane(s: State, hash: Blob -> Id, ops: seq<Op>)
    requires Sound(s, hash) && Sane(s.store, hash) && NoRisk(s, hash) && IsCareful(s, hash, ops)
    ensures Sane(Play(s, hash, ops).store, hash)
    decreases |ops|
  {
    if ops != [] {
      StepKeepsNoRisk(s, hash, ops[0]);
      CarefulStaysSane(Step(s, hash, ops[0]), hash, ops[1..]);
    }
  }

  /**
   Over every run with overlapping requests: if an upload of an attachment that is not there begins only
   while no other upload, deletion or prune of it is under way, and a deletion or prune only while no upload
   of what it removes is, then every row has its blob.
   */
  lemma CarefulRunIsSane(hash: Blob -> Id, ops: seq<Op>)
    requires IsCareful(State(EMPTY, map[]), hash, ops)
    ensures Sane(Play(State(EMPTY, map[]), hash, ops).store, hash)
  {
    CarefulStaysSane(State(EMPTY, map[]), hash, ops);
  }

  // ---- Alone ----

  /** A task begins exactly for the requests that are accepted where they do not overlap. */
  lemma BeginsIfAccepted(s: State, hash: Blob -> Id, op: Op)
    requires Sane(s.store, hash) && (op.StartUpload? || op.StartDelete?) && op.task !in s.tasks
    ensures op.task in Step(s, hash, op).tasks <==>
              if op.StartUpload? then Upload(s.store, hash, op.config, op.req, op.member, op.now).reply.Ok?
              else Delete(s.store, op.id, op.requester, Gone).reply.Ok?
  {
  }

  /** The store after a task has gone on n times without tearing anything. */
  function GoOn(s: State, task: nat, fate: Fate, n: nat): State
    decreases n
  {
    if n == 0 || task !in s.tasks then s else GoOn(Advance(s, task, None, fate), task, fate, n - 1)
  }

  /** An upload that nothing disturbs does to the store what its plan says, and is then over. */
  lemma UploadAlone(s: State, hash: Blob -> Id, op: Op)
    requires Sane(s.store, hash) && op.StartUpload? && op.task !in s.tasks
    requires Upload(s.store, hash, op.config, op.req, op.member, op.now).reply.Ok?
    ensures var plan := Upload(s.store, hash, op.config, op.req, op.member, op.now);
            GoOn(Step(s, hash, op), op.task, Gone, 2) == State(ApplyAll(s.store, plan.effects), s.tasks)
  {
    var plan, begun := Upload(s.store, hash, op.config, op.req, op.member, op.now), Step(s, hash, op);
    var first := Advance(begun, op.task, None, Gone);
    assert s.tasks[op.task := begun.tasks[op.task]] - {op.task} == s.tasks;
    if |plan.effects| == 2 {
      ApplyTwo(s.store, plan.effects[0], plan.effects[1]);
      assert plan.effects == [plan.effects[0], plan.effects[1]];
      assert GoOn(begun, op.task, Gone, 2) == GoOn(first, op.task, Gone, 1)
          == GoOn(Advance(first, op.task, None, Gone), op.task, Gone, 0);
      assert first.tasks - {op.task} == s.tasks;
    } else {
      assert KeyOrEmpty(op.req.claimedId) in s.store.blobs;
      assert GoOn(begun, op.task, Gone, 2) == GoOn(first, op.task, Gone, 1) == first;
    }
  }
}
