/**
 The key package mailbox. Packages are handed out by three consumers: claims, members being added to a
 room and bots being granted to a room. Each function is one transaction.
 */
module KeyPackages {
  import opened Prelude
  import opened TextOrder

  type Id = string
  type Client = string

  /** The owner of a package: key_packages.user_id or key_packages.bot_id. */
  datatype Party = User(id: Id) | Bot(id: Id)

  datatype Package = Package(
    id: Id, party: Party, client: Client, suite: int, data: Blob, lastResort: bool, consumed: bool, createdAt: int)

  /** A package as it is uploaded. */
  datatype Upload = Upload(client: Client, suite: int, data: Blob, lastResort: bool)

  /** A row of pending_mls_adds. */
  datatype Add = Add(room: Id, target: Party, client: Client, package: Id)

  datatype Db = Db(packages: seq<Package>, adds: seq<Add>)

  datatype Error =
    | UserNotFound | QuotaExceeded(client: Client, current: nat, new_: nat, limit: int) | NoPackagesAvailable | Database

  datatype Outcome<T> = Outcome(db: Db, reply: Result<T, Error>)

  // ---- Queries ----

  predicate Fresh(packages: seq<Package>, id: Id) {
    forall k :: 0 <= k < |packages| ==> packages[k].id != id
  }

  /** ORDER BY created_at, id */
  predicate Older(a: Package, b: Package) {
    a.createdAt < b.createdAt || (a.createdAt == b.createdAt && Less(a.id, b.id))
  }

  /** An unconsumed package of the party, of the client if one is given. */
  predicate Offers(p: Package, party: Party, client: Option<Client>, lastResort: bool) {
    p.party == party && (client.Some? ==> p.client == client.value) && !p.consumed && p.lastResort == lastResort
  }

  /** The oldest package that fits. */
  function Oldest(packages: seq<Package>, party: Party, client: Option<Client>, lastResort: bool): (at: Option<nat>)
    ensures at.Some? ==> at.value < |packages| && Offers(packages[at.value], party, client, lastResort)
    ensures at.None? <==> forall k :: 0 <= k < |packages| ==> !Offers(packages[k], party, client, lastResort)
  {
    if packages == [] then None
    else
      var best, p := Oldest(Init(packages), party, client, lastResort), Last(packages);
      if Offers(p, party, client, lastResort) && (best.None? || Older(p, packages[best.value])) then
        Some(|packages| - 1)
      else best
  }

  /** The oldest normal package if there is one, else the oldest last-resort package. */
  function Choose(packages: seq<Package>, party: Party, client: Option<Client>): (at: Option<nat>)
    ensures at.Some? ==>
              at.value < |packages| && Offers(packages[at.value], party, client, packages[at.value].lastResort)
  {
    var normal := Oldest(packages, party, client, false);
    if normal.Some? then normal else Oldest(packages, party, client, true)
  }

  /** SET consumed = 1, for normal packages only. */
  function Spend(packages: seq<Package>, at: nat): seq<Package>
    requires at < |packages|
  {
    if packages[at].lastResort then packages else packages[at := packages[at].(consumed := true)]
  }

  function Unconsumed(packages: seq<Package>, party: Party, client: Client): nat {
    if packages == [] then 0
    else
      var p := Last(packages);
      Unconsumed(Init(packages), party, client) + if p.party == party && p.client == client && !p.consumed then 1 else 0
  }

  function CountNew(batch: seq<Upload>, client: Client): nat {
    if batch == [] then 0
    else CountNew(Init(batch), client) + if Last(batch).client == client then 1 else 0
  }

  // ---- Transactions ----

  /** The first client, in the order in which they are looked at, whose quota the batch would break. */
  function Overdrawn(packages: seq<Package>, user: Id, batch: seq<Upload>, limit: int,
        order: seq<Client>): Option<Client> {
    if order == [] then None
    else if Unconsumed(packages, User(user), order[0]) + CountNew(batch, order[0]) > limit then Some(order[0])
    else Overdrawn(packages, user, batch, limit, order[1..])
  }

  function Rows(user: Id, batch: seq<Upload>, ids: seq<Id>, now: int): seq<Package>
    requires |ids| == |batch|
  {
    if batch == [] then []
    else
      var u := Last(batch);
      Rows(user, Init(batch), Init(ids), now)
      + [Package(Last(ids), User(user), u.client, u.suite, u.data, u.lastResort, false, now)]
  }

  predicate AllFresh(packages: seq<Package>, ids: seq<Id>) {
    && (forall k :: 0 <= k < |ids| ==> Fresh(packages, ids[k]))
    && forall j, k :: 0 <= j < k < |ids| ==> ids[j] != ids[k]
  }

  /** order lists the clients of the batch as the hash map happens to; ids are the generated keys. */
  function UploadPackages(
    db: Db, user: Id, known: bool, batch: seq<Upload>, ids: seq<Id>, limit: int, order: seq<Client>,
    now: int): Outcome<nat>
    requires |ids| == |batch|
  {
    if !known then Outcome(db, Err(UserNotFound))
    else if batch == [] then Outcome(db, Ok(0))
    else
      match Overdrawn(db.packages, user, batch, limit, order)
      case Some(c) =>
        Outcome(db, Err(QuotaExceeded(c, Unconsumed(db.packages, User(user), c), CountNew(batch, c), limit)))
      case None =>
        if !AllFresh(db.packages, ids) then Outcome(db, Err(Database))
        else Outcome(db.(packages := db.packages + Rows(user, batch, ids, now)), Ok(|batch|))
  }

  function Claim(db: Db, user: Id, known: bool): Outcome<Package> {
    if !known then Outcome(db, Err(UserNotFound))
    else
      match Choose(db.packages, User(user), None)
      case None => Outcome(db, Err(NoPackagesAvailable))
      case Some(at) => Outcome(db.(packages := Spend(db.packages, at)), Ok(db.packages[at]))
  }

  /** What add_member does with packages: one for each device of the new member that offers any. */
  function AddMember(db: Db, room: Id, user: Id, devices: seq<Client>): Db {
    if devices == [] then db
    else
      var d, client := AddMember(db, room, user, Init(devices)), Last(devices);
      match Choose(d.packages, User(user), Some(client))
      case None => d
      case Some(at) => Db(Spend(d.packages, at), d.adds + [Add(room, User(user), client, d.packages[at].id)])
  }

  /** What granting a bot does with packages: every normal one is consumed and queued. */
  function SpendAll(packages: seq<Package>, bot: Id): seq<Package> {
    if packages == [] then []
    else
      var p := Last(packages);
      SpendAll(Init(packages), bot) + [if Offers(p, Bot(bot), None, false) then p.(consumed := true) else p]
  }

  /** One pending add for each selected package. */
  function QueueAll(adds: seq<Add>, room: Id, target: Party, rows: seq<(Client, Id)>): seq<Add> {
    if rows == [] then adds
    else QueueAll(adds, room, target, Init(rows)) + [Add(room, target, Last(rows).0, Last(rows).1)]
  }

  /** An answer of the query of select_bot_key_packages: each normal package once, in any order of its ties. */
  ghost predicate IsSelection(packages: seq<Package>, bot: Id, rows: seq<(Client, Id)>) {
    && (forall j, k :: 0 <= j < k < |rows| ==> rows[j].1 != rows[k].1)
    && (forall r :: r in rows <==>
          exists p :: p in packages && Offers(p, Bot(bot), None, false) && r == (p.client, p.id))
  }

  function GrantBot(db: Db, room: Id, bot: Id, rows: seq<(Client, Id)>): Db {
    Db(SpendAll(db.packages, bot), QueueAll(db.adds, room, Bot(bot), rows))
  }

  // ---- Runs ----

  datatype Op =
    | DoUpload(user: Id, known: bool, batch: seq<Upload>, ids: seq<Id>, order: seq<Client>, now: int)
    | DoClaim(user: Id, known: bool)
    | DoAdd(room: Id, user: Id, devices: seq<Client>)
    | DoGrant(room: Id, bot: Id, rows: seq<(Client, Id)>)
    | PlaceForBot(package: Package)

  /** The tables with the packages that claims have returned so far. */
  datatype Trace = Trace(db: Db, claims: multiset<Id>)

  /** Each client of the batch is looked at. */
  predicate Covers(order: seq<Client>, batch: seq<Upload>) {
    forall k :: 0 <= k < |batch| ==> batch[k].client in order
  }

  ghost predicate Possible(db: Db, op: Op) {
    match op
    case DoUpload(_, _, batch, ids, order, _) => |ids| == |batch| && Covers(order, batch)
    case DoGrant(_, bot, rows) => IsSelection(db.packages, bot, rows)
    case PlaceForBot(p) => p.party.Bot? && !p.consumed && Fresh(db.packages, p.id)
    case _ => true
  }

  ghost function Step(t: Trace, limit: int, op: Op): Trace {
    if !Possible(t.db, op) then t
    else
      match op
      case DoUpload(user, known, batch, ids, order, now) =>
        t.(db := UploadPackages(t.db, user, known, batch, ids, limit, order, now).db)
      case DoClaim(user, known) =>
        var out := Claim(t.db, user, known);
        Trace(out.db, if out.reply.Ok? then t.claims + multiset{out.reply.value.id} else t.claims)
      case DoAdd(room, user, devices) => t.(db := AddMember(t.db, room, user, devices))
      case DoGrant(room, bot, rows) => t.(db := GrantBot(t.db, room, bot, rows))
      case PlaceForBot(p) => t.(db := t.db.(packages := t.db.packages + [p]))
  }

  ghost function Run(t: Trace, limit: int, ops: seq<Op>): Trace {
    if ops == [] then t else Step(Run(t, limit, Init(ops)), limit, Last(ops))
  }

  const EMPTY := Trace(Db([], []), multiset{})

  // ---- Single use ----

  /** The packages that pending adds name. */
  function Named(adds: seq<Add>): multiset<Id> {
    if adds == [] then multiset{} else Named(Init(adds)) + multiset{Last(adds).package}
  }

  ghost predicate Distinct(packages: seq<Package>) {
    forall j, k :: 0 <= j < k < |packages| ==> packages[j].id != packages[k].id
  }

  ghost predicate IsHeldRight(p: Package, held: multiset<Id>) {
    if p.lastResort then !p.consumed else held[p.id] == if p.consumed then 1 else 0
  }

  /** A normal package is with exactly one holder once it is consumed, and with none before. */
  ghost predicate SingleUse(packages: seq<Package>, held: multiset<Id>) {
    && Distinct(packages)
    && (forall k :: 0 <= k < |packages| ==> IsHeldRight(packages[k], held))
    && (forall id :: id in held ==> !Fresh(packages, id))
  }

  ghost predicate Sound(t: Trace) {
    SingleUse(t.db.packages, t.claims + Named(t.db.adds))
  }

  /** Handing out a chosen package keeps single use. */
  lemma HandOutKeepsSingleUse(packages: seq<Package>, held: multiset<Id>, at: nat)
    requires SingleUse(packages, held) && at < |packages| && !packages[at].consumed
    ensures SingleUse(Spend(packages, at), held + multiset{packages[at].id})
  {
    var next, p := Spend(packages, at), packages[at];
    assert forall k :: 0 <= k < |packages| ==>
             next[k].id == packages[k].id && next[k].lastResort == packages[k].lastResort;
    forall k | 0 <= k < |next|
      ensures IsHeldRight(next[k], held + multiset{p.id})
    {
      assert IsHeldRight(packages[k], held);
    }
    forall id | id in held + multiset{p.id}
      ensures !Fresh(next, id)
    {
      if id == p.id {
        assert next[at].id == id;
      } else {
        var k :| 0 <= k < |packages| && packages[k].id == id;
        assert next[k].id == id;
      }
    }
  }

  /** New unconsumed packages keep single use. */
  lemma NewPackageKeepsSingleUse(packages: seq<Package>, held: multiset<Id>, p: Package)
    requires SingleUse(packages, held) && Fresh(packages, p.id) && !p.consumed
    ensures SingleUse(packages + [p], held)
  {
    var next := packages + [p];
    forall id | id in held
      ensures !Fresh(next, id)
    {
      var k :| 0 <= k < |packages| && packages[k].id == id;
      assert next[k].id == id;
    }
  }

  lemma {:induction false} UploadKeepsSingleUse(packages: seq<Package>, held: multiset<Id>, user: Id,
        batch: seq<Upload>, ids: seq<Id>, now: int)
    requires SingleUse(packages, held) && |ids| == |batch| && AllFresh(packages, ids)
    ensures SingleUse(packages + Rows(user, batch, ids, now), held)
    ensures forall k :: 0 <= k < |Rows(user, batch, ids, now)| ==> Rows(user, batch, ids, now)[k].id in ids
  {
    if batch == [] {
      assert packages + [] == packages;
    } else {
      var before := Rows(user, Init(batch), Init(ids), now);
      var p := Last(Rows(user, batch, ids, now));
      UploadKeepsSingleUse(packages, held, user, Init(batch), Init(ids), now);
      assert Fresh(packages + before, p.id) by {
        forall k | 0 <= k < |before|
          ensures before[k].id != p.id
        {
          var j :| 0 <= j < |ids| - 1 && ids[j] == before[k].id;
        }
      }
      NewPackageKeepsSingleUse(packages + before, held, p);
      assert packages + before + [p] == packages + Rows(user, batch, ids, now);
    }
  }

  lemma NamedSnoc(adds: seq<Add>, a: Add)
    ensures Named(adds + [a]) == Named(adds) + multiset{a.package}
  {
    assert Init(adds + [a]) == adds;
  }

  lemma QueueingKeepsSound(db: Db, claims: multiset<Id>, at: nat, add: Add)
    requires Sound(Trace(db, claims)) && at < |db.packages| && !db.packages[at].consumed
             && add.package == db.packages[at].id
    ensures Sound(Trace(Db(Spend(db.packages, at), db.adds + [add]), claims))
  {
    var held := claims + Named(db.adds);
    HandOutKeepsSingleUse(db.packages, held, at);
    NamedSnoc(db.adds, add);
    assert held + multiset{add.package} == claims + Named(db.adds + [add]);
  }

  lemma {:induction false} AddKeepsSound(t: Trace, room: Id, user: Id, devices: seq<Client>)
    requires Sound(t)
    ensures Sound(t.(db := AddMember(t.db, room, user, devices)))
  {
    if devices != [] {
      var d, client := AddMember(t.db, room, user, Init(devices)), Last(devices);
      AddKeepsSound(t, room, user, Init(devices));
      var at := Choose(d.packages, User(user), Some(client));
      if at.Some? {
        QueueingKeepsSound(d, t.claims, at.value, Add(room, User(user), client, d.packages[at.value].id));
      }
    }
  }

  lemma {:induction false} SpendAllIs(packages: seq<Package>, bot: Id)
    ensures var next := SpendAll(packages, bot);
            && |next| == |packages|
            && forall k :: 0 <= k < |packages| ==>
                 next[k] == if Offers(packages[k], Bot(bot), None, false)
                            then packages[k].(consumed := true) else packages[k]
  {
    if packages != [] {
      SpendAllIs(Init(packages), bot);
    }
  }

  /** Queueing adds once each row to what is named. */
  lemma {:induction false} QueueAllNames(adds: seq<Add>, room: Id, target: Party, rows: seq<(Client, Id)>, id: Id)
    requires forall j, k :: 0 <= j < k < |rows| ==> rows[j].1 != rows[k].1
    ensures Named(QueueAll(adds, room, target, rows))[id] ==
            Named(adds)[id] + if exists k :: 0 <= k < |rows| && rows[k].1 == id then 1 else 0
  {
    if rows != [] {
      QueueAllNames(adds, room, target, Init(rows), id);
      NamedSnoc(QueueAll(adds, room, target, Init(rows)), Add(room, target, Last(rows).0, Last(rows).1));
      if k :| 0 <= k < |rows| && rows[k].1 == id {
        assert k == |rows| - 1 || Init(rows)[k].1 == id;
      }
      if k :| 0 <= k < |rows| - 1 && Init(rows)[k].1 == id {
        assert rows[k].1 == id && Last(rows).1 != id;
      }
    }
  }

  lemma SelectedIff(packages: seq<Package>, bot: Id, rows: seq<(Client, Id)>, k: nat)
    requires Distinct(packages) && IsSelection(packages, bot, rows) && k < |packages|
    ensures Offers(packages[k], Bot(bot), None, false) <==> exists j :: 0 <= j < |rows| && rows[j].1 == packages[k].id
  {
    if Offers(packages[k], Bot(bot), None, false) {
      assert packages[k] in packages;
      assert (packages[k].client, packages[k].id) in rows;
    }
    if j :| 0 <= j < |rows| && rows[j].1 == packages[k].id {
      assert rows[j] in rows;
      var p :| p in packages && Offers(p, Bot(bot), None, false) && rows[j] == (p.client, p.id);
      var i :| 0 <= i < |packages| && packages[i] == p;
    }
  }

  /** Granting names each package that it consumes once, and no other. */
  lemma GrantNames(db: Db, room: Id, bot: Id, rows: seq<(Client, Id)>, k: nat)
    requires Distinct(db.packages) && IsSelection(db.packages, bot, rows) && k < |db.packages|
    ensures Named(GrantBot(db, room, bot, rows).adds)[db.packages[k].id] ==
            Named(db.adds)[db.packages[k].id] + if Offers(db.packages[k], Bot(bot), None, false) then 1 else 0
  {
    SelectedIff(db.packages, bot, rows, k);
    QueueAllNames(db.adds, room, Bot(bot), rows, db.packages[k].id);
  }

  lemma SelectedExists(packages: seq<Package>, bot: Id, rows: seq<(Client, Id)>, j: nat)
    requires IsSelection(packages, bot, rows) && j < |rows|
    ensures !Fresh(packages, rows[j].1)
  {
    assert rows[j] in rows;
    var p :| p in packages && Offers(p, Bot(bot), None, false) && rows[j] == (p.client, p.id);
    var k :| 0 <= k < |packages| && packages[k] == p;
  }

  lemma GrantNamesPackages(db: Db, room: Id, bot: Id, rows: seq<(Client, Id)>, id: Id)
    requires IsSelection(db.packages, bot, rows) && id in Named(GrantBot(db, room, bot, rows).adds)
    ensures id in Named(db.adds) || !Fresh(db.packages, id)
  {
    QueueAllNames(db.adds, room, Bot(bot), rows, id);
    if id !in Named(db.adds) {
      var j :| 0 <= j < |rows| && rows[j].1 == id;
      SelectedExists(db.packages, bot, rows, j);
    }
  }

  /** Consuming some normal packages, while counting each of them once more as held, keeps single use. */
  lemma ConsumptionKeepsSingleUse(packages: seq<Package>, held: multiset<Id>, next: seq<Package>,
        heldNext: multiset<Id>, bot: Id)
    requires SingleUse(packages, held) && next == SpendAll(packages, bot)
    requires forall k :: 0 <= k < |packages| ==>
               heldNext[packages[k].id] ==
                 held[packages[k].id] + (if Offers(packages[k], Bot(bot), None, false) then 1 else 0)
    requires forall id :: id in heldNext ==> !Fresh(packages, id)
    ensures SingleUse(next, heldNext)
  {
    SpendAllIs(packages, bot);
    forall k | 0 <= k < |next|
      ensures IsHeldRight(next[k], heldNext)
    {
      assert IsHeldRight(packages[k], held);
    }
    forall id | id in heldNext
      ensures !Fresh(next, id)
    {
      var k :| 0 <= k < |packages| && packages[k].id == id;
      assert next[k].id == id;
    }
  }

  lemma GrantKeepsSound(t: Trace, room: Id, bot: Id, rows: seq<(Client, Id)>)
    requires Sound(t) && IsSelection(t.db.packages, bot, rows)
    ensures Sound(t.(db := GrantBot(t.db, room, bot, rows)))
  {
    var next := GrantBot(t.db, room, bot, rows);
    var held, heldNext := t.claims + Named(t.db.adds), t.claims + Named(next.adds);
    forall k | 0 <= k < |t.db.packages|
      ensures heldNext[t.db.packages[k].id] ==
              held[t.db.packages[k].id] + if Offers(t.db.packages[k], Bot(bot), None, false) then 1 else 0
    {
      GrantNames(t.db, room, bot, rows, k);
    }
    forall id | id in heldNext
      ensures !Fresh(t.db.packages, id)
    {
      if id in Named(next.adds) {
        GrantNamesPackages(t.db, room, bot, rows, id);
      }
      assert id in held || !Fresh(t.db.packages, id);
    }
    ConsumptionKeepsSingleUse(t.db.packages, held, next.packages, heldNext, bot);
  }

  lemma ClaimKeepsSound(t: Trace, limit: int, user: Id, known: bool)
    requires Sound(t)
    ensures Sound(Step(t, limit, DoClaim(user, known)))
  {
    var held := t.claims + Named(t.db.adds);
    var at := Choose(t.db.packages, User(user), None);
    if known && at.Some? {
      HandOutKeepsSingleUse(t.db.packages, held, at.value);
      assert held + multiset{t.db.packages[at.value].id}
          == t.claims + multiset{t.db.packages[at.value].id} + Named(t.db.adds);
    }
  }

  lemma StepKeepsSound(t: Trace, limit: int, op: Op)
    requires Sound(t)
    ensures Sound(Step(t, limit, op))
  {
    if Possible(t.db, op) {
      var held := t.claims + Named(t.db.adds);
      match op
      case DoUpload(user, known, batch, ids, order, now) =>
        if Step(t, limit, op).db != t.db {
          UploadKeepsSingleUse(t.db.packages, held, user, batch, ids, now);
        }
      case DoClaim(user, known) => ClaimKeepsSound(t, limit, user, known);
      case DoAdd(room, user, devices) => AddKeepsSound(t, room, user, devices);
      case DoGrant(room, bot, rows) => GrantKeepsSound(t, room, bot, rows);
      case PlaceForBot(p) => NewPackageKeepsSingleUse(t.db.packages, held, p);
    }
  }

  /**
   Over every run of uploads, claims, additions and bot grants a normal package is handed out at most once
   and is consumed exactly when it has been; last-resort packages are never consumed; and every pending
   add names a package that exists.
   */
  lemma {:induction false} PackagesAreSingleUse(limit: int, ops: seq<Op>)
    ensures Sound(Run(EMPTY, limit, ops))
  {
    if ops != [] {
      PackagesAreSingleUse(limit, Init(ops));
      StepKeepsSound(Run(EMPTY, limit, Init(ops)), limit, Last(ops));
    }
  }

  lemma {:induction false} NamedHolds(adds: seq<Add>, k: nat)
    requires k < |adds|
    ensures Named(adds)[adds[k].package] >= 1
    ensures forall j :: 0 <= j < |adds| && j != k && adds[j].package == adds[k].package ==>
              Named(adds)[adds[k].package] >= 2
  {
    if k < |adds| - 1 {
      NamedHolds(Init(adds), k);
    } else {
      forall j | 0 <= j < |adds| - 1 && adds[j].package == adds[k].package
        ensures Named(Init(adds))[adds[k].package] >= 1
      {
        NamedHolds(Init(adds), j);
      }
    }
  }

  /** A pending add for a normal package is its only holder. */
  lemma PendingAddIsSoleHolder(t: Trace, k: nat, p: Package)
    requires Sound(t) && k < |t.db.adds| && p in t.db.packages && p.id == t.db.adds[k].package && !p.lastResort
    ensures p.consumed && t.claims[p.id] == 0
    ensures forall j :: 0 <= j < |t.db.adds| && j != k ==> t.db.adds[j].package != p.id
  {
    NamedHolds(t.db.adds, k);
    var i :| 0 <= i < |t.db.packages| && t.db.packages[i] == p;
    assert IsHeldRight(t.db.packages[i], t.claims + Named(t.db.adds));
  }
}
