/**
 What uploads store, what claims and grants do to the tables, and what becomes of last-resort packages, in
 terms of the rows alone.
 */
module PackageRules {
  import opened Prelude
  import opened TextOrder
  import opened KeyPackages
  import opened PackageClaims

  // ---- Counts ----

  /** The places of the unconsumed packages of a client. */
  function UnconsumedAt(packages: seq<Package>, party: Party, client: Client): set<nat> {
    set k: nat | k < |packages| && packages[k].party == party && packages[k].client == client && !packages[k].consumed
  }

  lemma {:induction false} UnconsumedIsCount(packages: seq<Package>, party: Party, client: Client)
    ensures Unconsumed(packages, party, client) == |UnconsumedAt(packages, party, client)|
  {
    if packages != [] {
      UnconsumedIsCount(Init(packages), party, client);
      OneMorePlace(packages, party, client);
    }
  }

  lemma OneMorePlace(packages: seq<Package>, party: Party, client: Client)
    requires packages != []
    ensures var n, before := |packages| - 1, UnconsumedAt(Init(packages), party, client);
            && n !in before
            && UnconsumedAt(packages, party, client) ==
                 if packages[n].party == party && packages[n].client == client && !packages[n].consumed
                 then before + {n} else before
  {
  }

  function NewAt(batch: seq<Upload>, client: Client): set<nat> {
    set k: nat | k < |batch| && batch[k].client == client
  }

  lemma {:induction false} NewIsCount(batch: seq<Upload>, client: Client)
    ensures CountNew(batch, client) == |NewAt(batch, client)|
  {
    if batch != [] {
      NewIsCount(Init(batch), client);
      assert NewAt(batch, client) ==
             NewAt(Init(batch), client) + if Last(batch).client == client then {|batch| - 1} else {};
    }
  }

  // ---- Uploads ----

  /** The stored package is what was uploaded, under the generated key, and not consumed. */
  predicate IsStored(p: Package, user: Id, u: Upload, id: Id, now: int) {
    && p.id == id && p.party == User(user) && p.client == u.client && p.suite == u.suite && p.data == u.data
    && p.lastResort == u.lastResort && !p.consumed && p.createdAt == now
  }

  lemma {:induction false} RowsAreStored(user: Id, batch: seq<Upload>, ids: seq<Id>, now: int, k: nat)
    requires |ids| == |batch| && k < |batch|
    ensures |Rows(user, batch, ids, now)| == |batch|
    ensures IsStored(Rows(user, batch, ids, now)[k], user, batch[k], ids[k], now)
  {
    if |batch| > 1 {
      RowsAreStored(user, Init(batch), Init(ids), now, if k < |batch| - 1 then k else 0);
    }
  }

  /**
   An accepted batch is stored package by package behind the old ones; a refused one says which client has too
   many.
   */
  lemma UploadStores(db: Db, user: Id, known: bool, batch: seq<Upload>, ids: seq<Id>, limit: int, order: seq<Client>,
                     now: int)
    requires |ids| == |batch|
    ensures var out := UploadPackages(db, user, known, batch, ids, limit, order, now);
            && (out.reply == Err(UserNotFound) <==> !known)
            && (out.reply.Err? ==> out.db == db)
            && (out.reply.Err? && out.reply.error.QuotaExceeded? ==>
                  var e := out.reply.error;
                  && e.limit == limit && e.current + e.new_ > limit
                  && e.current == |UnconsumedAt(db.packages, User(user), e.client)|
                  && e.new_ == |NewAt(batch, e.client)|)
            && (out.reply.Ok? ==>
                  && out.reply.value == |batch| && out.db.adds == db.adds
                  && |out.db.packages| == |db.packages| + |batch| && out.db.packages[..|db.packages|] == db.packages
                  && forall k :: 0 <= k < |batch| ==>
                       IsStored(out.db.packages[|db.packages| + k], user, batch[k], ids[k], now))
  {
    var out := UploadPackages(db, user, known, batch, ids, limit, order, now);
    if out.reply.Ok? {
      forall k | 0 <= k < |batch|
        ensures |out.db.packages| == |db.packages| + |batch|
        ensures IsStored(out.db.packages[|db.packages| + k], user, batch[k], ids[k], now)
      {
        RowsAreStored(user, batch, ids, now, k);
      }
    } else if out.reply.error.QuotaExceeded? {
      OverdrawnDecides(db.packages, user, batch, limit, order);
      UnconsumedIsCount(db.packages, User(user), out.reply.error.client);
      NewIsCount(batch, out.reply.error.client);
    }
  }

  // ---- Claims ----

  /** A package of the user that nobody has been given, or that is never used up. */
  predicate IsOffered(p: Package, user: Id) {
    p.party == User(user) && !p.consumed
  }

  /** Of two packages the first is handed out first: normal before last resort, then older, then by id. */
  predicate Precedes(p: Package, q: Package) {
    || (!p.lastResort && q.lastResort)
    || (p.lastResort == q.lastResort
        && (p.createdAt < q.createdAt || (p.createdAt == q.createdAt && Less(p.id, q.id))))
  }

  lemma ChooseIff(packages: seq<Package>, user: Id)
    ensures Choose(packages, User(user), None).None? <==>
              forall k :: 0 <= k < |packages| ==> !IsOffered(packages[k], user)
  {
    var at := Choose(packages, User(user), None);
    if k :| 0 <= k < |packages| && IsOffered(packages[k], user) {
      assert Offers(packages[k], User(user), None, packages[k].lastResort);
    }
    assert at.Some? ==> IsOffered(packages[at.value], user);
  }

  /**
   A claim hands out the first of the packages on offer; a normal one is consumed by that, and nothing else
   changes.
   */
  lemma ClaimIs(db: Db, user: Id, known: bool)
    requires Distinct(db.packages)
    ensures var out := Claim(db, user, known);
            && (out.reply == Err(UserNotFound) <==> !known)
            && (out.reply == Err(NoPackagesAvailable) <==>
                  known && forall k :: 0 <= k < |db.packages| ==> !IsOffered(db.packages[k], user))
            && (out.reply.Err? ==> out.reply.error.UserNotFound? || out.reply.error.NoPackagesAvailable?)
            && (out.reply.Err? ==> out.db == db)
            && (out.reply.Ok? ==>
                  var p := out.reply.value;
                  && p in db.packages && IsOffered(p, user)
                  && (forall k :: 0 <= k < |db.packages| && IsOffered(db.packages[k], user) ==>
                        p == db.packages[k] || Precedes(p, db.packages[k]))
                  && out.db.adds == db.adds && |out.db.packages| == |db.packages|
                  && forall k :: 0 <= k < |db.packages| ==>
                       out.db.packages[k] == if db.packages[k].id == p.id && !p.lastResort
                                             then db.packages[k].(consumed := true) else db.packages[k])
  {
    ChooseIff(db.packages, user);
    var at := Choose(db.packages, User(user), None);
    if at.Some? {
      forall k | 0 <= k < |db.packages| && IsOffered(db.packages[k], user)
        ensures db.packages[at.value] == db.packages[k] || Precedes(db.packages[at.value], db.packages[k])
      {
        ChoiceIsOldest(db.packages, User(user), None, k);
      }
    }
  }

  // ---- Additions and grants ----

  /**
   What an addition changes: pending adds are only appended, for the room and the user, and packages only
   consumed.
   */
  lemma {:induction false} AddIs(db: Db, room: Id, user: Id, devices: seq<Client>)
    ensures var next := AddMember(db, room, user, devices);
            && |db.adds| <= |next.adds| <= |db.adds| + |devices| && next.adds[..|db.adds|] == db.adds
            && (forall k :: |db.adds| <= k < |next.adds| ==>
                  next.adds[k].room == room && next.adds[k].target == User(user) && next.adds[k].client in devices)
            && |next.packages| == |db.packages|
            && forall k :: 0 <= k < |db.packages| ==>
                 || next.packages[k] == db.packages[k]
                 || (IsOffered(db.packages[k], user) && !db.packages[k].lastResort && db.packages[k].client in devices
                     && next.packages[k] == db.packages[k].(consumed := true))
  {
    if devices != [] {
      AddIs(db, room, user, Init(devices));
      assert devices == Init(devices) + [Last(devices)];
    }
  }

  lemma {:induction false} QueueAllIs(adds: seq<Add>, room: Id, target: Party, rows: seq<(Client, Id)>)
    ensures var next := QueueAll(adds, room, target, rows);
            && |next| == |adds| + |rows| && next[..|adds|] == adds
            && forall k :: 0 <= k < |rows| ==> next[|adds| + k] == Add(room, target, rows[k].0, rows[k].1)
  {
    if rows != [] {
      QueueAllIs(adds, room, target, Init(rows));
    }
  }

  /**
   A grant queues each selected package for the room and the bot, and consumes the bot's normal packages, no
   others.
   */
  lemma GrantIs(db: Db, room: Id, bot: Id, rows: seq<(Client, Id)>)
    ensures var next := GrantBot(db, room, bot, rows);
            && |next.adds| == |db.adds| + |rows| && next.adds[..|db.adds|] == db.adds
            && (forall k :: 0 <= k < |rows| ==>
                  next.adds[|db.adds| + k] == Add(room, Bot(bot), rows[k].0, rows[k].1))
            && |next.packages| == |db.packages|
            && forall k :: 0 <= k < |db.packages| ==>
                 var p := db.packages[k];
                 next.packages[k] == if p.party == Bot(bot) && !p.lastResort then p.(consumed := true) else p
  {
    QueueAllIs(db.adds, room, Bot(bot), rows);
    SpendAllIs(db.packages, bot);
    forall k | 0 <= k < |db.packages| && db.packages[k].consumed
      ensures db.packages[k].(consumed := true) == db.packages[k]
    {
    }
  }

  // ---- Last resort, over every run ----

  lemma UploadKeepsRow(t: Trace, limit: int, op: Op, p: Package)
    requires op.DoUpload? && p in t.db.packages
    ensures p in Step(t, limit, op).db.packages
  {
    if Possible(t.db, op) {
      UploadStores(t.db, op.user, op.known, op.batch, op.ids, limit, op.order, op.now);
    }
  }

  lemma StepKeepsLastResort(t: Trace, limit: int, op: Op, p: Package)
    requires p in t.db.packages && p.lastResort && !p.consumed
    ensures p in Step(t, limit, op).db.packages
  {
    var k :| 0 <= k < |t.db.packages| && t.db.packages[k] == p;
    match op
    case DoUpload(_, _, _, _, _, _) => UploadKeepsRow(t, limit, op, p);
    case DoClaim(user, known) =>
      var next := Step(t, limit, op).db.packages;
      assert k < |next| && next[k] == p;
    case DoAdd(room, user, devices) =>
      AddIs(t.db, room, user, devices);
      assert AddMember(t.db, room, user, devices).packages[k] == p;
    case DoGrant(room, bot, rows) =>
      GrantIs(t.db, room, bot, rows);
      assert GrantBot(t.db, room, bot, rows).packages[k] == p;
    case PlaceForBot(_) =>
  }

  /**
   A last-resort package stays in the table as it was uploaded, whatever follows; so a claim never comes back
   empty, and once the normal packages have gone it returns a last-resort package and changes nothing.
   */
  lemma {:induction false} LastResortServes(t: Trace, limit: int, ops: seq<Op>, user: Id, p: Package)
    requires p in t.db.packages && p.lastResort && IsOffered(p, user)
    ensures var end := Run(t, limit, ops).db;
            var out := Claim(end, user, true);
            && p in end.packages && out.reply.Ok?
            && ((forall q :: q in end.packages && IsOffered(q, user) ==> q.lastResort) ==>
                  out.reply.value.lastResort && IsOffered(out.reply.value, user) && out.db == end)
  {
    LastResortStays(t, limit, ops, p);
    var end := Run(t, limit, ops).db;
    var k :| 0 <= k < |end.packages| && end.packages[k] == p;
    ChooseIff(end.packages, user);
    var at := Choose(end.packages, User(user), None).value;
    assert end.packages[at] in end.packages && IsOffered(end.packages[at], user);
  }

  lemma {:induction false} LastResortStays(t: Trace, limit: int, ops: seq<Op>, p: Package)
    requires p in t.db.packages && p.lastResort && !p.consumed
    ensures p in Run(t, limit, ops).db.packages
  {
    if ops != [] {
      LastResortStays(t, limit, Init(ops), p);
      StepKeepsLastResort(Run(t, limit, Init(ops)), limit, Last(ops), p);
    }
  }

  /** From an accepted upload on, each last-resort package of the batch serves claims, whatever follows. */
  lemma UploadedLastResortServes(t: Trace, limit: int, op: Op, ops: seq<Op>, k: nat)
    requires op.DoUpload? && Possible(t.db, op) && k < |op.batch| && op.batch[k].lastResort
    requires UploadPackages(t.db, op.user, op.known, op.batch, op.ids, limit, op.order, op.now).reply.Ok?
    ensures var end := Run(Step(t, limit, op), limit, ops).db;
            && (exists p :: p in end.packages && IsStored(p, op.user, op.batch[k], op.ids[k], op.now))
            && Claim(end, op.user, true).reply.Ok?
  {
    UploadStores(t.db, op.user, op.known, op.batch, op.ids, limit, op.order, op.now);
    var p := Step(t, limit, op).db.packages[|t.db.packages| + k];
    LastResortServes(Step(t, limit, op), limit, ops, op.user, p);
  }
}
