/** The order in which packages are claimed, the quota on uploads and the counts that are reported. */
module PackageClaims {
  import opened Prelude
  import opened TextOrder
  import opened KeyPackages

  // ---- The order of claims ----

  /** q lists the unconsumed packages of one kind that a user has, oldest first. */
  ghost predicate IsQueue(packages: seq<Package>, user: Id, lastResort: bool, q: seq<Package>) {
    && (forall j, k :: 0 <= j < k < |q| ==> Older(q[j], q[k]))
    && forall p :: p in q <==> p in packages && Offers(p, User(user), None, lastResort)
  }

  function Insert(q: seq<Package>, p: Package): seq<Package> {
    if q == [] then [p]
    else if Older(p, q[0]) then [p] + q
    else [q[0]] + Insert(q[1..], p)
  }

  lemma OlderIsTransitive(a: Package, b: Package, c: Package)
    requires Older(a, b) && Older(b, c)
    ensures Older(a, c)
  {
    if Less(a.id, b.id) && Less(b.id, c.id) {
      LessIsTransitive(a.id, b.id, c.id);
    }
  }

  lemma {:induction false} InsertIsOrdered(q: seq<Package>, p: Package)
    requires forall j, k :: 0 <= j < k < |q| ==> Older(q[j], q[k])
    requires forall x :: x in q ==> x.id != p.id
    ensures var r := Insert(q, p);
            && (forall j, k :: 0 <= j < k < |r| ==> Older(r[j], r[k]))
            && forall x :: x in r <==> x == p || x in q
  {
    if q != [] {
      if Older(p, q[0]) {
        forall k | 0 <= k < |q|
          ensures Older(p, q[k])
        {
          if k > 0 {
            OlderIsTransitive(p, q[0], q[k]);
          }
        }
      } else {
        assert q[0] in q;
        LessIsTotal(p.id, q[0].id);
        InsertIsOrdered(q[1..], p);
        var rest := Insert(q[1..], p);
        forall k | 0 <= k < |rest|
          ensures Older(q[0], rest[k])
        {
          assert rest[k] == p || rest[k] in q[1..];
        }
        assert q == [q[0]] + q[1..];
      }
    }
  }

  /** There is such a queue for every table. */
  lemma {:induction false} QueueExists(packages: seq<Package>, user: Id, lastResort: bool) returns (q: seq<Package>)
    requires Distinct(packages)
    ensures IsQueue(packages, user, lastResort, q)
  {
    if packages == [] {
      q := [];
    } else {
      q := QueueExists(Init(packages), user, lastResort);
      var p := Last(packages);
      assert packages == Init(packages) + [p];
      if Offers(p, User(user), None, lastResort) {
        InsertIsOrdered(q, p);
        q := Insert(q, p);
      }
    }
  }

  /** No package that fits is older than the one taken. */
  lemma {:induction false} OldestIsLeast(packages: seq<Package>, party: Party, client: Option<Client>,
        lastResort: bool, k: nat)
    requires Distinct(packages) && k < |packages| && Offers(packages[k], party, client, lastResort)
    ensures var at := Oldest(packages, party, client, lastResort);
            at.Some? && (k == at.value || Older(packages[at.value], packages[k]))
  {
    var p, best := Last(packages), Oldest(Init(packages), party, client, lastResort);
    if k < |packages| - 1 {
      OldestIsLeast(Init(packages), party, client, lastResort, k);
      if Offers(p, party, client, lastResort) && Older(p, packages[best.value]) && k != best.value {
        OlderIsTransitive(p, packages[best.value], packages[k]);
      }
    } else if best.Some? {
      LessIsTotal(p.id, packages[best.value].id);
    }
  }

  /** The package chosen is a normal one if any is offered, and of its kind none is older. */
  lemma ChoiceIsOldest(packages: seq<Package>, party: Party, client: Option<Client>, k: nat)
    requires Distinct(packages) && k < |packages| && Offers(packages[k], party, client, packages[k].lastResort)
    ensures var at := Choose(packages, party, client);
            && at.Some?
            && (!packages[k].lastResort ==> !packages[at.value].lastResort)
            && (packages[k].lastResort == packages[at.value].lastResort ==>
                  k == at.value || Older(packages[at.value], packages[k]))
  {
    OldestIsLeast(packages, party, client, packages[k].lastResort, k);
  }

  // ---- Additions, device by device ----

  lemma {:induction false} OldestSparesClient(packages: seq<Package>, at: nat, party: Party, client: Client,
        lastResort: bool)
    requires at < |packages| && packages[at].client != client
    ensures Oldest(Spend(packages, at), party, Some(client), lastResort)
            == Oldest(packages, party, Some(client), lastResort)
  {
    var next := Spend(packages, at);
    if at < |packages| - 1 {
      OldestSparesClient(Init(packages), at, party, client, lastResort);
      assert Init(next) == Spend(Init(packages), at);
    } else {
      assert Init(next) == Init(packages);
    }
  }

  /** What each device is given when nothing has been spent yet. */
  function AddsFor(packages: seq<Package>, room: Id, user: Id, devices: seq<Client>): seq<Add> {
    if devices == [] then []
    else
      var client := Last(devices);
      AddsFor(packages, room, user, Init(devices))
      + match Choose(packages, User(user), Some(client))
        case None => []
        case Some(at) => [Add(room, User(user), client, packages[at].id)]
  }

  lemma {:induction false} AddSparesClient(db: Db, room: Id, user: Id, devices: seq<Client>, client: Client)
    requires client !in devices
    ensures var next := AddMember(db, room, user, devices).packages;
            && |next| == |db.packages| && (forall k :: 0 <= k < |next| ==> next[k].id == db.packages[k].id)
            && Choose(next, User(user), Some(client)) == Choose(db.packages, User(user), Some(client))
  {
    if devices != [] {
      assert devices == Init(devices) + [Last(devices)];
      AddSparesClient(db, room, user, Init(devices), client);
      var d := AddMember(db, room, user, Init(devices));
      var at := Choose(d.packages, User(user), Some(Last(devices)));
      if at.Some? {
        OldestSparesClient(d.packages, at.value, User(user), client, false);
        OldestSparesClient(d.packages, at.value, User(user), client, true);
      }
    }
  }

  /** Each device that offers a package gets one pending add, for the package it would get if it were the only one. */
  lemma {:induction false} AddsAreDeviceByDevice(db: Db, room: Id, user: Id, devices: seq<Client>)
    requires forall j, k :: 0 <= j < k < |devices| ==> devices[j] != devices[k]
    ensures AddMember(db, room, user, devices).adds == db.adds + AddsFor(db.packages, room, user, devices)
  {
    if devices != [] {
      AddsAreDeviceByDevice(db, room, user, Init(devices));
      AddSparesClient(db, room, user, Init(devices), Last(devices));
    } else {
      assert db.adds + [] == db.adds;
    }
  }

  lemma OldestIsHead(packages: seq<Package>, user: Id, lastResort: bool, q: seq<Package>)
    requires Distinct(packages) && IsQueue(packages, user, lastResort, q)
    ensures var at := Oldest(packages, User(user), None, lastResort);
            if q == [] then at.None? else at.Some? && packages[at.value] == q[0]
  {
    var at := Oldest(packages, User(user), None, lastResort);
    if at.Some? {
      assert packages[at.value] in q;
    }
    if q != [] {
      assert q[0] in q;
      var k :| 0 <= k < |packages| && packages[k] == q[0];
      OldestIsLeast(packages, User(user), None, lastResort, k);
      var j :| 0 <= j < |q| && q[j] == packages[at.value];
      if j > 0 && k != at.value {
        OlderIsStrict(q[0], q[j]);
      }
    }
  }

  lemma OlderIsStrict(a: Package, b: Package)
    requires Older(a, b)
    ensures !Older(b, a)
  {
    if Less(a.id, b.id) {
      LessIsStrict(a.id, b.id);
    }
  }

  /** Spending the head of one queue leaves its tail and the other queue. */
  lemma SpendPopsQueue(packages: seq<Package>, user: Id, q: seq<Package>, reserve: seq<Package>, at: nat)
    requires Distinct(packages) && IsQueue(packages, user, false, q) && IsQueue(packages, user, true, reserve)
    requires q != [] && at < |packages| && packages[at] == q[0]
    ensures var next := Spend(packages, at);
            Distinct(next) && IsQueue(next, user, false, q[1..]) && IsQueue(next, user, true, reserve)
  {
    var next := Spend(packages, at);
    assert q[0] in q;
    assert forall k :: 0 <= k < |packages| ==> next[k].id == packages[k].id;
    forall p
      ensures p in q[1..] <==> p in next && Offers(p, User(user), None, false)
    {
      SpendRemoves(packages, user, at, p);
      if p in q && p != q[0] {
        var k :| 0 <= k < |q| && q[k] == p;
        assert q[1..][k - 1] == p;
      }
      if k :| 0 <= k < |q| - 1 && q[1..][k] == p {
        OlderIsStrict(q[0], q[k + 1]);
        assert p == q[k + 1] && p in q && p != q[0];
      }
    }
    forall p
      ensures p in reserve <==> p in next && Offers(p, User(user), None, true)
    {
      if p.lastResort {
        SpendSparesOthers(packages, at, p);
      }
    }
  }

  lemma SpendRemoves(packages: seq<Package>, user: Id, at: nat, p: Package)
    requires Distinct(packages) && at < |packages| && Offers(packages[at], User(user), None, false)
    ensures p in Spend(packages, at) && Offers(p, User(user), None, false)
            <==> p in packages && Offers(p, User(user), None, false) && p != packages[at]
  {
    if p in packages {
      var k :| 0 <= k < |packages| && packages[k] == p;
      assert k == at || Spend(packages, at)[k] == p;
    }
  }

  lemma SpendSparesOthers(packages: seq<Package>, at: nat, p: Package)
    requires at < |packages| && !packages[at].lastResort && p.lastResort
    ensures p in Spend(packages, at) <==> p in packages
  {
    if p in packages {
      var k :| 0 <= k < |packages| && packages[k] == p;
      assert Spend(packages, at)[k] == p;
    }
  }

  /** The replies of n claims of the packages of one user, with nothing in between. */
  function ClaimAll(db: Db, user: Id, n: nat): (replies: seq<Result<Package, Error>>)
    ensures |replies| == n
    decreases n
  {
    if n == 0 then []
    else
      var first := Claim(db, user, true);
      [first.reply] + ClaimAll(first.db, user, n - 1)
  }

  /** What the k-th claim returns when q and reserve are the queues before the first. */
  function Drained(q: seq<Package>, reserve: seq<Package>, k: nat): Result<Package, Error> {
    if k < |q| then Ok(q[k])
    else if reserve != [] then Ok(reserve[0])
    else Err(NoPackagesAvailable)
  }

  lemma ClaimTakesHead(db: Db, user: Id, q: seq<Package>, reserve: seq<Package>)
    requires Distinct(db.packages) && IsQueue(db.packages, user, false, q) && IsQueue(db.packages, user, true, reserve)
    ensures var out := Claim(db, user, true);
            && out.reply == Drained(q, reserve, 0)
            && if q == [] then out.db == db
               else Distinct(out.db.packages)
                    && IsQueue(out.db.packages, user, false, q[1..]) && IsQueue(out.db.packages, user, true, reserve)
  {
    OldestIsHead(db.packages, user, false, q);
    OldestIsHead(db.packages, user, true, reserve);
    if q != [] {
      SpendPopsQueue(db.packages, user, q, reserve, Oldest(db.packages, User(user), None, false).value);
    }
  }

  function DrainAll(q: seq<Package>, reserve: seq<Package>, n: nat): (replies: seq<Result<Package, Error>>)
    ensures |replies| == n
    decreases n
  {
    if n == 0 then [] else [Drained(q, reserve, 0)] + DrainAll(if q == [] then [] else q[1..], reserve, n - 1)
  }

  lemma {:induction false} DrainAllAt(q: seq<Package>, reserve: seq<Package>, n: nat, k: nat)
    requires k < n
    ensures DrainAll(q, reserve, n)[k] == Drained(q, reserve, k)
    decreases n
  {
    if k > 0 {
      DrainAllAt(if q == [] then [] else q[1..], reserve, n - 1, k - 1);
    }
  }

  lemma {:induction false} ClaimsDrain(db: Db, user: Id, n: nat, q: seq<Package>, reserve: seq<Package>)
    requires Distinct(db.packages) && IsQueue(db.packages, user, false, q) && IsQueue(db.packages, user, true, reserve)
    ensures ClaimAll(db, user, n) == DrainAll(q, reserve, n)
    decreases n
  {
    if n > 0 {
      var out := Claim(db, user, true);
      assert ClaimAll(db, user, n) == [out.reply] + ClaimAll(out.db, user, n - 1);
      ClaimTakesHead(db, user, q, reserve);
      if q == [] {
        ClaimsDrain(db, user, n - 1, q, reserve);
      } else {
        ClaimsDrain(out.db, user, n - 1, q[1..], reserve);
      }
    }
  }

  /**
   Claims in a row return the normal packages, oldest first, each once. Every later claim returns the
   oldest last-resort package, or fails if there is none.
   */
  lemma ClaimsDrainInOrder(db: Db, user: Id, n: nat, q: seq<Package>, reserve: seq<Package>)
    requires Distinct(db.packages) && IsQueue(db.packages, user, false, q) && IsQueue(db.packages, user, true, reserve)
    ensures forall k :: 0 <= k < n ==> ClaimAll(db, user, n)[k] == Drained(q, reserve, k)
  {
    ClaimsDrain(db, user, n, q, reserve);
    forall k | 0 <= k < n
      ensures DrainAll(q, reserve, n)[k] == Drained(q, reserve, k)
    {
      DrainAllAt(q, reserve, n, k);
    }
  }

  // ---- The quota ----

  predicate Fits(packages: seq<Package>, user: Id, client: Client, limit: int) {
    Unconsumed(packages, User(user), client) == 0 || Unconsumed(packages, User(user), client) <= limit
  }

  lemma {:induction false} SpendNeverAdds(packages: seq<Package>, at: nat, party: Party, client: Client)
    requires at < |packages|
    ensures Unconsumed(Spend(packages, at), party, client) <= Unconsumed(packages, party, client)
  {
    var next := Spend(packages, at);
    if at < |packages| - 1 {
      SpendNeverAdds(Init(packages), at, party, client);
      assert Init(next) == Spend(Init(packages), at);
    } else {
      assert Init(next) == Init(packages);
    }
  }

  lemma {:induction false} AddNeverAddsPackages(db: Db, room: Id, user: Id, devices: seq<Client>, party: Party,
        client: Client)
    ensures var next := AddMember(db, room, user, devices);
            Unconsumed(next.packages, party, client) <= Unconsumed(db.packages, party, client)
  {
    if devices != [] {
      AddNeverAddsPackages(db, room, user, Init(devices), party, client);
      var d := AddMember(db, room, user, Init(devices));
      var at := Choose(d.packages, User(user), Some(Last(devices)));
      if at.Some? {
        SpendNeverAdds(d.packages, at.value, party, client);
      }
    }
  }

  lemma {:induction false} SpendAllSparesUsers(packages: seq<Package>, bot: Id, user: Id, client: Client)
    ensures Unconsumed(SpendAll(packages, bot), User(user), client) == Unconsumed(packages, User(user), client)
  {
    if packages != [] {
      SpendAllSparesUsers(Init(packages), bot, user, client);
      assert Init(SpendAll(packages, bot)) == SpendAll(Init(packages), bot);
    }
  }

  lemma {:induction false} UploadAdds(packages: seq<Package>, user: Id, batch: seq<Upload>, ids: seq<Id>,
        now: int, other: Id, client: Client)
    requires |ids| == |batch|
    ensures Unconsumed(packages + Rows(user, batch, ids, now), User(other), client)
         == Unconsumed(packages, User(other), client) + if other == user then CountNew(batch, client) else 0
  {
    if batch == [] {
      assert packages + [] == packages;
    } else {
      UploadAdds(packages, user, Init(batch), Init(ids), now, other, client);
      var next := packages + Rows(user, batch, ids, now);
      assert Init(next) == packages + Rows(user, Init(batch), Init(ids), now);
    }
  }

  lemma {:induction false} CountNewIsZero(batch: seq<Upload>, client: Client)
    ensures CountNew(batch, client) == 0 <==> forall k :: 0 <= k < |batch| ==> batch[k].client != client
  {
    if batch != [] {
      CountNewIsZero(Init(batch), client);
    }
  }

  lemma {:induction false} OverdrawnDecides(packages: seq<Package>, user: Id, batch: seq<Upload>, limit: int,
        order: seq<Client>)
    ensures var c := Overdrawn(packages, user, batch, limit, order);
            if c.Some? then c.value in order
                && Unconsumed(packages, User(user), c.value) + CountNew(batch, c.value) > limit
            else forall x :: x in order ==> Unconsumed(packages, User(user), x) + CountNew(batch, x) <= limit
  {
    if order != [] {
      OverdrawnDecides(packages, user, batch, limit, order[1..]);
      assert order == [order[0]] + order[1..];
    }
  }

  /**
   A batch is stored exactly when the user exists and, unless it is empty, every client of it stays within
   the limit and the generated keys are new; otherwise nothing is.
   */
  lemma UploadIsAllOrNothing(
    db: Db, user: Id, known: bool, batch: seq<Upload>, ids: seq<Id>, limit: int, order: seq<Client>, now: int)
    requires |ids| == |batch| && Covers(order, batch)
    requires forall c :: c in order ==> CountNew(batch, c) > 0
    ensures var out := UploadPackages(db, user, known, batch, ids, limit, order, now);
            && (out.reply.Ok? <==>
                  && known
                  && (batch != [] ==> AllFresh(db.packages, ids))
                  && forall k :: 0 <= k < |batch| ==>
                       Unconsumed(db.packages, User(user), batch[k].client) + CountNew(batch, batch[k].client) <= limit)
            && (out.reply.Err? ==> out.db == db)
            && (out.reply.Ok? ==> out.db == db.(packages := db.packages + Rows(user, batch, ids, now)))
  {
    OverdrawnDecides(db.packages, user, batch, limit, order);
    var c := Overdrawn(db.packages, user, batch, limit, order);
    if c.Some? {
      CountNewIsZero(batch, c.value);
    }
    if batch == [] {
      assert db.packages + [] == db.packages;
    }
  }

  lemma UploadKeepsQuota(t: Trace, limit: int, op: Op, user: Id, client: Client)
    requires op.DoUpload? && Fits(t.db.packages, user, client, limit)
    ensures Fits(Step(t, limit, op).db.packages, user, client, limit)
  {
    if Possible(t.db, op) {
      OverdrawnDecides(t.db.packages, op.user, op.batch, limit, op.order);
      CountNewIsZero(op.batch, client);
      UploadAdds(t.db.packages, op.user, op.batch, op.ids, op.now, user, client);
    }
  }

  lemma StepKeepsQuota(t: Trace, limit: int, op: Op, user: Id, client: Client)
    requires Fits(t.db.packages, user, client, limit)
    ensures Fits(Step(t, limit, op).db.packages, user, client, limit)
  {
    if Possible(t.db, op) {
      match op
      case DoUpload(_, _, _, _, _, _) => UploadKeepsQuota(t, limit, op, user, client);
      case DoClaim(u, known) =>
        var at := Choose(t.db.packages, User(u), None);
        if at.Some? {
          SpendNeverAdds(t.db.packages, at.value, User(user), client);
        }
      case DoAdd(room, u, devices) => AddNeverAddsPackages(t.db, room, u, devices, User(user), client);
      case DoGrant(room, bot, rows) => SpendAllSparesUsers(t.db.packages, bot, user, client);
      case PlaceForBot(p) => assert Init(t.db.packages + [p]) == t.db.packages;
    }
  }

  /** Under a fixed limit no client of any user ever has more unconsumed packages than the limit. */
  lemma {:induction false} QuotaHolds(limit: int, ops: seq<Op>, user: Id, client: Client)
    ensures Fits(Run(EMPTY, limit, ops).db.packages, user, client, limit)
  {
    if ops != [] {
      QuotaHolds(limit, Init(ops), user, client);
      StepKeepsQuota(Run(EMPTY, limit, Init(ops)), limit, Last(ops), user, client);
    }
  }

  // ---- The reported counts ----

  function UnconsumedOf(packages: seq<Package>, party: Party): nat {
    if packages == [] then 0
    else
      UnconsumedOf(Init(packages), party)
      + if Last(packages).party == party && !Last(packages).consumed then 1 else 0
  }

  /** The answer of the query that counts the unconsumed packages of each client. */
  ghost predicate IsGrouping(packages: seq<Package>, user: Id, rows: seq<(Client, nat)>) {
    && (forall j, k :: 0 <= j < k < |rows| ==> rows[j].0 != rows[k].0)
    && (forall k :: 0 <= k < |rows| ==> rows[k].1 == Unconsumed(packages, User(user), rows[k].0) > 0)
    && forall k :: 0 <= k < |packages| && packages[k].party == User(user) && !packages[k].consumed ==>
         exists j :: 0 <= j < |rows| && rows[j].0 == packages[k].client
  }

  function Sum(packages: seq<Package>, user: Id, clients: seq<Client>): nat {
    if clients == [] then 0 else Sum(packages, user, Init(clients)) + Unconsumed(packages, User(user), Last(clients))
  }

  lemma {:induction false} SumGrowsByOne(packages: seq<Package>, user: Id, clients: seq<Client>)
    requires packages != [] && forall j, k :: 0 <= j < k < |clients| ==> clients[j] != clients[k]
    ensures var p := Last(packages);
            Sum(packages, user, clients) == Sum(Init(packages), user, clients)
              + if p.party == User(user) && !p.consumed && p.client in clients then 1 else 0
  {
    if clients != [] {
      SumGrowsByOne(packages, user, Init(clients));
      assert clients == Init(clients) + [Last(clients)];
    }
  }

  /** Counting client by client misses no package and counts none twice. */
  lemma {:induction false} SumIsTotal(packages: seq<Package>, user: Id, clients: seq<Client>)
    requires forall j, k :: 0 <= j < k < |clients| ==> clients[j] != clients[k]
    requires forall k :: 0 <= k < |packages| && packages[k].party == User(user) && !packages[k].consumed ==>
               packages[k].client in clients
    ensures Sum(packages, user, clients) == UnconsumedOf(packages, User(user))
  {
    if packages == [] {
      NoneToSum(user, clients);
    } else {
      SumIsTotal(Init(packages), user, clients);
      SumGrowsByOne(packages, user, clients);
    }
  }

  lemma {:induction false} NoneToSum(user: Id, clients: seq<Client>)
    ensures Sum([], user, clients) == 0
  {
    if clients != [] {
      NoneToSum(user, Init(clients));
    }
  }

  /** rows is the database's answer. */
  method CountUnconsumed(packages: seq<Package>, user: Id, rows: seq<(Client, nat)>)
    returns (total: nat, byClient: map<Client, nat>)
    requires IsGrouping(packages, user, rows)
    ensures total == UnconsumedOf(packages, User(user))
    ensures forall c :: c in byClient <==> Unconsumed(packages, User(user), c) > 0
    ensures forall c :: c in byClient ==> byClient[c] == Unconsumed(packages, User(user), c)
  {
    total, byClient := 0, map[];
    var clients := [];
    for i := 0 to |rows|
      invariant |clients| == i && forall k :: 0 <= k < i ==> clients[k] == rows[k].0
      invariant total == Sum(packages, user, clients)
      invariant forall c :: c in byClient <==> c in clients
      invariant forall c :: c in byClient ==> byClient[c] == Unconsumed(packages, User(user), c) > 0
    {
      total := total + rows[i].1;
      byClient := byClient[rows[i].0 := rows[i].1];
      assert Init(clients + [rows[i].0]) == clients;
      clients := clients + [rows[i].0];
    }
    forall k | 0 <= k < |packages| && packages[k].party == User(user) && !packages[k].consumed
      ensures packages[k].client in clients
    {
      var j :| 0 <= j < |rows| && rows[j].0 == packages[k].client;
      assert clients[j] == packages[k].client;
    }
    SumIsTotal(packages, user, clients);
    forall c | Unconsumed(packages, User(user), c) > 0
      ensures c in clients
    {
      CountedIsThere(packages, user, c);
    }
  }

  lemma {:induction false} CountedIsThere(packages: seq<Package>, user: Id, client: Client)
    requires Unconsumed(packages, User(user), client) > 0
    ensures exists k ::
              0 <= k < |packages| && packages[k].party == User(user) && !packages[k].consumed
              && packages[k].client == client
  {
    var p := Last(packages);
    if p.party == User(user) && p.client == client && !p.consumed {
      assert packages[|packages| - 1] == p;
    } else {
      CountedIsThere(Init(packages), user, client);
      var k :| 0 <= k < |packages| - 1 && packages[k].party == User(user) && !packages[k].consumed
          && packages[k].client == client;
    }
  }
}
