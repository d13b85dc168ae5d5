/** The key package tables as the server updates them, one transaction per method. */
module KeyPackageStore {
  import opened Prelude
  import opened KeyPackages
  import opened PackageClaims

  /** What UPDATE key_packages SET consumed = 1 does to the rows with these ids. */
  ghost predicate Marked(before: seq<Package>, after: seq<Package>, ids: seq<Id>) {
    && |after| == |before|
    && forall k :: 0 <= k < |before| ==>
         after[k] == if before[k].id in ids then before[k].(consumed := true) else before[k]
  }

  class KeyPackageStore {
    var packages: seq<Package>
    var adds: seq<Add>
    /** The packages that claims have returned. */
    ghost var claims: multiset<Id>

    function State(): Db
      reads this
    {
      Db(packages, adds)
    }

    ghost predicate Valid()
      reads this
    {
      Sound(Trace(State(), claims))
    }

    constructor ()
      ensures Valid() && State() == EMPTY.db && claims == multiset{}
    {
      packages, adds, claims := [], [], multiset{};
    }

    /** UPDATE key_packages SET consumed = 1 WHERE id = ? */
    method MarkConsumed(id: Id)
      modifies this`packages
      ensures Marked(old(packages), packages, [id])
    {
      for i := 0 to |packages|
        invariant |packages| == |old(packages)| && packages[i..] == old(packages)[i..]
        invariant Marked(old(packages)[..i], packages[..i], [id])
      {
        assert packages[i] == packages[i..][0] && old(packages)[i] == old(packages)[i..][0];
        if packages[i].id == id {
          packages := packages[i := packages[i].(consumed := true)];
        }
      }
      assert packages[..|packages|] == packages && old(packages)[..|packages|] == old(packages);
    }

    /** The number of new packages of each client of the batch. */
    method CountPerClient(batch: seq<Upload>) returns (counts: map<Client, nat>)
      ensures forall c :: c in counts <==> CountNew(batch, c) > 0
      ensures forall c :: c in counts ==> counts[c] == CountNew(batch, c)
    {
      counts := map[];
      for i := 0 to |batch|
        invariant forall c :: c in counts <==> CountNew(batch[..i], c) > 0
        invariant forall c :: c in counts ==> counts[c] == CountNew(batch[..i], c)
      {
        assert Init(batch[..i + 1]) == batch[..i];
        var c := batch[i].client;
        counts := counts[c := (if c in counts then counts[c] else 0) + 1];
      }
      assert batch[..|batch|] == batch;
    }

    method CheckQuota(user: Id, batch: seq<Upload>, limit: int, order: seq<Client>, counts: map<Client, nat>)
      returns (over: Option<Client>)
      requires forall c :: c in order ==> c in counts && counts[c] == CountNew(batch, c)
      ensures over == Overdrawn(packages, user, batch, limit, order)
    {
      for i := 0 to |order|
        invariant Overdrawn(packages, user, batch, limit, order) == Overdrawn(packages, user, batch, limit, order[i..])
      {
        var client := order[i];
        assert client in order && order[i..][0] == client && order[i..][1..] == order[i + 1..];
        if Unconsumed(packages, User(user), client) + counts[client] > limit {
          return Some(client);
        }
      }
      return None;
    }

    /** order is the order in which the counts are gone through, ids are the generated keys. */
    method Upload(user: Id, known: bool, batch: seq<Upload>, ids: seq<Id>, limit: int, order: seq<Client>, now: int)
      returns (r: Result<nat, Error>)
      requires Valid() && |ids| == |batch| && Covers(order, batch)
      requires forall c :: c in order ==> CountNew(batch, c) > 0
      modifies this`packages
      ensures Valid() && Outcome(State(), r) == UploadPackages(old(State()), user, known, batch, ids, limit, order, now)
    {
      assert Sound(Step(Trace(State(), claims), limit, DoUpload(user, known, batch, ids, order, now))) by {
        StepKeepsSound(Trace(State(), claims), limit, DoUpload(user, known, batch, ids, order, now));
      }
      if !known {
        return Err(UserNotFound);
      }
      if batch == [] {
        return Ok(0);
      }
      var counts := CountPerClient(batch);
      var over := CheckQuota(user, batch, limit, order, counts);
      if over.Some? {
        OverdrawnDecides(packages, user, batch, limit, order);
        return Err(QuotaExceeded(over.value, Unconsumed(packages, User(user), over.value), counts[over.value], limit));
      }
      var saved := packages;
      var inserted := InsertAll(user, batch, ids, now);
      if !inserted {
        packages := saved;
        return Err(Database);
      }
      return Ok(|batch|);
    }

    /** Inserts row by row until a key is taken. */
    method InsertAll(user: Id, batch: seq<Upload>, ids: seq<Id>, now: int) returns (done: bool)
      requires |ids| == |batch|
      modifies this`packages
      ensures done == AllFresh(old(packages), ids)
      ensures done ==> packages == old(packages) + Rows(user, batch, ids, now)
    {
      for i := 0 to |batch|
        invariant packages == old(packages) + Rows(user, batch[..i], ids[..i], now)
        invariant AllFresh(old(packages), ids[..i])
      {
        assert Init(batch[..i + 1]) == batch[..i] && Init(ids[..i + 1]) == ids[..i];
        RowsHaveIds(user, batch[..i], ids[..i], now);
        if !Fresh(packages, ids[i]) {
          StuckInsert(old(packages), user, batch[..i], ids, i, now);
          return false;
        }
        StillFresh(old(packages), user, batch[..i], ids, i, now);
        var u := batch[i];
        packages := packages + [Package(ids[i], User(user), u.client, u.suite, u.data, u.lastResort, false, now)];
      }
      assert batch[..|batch|] == batch && ids[..|ids|] == ids;
      return true;
    }

    method Claim(user: Id, known: bool) returns (r: Result<Package, Error>)
      requires Valid()
      modifies this`packages, this`claims
      ensures Valid() && Outcome(State(), r) == KeyPackages.Claim(old(State()), user, known)
      ensures claims == if r.Ok? then old(claims) + multiset{r.value.id} else old(claims)
    {
      ClaimKeepsSound(Trace(State(), claims), 0, user, known);
      if !known {
        return Err(UserNotFound);
      }
      var at := Choose(packages, User(user), None);
      if at.None? {
        return Err(NoPackagesAvailable);
      }
      var p := packages[at.value];
      if !p.lastResort {
        MarkConsumed(p.id);
        MarkedIsSpent(old(packages), packages, at.value);
      }
      claims := claims + multiset{p.id};
      return Ok(p);
    }

    /** The package part of adding a member to a room. */
    method AddDevices(room: Id, user: Id, devices: seq<Client>)
      requires Valid()
      modifies this`packages, this`adds
      ensures Valid() && State() == AddMember(old(State()), room, user, devices)
    {
      assert Sound(Trace(AddMember(State(), room, user, devices), claims)) by {
        AddKeepsSound(Trace(State(), claims), room, user, devices);
      }
      var selections := [];
      for i := 0 to |devices|
        invariant unchanged(`adds) && unchanged(`claims) && Distinct(packages)
        invariant Db(packages, QueueAll(adds, room, User(user), selections))
                  == AddMember(old(State()), room, user, devices[..i])
      {
        assert Init(devices[..i + 1]) == devices[..i];
        var at := Choose(packages, User(user), Some(devices[i]));
        if at.Some? {
          var p := packages[at.value];
          if !p.lastResort {
            ghost var before := packages;
            MarkConsumed(p.id);
            MarkedIsSpent(before, packages, at.value);
          }
          assert Init(selections + [(devices[i], p.id)]) == selections;
          selections := selections + [(devices[i], p.id)];
        }
      }
      assert devices[..|devices|] == devices;
      QueueBatch(room, User(user), selections);
    }

    /** One pending add for each selected package. */
    method QueueBatch(room: Id, target: Party, selections: seq<(Client, Id)>)
      modifies this`adds
      ensures adds == QueueAll(old(adds), room, target, selections)
    {
      for i := 0 to |selections|
        invariant adds == QueueAll(old(adds), room, target, selections[..i])
      {
        assert Init(selections[..i + 1]) == selections[..i];
        adds := adds + [Add(room, target, selections[i].0, selections[i].1)];
      }
      assert selections[..|selections|] == selections;
    }

    /** The package part of granting a bot to a room; rows is the database's answer. */
    method SelectForBot(room: Id, bot: Id, rows: seq<(Client, Id)>)
      requires Valid() && IsSelection(packages, bot, rows)
      modifies this`packages, this`adds
      ensures Valid() && State() == GrantBot(old(State()), room, bot, rows)
    {
      assert Sound(Trace(GrantBot(State(), room, bot, rows), claims)) by {
        GrantKeepsSound(Trace(State(), claims), room, bot, rows);
      }
      ghost var marked := [];
      for i := 0 to |rows|
        invariant unchanged(`adds) && unchanged(`claims)
        invariant |marked| == i && forall k :: 0 <= k < i ==> marked[k] == rows[k].1
        invariant Marked(old(packages), packages, marked)
      {
        MarkConsumed(rows[i].1);
        marked := marked + [rows[i].1];
      }
      SelectionIsSpent(old(packages), packages, bot, rows, marked);
      QueueBatch(room, Bot(bot), rows);
    }
  }

  lemma MarkedIsSpent(before: seq<Package>, after: seq<Package>, at: nat)
    requires Distinct(before) && at < |before| && !before[at].lastResort && Marked(before, after, [before[at].id])
    ensures after == Spend(before, at) && Distinct(after)
  {
    forall k | 0 <= k < |before|
      ensures after[k] == Spend(before, at)[k] && after[k].id == before[k].id
    {
      assert k == at || before[k].id != before[at].id;
    }
  }

  lemma SelectionIsSpent(before: seq<Package>, after: seq<Package>, bot: Id, rows: seq<(Client, Id)>, marked: seq<Id>)
    requires Distinct(before) && IsSelection(before, bot, rows) && Marked(before, after, marked)
    requires |marked| == |rows| && forall k :: 0 <= k < |rows| ==> marked[k] == rows[k].1
    ensures after == SpendAll(before, bot)
  {
    SpendAllIs(before, bot);
    forall k | 0 <= k < |before|
      ensures after[k] == SpendAll(before, bot)[k]
    {
      SelectedIff(before, bot, rows, k);
      if before[k].id in marked {
        var j :| 0 <= j < |marked| && marked[j] == before[k].id;
        assert rows[j].1 == before[k].id;
      }
      if j :| 0 <= j < |rows| && rows[j].1 == before[k].id {
        assert marked[j] == before[k].id;
      }
    }
  }

  lemma {:induction false} RowsHaveIds(user: Id, batch: seq<Upload>, ids: seq<Id>, now: int)
    requires |ids| == |batch|
    ensures |Rows(user, batch, ids, now)| == |ids|
    ensures forall k :: 0 <= k < |ids| ==> Rows(user, batch, ids, now)[k].id == ids[k]
  {
    if batch != [] {
      RowsHaveIds(user, Init(batch), Init(ids), now);
    }
  }

  lemma StuckInsert(packages: seq<Package>, user: Id, part: seq<Upload>, ids: seq<Id>, i: nat, now: int)
    requires |part| == i < |ids| && !Fresh(packages + Rows(user, part, ids[..i], now), ids[i])
    ensures !AllFresh(packages, ids)
  {
    RowsHaveIds(user, part, ids[..i], now);
    var rows := Rows(user, part, ids[..i], now);
    var k :| 0 <= k < |packages + rows| && (packages + rows)[k].id == ids[i];
    if k < |packages| {
      assert packages[k].id == ids[i];
    } else {
      assert rows[k - |packages|].id == ids[..i][k - |packages|] == ids[k - |packages|];
    }
  }

  lemma StillFresh(packages: seq<Package>, user: Id, part: seq<Upload>, ids: seq<Id>, i: nat, now: int)
    requires |part| == i < |ids| && AllFresh(packages, ids[..i])
    requires Fresh(packages + Rows(user, part, ids[..i], now), ids[i])
    ensures AllFresh(packages, ids[..i + 1])
  {
    RowsHaveIds(user, part, ids[..i], now);
    var rows := Rows(user, part, ids[..i], now);
    forall k | 0 <= k < |packages|
      ensures packages[k].id != ids[i]
    {
      assert (packages + rows)[k] == packages[k];
    }
    forall j | 0 <= j < i
      ensures ids[j] != ids[i]
    {
      assert (packages + rows)[|packages| + j] == rows[j] && rows[j].id == ids[..i][j];
    }
    var next := ids[..i + 1];
    assert next == ids[..i] + [ids[i]];
    forall k | 0 <= k < |next|
      ensures Fresh(packages, next[k])
    {
      assert k == i || next[k] == ids[..i][k];
    }
    forall j, k | 0 <= j < k < |next|
      ensures next[j] != next[k]
    {
      assert k == i || ids[..i][j] != ids[..i][k];
    }
  }
}
