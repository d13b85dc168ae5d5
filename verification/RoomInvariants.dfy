/**
 What every run of room operations keeps: one owner, membership accounted for to the last row,
 invites within their limits.
 */
module RoomInvariants {
  import opened Prelude
  import opened Rooms

  // ---- Ownership ----

  /** rooms.owner_id is a member with the owner role, and nobody else has that role. */
  ghost predicate Governed(r: Room) {
    && r.owner in r.members
    && forall u :: u in r.members ==> (r.members[u].role == Owner <==> u == r.owner)
  }

  ghost predicate DistinctInvites(invites: seq<Invite>) {
    forall j, k :: 0 <= j < k < |invites| ==> invites[j].id != invites[k].id && invites[j].code != invites[k].code
  }

  /** Invites belong to rooms and stay within their limits. */
  ghost predicate InvitesFit(invites: seq<Invite>, rooms: set<RoomId>) {
    && DistinctInvites(invites)
    && forall i :: i in invites ==> i.room in rooms && (i.maxUses > 0 ==> i.uses <= i.maxUses)
  }

  ghost predicate AllGoverned(db: Db) {
    forall room :: room in db.rooms ==> Governed(db.rooms[room])
  }

  ghost predicate Sane(db: Db) {
    AllGoverned(db) && InvitesFit(db.invites, db.rooms.Keys)
  }

  /** Among any members but the leaver one may come first: the owner's room never lacks a successor. */
  lemma {:induction false} SomebodyIsFirst(members: map<UserId, Membership>, some: set<UserId>) returns (first: UserId)
    requires some != {} && some <= members.Keys
    ensures first in some && forall u :: u in some ==> Ahead(members[first], members[u])
    decreases some
  {
    first :| first in some;
    var rest := some - {first};
    assert some == rest + {first};
    if rest != {} {
      var best := SomebodyIsFirst(members, rest);
      if !Ahead(members[first], members[best]) {
        first := best;
      }
    }
  }

  lemma {:induction false} OthersStayDistinct(invites: seq<Invite>, room: RoomId)
    requires DistinctInvites(invites)
    ensures DistinctInvites(InvitesOfOthers(invites, room))
  {
    if invites != [] {
      OthersStayDistinct(Init(invites), room);
      forall i | i in InvitesOfOthers(Init(invites), room)
        ensures i.id != Last(invites).id && i.code != Last(invites).code
      {
        var k :| 0 <= k < |invites| - 1 && invites[k] == i;
      }
    }
  }

  lemma {:induction false} FreeCodeIsFree(invites: seq<Invite>, id: string, codes: seq<string>, attempts: nat)
    ensures var c := FirstFree(invites, id, codes, attempts);
            c.Some? ==> c.value in codes && InviteById(invites, id).None? && InviteByCode(invites, c.value).None?
  {
    if attempts > 0 && codes != [] {
      FreeCodeIsFree(invites, id, codes[1..], attempts - 1);
    }
  }

  lemma UpdatedInvitesFit(a: seq<Invite>, b: seq<Invite>, rooms: set<RoomId>)
    requires InvitesFit(a, rooms) && |b| == |a|
    requires forall k :: 0 <= k < |a| ==>
               b[k].id == a[k].id && b[k].code == a[k].code && b[k].room == a[k].room && b[k].maxUses == a[k].maxUses
    requires forall k :: 0 <= k < |a| ==> b[k].uses == a[k].uses || b[k].maxUses <= 0 || b[k].uses <= b[k].maxUses
    ensures InvitesFit(b, rooms)
  {
    assert forall k :: 0 <= k < |a| ==> a[k] in a;
  }

  lemma AppendedInviteFits(a: seq<Invite>, i: Invite, rooms: set<RoomId>)
    requires InvitesFit(a, rooms) && i.room in rooms && i.uses == 0
    requires InviteById(a, i.id).None? && InviteByCode(a, i.code).None?
    ensures InvitesFit(a + [i], rooms)
  {
  }

  lemma InvitingKeepsInvites(db: Db, cap: int, op: Op)
    requires InvitesFit(db.invites, db.rooms.Keys) && op.DoInvite?
    ensures InvitesFit(Step(db, cap, op).db.invites, db.rooms.Keys)
  {
    var b := Step(db, cap, op).db.invites;
    FreeCodeIsFree(db.invites, op.id, op.codes, 5);
    if b != db.invites {
      AppendedInviteFits(db.invites, Last(b), db.rooms.Keys);
    }
  }

  lemma InviteUseKeepsInvites(db: Db, cap: int, op: Op)
    requires InvitesFit(db.invites, db.rooms.Keys) && (op.DoRevoke? || op.DoRedeem?)
    ensures InvitesFit(Step(db, cap, op).db.invites, db.rooms.Keys)
  {
    UpdatedInvitesFit(db.invites, Step(db, cap, op).db.invites, db.rooms.Keys);
  }

  lemma RoomStepKeepsInvites(db: Db, cap: int, op: Op)
    requires InvitesFit(db.invites, db.rooms.Keys) && !(op.DoInvite? || op.DoRevoke? || op.DoRedeem?)
    ensures var next := Step(db, cap, op).db; InvitesFit(next.invites, next.rooms.Keys)
  {
    if op.DoLeave? || op.DoDelete? {
      OthersStayDistinct(db.invites, op.room);
      assert DropRoom(db, op.room).rooms.Keys == db.rooms.Keys - {op.room};
      assert InvitesFit(DropRoom(db, op.room).invites, DropRoom(db, op.room).rooms.Keys);
    }
  }

  lemma MemberStepKeepsGoverned(db: Db, cap: int, op: Op)
    requires AllGoverned(db) && (op.DoCreate? || op.DoAdd? || op.DoKick? || op.DoRedeem? || op.DoDelete?)
    ensures AllGoverned(Step(db, cap, op).db)
  {
  }

  lemma LeaveKeepsGoverned(db: Db, cap: int, op: Op)
    requires AllGoverned(db) && op.DoLeave?
    ensures AllGoverned(Step(db, cap, op).db)
  {
    if op.room in db.rooms {
      assert Governed(db.rooms[op.room]);
    }
  }

  lemma RoleStepKeepsGoverned(db: Db, cap: int, op: Op)
    requires AllGoverned(db) && (op.DoPromote? || op.DoDemote? || op.DoTransfer? || op.DoInvite? || op.DoRevoke?)
    ensures AllGoverned(Step(db, cap, op).db)
  {
  }

  lemma StepKeepsSane(db: Db, cap: int, op: Op)
    requires Sane(db)
    ensures Sane(Step(db, cap, op).db)
  {
    match op
    case DoLeave(_, _, _) => LeaveKeepsGoverned(db, cap, op); RoomStepKeepsInvites(db, cap, op);
    case DoInvite(_, _, _, _, _, _, _, _) => RoleStepKeepsGoverned(db, cap, op); InvitingKeepsInvites(db, cap, op);
    case DoRevoke(_, _, _) => RoleStepKeepsGoverned(db, cap, op); InviteUseKeepsInvites(db, cap, op);
    case DoRedeem(_, _, _) => MemberStepKeepsGoverned(db, cap, op); InviteUseKeepsInvites(db, cap, op);
    case DoPromote(_, _, _, _) => RoleStepKeepsGoverned(db, cap, op); RoomStepKeepsInvites(db, cap, op);
    case DoDemote(_, _, _, _) => RoleStepKeepsGoverned(db, cap, op); RoomStepKeepsInvites(db, cap, op);
    case DoTransfer(_, _, _) => RoleStepKeepsGoverned(db, cap, op); RoomStepKeepsInvites(db, cap, op);
    case _ => MemberStepKeepsGoverned(db, cap, op); RoomStepKeepsInvites(db, cap, op);
  }

  /** In every reachable state each room has exactly one owner-role member, and it is rooms.owner_id. */
  lemma {:induction false} RunIsSane(cap: int, ops: seq<Op>)
    ensures Sane(Run(EMPTY, cap, ops))
  {
    if ops != [] {
      RunIsSane(cap, Init(ops));
      StepKeepsSane(Run(EMPTY, cap, Init(ops)), cap, Last(ops));
    }
  }

  /** The successor query always finds a row when the owner leaves others behind. */
  lemma OwnerNeverLacksHeir(r: Room) returns (heir: UserId)
    requires Governed(r) && |r.members| > 1
    ensures MaySucceed(r.members, r.owner, heir)
  {
    var others := r.members.Keys - {r.owner};
    assert |others| == |r.members.Keys| - 1;
    heir := SomebodyIsFirst(r.members, others);
  }

  /**
   An owner who leaves others behind is succeeded by an earliest-joined moderator if there is one, else by
   an earliest-joined member; everybody else stays as they were.
   */
  lemma LeaveHandsOver(db: Db, room: RoomId, heir: UserId)
    requires Sane(db) && room in db.rooms && |db.rooms[room].members| > 1
    requires MaySucceed(db.rooms[room].members, db.rooms[room].owner, heir)
    ensures var r, out := db.rooms[room], LeaveRoom(db, room, db.rooms[room].owner, heir);
            && out.reply == Ok(Transferred(heir))
            && out.db == db.(rooms := db.rooms[room := out.db.rooms[room]])
            && out.db.rooms[room].owner == heir
            && out.db.rooms[room].members == (r.members - {r.owner})[heir := r.members[heir].(role := Owner)]
    ensures var ms, out := db.rooms[room].members, db.rooms[room].owner;
            if exists m :: m in ms && ms[m].role == Moderator
            then ms[heir].role == Moderator
                 && forall m :: m in ms && ms[m].role == Moderator ==> ms[heir].joinedAt <= ms[m].joinedAt
            else ms[heir].role == Member
                 && forall m :: m in ms && ms[m].role == Member ==> ms[heir].joinedAt <= ms[m].joinedAt
  {
    assert Governed(db.rooms[room]);
  }

  /** A room disappears exactly when its only member leaves or its owner deletes it. */
  lemma RoomEndsWithItsLastMember(db: Db, cap: int, op: Op, room: RoomId)
    requires room in db.rooms && Governed(db.rooms[room])
    ensures room !in Step(db, cap, op).db.rooms <==>
              || (op.DoLeave? && op.room == room && db.rooms[room].members.Keys == {op.user})
              || (op.DoDelete? && op.room == room && op.user == db.rooms[room].owner)
  {
    match op
    case DoLeave(_, user, _) =>
      var keys := db.rooms[room].members.Keys;
      if user in keys {
        assert keys == (keys - {user}) + {user};
        assert |keys - {user}| == 0 <==> keys == {user};
      }
    case DoDelete(_, _) =>
    case _ => OtherStepsKeepRooms(db, cap, op);
  }

  lemma OtherStepsKeepRooms(db: Db, cap: int, op: Op)
    requires !op.DoLeave? && !op.DoDelete?
    ensures db.rooms.Keys <= Step(db, cap, op).db.rooms.Keys
  {
  }

  // ---- Conservation ----

  /** What happened in a room since it was created. */
  datatype Ledger = Ledger(adds: nat, leaves: nat, kicks: nat)

  datatype Books = Books(db: Db, ledgers: map<RoomId, Ledger>)

  /** Books one successful transaction. */
  function Book(ledgers: map<RoomId, Ledger>, op: Op, reply: Reply): map<RoomId, Ledger> {
    match op
    case DoCreate(room, _, _, _) => ledgers[room := Ledger(0, 0, 0)]
    case DoAdd(room, _, _, _, _, _, _) =>
      if room in ledgers then ledgers[room := ledgers[room].(adds := ledgers[room].adds + 1)] else ledgers
    case DoLeave(room, _, _) =>
      if room in ledgers then ledgers[room := ledgers[room].(leaves := ledgers[room].leaves + 1)] else ledgers
    case DoKick(room, _, _, _) =>
      if room in ledgers then ledgers[room := ledgers[room].(kicks := ledgers[room].kicks + 1)] else ledgers
    case _ => ledgers
  }

  function Keep(books: Books, cap: int, op: Op): Books {
    var out := Step(books.db, cap, op);
    Books(out.db, if out.reply.Ok? then Book(books.ledgers, op, out.reply.value) else books.ledgers)
  }

  function KeepAll(books: Books, cap: int, ops: seq<Op>): Books {
    if ops == [] then books else Keep(KeepAll(books, cap, Init(ops)), cap, Last(ops))
  }

  /** The sum of current_uses over the invites of a room. */
  function Uses(invites: seq<Invite>, room: RoomId): nat {
    if invites == [] then 0
    else Uses(Init(invites), room) + if Last(invites).room == room then Last(invites).uses else 0
  }

  /** The number of removes queued for a room. */
  function Removes(removes: seq<(RoomId, UserId)>, room: RoomId): nat {
    if removes == [] then 0 else Removes(Init(removes), room) + if Last(removes).0 == room then 1 else 0
  }

  ghost predicate Balanced(books: Books, room: RoomId) {
    room in books.db.rooms ==>
      && room in books.ledgers
      && var l := books.ledgers[room];
         && |books.db.rooms[room].members| + l.leaves + l.kicks == 1 + l.adds + Uses(books.db.invites, room)
         && l.kicks == Removes(books.db.removes, room)
  }

  lemma {:induction false} NoInvitesNoUses(invites: seq<Invite>, room: RoomId)
    requires forall i :: i in invites ==> i.room != room
    ensures Uses(invites, room) == 0
  {
    if invites != [] {
      assert Last(invites) in invites;
      NoInvitesNoUses(Init(invites), room);
    }
  }

  lemma UsesSnoc(invites: seq<Invite>, i: Invite, room: RoomId)
    ensures Uses(invites + [i], room) == Uses(invites, room) + if i.room == room then i.uses else 0
  {
    assert Init(invites + [i]) == invites;
  }

  lemma {:induction false} OthersKeepUses(invites: seq<Invite>, dropped: RoomId, room: RoomId)
    requires room != dropped
    ensures Uses(InvitesOfOthers(invites, dropped), room) == Uses(invites, room)
  {
    if invites != [] {
      OthersKeepUses(Init(invites), dropped, room);
      UsesSnoc(InvitesOfOthers(Init(invites), dropped), Last(invites), room);
    }
  }

  lemma {:induction false} OthersKeepRemoves(removes: seq<(RoomId, UserId)>, dropped: RoomId, room: RoomId)
    requires room != dropped
    ensures Removes(RemovesOfOthers(removes, dropped), room) == Removes(removes, room)
  {
    if removes != [] {
      OthersKeepRemoves(Init(removes), dropped, room);
      var rest := RemovesOfOthers(Init(removes), dropped);
      assert Init(rest + [Last(removes)]) == rest;
    }
  }

  lemma {:induction false} NoRemoves(removes: seq<(RoomId, UserId)>, room: RoomId)
    requires forall p :: p in removes ==> p.0 != room
    ensures Removes(removes, room) == 0
  {
    if removes != [] {
      assert Last(removes) in removes;
      NoRemoves(Init(removes), room);
    }
  }

  /** Changing one invite changes the sum by the difference. */
  lemma {:induction false} UsesAfterUpdate(invites: seq<Invite>, k: nat, i: Invite, room: RoomId)
    requires k < |invites| && i.room == invites[k].room
    ensures Uses(invites[k := i], room) ==
            Uses(invites, room) + if i.room == room then i.uses - invites[k].uses else 0
  {
    var after := invites[k := i];
    if k < |invites| - 1 {
      assert Init(after) == Init(invites)[k := i];
      UsesAfterUpdate(Init(invites), k, i, room);
    } else {
      assert Init(after) == Init(invites);
    }
  }

  lemma MembersPlusOne(members: map<UserId, Membership>, u: UserId, m: Membership)
    ensures |members[u := m]| == |members| + if u in members then 0 else 1
  {
    assert members[u := m].Keys == members.Keys + {u};
    assert |members[u := m]| == |members[u := m].Keys| && |members| == |members.Keys|;
    if u in members {
      assert members.Keys + {u} == members.Keys;
    }
  }

  lemma MembersMinusOne(members: map<UserId, Membership>, u: UserId)
    requires u in members
    ensures |members - {u}| == |members| - 1
  {
    assert (members - {u}).Keys == members.Keys - {u};
    assert |members - {u}| == |(members - {u}).Keys| && |members| == |members.Keys|;
  }

  /** Queued removes name existing rooms only. */
  ghost predicate RemovesFit(db: Db) {
    forall p :: p in db.removes ==> p.0 in db.rooms
  }

  ghost predicate InOrder(books: Books) {
    Sane(books.db) && RemovesFit(books.db) && forall room :: Balanced(books, room)
  }

  lemma CreateKeepsBalance(books: Books, cap: int, op: Op, room: RoomId)
    requires InOrder(books) && op.DoCreate?
    ensures Balanced(Keep(books, cap, op), room)
  {
    assert Balanced(books, room);
    if room == op.room && room !in books.db.rooms {
      NoInvitesNoUses(books.db.invites, room);
      NoRemoves(books.db.removes, room);
    }
  }

  lemma DropKeepsBalance(books: Books, dropped: RoomId, room: RoomId)
    requires Balanced(books, room)
    ensures Balanced(books.(db := DropRoom(books.db, dropped)), room)
  {
    if room != dropped {
      OthersKeepUses(books.db.invites, dropped, room);
      OthersKeepRemoves(books.db.removes, dropped, room);
    }
  }

  lemma LeaveKeepsBalance(books: Books, cap: int, op: Op, room: RoomId)
    requires Balanced(books, room) && op.DoLeave?
    ensures Balanced(Keep(books, cap, op), room)
  {
    DropKeepsBalance(books, op.room, room);
    if room == op.room && IsIn(books.db, room, op.user) {
      var ms := books.db.rooms[room].members;
      MembersMinusOne(ms, op.user);
      if op.heir in ms {
        var promoted := ms[op.heir := ms[op.heir].(role := Owner)];
        MembersPlusOne(ms, op.heir, ms[op.heir].(role := Owner));
        MembersMinusOne(promoted, op.user);
      }
    }
  }

  lemma AddKeepsBalance(books: Books, cap: int, op: Op, room: RoomId)
    requires Balanced(books, room) && op.DoAdd?
    ensures Balanced(Keep(books, cap, op), room)
  {
    if op.room in books.db.rooms {
      MembersPlusOne(books.db.rooms[op.room].members, op.target, Membership(Member, op.now));
    }
  }

  lemma KickKeepsBalance(books: Books, cap: int, op: Op, room: RoomId)
    requires Balanced(books, room) && op.DoKick?
    ensures Balanced(Keep(books, cap, op), room)
  {
    var db, next := books.db, Keep(books, cap, op).db;
    if IsIn(db, op.room, op.target) {
      MembersMinusOne(db.rooms[op.room].members, op.target);
      assert next.removes != db.removes ==> Init(next.removes) == db.removes;
    }
  }

  lemma RoleKeepsBalance(books: Books, cap: int, op: Op, room: RoomId)
    requires Balanced(books, room) && (op.DoPromote? || op.DoDemote? || op.DoTransfer?)
    ensures Balanced(Keep(books, cap, op), room)
  {
    var db, next := books.db, Keep(books, cap, op).db;
    if op.room in db.rooms {
      assert next.rooms[op.room].members.Keys == db.rooms[op.room].members.Keys;
      assert |next.rooms[op.room].members| == |next.rooms[op.room].members.Keys|;
      assert |db.rooms[op.room].members| == |db.rooms[op.room].members.Keys|;
    }
  }

  lemma InviteKeepsBalance(books: Books, cap: int, op: Op, room: RoomId)
    requires Balanced(books, room) && (op.DoInvite? || op.DoRevoke?)
    ensures Balanced(Keep(books, cap, op), room)
  {
    var db, next := books.db, Keep(books, cap, op).db;
    if op.DoInvite? {
      assert next.invites != db.invites ==> Init(next.invites) == db.invites;
    } else {
      var at := InviteById(db.invites, op.id);
      if at.Some? {
        UsesAfterUpdate(db.invites, at.value, db.invites[at.value].(revoked := true), room);
      }
    }
  }

  lemma RedeemKeepsBalance(books: Books, cap: int, op: Op, room: RoomId)
    requires Balanced(books, room) && op.DoRedeem?
    ensures Balanced(Keep(books, cap, op), room)
  {
    var db := books.db;
    var at := InviteByCode(db.invites, op.code);
    if at.Some? {
      var i := db.invites[at.value];
      UsesAfterUpdate(db.invites, at.value, i.(uses := i.uses + 1), room);
      if i.room in db.rooms {
        MembersPlusOne(db.rooms[i.room].members, op.user, Membership(Member, op.now));
      }
    }
  }

  lemma StepKeepsRemovesFit(db: Db, cap: int, op: Op)
    requires RemovesFit(db)
    ensures RemovesFit(Step(db, cap, op).db)
  {
  }

  lemma KeepKeepsOrder(books: Books, cap: int, op: Op)
    requires InOrder(books)
    ensures InOrder(Keep(books, cap, op))
  {
    StepKeepsSane(books.db, cap, op);
    StepKeepsRemovesFit(books.db, cap, op);
    forall room
      ensures Balanced(Keep(books, cap, op), room)
    {
      assert Balanced(books, room);
      match op
      case DoCreate(_, _, _, _) => CreateKeepsBalance(books, cap, op, room);
      case DoLeave(_, _, _) => LeaveKeepsBalance(books, cap, op, room);
      case DoDelete(_, _) => DropKeepsBalance(books, op.room, room);
      case DoAdd(_, _, _, _, _, _, _) => AddKeepsBalance(books, cap, op, room);
      case DoKick(_, _, _, _) => KickKeepsBalance(books, cap, op, room);
      case DoInvite(_, _, _, _, _, _, _, _) => InviteKeepsBalance(books, cap, op, room);
      case DoRevoke(_, _, _) => InviteKeepsBalance(books, cap, op, room);
      case DoRedeem(_, _, _) => RedeemKeepsBalance(books, cap, op, room);
      case _ => RoleKeepsBalance(books, cap, op, room);
    }
  }

  lemma {:induction false} RunKeepsOrder(cap: int, ops: seq<Op>)
    ensures var books := KeepAll(Books(EMPTY, map[]), cap, ops);
            InOrder(books) && books.db == Run(EMPTY, cap, ops)
  {
    if ops != [] {
      RunKeepsOrder(cap, Init(ops));
      KeepKeepsOrder(KeepAll(Books(EMPTY, map[]), cap, Init(ops)), cap, Last(ops));
    }
  }

  /**
   Membership is conserved over every run: the members of a room are its creator, the users added and the
   uses of its invites, less those who left and were kicked; and each kick queued one remove.
   */
  lemma MembershipIsConserved(cap: int, ops: seq<Op>, room: RoomId)
    requires room in Run(EMPTY, cap, ops).rooms
    ensures var books := KeepAll(Books(EMPTY, map[]), cap, ops);
            && books.db == Run(EMPTY, cap, ops) && room in books.ledgers
            && var l := books.ledgers[room];
               && |books.db.rooms[room].members| == 1 + l.adds + Uses(books.db.invites, room) - l.leaves - l.kicks
               && l.kicks == Removes(books.db.removes, room)
  {
    RunKeepsOrder(cap, ops);
    assert Balanced(KeepAll(Books(EMPTY, map[]), cap, ops), room);
  }

  // ---- Limits ----

  /** Room sizes only grow below the limit: add and redeem both count first. */
  lemma StepKeepsSize(db: Db, cap: int, op: Op, room: RoomId)
    requires room in Step(db, cap, op).db.rooms
    ensures var next := Step(db, cap, op).db.rooms[room].members;
            || |next| <= 1
            || (room in db.rooms && (|next| <= |db.rooms[room].members| || |next| <= cap))
  {
    var next := Step(db, cap, op).db.rooms[room].members;
    if room in db.rooms && next != db.rooms[room].members {
      SizeAfterStep(db, cap, op, room);
    }
  }

  lemma SizeAfterStep(db: Db, cap: int, op: Op, room: RoomId)
    requires room in db.rooms && room in Step(db, cap, op).db.rooms
    ensures var ms, next := db.rooms[room].members, Step(db, cap, op).db.rooms[room].members;
            |next| <= |ms| || |next| <= cap
  {
    var ms, next := db.rooms[room].members, Step(db, cap, op).db.rooms[room].members;
    assert |next| == |next.Keys| && |ms| == |ms.Keys|;
    match op
    case DoAdd(_, _, target, _, _, _, now) => MembersPlusOne(ms, target, Membership(Member, now));
    case DoRedeem(_, user, now) => MembersPlusOne(ms, user, Membership(Member, now));
    case DoLeave(r, user, heir) =>
      assert next.Keys <= ms.Keys;
      SmallerSet(next.Keys, ms.Keys);
    case _ =>
      assert next.Keys <= ms.Keys;
      SmallerSet(next.Keys, ms.Keys);
  }

  lemma SmallerSet<T>(a: set<T>, b: set<T>)
    requires a <= b
    ensures |a| <= |b|
  {
    assert b == a + (b - a);
  }

  /** With a fixed limit no room ever holds more members than it allows, its creator aside. */
  lemma {:induction false} RoomsStayWithinSize(cap: int, ops: seq<Op>, room: RoomId)
    requires room in Run(EMPTY, cap, ops).rooms
    ensures var n := |Run(EMPTY, cap, ops).rooms[room].members|; n <= cap || n <= 1
  {
    if ops != [] {
      var before := Run(EMPTY, cap, Init(ops));
      StepKeepsSize(before, cap, Last(ops), room);
      if room in before.rooms {
        RoomsStayWithinSize(cap, Init(ops), room);
      }
    }
  }

  /** The room exists after every prefix of the run. */
  ghost predicate Lasts(db: Db, cap: int, ops: seq<Op>, room: RoomId) {
    room in db.rooms && forall n :: 0 <= n <= |ops| ==> room in Run(db, cap, ops[..n]).rooms
  }

  lemma FindSnoc(invites: seq<Invite>, i: Invite, id: string)
    ensures InviteById(invites + [i], id) == if i.id == id then Some(|invites|) else InviteById(invites, id)
  {
    assert Init(invites + [i]) == invites;
  }

  lemma {:induction false} InviteSurvivesDrop(invites: seq<Invite>, dropped: RoomId, id: string)
    requires var at := InviteById(invites, id); at.Some? && invites[at.value].room != dropped
    ensures var at, kept := InviteById(invites, id), InvitesOfOthers(invites, dropped);
            InviteById(kept, id).Some? && kept[InviteById(kept, id).value] == invites[at.value]
  {
    var i := Last(invites);
    FindSnoc(InvitesOfOthers(Init(invites), dropped), i, id);
    if i.id != id {
      InviteSurvivesDrop(Init(invites), dropped, id);
    }
  }

  lemma {:induction false} InviteAfterUpdate(invites: seq<Invite>, k: nat, i: Invite, id: string)
    requires k < |invites| && i.id == invites[k].id
    ensures InviteById(invites[k := i], id) == InviteById(invites, id)
  {
    var after := invites[k := i];
    if k < |invites| - 1 {
      assert Init(after) == Init(invites)[k := i];
      InviteAfterUpdate(Init(invites), k, i, id);
    } else {
      assert Init(after) == Init(invites);
    }
  }

  /** The invite with this id is still there with no lower count; if it was revoked it is unchanged. */
  ghost predicate Frozen(before: seq<Invite>, after: seq<Invite>, id: string) {
    var a, b := InviteById(before, id), InviteById(after, id);
    && a.Some? && b.Some?
    && (before[a.value].revoked ==> after[b.value] == before[a.value])
    && after[b.value].uses >= before[a.value].uses
  }

  lemma UpdateFreezesRevoked(db: Db, cap: int, op: Op, id: string)
    requires (op.DoRevoke? || op.DoRedeem?) && InviteById(db.invites, id).Some?
    ensures Frozen(db.invites, Step(db, cap, op).db.invites, id)
  {
    var next := Step(db, cap, op).db.invites;
    if next != db.invites {
      var k := if op.DoRevoke? then InviteById(db.invites, op.id).value else InviteByCode(db.invites, op.code).value;
      InviteAfterUpdate(db.invites, k, next[k], id);
    }
  }

  lemma InvitingFreezesRevoked(db: Db, cap: int, op: Op, id: string)
    requires op.DoInvite? && InviteById(db.invites, id).Some?
    ensures Frozen(db.invites, Step(db, cap, op).db.invites, id)
  {
    var next := Step(db, cap, op).db.invites;
    if next != db.invites {
      FreeCodeIsFree(db.invites, op.id, op.codes, 5);
      FindSnoc(db.invites, Last(next), id);
    }
  }

  lemma DroppingFreezesRevoked(db: Db, cap: int, op: Op, id: string)
    requires op.DoLeave? || op.DoDelete?
    requires var at := InviteById(db.invites, id);
             at.Some? && db.invites[at.value].room in Step(db, cap, op).db.rooms
    ensures Frozen(db.invites, Step(db, cap, op).db.invites, id)
  {
    var next := Step(db, cap, op).db;
    assert next.invites == db.invites || next == DropRoom(db, op.room);
    if next.invites != db.invites {
      InviteSurvivesDrop(db.invites, op.room, id);
    }
  }

  /** One step leaves a revoked invite of a lasting room as it is, and never lowers a count. */
  lemma StepFreezesRevoked(db: Db, cap: int, op: Op, id: string)
    requires var at := InviteById(db.invites, id);
             at.Some? && db.invites[at.value].room in Step(db, cap, op).db.rooms
    ensures Frozen(db.invites, Step(db, cap, op).db.invites, id)
  {
    if op.DoRevoke? || op.DoRedeem? {
      UpdateFreezesRevoked(db, cap, op, id);
    } else if op.DoInvite? {
      InvitingFreezesRevoked(db, cap, op, id);
    } else if op.DoLeave? || op.DoDelete? {
      DroppingFreezesRevoked(db, cap, op, id);
    }
  }

  /** While its room lasts, a revoked invite never changes again. */
  lemma {:induction false} RevokedInvitesAreFrozen(db: Db, cap: int, ops: seq<Op>, id: string)
    requires Sane(db)
    requires var at := InviteById(db.invites, id);
             at.Some? && db.invites[at.value].revoked && Lasts(db, cap, ops, db.invites[at.value].room)
    ensures var end, at := Run(db, cap, ops), InviteById(db.invites, id);
            Sane(end) && InviteById(end.invites, id).Some?
            && end.invites[InviteById(end.invites, id).value] == db.invites[at.value]
  {
    if ops != [] {
      var room := db.invites[InviteById(db.invites, id).value].room;
      forall n | 0 <= n <= |ops| - 1
        ensures room in Run(db, cap, Init(ops)[..n]).rooms
      {
        assert Init(ops)[..n] == ops[..n];
      }
      RevokedInvitesAreFrozen(db, cap, Init(ops), id);
      assert ops[..|ops|] == ops;
      StepFreezesRevoked(Run(db, cap, Init(ops)), cap, Last(ops), id);
      StepKeepsSane(Run(db, cap, Init(ops)), cap, Last(ops));
    }
  }
}
