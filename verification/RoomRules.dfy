/**
 Who may do what in a room, in terms of the tables and the request alone: when each operation is accepted,
 what it then changes and what it leaves, and what a refusal says.
 */
module RoomRules {
  import opened Prelude
  import opened Rooms
  import opened RoomInvariants

  predicate HasRole(db: Db, room: RoomId, user: UserId, role: Role) {
    room in db.rooms && user in db.rooms[room].members && db.rooms[room].members[user].role == role
  }

  /** Nothing but the members and the owner of the room has changed. */
  predicate OnlyRoom(db: Db, next: Db, room: RoomId) {
    && next.invites == db.invites && next.removes == db.removes && next.rooms.Keys == db.rooms.Keys
    && forall r :: r in db.rooms && r != room ==> next.rooms[r] == db.rooms[r]
  }

  /** Of the members only the user has changed, to this role; everybody joined when they did. */
  predicate OnlyRole(a: Room, b: Room, user: UserId, role: Role) {
    && b.members.Keys == a.members.Keys && b.owner == a.owner && user in a.members
    && forall u :: u in a.members ==> b.members[u] == if u == user then Membership(role, a.members[u].joinedAt)
                                                      else a.members[u]
  }

  // ---- Creating and deleting ----

  lemma CreateIs(db: Db, room: RoomId, owner: UserId, roomLimit: int, now: int)
    ensures var out, joined := CreateRoom(db, room, owner, roomLimit, now), set r | r in db.rooms && IsIn(db, r, owner);
            && (out.reply.Ok? <==> |joined| < roomLimit && room !in db.rooms)
            && (out.reply == Err(RoomLimitReached) <==> |joined| >= roomLimit)
            && (out.reply.Err? ==> out.db == db)
            && (out.reply.Ok? ==>
                  && out.db.invites == db.invites && out.db.removes == db.removes
                  && out.db.rooms.Keys == db.rooms.Keys + {room}
                  && out.db.rooms[room] == Room(owner, map[owner := Membership(Owner, now)])
                  && forall r :: r in db.rooms ==> out.db.rooms[r] == db.rooms[r])
  {
    var mine := set r | r in db.rooms && owner in db.rooms[r].members;
    assert mine == set r | r in db.rooms && IsIn(db, r, owner);
  }

  lemma DeleteIs(db: Db, room: RoomId, user: UserId)
    ensures var out := DeleteRoom(db, room, user);
            && (out.reply.Ok? <==> HasRole(db, room, user, Owner))
            && (out.reply == Err(RoomNotFound) <==> room !in db.rooms)
            && (out.reply == Err(NotAMember) <==> room in db.rooms && user !in db.rooms[room].members)
            && (out.reply == Err(Forbidden) <==> IsIn(db, room, user) && !HasRole(db, room, user, Owner))
            && (out.reply.Err? ==> out.db == db)
            && (out.reply.Ok? ==>
                  && out.db.rooms.Keys == db.rooms.Keys - {room}
                  && (forall r :: r in db.rooms && r != room ==> out.db.rooms[r] == db.rooms[r])
                  && (forall i :: i in out.db.invites <==> i in db.invites && i.room != room)
                  && forall p :: p in out.db.removes <==> p in db.removes && p.0 != room)
  {
  }

  /** Everybody may leave; the last to leave takes the room along, and an owner is succeeded. */
  lemma LeaveIs(db: Db, room: RoomId, user: UserId, heir: UserId)
    requires Sane(db)
    requires IsIn(db, room, user) && db.rooms[room].owner == user && |db.rooms[room].members| > 1 ==>
               MaySucceed(db.rooms[room].members, user, heir)
    ensures var out := LeaveRoom(db, room, user, heir);
            && (out.reply.Ok? <==> IsIn(db, room, user))
            && (out.reply.Err? ==> out.reply == Err(NotAMember) && out.db == db)
            && (out.reply == Ok(RoomDeleted) <==> IsIn(db, room, user) && |db.rooms[room].members| == 1)
            && (out.reply == Ok(Left) || (out.reply.Ok? && out.reply.value.Transferred?) ==>
                  && OnlyRoom(db, out.db, room)
                  && var a, b := db.rooms[room], out.db.rooms[room];
                     && b.members.Keys == a.members.Keys - {user}
                     && b.owner == (if user == a.owner then heir else a.owner)
                     && (out.reply == Ok(Left) <==> user != a.owner)
                     && forall u :: u in b.members && u != b.owner ==> b.members[u] == a.members[u])
  {
    if IsIn(db, room, user) {
      assert Governed(db.rooms[room]);
    }
  }

  // ---- Members ----

  lemma AddIs(db: Db, room: RoomId, requester: UserId, target: UserId, known: bool, welcome: bool, devices: nat,
              cap: int, now: int)
    requires Sane(db)
    ensures var out := AddMember(db, room, requester, target, known, welcome, devices, cap, now);
            var owns := HasRole(db, room, requester, Owner);
            var free := owns && known && !IsIn(db, room, target);
            && (out.reply.Ok? <==> free && |db.rooms[room].members| < cap && (welcome ==> devices > 0))
            && (out.reply == Err(NotAMember) <==> !IsIn(db, room, requester))
            && (out.reply == Err(Forbidden) <==> IsIn(db, room, requester) && !owns)
            && (out.reply == Err(UserNotFound) <==> owns && !known)
            && (out.reply == Err(AlreadyAMember) <==> owns && known && IsIn(db, room, target))
            && (out.reply == Err(RoomFull) <==> free && |db.rooms[room].members| >= cap)
            && (out.reply.Err? ==> out.db == db)
            && (out.reply.Ok? ==>
                  && OnlyRoom(db, out.db, room)
                  && var a, b := db.rooms[room], out.db.rooms[room];
                     && b.owner == a.owner && b.members.Keys == a.members.Keys + {target}
                     && b.members[target] == Membership(Member, now)
                     && forall u :: u in a.members ==> b.members[u] == a.members[u])
  {
    if room in db.rooms {
      assert Governed(db.rooms[room]);
    }
  }

  /** Owners kick everywhere, moderators where there is moderation; nobody kicks an owner or himself. */
  lemma KickIs(db: Db, room: RoomId, requester: UserId, target: UserId, discord: bool)
    ensures var out := KickMember(db, room, requester, target, discord);
            var both := IsIn(db, room, requester) && IsIn(db, room, target);
            var may := both && (HasRole(db, room, requester, Owner)
                                || (discord && HasRole(db, room, requester, Moderator)));
            && (out.reply.Ok? <==> may && requester != target && !HasRole(db, room, target, Owner))
            && (out.reply == Err(NotAMember) <==> !IsIn(db, room, requester))
            && (out.reply == Err(TargetNotAMember) <==> IsIn(db, room, requester) && !IsIn(db, room, target))
            && (out.reply == Err(Forbidden) <==> both && !may)
            && (out.reply == Err(CannotKickSelf) <==> may && requester == target)
            && (out.reply == Err(CannotKickOwner) <==> may && requester != target && HasRole(db, room, target, Owner))
            && (out.reply.Err? ==> out.db == db)
            && (out.reply.Ok? ==>
                  && out.reply == Ok(Done)
                  && out.db.removes == db.removes + [(room, target)]
                  && OnlyRoom(db, out.db.(removes := db.removes), room)
                  && var a, b := db.rooms[room], out.db.rooms[room];
                     && b.owner == a.owner && b.members.Keys == a.members.Keys - {target}
                     && forall u :: u in b.members ==> b.members[u] == a.members[u])
  {
  }

  lemma PromoteIs(db: Db, room: RoomId, requester: UserId, target: UserId, discord: bool)
    ensures var out := PromoteMember(db, room, requester, target, discord);
            var may := discord && HasRole(db, room, requester, Owner);
            && (out.reply.Ok? <==> may && HasRole(db, room, target, Member))
            && (out.reply == Err(ModerationDisabled) <==> !discord)
            && (out.reply == Err(NotAMember) <==> discord && !IsIn(db, room, requester))
            && (out.reply == Err(Forbidden) <==> discord && IsIn(db, room, requester) && !may)
            && (out.reply == Err(TargetNotAMember) <==> may && !IsIn(db, room, target))
            && (out.reply == Err(CannotModifyOwner) <==> may && HasRole(db, room, target, Owner))
            && (out.reply == Err(AlreadyModerator) <==> may && HasRole(db, room, target, Moderator))
            && (out.reply.Err? ==> out.db == db)
            && (out.reply.Ok? ==>
                  OnlyRoom(db, out.db, room) && OnlyRole(db.rooms[room], out.db.rooms[room], target, Moderator))
  {
  }

  lemma DemoteIs(db: Db, room: RoomId, requester: UserId, target: UserId, discord: bool)
    ensures var out := DemoteMember(db, room, requester, target, discord);
            var may := discord && HasRole(db, room, requester, Owner);
            && (out.reply.Ok? <==> may && HasRole(db, room, target, Moderator))
            && (out.reply == Err(ModerationDisabled) <==> !discord)
            && (out.reply == Err(NotAMember) <==> discord && !IsIn(db, room, requester))
            && (out.reply == Err(Forbidden) <==> discord && IsIn(db, room, requester) && !may)
            && (out.reply == Err(TargetNotAMember) <==> may && !IsIn(db, room, target))
            && (out.reply == Err(CannotModifyOwner) <==> may && HasRole(db, room, target, Owner))
            && (out.reply == Err(NotAModerator) <==> may && HasRole(db, room, target, Member))
            && (out.reply.Err? ==> out.db == db)
            && (out.reply.Ok? ==>
                  OnlyRoom(db, out.db, room) && OnlyRole(db.rooms[room], out.db.rooms[room], target, Member))
  {
  }

  /** An owner hands the room to another member and becomes a plain member. */
  lemma TransferIs(db: Db, room: RoomId, requester: UserId, target: UserId)
    ensures var out := TransferOwnership(db, room, requester, target);
            var owns := HasRole(db, room, requester, Owner);
            && (out.reply.Ok? <==> owns && requester != target && IsIn(db, room, target))
            && (out.reply == Err(NotAMember) <==> !IsIn(db, room, requester))
            && (out.reply == Err(Forbidden) <==> IsIn(db, room, requester) && !owns)
            && (out.reply == Err(CannotTransferToSelf) <==> owns && requester == target)
            && (out.reply == Err(TargetNotAMember) <==> owns && requester != target && !IsIn(db, room, target))
            && (out.reply.Err? ==> out.db == db)
            && (out.reply.Ok? ==>
                  && OnlyRoom(db, out.db, room)
                  && var a, b := db.rooms[room], out.db.rooms[room];
                     && b.owner == target && b.members.Keys == a.members.Keys
                     && forall u :: u in a.members ==>
                          b.members[u] == Membership(if u == target then Owner
                                                     else if u == requester then Member
                                                     else a.members[u].role, a.members[u].joinedAt))
  {
  }

  // ---- Invites ----

  /** The terms that may be asked for: up to 10000 uses and 365 days, 0 meaning without limit. */
  predicate TermsAreValid(maxUses: Option<int>, days: Option<int>) {
    (maxUses.Some? ==> 0 <= maxUses.value <= 10000) && (days.Some? ==> 0 <= days.value <= 365)
  }

  predicate IsTaken(invites: seq<Invite>, id: string, code: string) {
    exists i :: i in invites && (i.id == id || i.code == code)
  }

  lemma {:induction false} FirstFreeIff(invites: seq<Invite>, id: string, codes: seq<string>, attempts: nat)
    ensures var c := FirstFree(invites, id, codes, attempts);
            && (c.None? <==> forall k :: 0 <= k < |codes| && k < attempts ==> IsTaken(invites, id, codes[k]))
            && (c.Some? ==> exists k :: 0 <= k < |codes| && k < attempts && c.value == codes[k]
                                        && !IsTaken(invites, id, codes[k])
                                        && forall j :: 0 <= j < k ==> IsTaken(invites, id, codes[j]))
  {
    if attempts > 0 && codes != [] {
      var rest := codes[1..];
      assert InviteById(invites, id).None? && InviteByCode(invites, codes[0]).None? <==> !IsTaken(invites, id, codes[0])
      by {
        TakenIff(invites, id, codes[0]);
      }
      FirstFreeIff(invites, id, rest, attempts - 1);
      forall k | 0 < k < |codes| && k < attempts
        ensures codes[k] == rest[k - 1]
      {
      }
      var c := FirstFree(invites, id, rest, attempts - 1);
      if IsTaken(invites, id, codes[0]) && c.Some? {
        var k :| 0 <= k < |rest| && k < attempts - 1 && c.value == rest[k] && !IsTaken(invites, id, rest[k])
                 && forall j :: 0 <= j < k ==> IsTaken(invites, id, rest[j]);
        assert codes[k + 1] == rest[k];
        forall j | 0 <= j < k + 1
          ensures IsTaken(invites, id, codes[j])
        {
          assert j > 0 ==> codes[j] == rest[j - 1];
        }
      }
    }
  }

  lemma TakenIff(invites: seq<Invite>, id: string, code: string)
    ensures IsTaken(invites, id, code) <==> InviteById(invites, id).Some? || InviteByCode(invites, code).Some?
  {
    var a, b := InviteById(invites, id), InviteByCode(invites, code);
    assert a.Some? ==> invites[a.value] in invites;
    assert b.Some? ==> invites[b.value] in invites;
  }

  /** Every member may invite; the invite carries the terms asked for, or those of the instance. */
  lemma InviteIs(db: Db, room: RoomId, requester: UserId, maxUses: Option<int>, days: Option<int>, defaultUses: int,
                 id: string, codes: seq<string>, now: int)
    ensures var out := CreateInvite(db, room, requester, maxUses, days, defaultUses, id, codes, now);
            var asked := IsIn(db, room, requester) && TermsAreValid(maxUses, days);
            && (out.reply.Ok? <==> asked && exists k :: 0 <= k < |codes| && k < 5 && !IsTaken(db.invites, id, codes[k]))
            && (out.reply == Err(RoomNotFound) <==> room !in db.rooms)
            && (out.reply == Err(NotAMember) <==> room in db.rooms && !IsIn(db, room, requester))
            && (out.reply.Err? ==> out.db == db)
            && (out.reply.Ok? ==>
                  && out.reply.value.Created? && out.reply.value.code in codes
                  && !IsTaken(db.invites, id, out.reply.value.code)
                  && out.db == db.(invites := db.invites + [Last(out.db.invites)])
                  && var i := Last(out.db.invites);
                     && i.id == id && i.code == out.reply.value.code && i.room == room && i.uses == 0 && !i.revoked
                     && i.maxUses == (if maxUses.Some? then maxUses.value else defaultUses)
                     && i.expiresAt == (if days.Some? && days.value > 0 then Some(now + days.value * 86400) else None))
  {
    FirstFreeIff(db.invites, id, codes, 5);
  }

  /** Every member may revoke an invite of the room, once. */
  lemma RevokeIs(db: Db, room: RoomId, id: string, requester: UserId)
    requires DistinctInvites(db.invites)
    ensures var out := RevokeInvite(db, room, id, requester);
            && (out.reply.Ok? <==>
                  && IsIn(db, room, requester)
                  && exists i :: i in db.invites && i.id == id && i.room == room && !i.revoked)
            && (out.reply == Err(RoomNotFound) <==> room !in db.rooms)
            && (out.reply == Err(NotAMember) <==> room in db.rooms && !IsIn(db, room, requester))
            && (out.reply.Err? ==> out.db == db)
            && (out.reply.Ok? ==>
                  && out.db == db.(invites := out.db.invites) && |out.db.invites| == |db.invites|
                  && forall k :: 0 <= k < |db.invites| ==>
                       out.db.invites[k] == if db.invites[k].id == id then db.invites[k].(revoked := true)
                                            else db.invites[k])
  {
    if i :| i in db.invites && i.id == id && i.room == room && !i.revoked {
      var k :| 0 <= k < |db.invites| && db.invites[k] == i;
      assert InviteById(db.invites, id).value == k;
    }
    var at := InviteById(db.invites, id);
    assert at.Some? ==> db.invites[at.value] in db.invites;
  }

  /** An invite admits while it is not revoked, not expired and not used up. */
  predicate IsLive(i: Invite, now: int) {
    !i.revoked && (i.expiresAt.Some? ==> now <= i.expiresAt.value) && (i.maxUses > 0 ==> i.uses < i.maxUses)
  }

  /** What redeeming an invite says and does; who is already in the room uses nothing up. */
  lemma RedeemIs(db: Db, i: Invite, user: UserId, cap: int, now: int)
    requires Sane(db) && i in db.invites
    ensures var out := RedeemInvite(db, i.code, user, cap, now);
            var inside := IsIn(db, i.room, user);
            var left := !i.revoked && (i.expiresAt.Some? ==> now <= i.expiresAt.value);
            && (out.reply.Ok? <==> IsLive(i, now) && (inside || |db.rooms[i.room].members| < cap))
            && (out.reply == Err(Revoked) <==> i.revoked)
            && (out.reply == Err(Expired) <==> !i.revoked && !left)
            && (out.reply == Err(Exhausted) <==> left && !IsLive(i, now))
            && (out.reply == Err(RoomFull) <==> IsLive(i, now) && !inside && |db.rooms[i.room].members| >= cap)
            && (out.reply.Err? || inside ==> out.db == db)
            && (out.reply.Ok? && inside ==> out.reply == Ok(AlreadyJoined(i.room, RoleOf(db, i.room, user))))
            && (out.reply.Ok? && !inside ==> out.reply == Ok(Joined(i.room)))
  {
    InviteIsFound(db.invites, i);
  }

  lemma InviteIsFound(invites: seq<Invite>, i: Invite)
    requires DistinctInvites(invites) && i in invites
    ensures InviteByCode(invites, i.code).Some? && invites[InviteByCode(invites, i.code).value] == i
  {
    var k :| 0 <= k < |invites| && invites[k] == i;
  }

  /** Somebody who is let in becomes a plain member, and one use of the invite is counted. */
  lemma RedeemLetsIn(db: Db, i: Invite, user: UserId, cap: int, now: int)
    requires Sane(db) && i in db.invites && RedeemInvite(db, i.code, user, cap, now).reply == Ok(Joined(i.room))
    ensures var next := RedeemInvite(db, i.code, user, cap, now).db;
            && OnlyRoom(db, next.(invites := db.invites), i.room) && |next.invites| == |db.invites|
            && (forall k :: 0 <= k < |db.invites| ==>
                  next.invites[k] == if db.invites[k].code == i.code then db.invites[k].(uses := i.uses + 1)
                                     else db.invites[k])
            && var a, b := db.rooms[i.room], next.rooms[i.room];
               && b.owner == a.owner && b.members.Keys == a.members.Keys + {user}
               && b.members[user] == Membership(Member, now)
               && forall u :: u in a.members ==> b.members[u] == a.members[u]
  {
    InviteIsFound(db.invites, i);
  }

  lemma RedeemOfNothing(db: Db, code: string, user: UserId, cap: int, now: int)
    ensures RedeemInvite(db, code, user, cap, now).reply == Err(InviteNotFound) <==>
              forall i :: i in db.invites ==> i.code != code
  {
    var at := InviteByCode(db.invites, code);
    assert at.Some? ==> db.invites[at.value] in db.invites;
  }

  // ---- Over every run ----

  /** The ways into a room: creating it, being added by its owner, redeeming an invite to it that is live. */
  ghost predicate LetsIn(db: Db, op: Op, room: RoomId, user: UserId) {
    match op
    case DoCreate(r, u, _, _) => r == room && u == user && room !in db.rooms
    case DoAdd(r, u, target, known, _, _, _) => r == room && target == user && known && HasRole(db, room, u, Owner)
    case DoRedeem(code, u, now) =>
      u == user && exists i :: i in db.invites && i.code == code && i.room == room && IsLive(i, now)
    case _ => false
  }

  /** The ways out, while the room lasts: leaving, and being kicked by somebody who may. */
  predicate LetsOut(db: Db, op: Op, room: RoomId, user: UserId) {
    match op
    case DoLeave(r, u, _) => r == room && u == user
    case DoKick(r, u, target, discord) =>
      r == room && target == user && u != user && !HasRole(db, room, user, Owner)
      && (HasRole(db, room, u, Owner) || (discord && HasRole(db, room, u, Moderator)))
    case _ => false
  }

  lemma MembershipBeginsBy(db: Db, cap: int, op: Op, room: RoomId, user: UserId)
    requires Sane(db) && IsIn(Step(db, cap, op).db, room, user) && !IsIn(db, room, user)
    ensures LetsIn(db, op, room, user)
  {
    match op
    case DoAdd(r, u, target, known, welcome, devices, now) =>
      AddIs(db, r, u, target, known, welcome, devices, cap, now);
    case DoRedeem(code, u, now) =>
      var at := InviteByCode(db.invites, code);
      assert db.invites[at.value] in db.invites;
    case _ =>
  }

  lemma MembershipEndsBy(db: Db, cap: int, op: Op, room: RoomId, user: UserId)
    requires IsIn(db, room, user) && room in Step(db, cap, op).db.rooms && !IsIn(Step(db, cap, op).db, room, user)
    ensures LetsOut(db, op, room, user)
  {
  }

  /** Roles change only by the hand of an owner: promotions, demotions, transfers, and an owner's own leave. */
  lemma RoleChangesBy(db: Db, cap: int, op: Op, room: RoomId, user: UserId)
    requires Sane(db) && IsIn(db, room, user) && IsIn(Step(db, cap, op).db, room, user)
    requires RoleOf(Step(db, cap, op).db, room, user) != RoleOf(db, room, user)
    ensures (op.DoPromote? || op.DoDemote? || op.DoTransfer? || op.DoLeave?) && op.room == room
    ensures HasRole(db, room, op.user, Owner)
    ensures !op.DoLeave? && user != op.user ==> op.target == user
  {
    assert Governed(db.rooms[room]);
  }

  /** Over every run whoever is in a room was let in at some step. */
  lemma {:induction false} MembersWereLetIn(cap: int, ops: seq<Op>, room: RoomId, user: UserId)
    requires IsIn(Run(EMPTY, cap, ops), room, user)
    ensures exists i :: 0 <= i < |ops| && LetsIn(Run(EMPTY, cap, ops[..i]), ops[i], room, user)
  {
    var before := Run(EMPTY, cap, Init(ops));
    RunIsSane(cap, Init(ops));
    assert ops[..|ops| - 1] == Init(ops);
    if IsIn(before, room, user) {
      MembersWereLetIn(cap, Init(ops), room, user);
      var i :| 0 <= i < |ops| - 1 && LetsIn(Run(EMPTY, cap, Init(ops)[..i]), Init(ops)[i], room, user);
      assert Init(ops)[..i] == ops[..i];
      assert LetsIn(Run(EMPTY, cap, ops[..i]), ops[i], room, user);
    } else {
      MembershipBeginsBy(before, cap, Last(ops), room, user);
      assert LetsIn(Run(EMPTY, cap, ops[..|ops| - 1]), ops[|ops| - 1], room, user);
    }
  }
}
