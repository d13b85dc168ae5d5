/** The room tables as the server updates them, one transaction per method. */
module RoomStore {
  import opened Prelude
  import opened Rooms
  import opened RoomInvariants

  class RoomStore {
    var rooms: map<RoomId, Room>
    var invites: seq<Invite>
    var removes: seq<(RoomId, UserId)>

    function State(): Db
      reads this
    {
      Db(rooms, invites, removes)
    }

    ghost predicate Valid()
      reads this
    {
      Sane(State())
    }

    constructor ()
      ensures Valid() && State() == EMPTY
    {
      rooms, invites, removes := map[], [], [];
    }

    method UpdateRole(room: RoomId, user: UserId, role: Role)
      requires IsIn(State(), room, user)
      modifies this
      ensures State() == SetRole(old(State()), room, user, role)
    {
      var r := rooms[room];
      var m := r.members[user].(role := role);
      rooms := rooms[room := r.(members := r.members[user := m])];
    }

    method UpdateOwner(room: RoomId, user: UserId)
      requires room in rooms
      modifies this
      ensures State() == SetOwner(old(State()), room, user)
    {
      rooms := rooms[room := rooms[room].(owner := user)];
    }

    method InsertMember(room: RoomId, user: UserId, now: int)
      requires room in rooms
      modifies this`rooms
      ensures State() == SetMember(old(State()), room, user, Membership(Member, now))
    {
      rooms := rooms[room := rooms[room].(members := rooms[room].members[user := Membership(Member, now)])];
    }

    method DeleteMember(room: RoomId, user: UserId)
      requires room in rooms
      modifies this
      ensures State() == DropMember(old(State()), room, user)
    {
      rooms := rooms[room := rooms[room].(members := rooms[room].members - {user})];
    }

    /** DELETE FROM rooms, with the deletes that cascade from it. */
    method DeleteRoomRow(room: RoomId)
      modifies this
      ensures State() == DropRoom(old(State()), room)
    {
      rooms := rooms - {room};
      var keptInvites, keptRemoves := [], [];
      for i := 0 to |invites|
        invariant keptInvites == InvitesOfOthers(invites[..i], room)
        invariant unchanged(`invites) && unchanged(`removes) && rooms == old(rooms) - {room}
      {
        assert Init(invites[..i + 1]) == invites[..i];
        if invites[i].room != room {
          keptInvites := keptInvites + [invites[i]];
        }
      }
      for i := 0 to |removes|
        invariant keptRemoves == RemovesOfOthers(removes[..i], room)
        invariant unchanged(`invites) && unchanged(`removes) && rooms == old(rooms) - {room}
      {
        assert Init(removes[..i + 1]) == removes[..i];
        if removes[i].0 != room {
          keptRemoves := keptRemoves + [removes[i]];
        }
      }
      assert invites[..|invites|] == invites && removes[..|removes|] == removes;
      invites, removes := keptInvites, keptRemoves;
    }

    method Create(room: RoomId, owner: UserId, roomLimit: int, now: int) returns (r: Result<Reply, Error>)
      requires Valid()
      modifies this
      ensures Valid() && Outcome(State(), r) == CreateRoom(old(State()), room, owner, roomLimit, now)
    {
      StepKeepsSane(State(), 0, DoCreate(room, owner, roomLimit, now));
      var joined := set m | m in rooms && owner in rooms[m].members;
      if |joined| >= roomLimit {
        return Err(RoomLimitReached);
      }
      if room in rooms {
        return Err(Database);
      }
      rooms := rooms[room := Room(owner, map[owner := Membership(Owner, now)])];
      return Ok(Done);
    }

    /** heir is the row that the successor query returns, when it is asked. */
    method Leave(room: RoomId, user: UserId, heir: UserId) returns (r: Result<Reply, Error>)
      requires Valid()
      requires room in rooms && rooms[room].owner == user && |rooms[room].members| > 1 ==>
                 MaySucceed(rooms[room].members, user, heir)
      modifies this
      ensures Valid() && Outcome(State(), r) == LeaveRoom(old(State()), room, user, heir)
      ensures r.Ok? ==> IsIn(old(State()), room, user) && !IsIn(State(), room, user)
      ensures r.Err? ==> State() == old(State())
    {
      StepKeepsSane(State(), 0, DoLeave(room, user, heir));
      if !IsIn(State(), room, user) {
        return Err(NotAMember);
      }
      var ownerId := rooms[room].owner;
      MembersMinusOne(rooms[room].members, user);
      var others := |rooms[room].members - {user}|;
      if others == 0 {
        DeleteRoomRow(room);
        return Ok(RoomDeleted);
      }
      if user != ownerId {
        DeleteMember(room, user);
        return Ok(Left);
      }
      UpdateRole(room, heir, Owner);
      UpdateOwner(room, heir);
      DeleteMember(room, user);
      return Ok(Transferred(heir));
    }

    method Delete(room: RoomId, user: UserId) returns (r: Result<Reply, Error>)
      requires Valid()
      modifies this
      ensures Valid() && Outcome(State(), r) == DeleteRoom(old(State()), room, user)
    {
      StepKeepsSane(State(), 0, DoDelete(room, user));
      if room !in rooms {
        return Err(RoomNotFound);
      }
      if user !in rooms[room].members {
        return Err(NotAMember);
      }
      if rooms[room].members[user].role != Owner {
        return Err(Forbidden);
      }
      DeleteRoomRow(room);
      return Ok(Done);
    }

    method Add(room: RoomId, requester: UserId, target: UserId, known: bool, welcome: bool, devices: nat,
          cap: int, now: int)
      returns (r: Result<Reply, Error>)
      requires Valid()
      modifies this
      ensures Valid()
      ensures Outcome(State(), r) == AddMember(old(State()), room, requester, target, known, welcome, devices, cap, now)
      ensures r.Ok? ==> !IsIn(old(State()), room, target) && IsIn(State(), room, target)
      ensures r.Err? ==> State() == old(State())
    {
      StepKeepsSane(State(), cap, DoAdd(room, requester, target, known, welcome, devices, now));
      if !IsIn(State(), room, requester) {
        return Err(NotAMember);
      }
      var role, ownerId := rooms[room].members[requester].role, rooms[room].owner;
      if role != Owner && requester != ownerId {
        return Err(Forbidden);
      }
      if !known {
        return Err(UserNotFound);
      }
      if target in rooms[room].members {
        return Err(AlreadyAMember);
      }
      if |rooms[room].members| >= cap {
        return Err(RoomFull);
      }
      if welcome && devices == 0 {
        return Err(TargetHasNoDevice);
      }
      InsertMember(room, target, now);
      return Ok(Done);
    }

    method Kick(room: RoomId, requester: UserId, target: UserId, discord: bool) returns (r: Result<Reply, Error>)
      requires Valid()
      modifies this
      ensures Valid() && Outcome(State(), r) == KickMember(old(State()), room, requester, target, discord)
      ensures r.Ok? ==> IsIn(old(State()), room, target) && !IsIn(State(), room, target)
      ensures r.Err? ==> State() == old(State())
    {
      StepKeepsSane(State(), 0, DoKick(room, requester, target, discord));
      if !IsIn(State(), room, requester) {
        return Err(NotAMember);
      }
      if !IsIn(State(), room, target) {
        return Err(TargetNotAMember);
      }
      var role, targetRole := rooms[room].members[requester].role, rooms[room].members[target].role;
      if !(role == Owner || (role == Moderator && discord)) {
        return Err(Forbidden);
      }
      if target == requester {
        return Err(CannotKickSelf);
      }
      if targetRole == Owner {
        return Err(CannotKickOwner);
      }
      DeleteMember(room, target);
      removes := removes + [(room, target)];
      return Ok(Done);
    }

    method Promote(room: RoomId, requester: UserId, target: UserId, discord: bool) returns (r: Result<Reply, Error>)
      requires Valid()
      modifies this
      ensures Valid() && Outcome(State(), r) == PromoteMember(old(State()), room, requester, target, discord)
    {
      StepKeepsSane(State(), 0, DoPromote(room, requester, target, discord));
      r := CheckRoleChange(room, requester, target, discord);
      if r.Err? {
        return;
      }
      if rooms[room].members[target].role == Moderator {
        return Err(AlreadyModerator);
      }
      UpdateRole(room, target, Moderator);
    }

    method Demote(room: RoomId, requester: UserId, target: UserId, discord: bool) returns (r: Result<Reply, Error>)
      requires Valid()
      modifies this
      ensures Valid() && Outcome(State(), r) == DemoteMember(old(State()), room, requester, target, discord)
    {
      StepKeepsSane(State(), 0, DoDemote(room, requester, target, discord));
      r := CheckRoleChange(room, requester, target, discord);
      if r.Err? {
        return;
      }
      if rooms[room].members[target].role != Moderator {
        return Err(NotAModerator);
      }
      UpdateRole(room, target, Member);
    }

    /** The checks that promoting and demoting begin with. */
    method CheckRoleChange(room: RoomId, requester: UserId, target: UserId, discord: bool)
      returns (r: Result<Reply, Error>)
      requires Valid()
      ensures r.Ok? ==> r.value == Done && discord && IsIn(State(), room, requester)
      ensures r.Ok? ==> IsIn(State(), room, requester) && RoleOf(State(), room, requester) == Owner
                        && IsIn(State(), room, target) && target != rooms[room].owner
      ensures r.Err? ==> r.error == (if !discord then ModerationDisabled
                                     else if !IsIn(State(), room, requester) then NotAMember
                                     else if RoleOf(State(), room, requester) != Owner then Forbidden
                                     else if !IsIn(State(), room, target) then TargetNotAMember
                                     else CannotModifyOwner)
                         && (IsIn(State(), room, target) && r.error == CannotModifyOwner ==>
                               target == rooms[room].owner)
    {
      if !discord {
        return Err(ModerationDisabled);
      }
      if !IsIn(State(), room, requester) {
        return Err(NotAMember);
      }
      if rooms[room].members[requester].role != Owner {
        return Err(Forbidden);
      }
      if !IsIn(State(), room, target) {
        return Err(TargetNotAMember);
      }
      assert Governed(rooms[room]);
      if rooms[room].members[target].role == Owner {
        return Err(CannotModifyOwner);
      }
      return Ok(Done);
    }

    method Transfer(room: RoomId, requester: UserId, target: UserId) returns (r: Result<Reply, Error>)
      requires Valid()
      modifies this
      ensures Valid() && Outcome(State(), r) == TransferOwnership(old(State()), room, requester, target)
      ensures r.Ok? ==> room in rooms && rooms[room].owner == target && IsIn(State(), room, requester)
      ensures r.Err? ==> State() == old(State())
    {
      StepKeepsSane(State(), 0, DoTransfer(room, requester, target));
      if !IsIn(State(), room, requester) {
        return Err(NotAMember);
      }
      if rooms[room].members[requester].role != Owner {
        return Err(Forbidden);
      }
      if target == requester {
        return Err(CannotTransferToSelf);
      }
      if !IsIn(State(), room, target) {
        return Err(TargetNotAMember);
      }
      UpdateRole(room, target, Owner);
      UpdateRole(room, requester, Member);
      UpdateOwner(room, target);
      return Ok(Done);
    }

    /** codes are the codes that the generator yields, one per attempt. */
    method Invite(room: RoomId, requester: UserId, maxUses: Option<int>, days: Option<int>, defaultUses: int,
                  id: string, codes: seq<string>, now: int)
      returns (r: Result<Reply, Error>)
      requires Valid()
      modifies this
      ensures Valid()
      ensures Outcome(State(), r)
              == CreateInvite(old(State()), room, requester, maxUses, days, defaultUses, id, codes, now)
    {
      ghost var next := CreateInvite(State(), room, requester, maxUses, days, defaultUses, id, codes, now).db;
      InviteStaysSane(State(), room, requester, maxUses, days, defaultUses, id, codes, now);
      r := InviteRow(room, requester, maxUses, days, defaultUses, id, codes, now);
      assert State() == next;
    }

    method InviteRow(room: RoomId, requester: UserId, maxUses: Option<int>, days: Option<int>, defaultUses: int,
                     id: string, codes: seq<string>, now: int)
      returns (r: Result<Reply, Error>)
      modifies this`invites
      ensures Outcome(State(), r)
              == CreateInvite(old(State()), room, requester, maxUses, days, defaultUses, id, codes, now)
    {
      if room !in rooms {
        return Err(RoomNotFound);
      }
      if requester !in rooms[room].members {
        return Err(NotAMember);
      }
      var terms := Terms(maxUses, days, defaultUses, now);
      if terms.Err? {
        return Err(terms.error);
      }
      var code := TryCodes(id, codes);
      if code.None? {
        return Err(CodeGenerationFailed);
      }
      invites := invites + [Rooms.Invite(id, code.value, room, terms.value.0, 0, terms.value.1, false)];
      return Ok(Created(code.value));
    }

    method Terms(maxUses: Option<int>, days: Option<int>, defaultUses: int, now: int)
      returns (t: Result<(int, Option<int>), Error>)
      ensures t == InviteTerms(maxUses, days, defaultUses, now)
    {
      var max := defaultUses;
      if maxUses.Some? {
        if !(0 <= maxUses.value <= 10000) {
          return Err(InvalidMaxUses);
        }
        max := maxUses.value;
      }
      var expiresAt := None;
      if days.Some? {
        if !(0 <= days.value <= 365) {
          return Err(InvalidExpiry);
        }
        if days.value > 0 {
          expiresAt := Some(now + days.value * 86400);
        }
      }
      return Ok((max, expiresAt));
    }

    /** At most five attempts; an attempt fails when a unique column refuses the row. */
    method TryCodes(id: string, codes: seq<string>) returns (code: Option<string>)
      ensures code == FirstFree(invites, id, codes, 5)
    {
      var attempts := 0;
      while attempts < 5 && attempts < |codes|
        invariant 0 <= attempts <= 5 && attempts <= |codes|
        invariant FirstFree(invites, id, codes, 5) == FirstFree(invites, id, codes[attempts..], 5 - attempts)
      {
        if InviteById(invites, id).None? && InviteByCode(invites, codes[attempts]).None? {
          return Some(codes[attempts]);
        }
        attempts := attempts + 1;
      }
      return None;
    }

    method Revoke(room: RoomId, id: string, requester: UserId) returns (r: Result<Reply, Error>)
      requires Valid()
      modifies this
      ensures Valid() && Outcome(State(), r) == RevokeInvite(old(State()), room, id, requester)
    {
      StepKeepsSane(State(), 0, DoRevoke(room, id, requester));
      if room !in rooms {
        return Err(RoomNotFound);
      }
      if requester !in rooms[room].members {
        return Err(NotAMember);
      }
      var at := InviteById(invites, id);
      if at.None? || invites[at.value].room != room {
        return Err(InviteNotFound);
      }
      if invites[at.value].revoked {
        return Err(InviteNotFound);
      }
      invites := invites[at.value := invites[at.value].(revoked := true)];
      return Ok(Done);
    }

    method Redeem(code: string, user: UserId, cap: int, now: int) returns (r: Result<Reply, Error>)
      requires Valid()
      modifies this
      ensures Valid() && Outcome(State(), r) == RedeemInvite(old(State()), code, user, cap, now)
      ensures r.Ok? ==> IsIn(State(), r.value.room, user)
      ensures r.Err? ==> State() == old(State())
    {
      ghost var next := RedeemInvite(State(), code, user, cap, now).db;
      assert Sane(next) by {
        StepKeepsSane(State(), cap, DoRedeem(code, user, now));
      }
      r := RedeemRows(code, user, cap, now);
      assert State() == next;
    }

    method RedeemRows(code: string, user: UserId, cap: int, now: int) returns (r: Result<Reply, Error>)
      requires forall i :: i in invites ==> i.room in rooms
      modifies this`rooms, this`invites
      ensures Outcome(State(), r) == RedeemInvite(old(State()), code, user, cap, now)
    {
      var at := InviteByCode(invites, code);
      if at.None? {
        return Err(InviteNotFound);
      }
      var i := invites[at.value];
      if i.revoked {
        return Err(Revoked);
      }
      if i.expiresAt.Some? {
        if i.expiresAt.value < now {
          return Err(Expired);
        }
      }
      if i.maxUses > 0 && i.uses >= i.maxUses {
        return Err(Exhausted);
      }
      assert i in invites;
      var room := i.room;
      if user in rooms[room].members {
        return Ok(AlreadyJoined(room, rooms[room].members[user].role));
      }
      if |rooms[room].members| >= cap {
        return Err(RoomFull);
      }
      InsertMember(room, user, now);
      invites := invites[at.value := i.(uses := i.uses + 1)];
      return Ok(Joined(room));
    }
  }

  lemma InviteStaysSane(db: Db, room: RoomId, requester: UserId, maxUses: Option<int>, days: Option<int>,
        defaultUses: int,
                        id: string, codes: seq<string>, now: int)
    requires Sane(db)
    ensures Sane(CreateInvite(db, room, requester, maxUses, days, defaultUses, id, codes, now).db)
  {
    var op := DoInvite(room, requester, maxUses, days, defaultUses, id, codes, now);
    var next := Step(db, 0, op).db;
    assert Sane(next) by {
      StepKeepsSane(db, 0, op);
    }
    assert next == CreateInvite(db, room, requester, maxUses, days, defaultUses, id, codes, now).db;
  }
}
