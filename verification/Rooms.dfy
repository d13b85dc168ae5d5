/**
 Rooms, their members and their invites. Each function below is one transaction: it gives the tables
 afterwards and the reply. Run strings any of them together.
 */
module Rooms {
  import opened Prelude

  type RoomId = string
  type UserId = string

  datatype Role = Owner | Moderator | Member

  /** A row of room_members. */
  datatype Membership = Membership(role: Role, joinedAt: int)

  /** A row of rooms with the rows of room_members that belong to it. */
  datatype Room = Room(owner: UserId, members: map<UserId, Membership>)

  /** A row of room_invites. */
  datatype Invite = Invite(
    id: string, code: string, room: RoomId, maxUses: int, uses: nat, expiresAt: Option<int>, revoked: bool)

  /** removes holds pending_mls_removes: the users that were kicked, in order. */
  datatype Db = Db(rooms: map<RoomId, Room>, invites: seq<Invite>, removes: seq<(RoomId, UserId)>)

  datatype Error =
    | NotAMember | RoomNotFound | Forbidden | RoomFull | UserNotFound | AlreadyAMember | RoomLimitReached
    | TargetHasNoDevice | TargetNotAMember | CannotKickSelf | CannotKickOwner
    | ModerationDisabled | CannotModifyOwner | AlreadyModerator | NotAModerator | CannotTransferToSelf
    | InvalidMaxUses | InvalidExpiry | CodeGenerationFailed
    | InviteNotFound | Revoked | Expired | Exhausted
    | Database

  datatype Reply =
    | Done
    | Left | RoomDeleted | Transferred(newOwner: UserId)
    | Created(code: string)
    | Joined(room: RoomId) | AlreadyJoined(room: RoomId, role: Role)

  datatype Outcome = Outcome(db: Db, reply: Result<Reply, Error>)

  // ---- Queries and updates ----

  predicate IsIn(db: Db, room: RoomId, user: UserId) {
    room in db.rooms && user in db.rooms[room].members
  }

  function RoleOf(db: Db, room: RoomId, user: UserId): Role
    requires IsIn(db, room, user)
  {
    db.rooms[room].members[user].role
  }

  function SetMember(db: Db, room: RoomId, user: UserId, m: Membership): Db
    requires room in db.rooms
  {
    var r := db.rooms[room];
    db.(rooms := db.rooms[room := r.(members := r.members[user := m])])
  }

  function SetRole(db: Db, room: RoomId, user: UserId, role: Role): Db
    requires IsIn(db, room, user)
  {
    SetMember(db, room, user, db.rooms[room].members[user].(role := role))
  }

  function DropMember(db: Db, room: RoomId, user: UserId): Db
    requires room in db.rooms
  {
    var r := db.rooms[room];
    db.(rooms := db.rooms[room := r.(members := r.members - {user})])
  }

  function SetOwner(db: Db, room: RoomId, user: UserId): Db
    requires room in db.rooms
  {
    db.(rooms := db.rooms[room := db.rooms[room].(owner := user)])
  }

  function InvitesOfOthers(invites: seq<Invite>, room: RoomId): (kept: seq<Invite>)
    ensures forall i :: i in kept <==> i in invites && i.room != room
  {
    if invites == [] then []
    else
      var kept := InvitesOfOthers(Init(invites), room);
      if Last(invites).room == room then kept else kept + [Last(invites)]
  }

  function RemovesOfOthers(removes: seq<(RoomId, UserId)>, room: RoomId): (kept: seq<(RoomId, UserId)>)
    ensures forall p :: p in kept <==> p in removes && p.0 != room
  {
    if removes == [] then []
    else
      var kept := RemovesOfOthers(Init(removes), room);
      if Last(removes).0 == room then kept else kept + [Last(removes)]
  }

  /** Deleting a room deletes the rows that reference it. */
  function DropRoom(db: Db, room: RoomId): Db {
    Db(db.rooms - {room}, InvitesOfOthers(db.invites, room), RemovesOfOthers(db.removes, room))
  }

  function InviteByCode(invites: seq<Invite>, code: string): (at: Option<nat>)
    ensures at.Some? ==> at.value < |invites| && invites[at.value].code == code
    ensures at.None? <==> forall k :: 0 <= k < |invites| ==> invites[k].code != code
  {
    if invites == [] then None
    else if Last(invites).code == code then Some(|invites| - 1)
    else InviteByCode(Init(invites), code)
  }

  function InviteById(invites: seq<Invite>, id: string): (at: Option<nat>)
    ensures at.Some? ==> at.value < |invites| && invites[at.value].id == id
    ensures at.None? <==> forall k :: 0 <= k < |invites| ==> invites[k].id != id
  {
    if invites == [] then None
    else if Last(invites).id == id then Some(|invites| - 1)
    else InviteById(Init(invites), id)
  }

  // ---- Creating, leaving, deleting ----

  function CreateRoom(db: Db, room: RoomId, owner: UserId, roomLimit: int, now: int): Outcome {
    if |set r | r in db.rooms && owner in db.rooms[r].members| >= roomLimit then Outcome(db, Err(RoomLimitReached))
    else if room in db.rooms then Outcome(db, Err(Database))
    else Outcome(db.(rooms := db.rooms[room := Room(owner, map[owner := Membership(Owner, now)])]), Ok(Done))
  }

  function Rank(role: Role): nat {
    match role case Moderator => 0 case Member => 1 case Owner => 2
  }

  /** ORDER BY CASE role ..., joined_at */
  predicate Ahead(a: Membership, b: Membership) {
    Rank(a.role) < Rank(b.role) || (Rank(a.role) == Rank(b.role) && a.joinedAt <= b.joinedAt)
  }

  /** A row that the successor query may return first: ties in joined_at are broken by the database. */
  predicate MaySucceed(members: map<UserId, Membership>, leaver: UserId, user: UserId) {
    user in members && user != leaver
    && forall other :: other in members && other != leaver ==> Ahead(members[user], members[other])
  }

  /** `heir` is the row the successor query returned; it matters only when the owner leaves others behind. */
  function LeaveRoom(db: Db, room: RoomId, user: UserId, heir: UserId): Outcome
    requires IsIn(db, room, user) && db.rooms[room].owner == user && |db.rooms[room].members| > 1 ==>
               MaySucceed(db.rooms[room].members, user, heir)
  {
    if !IsIn(db, room, user) then Outcome(db, Err(NotAMember))
    else
      var r := db.rooms[room];
      if |r.members| == 1 then Outcome(DropRoom(db, room), Ok(RoomDeleted))
      else if user != r.owner then Outcome(DropMember(db, room, user), Ok(Left))
      else
        Outcome(DropMember(SetOwner(SetRole(db, room, heir, Owner), room, heir), room, user), Ok(Transferred(heir)))
  }

  function DeleteRoom(db: Db, room: RoomId, user: UserId): Outcome {
    if room !in db.rooms then Outcome(db, Err(RoomNotFound))
    else if !IsIn(db, room, user) then Outcome(db, Err(NotAMember))
    else if RoleOf(db, room, user) != Owner then Outcome(db, Err(Forbidden))
    else Outcome(DropRoom(db, room), Ok(Done))
  }

  // ---- Members ----

  /** known: the target is a user; welcome: a welcome comes along; devices: how many devices the target has. */
  function AddMember(
    db: Db, room: RoomId, requester: UserId, target: UserId, known: bool, welcome: bool, devices: nat, cap: int,
    now: int): Outcome
  {
    if !IsIn(db, room, requester) then Outcome(db, Err(NotAMember))
    else if RoleOf(db, room, requester) != Owner && requester != db.rooms[room].owner then Outcome(db, Err(Forbidden))
    else if !known then Outcome(db, Err(UserNotFound))
    else if IsIn(db, room, target) then Outcome(db, Err(AlreadyAMember))
    else if |db.rooms[room].members| >= cap then Outcome(db, Err(RoomFull))
    else if welcome && devices == 0 then Outcome(db, Err(TargetHasNoDevice))
    else Outcome(SetMember(db, room, target, Membership(Member, now)), Ok(Done))
  }

  function KickMember(db: Db, room: RoomId, requester: UserId, target: UserId, discord: bool): Outcome {
    if !IsIn(db, room, requester) then Outcome(db, Err(NotAMember))
    else if !IsIn(db, room, target) then Outcome(db, Err(TargetNotAMember))
    else
      var role := RoleOf(db, room, requester);
      if role != Owner && !(role == Moderator && discord) then Outcome(db, Err(Forbidden))
      else if target == requester then Outcome(db, Err(CannotKickSelf))
      else if RoleOf(db, room, target) == Owner then Outcome(db, Err(CannotKickOwner))
      else Outcome(DropMember(db, room, target).(removes := db.removes + [(room, target)]), Ok(Done))
  }

  function PromoteMember(db: Db, room: RoomId, requester: UserId, target: UserId, discord: bool): Outcome {
    if !discord then Outcome(db, Err(ModerationDisabled))
    else if !IsIn(db, room, requester) then Outcome(db, Err(NotAMember))
    else if RoleOf(db, room, requester) != Owner then Outcome(db, Err(Forbidden))
    else if !IsIn(db, room, target) then Outcome(db, Err(TargetNotAMember))
    else match RoleOf(db, room, target)
      case Owner => Outcome(db, Err(CannotModifyOwner))
      case Moderator => Outcome(db, Err(AlreadyModerator))
      case Member => Outcome(SetRole(db, room, target, Moderator), Ok(Done))
  }

  function DemoteMember(db: Db, room: RoomId, requester: UserId, target: UserId, discord: bool): Outcome {
    if !discord then Outcome(db, Err(ModerationDisabled))
    else if !IsIn(db, room, requester) then Outcome(db, Err(NotAMember))
    else if RoleOf(db, room, requester) != Owner then Outcome(db, Err(Forbidden))
    else if !IsIn(db, room, target) then Outcome(db, Err(TargetNotAMember))
    else match RoleOf(db, room, target)
      case Owner => Outcome(db, Err(CannotModifyOwner))
      case Moderator => Outcome(SetRole(db, room, target, Member), Ok(Done))
      case Member => Outcome(db, Err(NotAModerator))
  }

  function TransferOwnership(db: Db, room: RoomId, requester: UserId, target: UserId): Outcome {
    if !IsIn(db, room, requester) then Outcome(db, Err(NotAMember))
    else if RoleOf(db, room, requester) != Owner then Outcome(db, Err(Forbidden))
    else if target == requester then Outcome(db, Err(CannotTransferToSelf))
    else if !IsIn(db, room, target) then Outcome(db, Err(TargetNotAMember))
    else
      Outcome(SetOwner(SetRole(SetRole(db, room, target, Owner), room, requester, Member), room, target), Ok(Done))
  }

  // ---- Invites ----

  /** The first of the generated codes that the unique columns accept, out of five attempts. */
  function FirstFree(invites: seq<Invite>, id: string, codes: seq<string>, attempts: nat): Option<string>
    decreases attempts
  {
    if attempts == 0 || codes == [] then None
    else if InviteById(invites, id).None? && InviteByCode(invites, codes[0]).None? then Some(codes[0])
    else FirstFree(invites, id, codes[1..], attempts - 1)
  }

  /** The limits of a new invite: uses (0 is unlimited) and expiry. */
  function InviteTerms(maxUses: Option<int>, days: Option<int>, defaultUses: int,
        now: int): Result<(int, Option<int>), Error> {
    if maxUses.Some? && !(0 <= maxUses.value <= 10000) then Err(InvalidMaxUses)
    else if days.Some? && !(0 <= days.value <= 365) then Err(InvalidExpiry)
    else
      Ok((if maxUses.Some? then maxUses.value else defaultUses,
          if days.Some? && days.value > 0 then Some(now + days.value * 86400) else None))
  }

  function CreateInvite(
    db: Db, room: RoomId, requester: UserId, maxUses: Option<int>, days: Option<int>, defaultUses: int,
    id: string, codes: seq<string>, now: int): Outcome
  {
    if room !in db.rooms then Outcome(db, Err(RoomNotFound))
    else if !IsIn(db, room, requester) then Outcome(db, Err(NotAMember))
    else match InviteTerms(maxUses, days, defaultUses, now)
      case Err(e) => Outcome(db, Err(e))
      case Ok((max, expiresAt)) =>
        match FirstFree(db.invites, id, codes, 5)
        case None => Outcome(db, Err(CodeGenerationFailed))
        case Some(code) =>
          Outcome(db.(invites := db.invites + [Invite(id, code, room, max, 0, expiresAt, false)]), Ok(Created(code)))
  }

  function RevokeInvite(db: Db, room: RoomId, id: string, requester: UserId): Outcome {
    if room !in db.rooms then Outcome(db, Err(RoomNotFound))
    else if !IsIn(db, room, requester) then Outcome(db, Err(NotAMember))
    else
      var at := InviteById(db.invites, id);
      if at.None? || db.invites[at.value].room != room || db.invites[at.value].revoked
      then Outcome(db, Err(InviteNotFound))
      else Outcome(db.(invites := db.invites[at.value := db.invites[at.value].(revoked := true)]), Ok(Done))
  }

  function RedeemInvite(db: Db, code: string, user: UserId, cap: int, now: int): Outcome {
    var at := InviteByCode(db.invites, code);
    if at.None? then Outcome(db, Err(InviteNotFound))
    else
      var i := db.invites[at.value];
      if i.revoked then Outcome(db, Err(Revoked))
      else if i.expiresAt.Some? && i.expiresAt.value < now then Outcome(db, Err(Expired))
      else if i.maxUses > 0 && i.uses >= i.maxUses then Outcome(db, Err(Exhausted))
      else if i.room !in db.rooms then Outcome(db, Err(Database))
      else if IsIn(db, i.room, user) then Outcome(db, Ok(AlreadyJoined(i.room, RoleOf(db, i.room, user))))
      else if |db.rooms[i.room].members| >= cap then Outcome(db, Err(RoomFull))
      else
        Outcome(SetMember(db, i.room, user, Membership(Member, now))
                  .(invites := db.invites[at.value := i.(uses := i.uses + 1)]),
                Ok(Joined(i.room)))
  }

  // ---- Runs ----

  datatype Op =
    | DoCreate(room: RoomId, user: UserId, roomLimit: int, now: int)
    | DoLeave(room: RoomId, user: UserId, heir: UserId)
    | DoDelete(room: RoomId, user: UserId)
    | DoAdd(room: RoomId, user: UserId, target: UserId, known: bool, welcome: bool, devices: nat, now: int)
    | DoKick(room: RoomId, user: UserId, target: UserId, discord: bool)
    | DoPromote(room: RoomId, user: UserId, target: UserId, discord: bool)
    | DoDemote(room: RoomId, user: UserId, target: UserId, discord: bool)
    | DoTransfer(room: RoomId, user: UserId, target: UserId)
    | DoInvite(room: RoomId, user: UserId, maxUses: Option<int>, days: Option<int>, defaultUses: int,
               id: string, codes: seq<string>, now: int)
    | DoRevoke(room: RoomId, id: string, user: UserId)
    | DoRedeem(code: string, user: UserId, now: int)

  /** One transaction; cap is the effective room size. A leave with a wrong heir cannot happen and does nothing. */
  function Step(db: Db, cap: int, op: Op): Outcome {
    match op
    case DoCreate(room, user, roomLimit, now) => CreateRoom(db, room, user, roomLimit, now)
    case DoLeave(room, user, heir) =>
      if IsIn(db, room, user) && db.rooms[room].owner == user && |db.rooms[room].members| > 1
         && !MaySucceed(db.rooms[room].members, user, heir)
      then Outcome(db, Err(Database))
      else LeaveRoom(db, room, user, heir)
    case DoDelete(room, user) => DeleteRoom(db, room, user)
    case DoAdd(room, user, target, known, welcome, devices, now) =>
      AddMember(db, room, user, target, known, welcome, devices, cap, now)
    case DoKick(room, user, target, discord) => KickMember(db, room, user, target, discord)
    case DoPromote(room, user, target, discord) => PromoteMember(db, room, user, target, discord)
    case DoDemote(room, user, target, discord) => DemoteMember(db, room, user, target, discord)
    case DoTransfer(room, user, target) => TransferOwnership(db, room, user, target)
    case DoInvite(room, user, maxUses, days, defaultUses, id, codes, now) =>
      CreateInvite(db, room, user, maxUses, days, defaultUses, id, codes, now)
    case DoRevoke(room, id, user) => RevokeInvite(db, room, id, user)
    case DoRedeem(code, user, now) => RedeemInvite(db, code, user, cap, now)
  }

  function Run(db: Db, cap: int, ops: seq<Op>): Db {
    if ops == [] then db else Step(Run(db, cap, Init(ops)), cap, Last(ops)).db
  }

  const EMPTY := Db(map[], [], [])
}
