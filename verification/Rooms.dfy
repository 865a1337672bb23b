/** Rooms, members and invitations, and the use cases that change them. Each use case is one
    transaction. */
module Rooms {
  import opened Common

  datatype Kind = User | Agent | System

  datatype Role = Owner | Admin | Regular | Guest

  datatype InvitationType = JoinRequest | Invitation

  datatype Status = Pending | Accepted | Rejected | Blocked

  /** The operation that made a room. It is not a column, only a way to speak about rooms. */
  datatype Origin = CreatedBy(creator: nat) | MadeForFriends(accepter: nat, requester: nat)

  datatype Room = Room(maxMembers: int, direct: bool, origin: Origin)

  datatype MemberRow = MemberRow(role: Role, deleted: bool)

  datatype Invite = Invite(room: nat, inviter: nat, invitee: nat, status: Status, kind: InvitationType)

  /** members is keyed by its unique pair (room, participant). */
  datatype State = State(
    kinds: map<nat, Kind>, rooms: map<nat, Room>, nextRoom: nat,
    members: map<(nat, nat), MemberRow>, invites: map<nat, Invite>, nextInvite: nat)

  datatype Result =
    | Ok
    | AlreadyExisted
    | ErrParticipantNotFound
    | ErrUserBlocked
    | ErrChatRoomNotFound
    | ErrAlreadyMember
    | ErrInvitationAlreadyExists
    | ErrInvitationNotFound
    | ErrInvitationAlreadyResolved
    | ErrInvalidInvitationAction
    | ErrInvalidInvitationType
    | ErrNotInvitee
    | ErrNotRoomAdmin
    | ErrCreate

  datatype Action = AcceptIt | RejectIt | BlockIt | SomethingElse

  datatype Event =
    | CreateRoom(caller: Option<nat>, maxMembers: int, direct: bool, invited: seq<Option<nat>>, blocked: bool)
    | Join(caller: Option<nat>, room: nat)
    | Respond(caller: Option<nat>, invite: nat, action: Action)
    | Approve(caller: Option<nat>, invite: nat, approve: bool)
    | MakeFriendRoom(accepter: Option<nat>, requester: Option<nat>)
    | AddMember(room: nat, participant: nat, role: Role)
    | SoftDelete(room: nat, participant: nat)

  function Start(kinds: map<nat, Kind>): State {
    State(kinds, map[], 1, map[], map[], 1)
  }

  predicate IsActive(s: State, room: nat, participant: nat) {
    (room, participant) in s.members && !s.members[(room, participant)].deleted
  }

  /** The active members the trigger counts: all but the system ones. */
  function Counted(s: State, room: nat): set<nat> {
    set p | p in s.kinds && s.kinds[p] != System && IsActive(s, room, p)
  }

  /** limit_member_of_room raises. It runs before every insert, also before one that turns out
      to restore a row. */
  predicate IsFull(s: State, room: nat) {
    room in s.rooms && s.rooms[room].maxMembers > 0 && |Counted(s, room)| >= s.rooms[room].maxMembers
  }

  predicate CanAdd(s: State, room: nat, participant: nat) {
    room in s.rooms && participant in s.kinds && !IsFull(s, room)
  }

  /** Insert, or restore the existing row, whose role stays as it was. */
  function Add(s: State, room: nat, participant: nat, role: Role): State {
    if !CanAdd(s, room, participant) then s
    else
      var key := (room, participant);
      s.(members := s.members[key := MemberRow(if key in s.members then s.members[key].role else role, false)])
  }

  function AddRoom(s: State, room: Room): State {
    s.(rooms := s.rooms[s.nextRoom := room], nextRoom := s.nextRoom + 1)
  }

  function AddInvite(s: State, invite: Invite): State {
    s.(invites := s.invites[s.nextInvite := invite], nextInvite := s.nextInvite + 1)
  }

  function AddInvites(s: State, room: nat, inviter: nat, invited: seq<Option<nat>>): State
    decreases |invited|
  {
    if invited == [] then s
    else
      var last := invited[|invited| - 1];
      var s1 := AddInvites(s, room, inviter, invited[..|invited| - 1]);
      if last.None? then s1 else AddInvite(s1, Invite(room, inviter, last.value, Pending, Invitation))
  }

  /** Updating an unknown id changes nothing. */
  function SetStatus(s: State, id: nat, status: Status): State {
    if id in s.invites then s.(invites := s.invites[id := s.invites[id].(status := status)]) else s
  }

  predicate HasPending(s: State, room: nat, invitee: nat) {
    exists id :: id in s.invites && s.invites[id].room == room && s.invites[id].invitee == invitee
      && s.invites[id].status == Pending
  }

  /** FindDirectByParticipants finds a room. */
  predicate HasDirect(s: State, a: nat, b: nat) {
    exists room :: room in s.rooms && s.rooms[room].direct && IsActive(s, room, a) && IsActive(s, room, b)
  }

  // --- use cases ---

  /** caller is the participant of the calling user; invited those of the invited users, None
      for a user without one. blocked is the friendship lookup of the branch for a direct room
      with one invited user. */
  function DoCreateRoom(
    s: State, caller: Option<nat>, maxMembers: int, direct: bool, invited: seq<Option<nat>>, blocked: bool)
    : (State, Result)
  {
    if caller.None? then (s, ErrParticipantNotFound)
    else if direct && |invited| == 1 && invited[0].None? then (s, ErrParticipantNotFound)
    else if direct && |invited| == 1 && blocked then (s, ErrUserBlocked)
    else if direct && |invited| == 1 && HasDirect(s, caller.value, invited[0].value) then (s, AlreadyExisted)
    else
      var s1 := AddRoom(s, Room(maxMembers, direct, CreatedBy(caller.value)));
      if !CanAdd(s1, s.nextRoom, caller.value) then (s, ErrCreate)
      else if None in invited then (s, ErrParticipantNotFound)
      else (AddInvites(Add(s1, s.nextRoom, caller.value, Owner), s.nextRoom, caller.value, invited), Ok)
  }

  function DoJoin(s: State, caller: Option<nat>, room: nat): (State, Result) {
    if room !in s.rooms then (s, ErrChatRoomNotFound)
    else if caller.None? || caller.value !in s.kinds then (s, ErrParticipantNotFound)
    else if IsActive(s, room, caller.value) then (s, ErrAlreadyMember)
    else if s.kinds[caller.value] != User then
      if CanAdd(s, room, caller.value) then (Add(s, room, caller.value, Regular), Ok) else (s, ErrCreate)
    else if HasPending(s, room, caller.value) then (s, ErrInvitationAlreadyExists)
    else (AddInvite(s, Invite(room, caller.value, caller.value, Pending, JoinRequest)), Ok)
  }

  /** The invitee becomes a member and the invitation accepted, or nothing changes. */
  function DoAdmit(s: State, id: nat): (State, Result)
    requires id in s.invites
  {
    var invite := s.invites[id];
    if IsActive(s, invite.room, invite.invitee) then (s, ErrAlreadyMember)
    else if !CanAdd(s, invite.room, invite.invitee) then (s, ErrCreate)
    else (SetStatus(Add(s, invite.room, invite.invitee, Regular), id, Accepted), Ok)
  }

  function DoRespond(s: State, caller: Option<nat>, id: nat, action: Action): (State, Result) {
    if action == SomethingElse then (s, ErrInvalidInvitationAction)
    else if id !in s.invites then (s, ErrInvitationNotFound)
    else if s.invites[id].status != Pending then (s, ErrInvitationAlreadyResolved)
    else if s.invites[id].kind != Invitation then (s, ErrInvalidInvitationType)
    else if caller.None? then (s, ErrParticipantNotFound)
    else if s.invites[id].invitee != caller.value then (s, ErrNotInvitee)
    else if action == RejectIt then (SetStatus(s, id, Rejected), Ok)
    else if action == BlockIt then (SetStatus(s, id, Blocked), Ok)
    else DoAdmit(s, id)
  }

  /** The caller's own row is not checked for deletion here. */
  predicate IsAdmin(s: State, room: nat, participant: nat) {
    (room, participant) in s.members && s.members[(room, participant)].role in {Owner, Admin}
  }

  function DoApprove(s: State, caller: Option<nat>, id: nat, approve: bool): (State, Result) {
    if id !in s.invites then (s, ErrInvitationNotFound)
    else if s.invites[id].status != Pending then (s, ErrInvitationAlreadyResolved)
    else if s.invites[id].kind != JoinRequest then (s, ErrInvalidInvitationType)
    else if caller.None? then (s, ErrParticipantNotFound)
    else if !IsAdmin(s, s.invites[id].room, caller.value) then (s, ErrNotRoomAdmin)
    else if !approve then (SetStatus(s, id, Rejected), Ok)
    else DoAdmit(s, id)
  }

  /** The room for two new friends, unless one of them is no participant or they share a direct
      room already; a failing insert is only logged. */
  function DoMakeFriendRoom(s: State, accepter: Option<nat>, requester: Option<nat>): State {
    if accepter.None? || requester.None? then s
    else if HasDirect(s, accepter.value, requester.value) then s
    else AddFriendRoom(s, accepter.value, requester.value)
  }

  function AddFriendRoom(s: State, accepter: nat, requester: nat): State {
    var s1 := AddRoom(s, Room(2, true, MadeForFriends(accepter, requester)));
    Add(Add(s1, s.nextRoom, accepter, Regular), s.nextRoom, requester, Regular)
  }

  function Step(s: State, e: Event): (State, Result) {
    match e
    case CreateRoom(caller, maxMembers, direct, invited, blocked) =>
      DoCreateRoom(s, caller, maxMembers, direct, invited, blocked)
    case Join(caller, room) => DoJoin(s, caller, room)
    case Respond(caller, id, action) => DoRespond(s, caller, id, action)
    case Approve(caller, id, approve) => DoApprove(s, caller, id, approve)
    case MakeFriendRoom(a, b) => (DoMakeFriendRoom(s, a, b), Ok)
    case AddMember(room, p, role) =>
      (Add(s, room, p, role), if CanAdd(s, room, p) then Ok else ErrCreate)
    case SoftDelete(room, p) =>
      (if (room, p) in s.members
       then s.(members := s.members[(room, p) := s.members[(room, p)].(deleted := true)]) else s, Ok)
  }

  function Run(kinds: map<nat, Kind>, run: seq<Event>): State
    decreases |run|
  {
    if run == [] then Start(kinds) else Step(Run(kinds, run[..|run| - 1]), run[|run| - 1]).0
  }

  /** The tables, with the use cases as they run inside their transactions. */
  class ChatStore {
    const kinds: map<nat, Kind>
    var rooms: map<nat, Room>
    var nextRoom: nat
    var members: map<(nat, nat), MemberRow>
    var invites: map<nat, Invite>
    var nextInvite: nat

    ghost function View(): State
      reads this
    {
      State(kinds, rooms, nextRoom, members, invites, nextInvite)
    }

    constructor (kinds: map<nat, Kind>)
      ensures View() == Start(kinds)
    {
      this.kinds := kinds;
      rooms, nextRoom, members, invites, nextInvite := map[], 1, map[], map[], 1;
    }

    method CreateRoomRow(room: Room) returns (id: nat)
      modifies `rooms, `nextRoom
      ensures id == old(nextRoom) && View() == AddRoom(old(View()), room)
      ensures rooms == old(rooms)[id := room] && nextRoom == id + 1
    {
      id := nextRoom;
      rooms, nextRoom := rooms[id := room], nextRoom + 1;
    }

    /** The trigger, then the upsert. */
    method AddMember(room: nat, participant: nat, role: Role) returns (ok: bool)
      modifies `members
      ensures ok == CanAdd(old(View()), room, participant)
      ensures View() == Add(old(View()), room, participant, role)
    {
      if room !in rooms || participant !in kinds {
        return false;
      }
      var maxLimit := rooms[room].maxMembers;
      var currentCount := |set p | p in kinds && kinds[p] != System
                                   && (room, p) in members && !members[(room, p)].deleted|;
      assert (set p | p in kinds && kinds[p] != System && (room, p) in members && !members[(room, p)].deleted)
        == Counted(View(), room);
      if maxLimit > 0 && currentCount >= maxLimit {
        return false;
      }
      if (room, participant) in members {
        members := members[(room, participant) := members[(room, participant)].(deleted := false)];
      } else {
        members := members[(room, participant) := MemberRow(role, false)];
      }
      ok := true;
    }

    method CreateInvite(invite: Invite) returns (id: nat)
      modifies `invites, `nextInvite
      ensures id == old(nextInvite) && View() == AddInvite(old(View()), invite)
      ensures invites == old(invites)[id := invite] && nextInvite == id + 1
    {
      id := nextInvite;
      invites, nextInvite := invites[id := invite], nextInvite + 1;
    }

    method UpdateStatus(id: nat, status: Status)
      modifies `invites
      ensures View() == SetStatus(old(View()), id, status)
      ensures invites ==
        if id in old(invites) then old(invites)[id := old(invites)[id].(status := status)] else old(invites)
    {
      if id in invites {
        invites := invites[id := invites[id].(status := status)];
      }
    }

    method Rollback(s: State)
      requires s.kinds == kinds
      modifies this
      ensures View() == s
    {
      rooms, nextRoom, members := s.rooms, s.nextRoom, s.members;
      invites, nextInvite := s.invites, s.nextInvite;
    }

    /** The loop that looks up and invites each listed user. A missing user rolls everything
        back. */
    method CreateRoom(
      caller: Option<nat>, maxMembers: int, direct: bool, invited: seq<Option<nat>>, blocked: bool)
      returns (r: Result)
      modifies this
      ensures (View(), r) == DoCreateRoom(old(View()), caller, maxMembers, direct, invited, blocked)
    {
      var start := State(kinds, rooms, nextRoom, members, invites, nextInvite);
      if caller.None? {
        return ErrParticipantNotFound;
      }
      if direct && |invited| == 1 {
        if invited[0].None? {
          return ErrParticipantNotFound;
        }
        if blocked {
          return ErrUserBlocked;
        }
        var existing := FindDirectByParticipants(caller.value, invited[0].value);
        if existing {
          return AlreadyExisted;
        }
      }
      var room := CreateRoomRow(Room(maxMembers, direct, CreatedBy(caller.value)));
      var ok := AddMember(room, caller.value, Owner);
      if !ok {
        Rollback(start);
        return ErrCreate;
      }
      ghost var joined := View();
      for i := 0 to |invited|
        invariant None !in invited[..i]
        invariant View() == AddInvites(joined, room, caller.value, invited[..i])
      {
        if invited[i].None? {
          Rollback(start);
          return ErrParticipantNotFound;
        }
        assert invited[..i + 1][..i] == invited[..i];
        var id := CreateInvite(Invite(room, caller.value, invited[i].value, Pending, Invitation));
      }
      assert invited[..|invited|] == invited;
      r := Ok;
    }

    method Join(caller: Option<nat>, room: nat) returns (r: Result)
      modifies this
      ensures (View(), r) == DoJoin(old(View()), caller, room)
    {
      if room !in rooms {
        return ErrChatRoomNotFound;
      }
      if caller.None? || caller.value !in kinds {
        return ErrParticipantNotFound;
      }
      var p := caller.value;
      if (room, p) in members && !members[(room, p)].deleted {
        return ErrAlreadyMember;
      }
      if kinds[p] == Agent || kinds[p] == System {
        var ok := AddMember(room, p, Regular);
        return if ok then Ok else ErrCreate;
      }
      var found := exists id :: id in invites && invites[id].room == room && invites[id].invitee == p
                                && invites[id].status == Pending;
      if found {
        return ErrInvitationAlreadyExists;
      }
      var id := CreateInvite(Invite(room, p, p, Pending, JoinRequest));
      r := Ok;
    }

    method Admit(id: nat) returns (r: Result)
      requires id in invites
      modifies this
      ensures (View(), r) == DoAdmit(old(View()), id)
    {
      var invite := invites[id];
      if (invite.room, invite.invitee) in members && !members[(invite.room, invite.invitee)].deleted {
        return ErrAlreadyMember;
      }
      var ok := AddMember(invite.room, invite.invitee, Regular);
      if !ok {
        return ErrCreate;
      }
      UpdateStatus(id, Accepted);
      r := Ok;
    }

    /** toBlock is the inviter whom a block answer also blocks as a friend. */
    method Respond(caller: Option<nat>, id: nat, action: Action) returns (r: Result, toBlock: Option<nat>)
      modifies this
      ensures (View(), r) == DoRespond(old(View()), caller, id, action)
      ensures toBlock == if r == Ok && action == BlockIt then Some(old(invites)[id].inviter) else None
    {
      toBlock := None;
      if action == SomethingElse {
        return ErrInvalidInvitationAction, None;
      }
      if id !in invites {
        return ErrInvitationNotFound, None;
      }
      var invite := invites[id];
      if invite.status != Pending {
        return ErrInvitationAlreadyResolved, None;
      }
      if invite.kind != Invitation {
        return ErrInvalidInvitationType, None;
      }
      if caller.None? {
        return ErrParticipantNotFound, None;
      }
      if invite.invitee != caller.value {
        return ErrNotInvitee, None;
      }
      if action == RejectIt {
        UpdateStatus(id, Rejected);
        return Ok, None;
      }
      if action == BlockIt {
        UpdateStatus(id, Blocked);
        return Ok, Some(invite.inviter);
      }
      r := Admit(id);
    }

    method Approve(caller: Option<nat>, id: nat, approve: bool) returns (r: Result)
      modifies this
      ensures (View(), r) == DoApprove(old(View()), caller, id, approve)
    {
      if id !in invites {
        return ErrInvitationNotFound;
      }
      var invite := invites[id];
      if invite.status != Pending {
        return ErrInvitationAlreadyResolved;
      }
      if invite.kind != JoinRequest {
        return ErrInvalidInvitationType;
      }
      if caller.None? {
        return ErrParticipantNotFound;
      }
      if (invite.room, caller.value) !in members {
        return ErrNotRoomAdmin;
      }
      var role := members[(invite.room, caller.value)].role;
      if role != Owner && role != Admin {
        return ErrNotRoomAdmin;
      }
      if !approve {
        UpdateStatus(id, Rejected);
        return Ok;
      }
      r := Admit(id);
    }

    method MakeFriendRoom(accepter: Option<nat>, requester: Option<nat>)
      modifies this
      ensures View() == DoMakeFriendRoom(old(View()), accepter, requester)
    {
      if accepter.None? || requester.None? {
        return;
      }
      var existing := FindDirectByParticipants(accepter.value, requester.value);
      if !existing {
        var room := CreateRoomRow(Room(2, true, MadeForFriends(accepter.value, requester.value)));
        var first := AddMember(room, accepter.value, Regular);
        var second := AddMember(room, requester.value, Regular);
      }
    }

    method FindDirectByParticipants(a: nat, b: nat) returns (found: bool)
      ensures found == HasDirect(View(), a, b)
    {
      found := exists room :: room in rooms && rooms[room].direct
                              && (room, a) in members && !members[(room, a)].deleted
                              && (room, b) in members && !members[(room, b)].deleted;
      if found {
        var room :| room in rooms && rooms[room].direct
                    && (room, a) in members && !members[(room, a)].deleted
                    && (room, b) in members && !members[(room, b)].deleted;
        assert IsActive(View(), room, a) && IsActive(View(), room, b);
      }
    }

    method SoftDelete(room: nat, participant: nat)
      modifies this
      ensures View() == Step(old(View()), Event.SoftDelete(room, participant)).0
      ensures members ==
        if (room, participant) in old(members)
        then old(members)[(room, participant) := old(members)[(room, participant)].(deleted := true)]
        else old(members)
    {
      if (room, participant) in members {
        members := members[(room, participant) := members[(room, participant)].(deleted := true)];
      }
    }
  }
}
