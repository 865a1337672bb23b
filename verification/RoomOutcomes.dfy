/** What each room use case answers and changes, case by case. */
module RoomOutcomes {
  import opened Common
  import opened Rooms
  import opened RoomGuarantees

  /** The participant has a member row in the room that is not deleted. */
  predicate IsIn(s: State, room: nat, p: nat) {
    (room, p) in s.members && !s.members[(room, p)].deleted
  }

  /** The room and the participant exist, and the room has no positive limit or fewer undeleted
      non-system members than its limit. */
  predicate HasPlace(s: State, room: nat, p: nat) {
    && room in s.rooms && p in s.kinds
    && (s.rooms[room].maxMembers <= 0
        || |set q | q in s.kinds && s.kinds[q] != System && IsIn(s, room, q)| < s.rooms[room].maxMembers)
  }

  /** Exactly this member row was written: a new one with the role, or the old one undeleted. */
  predicate Joined(s: State, s': State, room: nat, p: nat, role: Role) {
    var kept := if (room, p) in s.members then s.members[(room, p)].role else role;
    s'.members == s.members[(room, p) := MemberRow(kept, false)]
  }

  lemma CanAddIff(s: State, room: nat, p: nat)
    ensures CanAdd(s, room, p) <==> HasPlace(s, room, p)
  {
    assert (set q | q in s.kinds && s.kinds[q] != System && IsIn(s, room, q)) == Counted(s, room);
  }

  /** An insert succeeds exactly if there is a place, and then writes exactly that row. */
  lemma AddOutcome(s: State, room: nat, p: nat, role: Role)
    ensures CanAdd(s, room, p) <==> HasPlace(s, room, p)
    ensures
      var s' := Add(s, room, p, role);
      && s' == s.(members := s'.members)
      && if HasPlace(s, room, p) then Joined(s, s', room, p, role) else s' == s
  {
    CanAddIff(s, room, p);
  }

  // --- answering ---

  /** The invitee joined and the invitation is accepted; or it failed and nothing changed. */
  predicate Admitted(s: State, s': State, r: Result, id: nat)
    requires id in s.invites
  {
    var invite := s.invites[id];
    if IsIn(s, invite.room, invite.invitee) then r == ErrAlreadyMember && s' == s
    else if !HasPlace(s, invite.room, invite.invitee) then r == ErrCreate && s' == s
    else
      && r == Ok && Joined(s, s', invite.room, invite.invitee, Regular)
      && s'.invites == s.invites[id := invite.(status := Accepted)]
      && s' == s.(members := s'.members, invites := s'.invites)
  }

  /** Only the status of this invitation changed. */
  predicate Answered(s: State, s': State, r: Result, id: nat, status: Status)
    requires id in s.invites
  {
    r == Ok && s' == s.(invites := s.invites[id := s.invites[id].(status := status)])
  }

  lemma AdmitOutcome(s: State, id: nat)
    requires id in s.invites
    ensures Admitted(s, DoAdmit(s, id).0, DoAdmit(s, id).1, id)
  {
    CanAddIff(s, s.invites[id].room, s.invites[id].invitee);
  }

  /** The invitee of a pending invitation answers: accepting admits it as a regular member,
      rejecting and blocking only set the status. */
  lemma RespondOutcome(s: State, id: nat, action: Action)
    requires id in s.invites && s.invites[id].status == Pending && s.invites[id].kind == Invitation
    ensures
      var (s', r) := DoRespond(s, Some(s.invites[id].invitee), id, action);
      match action
      case AcceptIt => Admitted(s, s', r, id)
      case RejectIt => Answered(s, s', r, id, Rejected)
      case BlockIt => Answered(s, s', r, id, Blocked)
      case SomethingElse => r == ErrInvalidInvitationAction && s' == s
  {
    AdmitOutcome(s, id);
  }

  /** Any other answer to an invitation fails, with the error of the first check that does not
      hold, and changes nothing. */
  lemma RespondRefused(s: State, caller: Option<nat>, id: nat, action: Action)
    requires action == SomethingElse || id !in s.invites || s.invites[id].status != Pending
      || s.invites[id].kind != Invitation || caller != Some(s.invites[id].invitee)
    ensures DoRespond(s, caller, id, action) == (s,
      if action == SomethingElse then ErrInvalidInvitationAction
      else if id !in s.invites then ErrInvitationNotFound
      else if s.invites[id].status != Pending then ErrInvitationAlreadyResolved
      else if s.invites[id].kind != Invitation then ErrInvalidInvitationType
      else if caller.None? then ErrParticipantNotFound
      else ErrNotInvitee)
  {
  }

  /** The participant's member row in the room, deleted or not, is that of an owner or admin. */
  predicate Administers(s: State, room: nat, caller: Option<nat>) {
    && caller.Some? && (room, caller.value) in s.members
    && (s.members[(room, caller.value)].role == Owner || s.members[(room, caller.value)].role == Admin)
  }

  /** An owner or admin answers a pending join request: approving admits the asker as a regular
      member, not approving only rejects the request. */
  lemma ApproveOutcome(s: State, caller: Option<nat>, id: nat, approve: bool)
    requires id in s.invites && s.invites[id].status == Pending && s.invites[id].kind == JoinRequest
    requires Administers(s, s.invites[id].room, caller)
    ensures
      var (s', r) := DoApprove(s, caller, id, approve);
      if approve then Admitted(s, s', r, id) else Answered(s, s', r, id, Rejected)
  {
    AdmitOutcome(s, id);
  }

  lemma ApproveRefused(s: State, caller: Option<nat>, id: nat, approve: bool)
    requires id !in s.invites || s.invites[id].status != Pending || s.invites[id].kind != JoinRequest
      || !Administers(s, s.invites[id].room, caller)
    ensures DoApprove(s, caller, id, approve) == (s,
      if id !in s.invites then ErrInvitationNotFound
      else if s.invites[id].status != Pending then ErrInvitationAlreadyResolved
      else if s.invites[id].kind != JoinRequest then ErrInvalidInvitationType
      else if caller.None? then ErrParticipantNotFound
      else ErrNotRoomAdmin)
  {
  }

  // --- joining ---

  /** Some invitation or join request of the participant for the room is pending. */
  ghost predicate Waits(s: State, room: nat, p: nat) {
    exists id :: id in s.invites && s.invites[id].room == room && s.invites[id].invitee == p
      && s.invites[id].status == Pending
  }

  /** A user outside the room with nothing pending gets a pending join request and nothing else;
      an agent or system participant becomes a regular member if there is a place. */
  lemma JoinOutcome(s: State, p: nat, room: nat)
    requires room in s.rooms && p in s.kinds && !IsIn(s, room, p)
    ensures
      var (s', r) := DoJoin(s, Some(p), room);
      if s.kinds[p] == Agent || s.kinds[p] == System then
        if HasPlace(s, room, p) then r == Ok && Joined(s, s', room, p, Regular) && s' == s.(members := s'.members)
        else r == ErrCreate && s' == s
      else if Waits(s, room, p) then r == ErrInvitationAlreadyExists && s' == s
      else
        && r == Ok
        && s' == s.(invites := s.invites[s.nextInvite := Invite(room, p, p, Pending, JoinRequest)],
                    nextInvite := s.nextInvite + 1)
  {
    CanAddIff(s, room, p);
  }

  lemma JoinRefused(s: State, caller: Option<nat>, room: nat)
    requires room !in s.rooms || caller.None? || caller.value !in s.kinds || IsIn(s, room, caller.value)
    ensures DoJoin(s, caller, room) == (s,
      if room !in s.rooms then ErrChatRoomNotFound
      else if caller.None? || caller.value !in s.kinds then ErrParticipantNotFound
      else ErrAlreadyMember)
  {
  }

  // --- creating ---

  /** Some direct room has both participants as undeleted members. */
  ghost predicate ShareDirectRoom(s: State, a: nat, b: nat) {
    exists room :: room in s.rooms && s.rooms[room].direct && IsIn(s, room, a) && IsIn(s, room, b)
  }

  /** The error, or the early answer, with which creating a room stops before it inserts
      anything that stays. */
  ghost function StopsWith(
    s: State, caller: Option<nat>, direct: bool, invited: seq<Option<nat>>, blocked: bool)
    : Option<Result>
  {
    var pair := direct && |invited| == 1;
    if caller.None? then Some(ErrParticipantNotFound)
    else if pair && invited[0].None? then Some(ErrParticipantNotFound)
    else if pair && blocked then Some(ErrUserBlocked)
    else if pair && ShareDirectRoom(s, caller.value, invited[0].value) then Some(AlreadyExisted)
    else if caller.value !in s.kinds then Some(ErrCreate)
    else if None in invited then Some(ErrParticipantNotFound)
    else None
  }

  /** The room, its owner, and one pending invitation for each listed participant, numbered in
      list order; nothing else. */
  ghost predicate Created(
    s: State, s': State, caller: nat, maxMembers: int, direct: bool, invited: seq<Option<nat>>)
  {
    var room := s.nextRoom;
    && s'.kinds == s.kinds && s'.nextRoom == room + 1
    && s'.rooms == s.rooms[room := Room(maxMembers, direct, CreatedBy(caller))]
    && s'.members == s.members[(room, caller) := MemberRow(Owner, false)]
    && s'.nextInvite == s.nextInvite + |invited|
    && (forall id :: id in s'.invites <==> id in s.invites || s.nextInvite <= id < s.nextInvite + |invited|)
    && (forall id :: id in s.invites ==> s'.invites[id] == s.invites[id])
    && (forall i :: 0 <= i < |invited| ==>
          invited[i].Some? && s.nextInvite + i in s'.invites
          && s'.invites[s.nextInvite + i] == Invite(room, caller, invited[i].value, Pending, Invitation))
  }

  lemma {:induction false} InvitedInOrder(s: State, room: nat, inviter: nat, invited: seq<Option<nat>>)
    requires Numbered(s) && None !in invited
    ensures
      var s' := AddInvites(s, room, inviter, invited);
      && s'.nextInvite == s.nextInvite + |invited|
      && (forall id :: id in s'.invites <==> id in s.invites || s.nextInvite <= id < s.nextInvite + |invited|)
      && (forall id :: id in s.invites ==> s'.invites[id] == s.invites[id])
      && (forall i :: 0 <= i < |invited| ==>
            invited[i].Some? && s.nextInvite + i in s'.invites
            && s'.invites[s.nextInvite + i] == Invite(room, inviter, invited[i].value, Pending, Invitation))
    decreases |invited|
  {
    if invited != [] {
      assert invited[|invited| - 1] in invited;
      InvitedInOrder(s, room, inviter, invited[..|invited| - 1]);
    }
  }

  /** A room with one place has it for its creator. */
  lemma EmptyRoomHasPlace(s: State, room: Room, p: nat)
    requires WithinLimits(s) && p in s.kinds
    ensures CanAdd(AddRoom(s, room), s.nextRoom, p) && (s.nextRoom, p) !in s.members
  {
    var s1 := AddRoom(s, room);
    assert forall q :: !IsActive(s1, s.nextRoom, q);
    assert Counted(s1, s.nextRoom) == {};
  }

  lemma SharedIff(s: State, a: nat, b: nat)
    ensures HasDirect(s, a, b) <==> ShareDirectRoom(s, a, b)
  {
    if room :| room in s.rooms && s.rooms[room].direct && IsActive(s, room, a) && IsActive(s, room, b) {
      assert IsIn(s, room, a) && IsIn(s, room, b);
    }
    if room :| room in s.rooms && s.rooms[room].direct && IsIn(s, room, a) && IsIn(s, room, b) {
      assert IsActive(s, room, a) && IsActive(s, room, b);
    }
  }

  lemma CreateStops(
    s: State, caller: Option<nat>, maxMembers: int, direct: bool, invited: seq<Option<nat>>, blocked: bool)
    requires WithinLimits(s) && StopsWith(s, caller, direct, invited, blocked).Some?
    ensures DoCreateRoom(s, caller, maxMembers, direct, invited, blocked)
         == (s, StopsWith(s, caller, direct, invited, blocked).value)
  {
    if caller.Some? && direct && |invited| == 1 && invited[0].Some? {
      SharedIff(s, caller.value, invited[0].value);
    }
    if caller.Some? && caller.value in s.kinds {
      EmptyRoomHasPlace(s, Room(maxMembers, direct, CreatedBy(caller.value)), caller.value);
    }
  }

  lemma CreateSucceeds(
    s: State, caller: Option<nat>, maxMembers: int, direct: bool, invited: seq<Option<nat>>, blocked: bool)
    requires WithinLimits(s) && Numbered(s) && StopsWith(s, caller, direct, invited, blocked).None?
    ensures
      var (s', r) := DoCreateRoom(s, caller, maxMembers, direct, invited, blocked);
      r == Ok && Created(s, s', caller.value, maxMembers, direct, invited)
  {
    if direct && |invited| == 1 {
      SharedIff(s, caller.value, invited[0].value);
    }
    var room := Room(maxMembers, direct, CreatedBy(caller.value));
    EmptyRoomHasPlace(s, room, caller.value);
    var s2 := Add(AddRoom(s, room), s.nextRoom, caller.value, Owner);
    InvitesOnly(s2, s.nextRoom, caller.value, invited);
    InvitedInOrder(s2, s.nextRoom, caller.value, invited);
  }

  /** Creating a room either stops and changes nothing, or makes the room with the caller as its
      owner and invites each listed participant once, in order. */
  lemma CreateOutcome(
    s: State, caller: Option<nat>, maxMembers: int, direct: bool, invited: seq<Option<nat>>, blocked: bool)
    requires WithinLimits(s) && Numbered(s)
    ensures
      var (s', r) := DoCreateRoom(s, caller, maxMembers, direct, invited, blocked);
      var stop := StopsWith(s, caller, direct, invited, blocked);
      if stop.Some? then r == stop.value && s' == s
      else r == Ok && Created(s, s', caller.value, maxMembers, direct, invited)
  {
    if StopsWith(s, caller, direct, invited, blocked).Some? {
      CreateStops(s, caller, maxMembers, direct, invited, blocked);
    } else {
      CreateSucceeds(s, caller, maxMembers, direct, invited, blocked);
    }
  }

  /** Two new friends get a direct room for two with both as regular members, unless one of them
      is no participant or they share a direct room; then nothing changes. */
  lemma FriendRoomOutcome(s: State, accepter: Option<nat>, requester: Option<nat>)
    requires WithinLimits(s)
    requires accepter.Some? ==> accepter.value in s.kinds
    requires requester.Some? ==> requester.value in s.kinds
    ensures
      var s' := DoMakeFriendRoom(s, accepter, requester);
      if accepter.None? || requester.None? || ShareDirectRoom(s, accepter.value, requester.value) then s' == s
      else
        var room, a, b := s.nextRoom, accepter.value, requester.value;
        && s'.rooms == s.rooms[room := Room(2, true, MadeForFriends(a, b))] && s'.nextRoom == room + 1
        && s'.members == s.members[(room, a) := MemberRow(Regular, false)][(room, b) := MemberRow(Regular, false)]
        && s' == s.(rooms := s'.rooms, nextRoom := s'.nextRoom, members := s'.members)
  {
    if accepter.Some? && requester.Some? {
      var a, b := accepter.value, requester.value;
      SharedIff(s, a, b);
      var room := Room(2, true, MadeForFriends(a, b));
      EmptyRoomHasPlace(s, room, a);
      EmptyRoomHasPlace(s, room, b);
      var s1 := AddRoom(s, room);
      CountedAfterAdd(s1, s.nextRoom, a, Regular, s.nextRoom);
      assert Counted(s1, s.nextRoom) == {} by {
        assert forall q :: !IsActive(s1, s.nextRoom, q);
      }
    }
  }
}
