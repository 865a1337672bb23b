/** Invariants of rooms, members and invitations over every run. */
module RoomGuarantees {
  import opened Common
  import opened Rooms

  // --- capacity ---

  /** No room with a positive limit has more active non-system members than the limit. */
  ghost predicate WithinLimits(s: State) {
    && (forall room :: room in s.rooms ==> room < s.nextRoom)
    && (forall key :: key in s.members ==> key.0 in s.rooms)
    && (forall room :: room in s.rooms && s.rooms[room].maxMembers > 0 ==>
          |Counted(s, room)| <= s.rooms[room].maxMembers)
  }

  lemma CountedAfterAdd(s: State, room: nat, p: nat, role: Role, other: nat)
    requires CanAdd(s, room, p)
    ensures Counted(Add(s, room, p, role), other) ==
      if other == room && s.kinds[p] != System then Counted(s, other) + {p} else Counted(s, other)
  {
    var s' := Add(s, room, p, role);
    var next := if other == room && s.kinds[p] != System then Counted(s, other) + {p} else Counted(s, other);
    forall q ensures q in Counted(s', other) <==> q in next {
      assert IsActive(s', other, q) <==> IsActive(s, other, q) || (other == room && q == p);
    }
  }

  lemma AddWithinLimits(s: State, room: nat, p: nat, role: Role)
    requires WithinLimits(s)
    ensures WithinLimits(Add(s, room, p, role))
  {
    if CanAdd(s, room, p) {
      var s' := Add(s, room, p, role);
      forall other | other in s'.rooms && s'.rooms[other].maxMembers > 0
        ensures |Counted(s', other)| <= s'.rooms[other].maxMembers
      {
        CountedAfterAdd(s, room, p, role, other);
        AtMostOneMore(Counted(s, other), p);
      }
    }
  }

  lemma AtMostOneMore(a: set<nat>, p: nat)
    ensures |a + {p}| <= |a| + 1
  {
    if p in a {
      assert a + {p} == a;
    }
  }

  /** Changing anything but the members of a room leaves its count alone. */
  lemma SameCount(s: State, s': State, room: nat)
    requires s'.kinds == s.kinds
    requires forall p :: IsActive(s', room, p) <==> IsActive(s, room, p)
    ensures Counted(s', room) == Counted(s, room)
  {
  }

  lemma NewRoomWithinLimits(s: State, room: Room)
    requires WithinLimits(s)
    ensures WithinLimits(AddRoom(s, room))
  {
    var s' := AddRoom(s, room);
    forall other | other in s'.rooms && s'.rooms[other].maxMembers > 0
      ensures |Counted(s', other)| <= s'.rooms[other].maxMembers
    {
      SameCount(s, s', other);
      if other == s.nextRoom {
        assert forall p :: !IsActive(s', other, p);
        assert Counted(s', other) == {};
      }
    }
  }

  lemma DeleteWithinLimits(s: State, room: nat, p: nat)
    requires WithinLimits(s)
    ensures WithinLimits(Step(s, Event.SoftDelete(room, p)).0)
  {
    var s' := Step(s, Event.SoftDelete(room, p)).0;
    forall other | other in s'.rooms && s'.rooms[other].maxMembers > 0
      ensures |Counted(s', other)| <= s'.rooms[other].maxMembers
    {
      CountedAfterDelete(s, room, p, other);
    }
  }

  lemma CountedAfterDelete(s: State, room: nat, p: nat, other: nat)
    ensures Counted(Step(s, Event.SoftDelete(room, p)).0, other) ==
      if other == room then Counted(s, other) - {p} else Counted(s, other)
  {
    var s' := Step(s, Event.SoftDelete(room, p)).0;
    var next := if other == room then Counted(s, other) - {p} else Counted(s, other);
    forall q ensures q in Counted(s', other) <==> q in next {
      assert IsActive(s', other, q) <==> IsActive(s, other, q) && !(other == room && q == p);
    }
  }

  lemma OnlyInvitesChange(s: State, s': State)
    requires WithinLimits(s) && s'.kinds == s.kinds && s'.rooms == s.rooms
    requires s'.nextRoom == s.nextRoom && s'.members == s.members
    ensures WithinLimits(s')
  {
    forall room | room in s.rooms ensures Counted(s', room) == Counted(s, room) {
      SameCount(s, s', room);
    }
  }

  lemma {:induction false} InvitesOnly(s: State, room: nat, inviter: nat, invited: seq<Option<nat>>)
    ensures
      var s' := AddInvites(s, room, inviter, invited);
      s'.kinds == s.kinds && s'.rooms == s.rooms && s'.nextRoom == s.nextRoom && s'.members == s.members
    decreases |invited|
  {
    if invited != [] {
      InvitesOnly(s, room, inviter, invited[..|invited| - 1]);
    }
  }

  lemma CreateWithinLimits(s: State, e: Event)
    requires WithinLimits(s) && e.CreateRoom?
    ensures WithinLimits(Step(s, e).0)
  {
    var s' := Step(s, e).0;
    if s' != s {
      var room := Room(e.maxMembers, e.direct, CreatedBy(e.caller.value));
      NewRoomWithinLimits(s, room);
      AddWithinLimits(AddRoom(s, room), s.nextRoom, e.caller.value, Owner);
      var s2 := Add(AddRoom(s, room), s.nextRoom, e.caller.value, Owner);
      InvitesOnly(s2, s.nextRoom, e.caller.value, e.invited);
      OnlyInvitesChange(s2, s');
    }
  }

  lemma FriendRoomWithinLimits(s: State, a: nat, b: nat)
    requires WithinLimits(s)
    ensures WithinLimits(AddFriendRoom(s, a, b))
  {
    var s1 := AddRoom(s, Room(2, true, MadeForFriends(a, b)));
    NewRoomWithinLimits(s, Room(2, true, MadeForFriends(a, b)));
    AddWithinLimits(s1, s.nextRoom, a, Regular);
    AddWithinLimits(Add(s1, s.nextRoom, a, Regular), s.nextRoom, b, Regular);
  }

  lemma AdmitWithinLimits(s: State, id: nat)
    requires WithinLimits(s) && id in s.invites
    ensures WithinLimits(DoAdmit(s, id).0)
  {
    var s' := DoAdmit(s, id).0;
    if s' != s {
      var s1 := Add(s, s.invites[id].room, s.invites[id].invitee, Regular);
      AddWithinLimits(s, s.invites[id].room, s.invites[id].invitee, Regular);
      OnlyInvitesChange(s1, s');
    }
  }

  lemma InvitesWithinLimits(s: State, invites: map<nat, Invite>, nextInvite: nat)
    requires WithinLimits(s)
    ensures WithinLimits(s.(invites := invites, nextInvite := nextInvite))
  {
    OnlyInvitesChange(s, s.(invites := invites, nextInvite := nextInvite));
  }

  /** The outcomes of answering an invitation or join request. */
  lemma AnswerCases(s: State, e: Event)
    requires e.Respond? || e.Approve?
    ensures
      var s' := Step(s, e).0;
      || s' == s.(invites := s'.invites, nextInvite := s'.nextInvite)
      || (e.invite in s.invites && s' == DoAdmit(s, e.invite).0)
  {
  }

  lemma AnswerWithinLimits(s: State, e: Event)
    requires WithinLimits(s) && (e.Respond? || e.Approve?)
    ensures WithinLimits(Step(s, e).0)
  {
    var s' := Step(s, e).0;
    AnswerCases(s, e);
    InvitesWithinLimits(s, s'.invites, s'.nextInvite);
    if e.invite in s.invites {
      AdmitWithinLimits(s, e.invite);
    }
  }

  lemma JoinCases(s: State, caller: Option<nat>, room: nat)
    ensures
      var s' := DoJoin(s, caller, room).0;
      || s' == s.(invites := s'.invites, nextInvite := s'.nextInvite)
      || (caller.Some? && s' == Add(s, room, caller.value, Regular))
  {
  }

  lemma JoinWithinLimits(s: State, caller: Option<nat>, room: nat)
    requires WithinLimits(s)
    ensures WithinLimits(DoJoin(s, caller, room).0)
  {
    var s' := DoJoin(s, caller, room).0;
    JoinCases(s, caller, room);
    InvitesWithinLimits(s, s'.invites, s'.nextInvite);
    if caller.Some? {
      AddWithinLimits(s, room, caller.value, Regular);
    }
  }

  lemma WithinLimitsStep(s: State, e: Event)
    requires WithinLimits(s)
    ensures WithinLimits(Step(s, e).0)
  {
    match e
    case CreateRoom(_, _, _, _, _) => CreateWithinLimits(s, e);
    case Join(caller, room) => JoinWithinLimits(s, caller, room);
    case Respond(_, _, _) => AnswerWithinLimits(s, e);
    case Approve(_, _, _) => AnswerWithinLimits(s, e);
    case MakeFriendRoom(a, b) =>
      if a.Some? && b.Some? {
        FriendRoomWithinLimits(s, a.value, b.value);
      }
    case AddMember(room, p, role) => AddWithinLimits(s, room, p, role);
    case SoftDelete(room, p) => DeleteWithinLimits(s, room, p);
  }

  /** In every run of use cases, plain inserts, restoring upserts and soft deletes, the active
      non-system members of a room never exceed its positive limit. */
  lemma {:induction false} RoomsNeverOverfull(kinds: map<nat, Kind>, run: seq<Event>)
    ensures WithinLimits(Run(kinds, run))
    decreases |run|
  {
    if run != [] {
      RoomsNeverOverfull(kinds, run[..|run| - 1]);
      WithinLimitsStep(Run(kinds, run[..|run| - 1]), run[|run| - 1]);
    } else {
      assert forall room :: Counted(Start(kinds), room) == {};
    }
  }

  /** The limit of a room never changes. */
  lemma LimitIsFixed(s: State, e: Event, room: nat)
    requires WithinLimits(s) && room in s.rooms
    ensures room in Step(s, e).0.rooms && Step(s, e).0.rooms[room] == s.rooms[room]
  {
    if e.CreateRoom? && e.caller.Some? {
      var s1 := AddRoom(s, Room(e.maxMembers, e.direct, CreatedBy(e.caller.value)));
      InvitesOnly(Add(s1, s.nextRoom, e.caller.value, Owner), s.nextRoom, e.caller.value, e.invited);
    }
  }

  // --- invitations ---

  lemma {:induction false} InvitesAdded(s: State, room: nat, inviter: nat, invited: seq<Option<nat>>)
    ensures
      var s' := AddInvites(s, room, inviter, invited);
      && s.nextInvite <= s'.nextInvite
      && (forall id :: id in s.invites && id < s.nextInvite ==> id in s'.invites && s'.invites[id] == s.invites[id])
      && (forall id :: id in s'.invites ==>
            (id in s.invites && s'.invites[id] == s.invites[id])
            || (s.nextInvite <= id < s'.nextInvite && s'.invites[id].room == room && s'.invites[id].kind == Invitation
                && s'.invites[id].status == Pending && s'.invites[id].inviter == inviter))
    decreases |invited|
  {
    if invited != [] {
      InvitesAdded(s, room, inviter, invited[..|invited| - 1]);
    }
  }

  ghost predicate Numbered(s: State) {
    forall id :: id in s.invites ==> id < s.nextInvite
  }

  /** A new invitation is pending; a join request comes from its invitee, who had nothing
      pending for that room, and is the only new row. */
  ghost predicate Asked(s: State, s': State, e: Event, id: nat)
    requires id in s'.invites
  {
    var invite := s'.invites[id];
    && invite.status == Pending
    && (invite.kind == Invitation
        || (e == Join(Some(invite.invitee), invite.room) && !HasPending(s, invite.room, invite.invitee)
            && s' == AddInvite(s, invite)))
  }

  /** A pending invitation was answered: by its invitee if it is an invitation, by an owner or
      admin of the room if it is a join request. */
  ghost predicate Resolved(s: State, s': State, e: Event, id: nat)
    requires id in s.invites && id in s'.invites
  {
    var invite := s.invites[id];
    && invite.status == Pending && s'.invites[id].status != Pending
    && s'.invites[id] == invite.(status := s'.invites[id].status)
    && (s'.invites[id].status == Accepted ==> IsActive(s', invite.room, invite.invitee))
    && ((e.Respond? && e.invite == id && invite.kind == Invitation && e.caller == Some(invite.invitee))
        || (e.Approve? && e.invite == id && invite.kind == JoinRequest && e.caller.Some?
            && IsAdmin(s, invite.room, e.caller.value)))
  }

  /** How the invitation table may change in one step. */
  ghost predicate InvitesMove(s: State, s': State, e: Event) {
    && (forall id :: id in s.invites ==>
          id in s'.invites && (s'.invites[id] == s.invites[id] || Resolved(s, s', e, id)))
    && (forall id :: id in s'.invites && id !in s.invites ==> Asked(s, s', e, id))
  }

  lemma InvitesAfterCreate(s: State, e: Event)
    requires Numbered(s) && e.CreateRoom?
    ensures Numbered(Step(s, e).0) && InvitesMove(s, Step(s, e).0, e)
  {
    if e.caller.Some? {
      var s1 := AddRoom(s, Room(e.maxMembers, e.direct, CreatedBy(e.caller.value)));
      InvitesAdded(Add(s1, s.nextRoom, e.caller.value, Owner), s.nextRoom, e.caller.value, e.invited);
    }
  }

  lemma InvitesAfterAnswer(s: State, e: Event)
    requires Numbered(s) && (e.Respond? || e.Approve?)
    ensures Numbered(Step(s, e).0) && InvitesMove(s, Step(s, e).0, e)
  {
    var s' := Step(s, e).0;
    if s' != s {
      assert s'.invites == s.invites[e.invite := s'.invites[e.invite]];
      assert Resolved(s, s', e, e.invite);
    }
  }

  lemma InvitesStep(s: State, e: Event)
    requires Numbered(s)
    ensures Numbered(Step(s, e).0) && InvitesMove(s, Step(s, e).0, e)
  {
    if e.CreateRoom? {
      InvitesAfterCreate(s, e);
    } else if e.Respond? || e.Approve? {
      InvitesAfterAnswer(s, e);
    } else if e.Join? {
      assert Step(s, e).0.invites == s.invites || Step(s, e).0.invites.Keys == s.invites.Keys + {s.nextInvite};
    } else {
      assert Step(s, e).0.invites == s.invites;
    }
  }

  lemma ResolvedStays(s: State, e: Event, id: nat)
    requires Numbered(s) && id in s.invites && s.invites[id].status != Pending
    ensures id in Step(s, e).0.invites && Step(s, e).0.invites[id] == s.invites[id]
  {
    InvitesStep(s, e);
  }

  /** An invitation leaves pending at most once: from then on its row never changes. */
  lemma {:induction false} ResolvedForever(kinds: map<nat, Kind>, run: seq<Event>, more: seq<Event>, id: nat)
    requires id in Run(kinds, run).invites && Run(kinds, run).invites[id].status != Pending
    ensures id in Run(kinds, run + more).invites
    ensures Run(kinds, run + more).invites[id] == Run(kinds, run).invites[id]
    decreases |more|
  {
    if more == [] {
      assert run + more == run;
    } else {
      var init, last := more[..|more| - 1], more[|more| - 1];
      ResolvedForever(kinds, run, init, id);
      assert (run + more)[..|run + more| - 1] == run + init;
      OneRequestPerRoom(kinds, run + init);
      ResolvedStays(Run(kinds, run + init), last, id);
    }
  }

  // --- joining ---

  predicate IsUseCase(e: Event) {
    !e.AddMember? && !e.SoftDelete?
  }

  predicate UseCasesOnly(run: seq<Event>) {
    forall i :: 0 <= i < |run| ==> IsUseCase(run[i])
  }

  /** Why a participant may be an active member of a room. */
  predicate Justified(s: State, room: nat, p: nat) {
    || (room in s.rooms && PutThereBy(s.rooms[room].origin, p))
    || (p in s.kinds && s.kinds[p] != User)
    || (exists id :: id in s.invites && Admits(s.invites[id], room, p))
  }

  predicate PutThereBy(origin: Origin, p: nat) {
    match origin
    case CreatedBy(creator) => p == creator
    case MadeForFriends(a, b) => p == a || p == b
  }

  predicate Admits(invite: Invite, room: nat, p: nat) {
    invite.status == Accepted && invite.room == room && invite.invitee == p
  }

  predicate IsJoinRequest(invite: Invite, room: nat, p: nat) {
    invite.status == Pending && invite.kind == JoinRequest && invite.room == room && invite.invitee == p
  }

  ghost predicate OnePendingRequest(s: State) {
    forall i, j, room, p ::
      (i in s.invites && j in s.invites
       && IsJoinRequest(s.invites[i], room, p) && IsJoinRequest(s.invites[j], room, p)) ==> i == j
  }

  ghost predicate AcceptedAreMembers(s: State) {
    forall id :: id in s.invites && s.invites[id].status == Accepted ==>
      IsActive(s, s.invites[id].room, s.invites[id].invitee)
  }

  ghost predicate MembersJustified(s: State) {
    forall room, p :: IsActive(s, room, p) ==> Justified(s, room, p)
  }

  ghost predicate Inv(s: State) {
    WithinLimits(s) && AcceptedAreMembers(s) && MembersJustified(s)
  }

  lemma OnePendingRequestStep(s: State, e: Event)
    requires Numbered(s) && OnePendingRequest(s)
    ensures OnePendingRequest(Step(s, e).0)
  {
    InvitesStep(s, e);
    var s' := Step(s, e).0;
    forall i, j, room, p | i in s'.invites && j in s'.invites
      && IsJoinRequest(s'.invites[i], room, p) && IsJoinRequest(s'.invites[j], room, p)
      ensures i == j
    {
      if i in s.invites && j in s.invites {
        assert IsJoinRequest(s.invites[i], room, p) && IsJoinRequest(s.invites[j], room, p);
      }
    }
  }

  /** In every run, also with plain inserts and soft deletes in it, a participant has at most
      one pending join request per room. */
  lemma {:induction false} OneRequestPerRoom(kinds: map<nat, Kind>, run: seq<Event>)
    ensures Numbered(Run(kinds, run)) && OnePendingRequest(Run(kinds, run))
    decreases |run|
  {
    if run != [] {
      OneRequestPerRoom(kinds, run[..|run| - 1]);
      InvitesStep(Run(kinds, run[..|run| - 1]), run[|run| - 1]);
      OnePendingRequestStep(Run(kinds, run[..|run| - 1]), run[|run| - 1]);
    }
  }

  /** Use cases never take a membership away. */
  lemma MembersStay(s: State, e: Event, room: nat, p: nat)
    requires IsUseCase(e) && IsActive(s, room, p)
    ensures IsActive(Step(s, e).0, room, p)
    ensures Step(s, e).0.members[(room, p)].role == s.members[(room, p)].role
  {
    if e.CreateRoom? && e.caller.Some? {
      var s1 := AddRoom(s, Room(e.maxMembers, e.direct, CreatedBy(e.caller.value)));
      InvitesOnly(Add(s1, s.nextRoom, e.caller.value, Owner), s.nextRoom, e.caller.value, e.invited);
    }
  }

  lemma AcceptedAreMembersStep(s: State, e: Event)
    requires Numbered(s) && AcceptedAreMembers(s) && IsUseCase(e)
    ensures AcceptedAreMembers(Step(s, e).0)
  {
    InvitesStep(s, e);
    var s' := Step(s, e).0;
    forall id | id in s'.invites && s'.invites[id].status == Accepted
      ensures IsActive(s', s'.invites[id].room, s'.invites[id].invitee)
    {
      if id in s.invites && s'.invites[id] == s.invites[id] {
        MembersStay(s, e, s.invites[id].room, s.invites[id].invitee);
      }
    }
  }

  lemma CreatorJustified(s: State, e: Event, room: nat, p: nat)
    requires WithinLimits(s) && e.CreateRoom?
    requires !IsActive(s, room, p) && IsActive(Step(s, e).0, room, p)
    ensures Justified(Step(s, e).0, room, p)
  {
    var s1 := AddRoom(s, Room(e.maxMembers, e.direct, CreatedBy(e.caller.value)));
    InvitesOnly(Add(s1, s.nextRoom, e.caller.value, Owner), s.nextRoom, e.caller.value, e.invited);
  }

  lemma InviteeJustified(s: State, e: Event, room: nat, p: nat)
    requires e.Respond? || e.Approve?
    requires !IsActive(s, room, p) && IsActive(Step(s, e).0, room, p)
    ensures Justified(Step(s, e).0, room, p)
  {
    assert Admits(Step(s, e).0.invites[e.invite], room, p);
  }

  lemma JoinerJustified(s: State, e: Event, room: nat, p: nat)
    requires e.Join?
    requires !IsActive(s, room, p) && IsActive(Step(s, e).0, room, p)
    ensures Justified(Step(s, e).0, room, p)
  {
  }

  lemma FriendJustified(s: State, e: Event, room: nat, p: nat)
    requires e.MakeFriendRoom?
    requires !IsActive(s, room, p) && IsActive(Step(s, e).0, room, p)
    ensures Justified(Step(s, e).0, room, p)
  {
  }

  /** A member that a use case adds has a reason to be there. */
  lemma NewMemberJustified(s: State, e: Event, room: nat, p: nat)
    requires WithinLimits(s) && IsUseCase(e)
    requires !IsActive(s, room, p) && IsActive(Step(s, e).0, room, p)
    ensures Justified(Step(s, e).0, room, p)
  {
    match e
    case CreateRoom(_, _, _, _, _) => CreatorJustified(s, e, room, p);
    case Join(_, _) => JoinerJustified(s, e, room, p);
    case Respond(_, _, _) => InviteeJustified(s, e, room, p);
    case Approve(_, _, _) => InviteeJustified(s, e, room, p);
    case MakeFriendRoom(_, _) => FriendJustified(s, e, room, p);
  }

  lemma MembersJustifiedStep(s: State, e: Event)
    requires WithinLimits(s) && Numbered(s) && MembersJustified(s) && IsUseCase(e)
    ensures MembersJustified(Step(s, e).0)
  {
    InvitesStep(s, e);
    var s' := Step(s, e).0;
    forall room, p | IsActive(s', room, p) ensures Justified(s', room, p) {
      if !IsActive(s, room, p) {
        NewMemberJustified(s, e, room, p);
      } else {
        MembersStay(s, e, room, p);
        KindsFixed(s, e);
        if room in s.rooms {
          LimitIsFixed(s, e, room);
        }
        assert Justified(s, room, p);
        if id :| id in s.invites && Admits(s.invites[id], room, p) {
          assert Admits(s'.invites[id], room, p);
        }
      }
    }
  }

  lemma KindsFixed(s: State, e: Event)
    ensures Step(s, e).0.kinds == s.kinds
  {
    if e.CreateRoom? && e.caller.Some? {
      var s1 := AddRoom(s, Room(e.maxMembers, e.direct, CreatedBy(e.caller.value)));
      InvitesOnly(Add(s1, s.nextRoom, e.caller.value, Owner), s.nextRoom, e.caller.value, e.invited);
    }
  }

  /** Over every run of the use cases, the invitee of every accepted invitation is an active
      member, and every active member created the room, is one of the two friends it was made
      for, is an agent or system participant, or has an accepted invitation. */
  lemma {:induction false} MembershipIsJustified(kinds: map<nat, Kind>, run: seq<Event>)
    requires UseCasesOnly(run)
    ensures Inv(Run(kinds, run))
    decreases |run|
  {
    if run != [] {
      var init, last := run[..|run| - 1], run[|run| - 1];
      MembershipIsJustified(kinds, init);
      var s := Run(kinds, init);
      WithinLimitsStep(s, last);
      OneRequestPerRoom(kinds, init);
      AcceptedAreMembersStep(s, last);
      MembersJustifiedStep(s, last);
    } else {
      assert forall room :: Counted(Start(kinds), room) == {};
    }
  }
}
