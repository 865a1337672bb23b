/** The rows between two users implement a small state machine, and what invitation blocks
    do to it. */
module FriendshipGuarantees {
  import opened Common
  import opened Friendships

  /** The relation between two distinct users. Odd stands for every other combination of rows. */
  datatype Pair = Strangers | Requested(actor: nat) | Friends | BlockedBy(actor: nat) | Odd

  ghost function StatusOf(s: State, user: nat, friend: nat): Option<Status> {
    var id := Find(s.rows, user, friend);
    if id.Some? then Some(s.rows[id.value].status) else None
  }

  ghost function PairOf(s: State, a: nat, b: nat): Pair {
    Combine(StatusOf(s, a, b), StatusOf(s, b, a), a, b)
  }

  /** From the status of the row a to b, and that of the row b to a. */
  function Combine(there: Option<Status>, back: Option<Status>, a: nat, b: nat): Pair {
    match (there, back)
    case (None, None) => Strangers
    case (Some(Pending), None) => Requested(a)
    case (None, Some(Pending)) => Requested(b)
    case (Some(Accepted), Some(Accepted)) => Friends
    case (Some(Blocked), None) => BlockedBy(a)
    case (None, Some(Blocked)) => BlockedBy(b)
    case _ => Odd
  }

  /** What an operation by one of the two users does to their relation, and whether it is
      reported as successful. */
  function PairStep(p: Pair, e: Event): (Pair, bool) {
    match e
    case Apply(actor, _) => if p == Strangers then (Requested(actor), true) else (p, false)
    case Accept(actor, _) => if p.Requested? && p.actor != actor then (Friends, true) else (p, false)
    case Block(actor, _) => if p == BlockedBy(actor) then (p, false) else (BlockedBy(actor), true)
    case Unblock(actor, _) => if p == BlockedBy(actor) then (Strangers, true) else (p, false)
    case Remove(actor, _) => (Strangers, true)
    case Cancel(actor, _) => if p == Requested(actor) then (Strangers, true) else (p, false)
    case InvitationBlock(_, _, _) => (p, false)
  }

  /** The two users an event is about; an unknown row id is about nobody. */
  function Subject(s: State, e: Event): Option<(nat, nat)> {
    match e
    case Apply(actor, friend) => Some((actor, friend))
    case Block(actor, target) => Some((actor, target))
    case Unblock(actor, target) => Some((actor, target))
    case InvitationBlock(actor, inviter, _) => Some((actor, inviter))
    case _ => if e.id in s.rows then Some((s.rows[e.id].user, s.rows[e.id].friend)) else None
  }

  predicate About(s: State, e: Event, a: nat, b: nat) {
    var pair := Subject(s, e);
    pair == Some((a, b)) || pair == Some((b, a))
  }

  // --- helpers ---

  lemma FindThe(s: State, id: nat)
    requires Valid(s) && id in s.rows
    ensures Find(s.rows, s.rows[id].user, s.rows[id].friend) == Some(id)
    ensures StatusOf(s, s.rows[id].user, s.rows[id].friend) == Some(s.rows[id].status)
  {
    assert IsPair(s.rows, id, s.rows[id].user, s.rows[id].friend);
  }

  /** StatusOf depends only on the rows of that direction. */
  lemma StatusSame(s: State, s': State, user: nat, friend: nat)
    requires Valid(s) && Valid(s')
    requires forall id :: IsPair(s.rows, id, user, friend) ==> id in s'.rows && s'.rows[id] == s.rows[id]
    requires forall id :: IsPair(s'.rows, id, user, friend) ==> id in s.rows && s.rows[id] == s'.rows[id]
    ensures StatusOf(s', user, friend) == StatusOf(s, user, friend)
  {
    var a, b := Find(s.rows, user, friend), Find(s'.rows, user, friend);
    if a.Some? {
      assert IsPair(s'.rows, a.value, user, friend);
    }
    if b.Some? {
      assert IsPair(s.rows, b.value, user, friend);
    }
  }

  lemma AfterSet(s: State, id: nat, status: Status, user: nat, friend: nat)
    requires Valid(s) && id in s.rows
    ensures Valid(SetStatus(s, id, status))
    ensures StatusOf(SetStatus(s, id, status), user, friend) ==
      if IsPair(s.rows, id, user, friend) then Some(status) else StatusOf(s, user, friend)
  {
    var s' := SetStatus(s, id, status);
    if IsPair(s.rows, id, user, friend) {
      FindThe(s', id);
    } else {
      StatusSame(s, s', user, friend);
    }
  }

  lemma AfterInsert(s: State, u: nat, f: nat, status: Status, user: nat, friend: nat)
    requires Valid(s) && Find(s.rows, u, f).None?
    ensures Valid(Insert(s, u, f, status))
    ensures StatusOf(Insert(s, u, f, status), user, friend) ==
      if (user, friend) == (u, f) then Some(status) else StatusOf(s, user, friend)
  {
    var s' := Insert(s, u, f, status);
    assert forall i :: i in s.rows ==> !IsPair(s.rows, i, u, f);
    if (user, friend) == (u, f) {
      FindThe(s', s.nextId);
    } else {
      StatusSame(s, s', user, friend);
    }
  }

  lemma AfterDelete(s: State, id: nat, user: nat, friend: nat)
    requires Valid(s) && id in s.rows
    ensures Valid(s.(rows := s.rows - {id}))
    ensures StatusOf(s.(rows := s.rows - {id}), user, friend) ==
      if IsPair(s.rows, id, user, friend) then None else StatusOf(s, user, friend)
  {
    var s' := s.(rows := s.rows - {id});
    if IsPair(s.rows, id, user, friend) {
      forall i ensures !IsPair(s'.rows, i, user, friend) {
        assert IsPair(s'.rows, i, user, friend) ==> i == id;
      }
    } else {
      StatusSame(s, s', user, friend);
    }
  }

  lemma AfterDeletePair(s: State, u: nat, f: nat, user: nat, friend: nat)
    requires Valid(s)
    ensures Valid(DeletePair(s, u, f))
    ensures StatusOf(DeletePair(s, u, f), user, friend) ==
      if (user, friend) == (u, f) then None else StatusOf(s, user, friend)
  {
    var id := Find(s.rows, u, f);
    if id.Some? {
      AfterDelete(s, id.value, user, friend);
    }
  }

  // --- the effect of each operation on every direction ---

  /** The statuses of all directions after an operation, and its result, in terms of the
      statuses before. */
  lemma ApplyEffect(s: State, actor: nat, friend: nat, u: nat, f: nat)
    requires Valid(s)
    ensures
      var (s', r) := DoApply(s, actor, friend);
      && Valid(s') && (r == Ok <==> StatusOf(s, actor, friend).None? && StatusOf(s, friend, actor).None?)
      && StatusOf(s', u, f) == if r == Ok && (u, f) == (actor, friend) then Some(Pending) else StatusOf(s, u, f)
  {
    if Find(s.rows, actor, friend).None? {
      AfterInsert(s, actor, friend, Pending, u, f);
    }
  }

  lemma AcceptEffect(s: State, actor: nat, id: nat, u: nat, f: nat)
    requires Valid(s) && id in s.rows
    ensures
      var (s', r) := DoAccept(s, actor, id);
      var row := s.rows[id];
      && Valid(s')
      && (r == Ok <==> row.friend == actor && row.status == Pending && StatusOf(s, actor, row.user).None?)
      && (r == ErrTransactionAborted ==>
            row.friend == actor && row.status == Pending && StatusOf(s, actor, row.user).Some?)
      && StatusOf(s', u, f) ==
           if r == Ok && ((u, f) == (row.user, actor) || (u, f) == (actor, row.user)) then Some(Accepted)
           else StatusOf(s, u, f)
  {
    var row := s.rows[id];
    if row.friend == actor && row.status == Pending && Find(s.rows, actor, row.user).None? {
      var s1 := SetStatus(s, id, Accepted);
      AfterSet(s, id, Accepted, u, f);
      AfterSet(s, id, Accepted, actor, row.user);
      assert IsPair(s.rows, id, row.user, actor);
      AfterInsert(s1, actor, row.user, Accepted, u, f);
    }
  }

  /** Blocking oneself succeeds as well, and leaves no row: the reverse row that is deleted is
      the blocked one itself. */
  lemma BlockEffect(s: State, actor: nat, target: nat, u: nat, f: nat)
    requires Valid(s)
    ensures
      var (s', r) := DoBlock(s, actor, target);
      && Valid(s') && (r == Ok <==> StatusOf(s, actor, target) != Some(Blocked))
      && StatusOf(s', u, f) ==
           if r == Ok && (u, f) == (target, actor) then None
           else if r == Ok && (u, f) == (actor, target) then Some(Blocked) else StatusOf(s, u, f)
  {
    var existing := Find(s.rows, actor, target);
    if existing.Some? {
      AfterSet(s, existing.value, Blocked, u, f);
      AfterDeletePair(SetStatus(s, existing.value, Blocked), target, actor, u, f);
    } else {
      AfterInsert(s, actor, target, Blocked, u, f);
      AfterDeletePair(Insert(s, actor, target, Blocked), target, actor, u, f);
    }
  }

  lemma UnblockEffect(s: State, actor: nat, target: nat, u: nat, f: nat)
    requires Valid(s)
    ensures
      var (s', r) := DoUnblock(s, actor, target);
      && Valid(s') && (r == Ok <==> StatusOf(s, actor, target) == Some(Blocked))
      && StatusOf(s', u, f) == if r == Ok && (u, f) == (actor, target) then None else StatusOf(s, u, f)
  {
    var existing := Find(s.rows, actor, target);
    if existing.Some? {
      AfterDelete(s, existing.value, u, f);
    }
  }

  lemma RemoveEffect(s: State, actor: nat, id: nat, u: nat, f: nat)
    requires Valid(s) && id in s.rows
    ensures
      var (s', r) := DoRemove(s, actor, id);
      var row := s.rows[id];
      && Valid(s') && (r == Ok <==> row.user == actor || row.friend == actor)
      && StatusOf(s', u, f) ==
           if r == Ok && ((u, f) == (row.user, row.friend) || (u, f) == (row.friend, row.user)) then None
           else StatusOf(s, u, f)
  {
    var row := s.rows[id];
    AfterDelete(s, id, u, f);
    AfterDeletePair(s.(rows := s.rows - {id}), row.friend, row.user, u, f);
  }

  lemma CancelEffect(s: State, actor: nat, id: nat, u: nat, f: nat)
    requires Valid(s) && id in s.rows
    ensures
      var (s', r) := DoCancel(s, actor, id);
      var row := s.rows[id];
      && Valid(s') && (r == Ok <==> row.user == actor && row.status == Pending)
      && StatusOf(s', u, f) == if r == Ok && (u, f) == (row.user, row.friend) then None else StatusOf(s, u, f)
  {
    AfterDelete(s, id, u, f);
  }

  lemma InvitationBlockEffect(s: State, e: Event, u: nat, f: nat)
    requires Valid(s) && e.InvitationBlock? && Enabled(s, e)
    ensures
      var s' := Step(s, e).0;
      var found := IsBetween(s.rows, e.picked, e.actor, e.inviter);
      var hit := if found then (s.rows[e.picked].user, s.rows[e.picked].friend) else (e.actor, e.inviter);
      && Valid(s')
      && StatusOf(s', u, f) == if (u, f) == hit then Some(Blocked) else StatusOf(s, u, f)
  {
    if IsBetween(s.rows, e.picked, e.actor, e.inviter) {
      AfterSet(s, e.picked, Blocked, u, f);
    } else {
      assert forall id :: IsPair(s.rows, id, e.actor, e.inviter) ==> IsBetween(s.rows, id, e.actor, e.inviter);
      AfterInsert(s, e.actor, e.inviter, Blocked, u, f);
    }
  }

  /** The answer of every operation: the error of the first check that does not hold. */
  ghost function AnswerTo(s: State, e: Event): Result {
    match e
    case Apply(actor, friend) =>
      if StatusOf(s, actor, friend).Some? || StatusOf(s, friend, actor).Some? then ErrAlreadyExists else Ok
    case Accept(actor, id) =>
      if id !in s.rows then ErrNotFound
      else if s.rows[id].friend != actor then ErrForbidden
      else if s.rows[id].status != Pending then ErrNotPending
      else if StatusOf(s, actor, s.rows[id].user).Some? then ErrTransactionAborted
      else Ok
    case Block(actor, target) => if StatusOf(s, actor, target) == Some(Blocked) then ErrAlreadyBlocked else Ok
    case Unblock(actor, target) => if StatusOf(s, actor, target) == Some(Blocked) then Ok else ErrNotBlocked
    case Remove(actor, id) =>
      if id !in s.rows then ErrNotFound
      else if actor == s.rows[id].user || actor == s.rows[id].friend then Ok
      else ErrForbidden
    case Cancel(actor, id) =>
      if id !in s.rows then ErrNotFound
      else if s.rows[id].user != actor then ErrForbidden
      else if s.rows[id].status != Pending then ErrNotPending
      else Ok
    case InvitationBlock(_, _, _) => Ok
  }

  /** Each operation answers exactly that, for unknown rows as well; a failing one changes nothing,
      and a successful one of the six always changes the table. */
  lemma AnswersExactly(s: State, e: Event)
    requires Valid(s)
    ensures
      var (s', r) := Step(s, e);
      && r == AnswerTo(s, e)
      && (r != Ok ==> s' == s)
      && (r == Ok && !e.InvitationBlock? ==> s' != s)
  {
    var (s', r) := Step(s, e);
    if r == Ok && e.Block? {
      var existing := Find(s.rows, e.actor, e.target);
      if existing.Some? {
        assert existing.value in s'.rows ==> s'.rows[existing.value].status == Blocked;
      }
    } else if r == Ok && e.Unblock? {
      assert Find(s.rows, e.actor, e.target).value !in s'.rows;
    } else if r == Ok && (e.Remove? || e.Cancel?) {
      assert e.id in s.rows && e.id !in s'.rows;
    }
  }

  lemma ValidStep(s: State, e: Event)
    requires Valid(s) && Enabled(s, e)
    ensures Valid(Step(s, e).0)
  {
    match e
    case Apply(actor, friend) => ApplyEffect(s, actor, friend, 0, 0);
    case Accept(actor, id) => if id in s.rows { AcceptEffect(s, actor, id, 0, 0); }
    case Block(actor, target) => BlockEffect(s, actor, target, 0, 0);
    case Unblock(actor, target) => UnblockEffect(s, actor, target, 0, 0);
    case Remove(actor, id) => if id in s.rows { RemoveEffect(s, actor, id, 0, 0); }
    case Cancel(actor, id) => if id in s.rows { CancelEffect(s, actor, id, 0, 0); }
    case InvitationBlock(_, _, _) => InvitationBlockEffect(s, e, 0, 0);
  }

  // --- the pair state machine ---

  /** Every relation between distinct users is one of the four regular ones. */
  ghost predicate Regular(s: State) {
    Valid(s) && forall a, b :: a != b ==> PairOf(s, a, b) != Odd
  }

  ghost predicate Refines(s: State, e: Event, a: nat, b: nat) {
    var (s', r) := Step(s, e);
    Moves(PairOf(s, a, b), PairOf(s', a, b), e, r == Ok, About(s, e, a, b) && (e.actor == a || e.actor == b))
  }

  /** From p to p', with the given answer; concerned tells whether the event is the pair's own. */
  predicate Moves(p: Pair, p': Pair, e: Event, ok: bool, concerned: bool) {
    if concerned then (p', ok) == PairStep(p, e) else p' == p
  }

  lemma ApplyRefines(s: State, e: Event, a: nat, b: nat)
    requires Valid(s) && PairOf(s, a, b) != Odd && a != b && e.Apply?
    ensures Refines(s, e, a, b)
  {
    ApplyEffect(s, e.actor, e.friend, a, b);
    ApplyEffect(s, e.actor, e.friend, b, a);
  }

  lemma AcceptRefines(s: State, e: Event, a: nat, b: nat)
    requires Valid(s) && PairOf(s, a, b) != Odd && a != b && e.Accept?
    ensures Refines(s, e, a, b)
  {
    if e.id in s.rows {
      FindThe(s, e.id);
      AcceptEffect(s, e.actor, e.id, a, b);
      AcceptEffect(s, e.actor, e.id, b, a);
      if !About(s, e, a, b) {
        Untouched(s, e, a, b);
      }
    }
  }

  lemma Untouched(s: State, e: Event, a: nat, b: nat)
    requires StatusOf(Step(s, e).0, a, b) == StatusOf(s, a, b) && StatusOf(Step(s, e).0, b, a) == StatusOf(s, b, a)
    ensures PairOf(Step(s, e).0, a, b) == PairOf(s, a, b)
  {
  }

  lemma BlockRefines(s: State, e: Event, a: nat, b: nat)
    requires Valid(s) && PairOf(s, a, b) != Odd && a != b && e.Block?
    ensures Refines(s, e, a, b)
  {
    BlockEffect(s, e.actor, e.target, a, b);
    BlockEffect(s, e.actor, e.target, b, a);
    if !About(s, e, a, b) {
      Untouched(s, e, a, b);
    }
  }

  lemma UnblockRefines(s: State, e: Event, a: nat, b: nat)
    requires Valid(s) && PairOf(s, a, b) != Odd && a != b && e.Unblock?
    ensures Refines(s, e, a, b)
  {
    UnblockEffect(s, e.actor, e.target, a, b);
    UnblockEffect(s, e.actor, e.target, b, a);
  }

  lemma RemoveRefines(s: State, e: Event, a: nat, b: nat)
    requires Valid(s) && PairOf(s, a, b) != Odd && a != b && e.Remove?
    ensures Refines(s, e, a, b)
  {
    if e.id in s.rows {
      RemoveEffect(s, e.actor, e.id, a, b);
      RemoveEffect(s, e.actor, e.id, b, a);
    }
  }

  lemma CancelRefines(s: State, e: Event, a: nat, b: nat)
    requires Valid(s) && PairOf(s, a, b) != Odd && a != b && e.Cancel?
    ensures Refines(s, e, a, b)
  {
    if e.id in s.rows {
      FindThe(s, e.id);
      CancelEffect(s, e.actor, e.id, a, b);
      CancelEffect(s, e.actor, e.id, b, a);
      if !About(s, e, a, b) || e.actor != s.rows[e.id].user {
        Untouched(s, e, a, b);
      }
    }
  }

  /** One operation moves the relation of the two users it is about as PairStep says, when one
      of them performs it, with the same answer; and no other relation. */
  lemma StepRefinesPair(s: State, e: Event, a: nat, b: nat)
    requires Regular(s) && !e.InvitationBlock? && a != b
    ensures Refines(s, e, a, b)
  {
    assert PairOf(s, a, b) != Odd;
    match e
    case Apply(_, _) => ApplyRefines(s, e, a, b);
    case Accept(_, _) => AcceptRefines(s, e, a, b);
    case Block(_, _) => BlockRefines(s, e, a, b);
    case Unblock(_, _) => UnblockRefines(s, e, a, b);
    case Remove(_, _) => RemoveRefines(s, e, a, b);
    case Cancel(_, _) => CancelRefines(s, e, a, b);
  }

  /** The event is an invitation block between two friends. */
  ghost predicate BlocksFriends(s: State, e: Event) {
    e.InvitationBlock? && e.actor != e.inviter && PairOf(s, e.actor, e.inviter) == Friends
  }

  /** An invitation block leaves every other relation as it was. */
  lemma InvitationBlockElsewhere(s: State, e: Event, a: nat, b: nat)
    requires Valid(s) && e.InvitationBlock? && Enabled(s, e) && a != b && !About(s, e, a, b)
    ensures PairOf(Step(s, e).0, a, b) == PairOf(s, a, b)
  {
    InvitationBlockEffect(s, e, a, b);
    InvitationBlockEffect(s, e, b, a);
    Untouched(s, e, a, b);
  }

  /** From either side, the same relation is the odd one. */
  lemma OddFromBothSides(s: State, a: nat, b: nat)
    requires a != b
    ensures PairOf(s, a, b) == PairOf(s, b, a)
  {
  }

  lemma KeepsPairRegular(s: State, e: Event, a: nat, b: nat)
    requires Regular(s) && Enabled(s, e) && !BlocksFriends(s, e) && a != b
    ensures PairOf(Step(s, e).0, a, b) != Odd
  {
    assert PairOf(s, a, b) != Odd;
    if !e.InvitationBlock? {
      StepRefinesPair(s, e, a, b);
    } else if About(s, e, a, b) {
      InvitationBlockPair(s, e);
      OddFromBothSides(Step(s, e).0, a, b);
      OddFromBothSides(s, a, b);
    } else {
      InvitationBlockElsewhere(s, e, a, b);
    }
  }

  /** One event keeps all relations regular exactly when it is not an invitation block between
      friends. */
  lemma StepRegularIff(s: State, e: Event)
    requires Regular(s) && Enabled(s, e)
    ensures Regular(Step(s, e).0) <==> !BlocksFriends(s, e)
  {
    var s' := Step(s, e).0;
    ValidStep(s, e);
    if BlocksFriends(s, e) {
      InvitationBlockPair(s, e);
      assert PairOf(s', e.actor, e.inviter) == Odd;
    } else {
      forall a, b | a != b ensures PairOf(s', a, b) != Odd {
        KeepsPairRegular(s, e, a, b);
      }
    }
  }

  /** No event of the run is an invitation block between users who are friends at that point. */
  ghost predicate NeverBlocksFriends(s: State, run: seq<Event>)
    decreases |run|
  {
    run == [] || (!BlocksFriends(s, run[0]) && NeverBlocksFriends(Step(s, run[0]).0, run[1..]))
  }

  ghost predicate StaysRegular(s: State, run: seq<Event>)
    decreases |run|
  {
    Regular(s) && (run == [] || StaysRegular(Step(s, run[0]).0, run[1..]))
  }

  /** All relations are regular throughout a run exactly when no invitation block in it hits
      two friends. */
  lemma {:induction false} StaysRegularIff(s: State, run: seq<Event>)
    requires Regular(s) && Possible(s, run)
    ensures StaysRegular(s, run) <==> NeverBlocksFriends(s, run)
    decreases |run|
  {
    if run != [] {
      var s' := Step(s, run[0]).0;
      StepRegularIff(s, run[0]);
      if Regular(s') {
        StaysRegularIff(s', run[1..]);
      } else {
        assert !StaysRegular(s', run[1..]);
      }
    }
  }

  lemma {:induction false} RegularAtEnd(s: State, run: seq<Event>)
    requires StaysRegular(s, run)
    ensures Regular(Run(s, run))
    decreases |run|
  {
    if run != [] {
      RegularAtEnd(Step(s, run[0]).0, run[1..]);
    }
  }

  /** In every run of all seven operations without an invitation block between friends, the
      rows between two distinct users are none, one pending, one blocked, or two accepted. */
  lemma RunIsRegular(run: seq<Event>, a: nat, b: nat)
    requires Possible(EMPTY, run) && NeverBlocksFriends(EMPTY, run) && a != b
    ensures
      var s := Run(EMPTY, run);
      && Regular(s)
      && (StatusOf(s, a, b), StatusOf(s, b, a)) in
           {(None, None), (Some(Pending), None), (None, Some(Pending)), (Some(Blocked), None), (None, Some(Blocked)),
            (Some(Accepted), Some(Accepted))}
  {
    StaysRegularIff(EMPTY, run);
    RegularAtEnd(EMPTY, run);
    assert PairOf(Run(EMPTY, run), a, b) != Odd;
  }

  /** Runs of apply, accept, block, unblock, remove and cancel are among them. */
  lemma {:induction false} SixOperationsNeverDo(s: State, run: seq<Event>)
    requires forall i :: 0 <= i < |run| ==> !run[i].InvitationBlock?
    ensures Possible(s, run) && NeverBlocksFriends(s, run)
    decreases |run|
  {
    if run != [] {
      SixOperationsNeverDo(Step(s, run[0]).0, run[1..]);
    }
  }

  /** A run in which an invitation block hits two friends: one accepted row is left beside a
      blocked one. */
  lemma InvitationBlockSplitsFriends()
    ensures
      var run := [Apply(1, 2), Accept(2, 1), InvitationBlock(2, 1, 1)];
      && Possible(EMPTY, run)
      && PairOf(Run(EMPTY, run), 1, 2) == Odd
      && StatusOf(Run(EMPTY, run), 1, 2) == Some(Blocked) && StatusOf(Run(EMPTY, run), 2, 1) == Some(Accepted)
  {
    var e0, e1, e2 := Apply(1, 2), Accept(2, 1), InvitationBlock(2, 1, 1);
    var s1 := Step(EMPTY, e0).0;
    assert s1 == State(map[1 := Row(1, 2, Pending)], 2);
    var s2 := Step(s1, e1).0;
    AfterAccept();
    var s3 := Step(s2, e2).0;
    assert s3.rows == map[1 := Row(1, 2, Blocked), 2 := Row(2, 1, Accepted)];
    FindThe(s3, 1);
    FindThe(s3, 2);
    RunCons(s2, e2, []);
    RunCons(s1, e1, [e2]);
    RunCons(EMPTY, e0, [e1, e2]);
  }

  lemma AfterAccept()
    ensures Step(State(map[1 := Row(1, 2, Pending)], 2), Accept(2, 1)).0
         == State(map[1 := Row(1, 2, Accepted), 2 := Row(2, 1, Accepted)], 3)
  {
    assert Find(map[1 := Row(1, 2, Pending)], 2, 1).None?;
  }

  lemma RunCons(s: State, e: Event, rest: seq<Event>)
    ensures Run(s, [e] + rest) == Run(Step(s, e).0, rest)
    ensures Possible(s, [e] + rest) <==> Enabled(s, e) && Possible(Step(s, e).0, rest)
  {
    assert ([e] + rest)[1..] == rest;
  }

  // --- lifting a block ---

  /** Who may end the block that a has on b: a by unblocking, either of them by removing the
      row, and b by blocking back, which replaces it. */
  ghost predicate EndsBlock(s: State, e: Event, a: nat, b: nat) {
    || e == Unblock(a, b)
    || (e.Remove? && About(s, e, a, b) && (e.actor == a || e.actor == b))
    || e == Block(b, a)
  }

  lemma BlockEndsIff(s: State, e: Event, a: nat, b: nat)
    requires Regular(s) && Enabled(s, e) && a != b && PairOf(s, a, b) == BlockedBy(a)
    ensures PairOf(Step(s, e).0, a, b) != BlockedBy(a) <==> EndsBlock(s, e, a, b)
  {
    if !e.InvitationBlock? {
      StepRefinesPair(s, e, a, b);
    } else if About(s, e, a, b) {
      InvitationBlockPair(s, e);
      OddFromBothSides(Step(s, e).0, a, b);
      OddFromBothSides(s, a, b);
    } else {
      InvitationBlockElsewhere(s, e, a, b);
    }
  }

  // --- row order does not matter ---

  lemma BetweenSameStatus(s: State, a: nat, b: nat, i: nat, j: nat)
    requires Regular(s) && a != b && IsBetween(s.rows, i, a, b) && IsBetween(s.rows, j, a, b)
    ensures s.rows[i].status == s.rows[j].status
  {
    assert PairOf(s, a, b) != Odd;
    FindThe(s, i);
    FindThe(s, j);
  }

  /** The rows FindAllByUserID returns for a user, in some order. */
  ghost predicate IsAnswer(s: State, user: nat, found: seq<Row>) {
    forall row :: row in found <==>
      (exists id :: id in s.rows && s.rows[id] == row) && (row.user == user || row.friend == user)
  }

  /** Rows about the same other user have the same status. */
  ghost predicate Consistent(found: seq<Row>, user: nat) {
    forall row, row' :: row in found && row' in found && OtherUser(row, user) == OtherUser(row', user) ==>
      row.status == row'.status
  }

  lemma {:induction false} MapIff(found: seq<Row>, user: nat, other: nat, status: Status)
    requires Consistent(found, user)
    ensures (other in FriendshipMap(found, user) && FriendshipMap(found, user)[other] == status) <==>
      exists row :: row in found && OtherUser(row, user) == other && row.status == status
    decreases |found|
  {
    if found != [] {
      var init, last := found[..|found| - 1], found[|found| - 1];
      MapIff(init, user, other, status);
      assert found == init + [last];
      assert forall row :: row in found <==> row in init || row == last;
    }
  }

  lemma AnswersAgree(s: State, user: nat, found: seq<Row>)
    requires Regular(s) && IsAnswer(s, user, found)
    ensures Consistent(found, user)
  {
    forall row, row' | row in found && row' in found && OtherUser(row, user) == OtherUser(row', user)
      ensures row.status == row'.status
    {
      var k :| k in s.rows && s.rows[k] == row;
      var l :| l in s.rows && s.rows[l] == row';
      var other := OtherUser(row, user);
      if other == user {
        assert SamePair(row, row') && k == l;
      } else {
        assert IsBetween(s.rows, k, user, other) && IsBetween(s.rows, l, user, other);
        BetweenSameStatus(s, user, other, k, l);
      }
    }
  }

  /** The map gives each other user exactly the status of the rows between the two. */
  lemma SearchMapIff(s: State, user: nat, found: seq<Row>, other: nat, status: Status)
    requires Regular(s) && IsAnswer(s, user, found)
    ensures (other in FriendshipMap(found, user) && FriendshipMap(found, user)[other] == status) <==>
      exists id :: IsBetween(s.rows, id, user, other) && s.rows[id].status == status
  {
    AnswersAgree(s, user, found);
    MapIff(found, user, other, status);
    if row :| row in found && OtherUser(row, user) == other && row.status == status {
      var id :| id in s.rows && s.rows[id] == row;
      assert IsBetween(s.rows, id, user, other);
    }
    if id :| IsBetween(s.rows, id, user, other) && s.rows[id].status == status {
      assert s.rows[id] in found && OtherUser(s.rows[id], user) == other;
    }
  }

  /** The search result's friendship map does not depend on the order of the rows. */
  lemma SearchMapIgnoresOrder(s: State, user: nat, found: seq<Row>, reordered: seq<Row>)
    requires Regular(s) && IsAnswer(s, user, found) && IsAnswer(s, user, reordered)
    ensures FriendshipMap(found, user) == FriendshipMap(reordered, user)
  {
    var m, n := FriendshipMap(found, user), FriendshipMap(reordered, user);
    forall other ensures (other in m <==> other in n) && (other in m ==> m[other] == n[other]) {
      if other in m {
        SearchMapIff(s, user, found, other, m[other]);
        SearchMapIff(s, user, reordered, other, m[other]);
      }
      if other in n {
        SearchMapIff(s, user, found, other, n[other]);
        SearchMapIff(s, user, reordered, other, n[other]);
      }
    }
  }

  // --- with invitation blocks ---

  /** A pending row has no reverse row. */
  ghost predicate PendingAlone(s: State) {
    Valid(s) && forall a, b :: a != b && StatusOf(s, a, b) == Some(Pending) ==> StatusOf(s, b, a).None?
  }

  lemma PendingAloneStep(s: State, e: Event)
    requires PendingAlone(s) && Enabled(s, e)
    ensures PendingAlone(Step(s, e).0)
  {
    var s' := Step(s, e).0;
    ValidStep(s, e);
    forall a, b | a != b && StatusOf(s', a, b) == Some(Pending) ensures StatusOf(s', b, a).None? {
      match e
      case Apply(actor, friend) =>
        ApplyEffect(s, actor, friend, a, b);
        ApplyEffect(s, actor, friend, b, a);
      case Accept(actor, id) =>
        if id in s.rows {
          FindThe(s, id);
          AcceptEffect(s, actor, id, a, b);
          AcceptEffect(s, actor, id, b, a);
        }
      case Block(actor, target) =>
        BlockEffect(s, actor, target, a, b);
        BlockEffect(s, actor, target, b, a);
      case Unblock(actor, target) =>
        UnblockEffect(s, actor, target, a, b);
        UnblockEffect(s, actor, target, b, a);
      case Remove(actor, id) =>
        if id in s.rows {
          RemoveEffect(s, actor, id, a, b);
          RemoveEffect(s, actor, id, b, a);
        }
      case Cancel(actor, id) =>
        if id in s.rows {
          CancelEffect(s, actor, id, a, b);
          CancelEffect(s, actor, id, b, a);
        }
      case InvitationBlock(_, _, _) =>
        InvitationBlockEffect(s, e, a, b);
        InvitationBlockEffect(s, e, b, a);
        if IsBetween(s.rows, e.picked, e.actor, e.inviter) {
          FindThe(s, e.picked);
        } else {
          NoneBetween(s, e.actor, e.inviter);
        }
    }
  }

  lemma NoneBetween(s: State, a: nat, b: nat)
    requires forall id :: !IsBetween(s.rows, id, a, b)
    ensures StatusOf(s, a, b).None? && StatusOf(s, b, a).None?
  {
    var i, j := Find(s.rows, a, b), Find(s.rows, b, a);
    if i.Some? {
      assert IsBetween(s.rows, i.value, a, b);
    }
    if j.Some? {
      assert IsBetween(s.rows, j.value, a, b);
    }
  }

  lemma {:induction false} PendingAloneRun(s: State, run: seq<Event>)
    requires PendingAlone(s) && Possible(s, run)
    ensures PendingAlone(Run(s, run))
    decreases |run|
  {
    if run != [] {
      PendingAloneStep(s, run[0]);
      PendingAloneRun(Step(s, run[0]).0, run[1..]);
    }
  }

  /** In every run, invitation blocks included, accepting a row that exists runs into a unique
      violation exactly when the row is the accepter's own pending request to itself. */
  lemma AcceptAbortsIff(run: seq<Event>, actor: nat, id: nat)
    requires Possible(EMPTY, run) && id in Run(EMPTY, run).rows
    ensures
      var s := Run(EMPTY, run);
      DoAccept(s, actor, id).1 == ErrTransactionAborted <==> s.rows[id] == Row(actor, actor, Pending)
  {
    PendingAloneRun(EMPTY, run);
    var s := Run(EMPTY, run);
    FindThe(s, id);
    AcceptEffect(s, actor, id, 0, 0);
  }

  /** Nothing keeps a user from applying to itself, and accepting that request aborts. */
  lemma AcceptingOneselfAborts()
    ensures
      var s := Run(EMPTY, [Apply(7, 7)]);
      s.rows == map[1 := Row(7, 7, Pending)] && DoAccept(s, 7, 1) == (s, ErrTransactionAborted)
  {
    var s := Step(EMPTY, Apply(7, 7)).0;
    assert [Apply(7, 7)][1..] == [];
    assert Run(EMPTY, [Apply(7, 7)]) == Run(s, []) == s;
    assert IsPair(s.rows, 1, 7, 7);
  }

  /** An invitation block keeps the relation regular exactly when the two are not friends:
      of two accepted rows it changes only the one it happened to read. */
  lemma InvitationBlockRegularIff(s: State, e: Event)
    requires Regular(s) && e.InvitationBlock? && Enabled(s, e) && e.actor != e.inviter
    ensures PairOf(Step(s, e).0, e.actor, e.inviter) != Odd <==> PairOf(s, e.actor, e.inviter) != Friends
  {
    InvitationBlockPair(s, e);
  }

  /** It makes the invitee the blocker exactly when there was no row, or the row was already
      the invitee's own request or block. */
  lemma InvitationBlockBlocksIff(s: State, e: Event)
    requires Regular(s) && e.InvitationBlock? && Enabled(s, e) && e.actor != e.inviter
    ensures PairOf(Step(s, e).0, e.actor, e.inviter) == BlockedBy(e.actor) <==>
      PairOf(s, e.actor, e.inviter) in {Strangers, Requested(e.actor), BlockedBy(e.actor)}
  {
    InvitationBlockPair(s, e);
  }

  lemma InvitationBlockPair(s: State, e: Event)
    requires Regular(s) && e.InvitationBlock? && Enabled(s, e) && e.actor != e.inviter
    ensures
      var p, p' := PairOf(s, e.actor, e.inviter), PairOf(Step(s, e).0, e.actor, e.inviter);
      p' == match p
            case Strangers => BlockedBy(e.actor)
            case Requested(who) => BlockedBy(who)
            case BlockedBy(who) => BlockedBy(who)
            case _ => Odd
  {
    assert PairOf(s, e.actor, e.inviter) != Odd;
    InvitationBlockEffect(s, e, e.actor, e.inviter);
    InvitationBlockEffect(s, e, e.inviter, e.actor);
    if IsBetween(s.rows, e.picked, e.actor, e.inviter) {
      FindThe(s, e.picked);
    } else {
      NoneBetween(s, e.actor, e.inviter);
    }
  }
}
