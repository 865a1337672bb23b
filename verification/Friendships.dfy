/** The user_friendships table and the use cases that change it. Each use case is atomic. */
module Friendships {
  import opened Common

  datatype Status = Pending | Accepted | Blocked

  datatype Row = Row(user: nat, friend: nat, status: Status)

  datatype State = State(rows: map<nat, Row>, nextId: nat)

  const EMPTY := State(map[], 1)

  datatype Result =
    | Ok
    | ErrNotFound
    | ErrAlreadyExists
    | ErrNotPending
    | ErrForbidden
    | ErrAlreadyBlocked
    | ErrNotBlocked
    | ErrTransactionAborted

  datatype Event =
    | Apply(actor: nat, friend: nat)
    | Accept(actor: nat, id: nat)
    | Block(actor: nat, target: nat)
    | Unblock(actor: nat, target: nat)
    | Remove(actor: nat, id: nat)
    | Cancel(actor: nat, id: nat)
    | InvitationBlock(actor: nat, inviter: nat, picked: nat)

  predicate IsPair(rows: map<nat, Row>, id: nat, user: nat, friend: nat) {
    id in rows && rows[id].user == user && rows[id].friend == friend
  }

  predicate SamePair(a: Row, b: Row) {
    a.user == b.user && a.friend == b.friend
  }

  /** UNIQUE (user_id, friend_id), and an identity column that has not yet reached nextId. */
  ghost predicate Valid(s: State) {
    && (forall i, j :: i in s.rows && j in s.rows && SamePair(s.rows[i], s.rows[j]) ==> i == j)
    && (forall i :: i in s.rows ==> i < s.nextId)
  }

  ghost function Find(rows: map<nat, Row>, user: nat, friend: nat): (r: Option<nat>)
    ensures r.Some? ==> IsPair(rows, r.value, user, friend)
    ensures r.None? ==> forall id :: !IsPair(rows, id, user, friend)
  {
    if exists id :: IsPair(rows, id, user, friend)
    then var id :| IsPair(rows, id, user, friend); Some(id)
    else None
  }

  function SetStatus(s: State, id: nat, status: Status): State {
    if id in s.rows then s.(rows := s.rows[id := s.rows[id].(status := status)]) else s
  }

  function Insert(s: State, user: nat, friend: nat, status: Status): State {
    State(s.rows[s.nextId := Row(user, friend, status)], s.nextId + 1)
  }

  ghost function DeletePair(s: State, user: nat, friend: nat): State {
    var id := Find(s.rows, user, friend);
    if id.Some? then s.(rows := s.rows - {id.value}) else s
  }

  // --- use cases ---

  ghost function DoApply(s: State, actor: nat, friend: nat): (State, Result) {
    if Find(s.rows, actor, friend).Some? || Find(s.rows, friend, actor).Some? then (s, ErrAlreadyExists)
    else (Insert(s, actor, friend, Pending), Ok)
  }

  /** In PostgreSQL a unique violation aborts the transaction, so every statement after it
      fails and the status update is rolled back. */
  ghost function DoAccept(s: State, actor: nat, id: nat): (State, Result) {
    if id !in s.rows then (s, ErrNotFound)
    else
      var f := s.rows[id];
      if f.friend != actor then (s, ErrForbidden)
      else if f.status != Pending then (s, ErrNotPending)
      else if Find(s.rows, actor, f.user).Some? then (s, ErrTransactionAborted)
      else (Insert(SetStatus(s, id, Accepted), actor, f.user, Accepted), Ok)
  }

  ghost function DoBlock(s: State, actor: nat, target: nat): (State, Result) {
    var existing := Find(s.rows, actor, target);
    if existing.Some? && s.rows[existing.value].status == Blocked then (s, ErrAlreadyBlocked)
    else
      var s1 := if existing.Some? then SetStatus(s, existing.value, Blocked) else Insert(s, actor, target, Blocked);
      (DeletePair(s1, target, actor), Ok)
  }

  ghost function DoUnblock(s: State, actor: nat, target: nat): (State, Result) {
    var existing := Find(s.rows, actor, target);
    if existing.None? || s.rows[existing.value].status != Blocked then (s, ErrNotBlocked)
    else (s.(rows := s.rows - {existing.value}), Ok)
  }

  ghost function DoRemove(s: State, actor: nat, id: nat): (State, Result) {
    if id !in s.rows then (s, ErrNotFound)
    else
      var f := s.rows[id];
      if f.user != actor && f.friend != actor then (s, ErrForbidden)
      else (DeletePair(s.(rows := s.rows - {id}), f.friend, f.user), Ok)
  }

  function DoCancel(s: State, actor: nat, id: nat): (State, Result) {
    if id !in s.rows then (s, ErrNotFound)
    else if s.rows[id].user != actor then (s, ErrForbidden)
    else if s.rows[id].status != Pending then (s, ErrNotPending)
    else (s.(rows := s.rows - {id}), Ok)
  }

  /** A row that FindBetweenUsers may return: either direction, in no fixed order. */
  predicate IsBetween(rows: map<nat, Row>, id: nat, a: nat, b: nat) {
    IsPair(rows, id, a, b) || IsPair(rows, id, b, a)
  }

  /** Blocking a room invitation. picked is the row that FindBetweenUsers returned, if any. */
  function DoInvitationBlock(s: State, actor: nat, inviter: nat, picked: nat): (State, Result) {
    if IsBetween(s.rows, picked, actor, inviter) then (SetStatus(s, picked, Blocked), Ok)
    else (Insert(s, actor, inviter, Blocked), Ok)
  }

  ghost function Step(s: State, e: Event): (State, Result) {
    match e
    case Apply(actor, friend) => DoApply(s, actor, friend)
    case Accept(actor, id) => DoAccept(s, actor, id)
    case Block(actor, target) => DoBlock(s, actor, target)
    case Unblock(actor, target) => DoUnblock(s, actor, target)
    case Remove(actor, id) => DoRemove(s, actor, id)
    case Cancel(actor, id) => DoCancel(s, actor, id)
    case InvitationBlock(actor, inviter, picked) => DoInvitationBlock(s, actor, inviter, picked)
  }

  /** An invitation block creates a row only when FindBetweenUsers found none. */
  ghost predicate Enabled(s: State, e: Event) {
    e.InvitationBlock? ==>
      IsBetween(s.rows, e.picked, e.actor, e.inviter) || forall id :: !IsBetween(s.rows, id, e.actor, e.inviter)
  }

  ghost predicate Possible(s: State, run: seq<Event>)
    decreases |run|
  {
    run == [] || (Enabled(s, run[0]) && Possible(Step(s, run[0]).0, run[1..]))
  }

  ghost function Run(s: State, run: seq<Event>): State
    decreases |run|
  {
    if run == [] then s else Run(Step(s, run[0]).0, run[1..])
  }

  // --- search ---

  function OtherUser(row: Row, user: nat): nat {
    if row.user != user then row.user else row.friend
  }

  /** The map after the loop over the rows: a later row overwrites an earlier one. */
  function FriendshipMap(rows: seq<Row>, user: nat): map<nat, Status>
    decreases |rows|
  {
    if rows == [] then map[]
    else
      var last := rows[|rows| - 1];
      FriendshipMap(rows[..|rows| - 1], user)[OtherUser(last, user) := last.status]
  }

  class FriendshipService {
    var rows: map<nat, Row>
    var nextId: nat

    ghost function View(): State
      reads this
    {
      State(rows, nextId)
    }

    constructor ()
      ensures View() == EMPTY && Valid(View())
    {
      rows, nextId := map[], 1;
    }

    method FindByUserIDAndFriendID(user: nat, friend: nat) returns (id: Option<nat>)
      requires Valid(View())
      ensures id == Find(rows, user, friend)
    {
      id := None;
      if i :| i in rows && rows[i].user == user && rows[i].friend == friend {
        assert IsPair(rows, i, user, friend);
        id := Some(i);
      } else {
        assert forall i :: !IsPair(rows, i, user, friend);
      }
    }

    /** False is a unique violation. */
    method CreateWithStatus(user: nat, friend: nat, status: Status) returns (ok: bool)
      requires Valid(View())
      modifies this
      ensures ok == Find(old(rows), user, friend).None?
      ensures View() == if ok then Insert(old(View()), user, friend, status) else old(View())
      ensures ok ==> rows == old(rows)[old(nextId) := Row(user, friend, status)] && nextId == old(nextId) + 1
      ensures Valid(View())
    {
      var clash := FindByUserIDAndFriendID(user, friend);
      ok := clash.None?;
      if ok {
        assert forall i :: i in rows ==> !IsPair(rows, i, user, friend);
        rows, nextId := rows[nextId := Row(user, friend, status)], nextId + 1;
      }
    }

    method UpdateStatus(id: nat, status: Status)
      requires Valid(View())
      modifies `rows
      ensures View() == SetStatus(old(View()), id, status) && Valid(View())
      ensures rows == if id in old(rows) then old(rows)[id := old(rows)[id].(status := status)] else old(rows)
    {
      if id in rows {
        rows := rows[id := rows[id].(status := status)];
      }
    }

    method Delete(id: nat)
      requires Valid(View())
      modifies `rows
      ensures rows == old(rows) - {id} && Valid(View())
    {
      rows := rows - {id};
    }

    method Apply(actor: nat, friend: nat) returns (r: Result)
      requires Valid(View())
      modifies this
      ensures (View(), r) == DoApply(old(View()), actor, friend) && Valid(View())
    {
      var forward := FindByUserIDAndFriendID(actor, friend);
      if forward.Some? {
        return ErrAlreadyExists;
      }
      var backward := FindByUserIDAndFriendID(friend, actor);
      if backward.Some? {
        return ErrAlreadyExists;
      }
      var ok := CreateWithStatus(actor, friend, Pending);
      r := if ok then Ok else ErrAlreadyExists;
    }

    method Accept(actor: nat, id: nat) returns (r: Result)
      requires Valid(View())
      modifies this
      ensures (View(), r) == DoAccept(old(View()), actor, id) && Valid(View())
    {
      if id !in rows {
        return ErrNotFound;
      }
      var f := rows[id];
      if f.friend != actor {
        return ErrForbidden;
      }
      if f.status != Pending {
        return ErrNotPending;
      }
      var rowsBefore, nextBefore := rows, nextId;
      UpdateStatus(id, Accepted);
      SameFind(rowsBefore, rows, actor, f.user);
      var created := CreateWithStatus(actor, f.user, Pending);
      if !created {
        rows, nextId := rowsBefore, nextBefore;
        return ErrTransactionAborted;
      }
      assert IsPair(rows, nextBefore, actor, f.user);
      var reverse := FindByUserIDAndFriendID(actor, f.user);
      assert SamePair(rows[reverse.value], rows[nextBefore]);
      UpdateStatus(reverse.value, Accepted);
      assert rows == rowsBefore[id := f.(status := Accepted)][nextBefore := Row(actor, f.user, Accepted)];
      r := Ok;
    }

    method Block(actor: nat, target: nat) returns (r: Result)
      requires Valid(View())
      modifies this
      ensures (View(), r) == DoBlock(old(View()), actor, target) && Valid(View())
    {
      var existing := FindByUserIDAndFriendID(actor, target);
      if existing.Some? {
        if rows[existing.value].status == Blocked {
          return ErrAlreadyBlocked;
        }
        UpdateStatus(existing.value, Blocked);
      } else {
        var ok := CreateWithStatus(actor, target, Blocked);
      }
      var reverse := FindByUserIDAndFriendID(target, actor);
      if reverse.Some? {
        Delete(reverse.value);
      }
      r := Ok;
    }

    method Unblock(actor: nat, target: nat) returns (r: Result)
      requires Valid(View())
      modifies this
      ensures (View(), r) == DoUnblock(old(View()), actor, target) && Valid(View())
    {
      var existing := FindByUserIDAndFriendID(actor, target);
      if existing.None? {
        return ErrNotBlocked;
      }
      if rows[existing.value].status != Blocked {
        return ErrNotBlocked;
      }
      Delete(existing.value);
      r := Ok;
    }

    method Remove(actor: nat, id: nat) returns (r: Result)
      requires Valid(View())
      modifies this
      ensures (View(), r) == DoRemove(old(View()), actor, id) && Valid(View())
    {
      if id !in rows {
        return ErrNotFound;
      }
      var f := rows[id];
      if f.user != actor && f.friend != actor {
        return ErrForbidden;
      }
      Delete(id);
      var reverse := FindByUserIDAndFriendID(f.friend, f.user);
      if reverse.Some? {
        Delete(reverse.value);
      }
      r := Ok;
    }

    method Cancel(actor: nat, id: nat) returns (r: Result)
      requires Valid(View())
      modifies this
      ensures (View(), r) == DoCancel(old(View()), actor, id) && Valid(View())
    {
      if id !in rows {
        return ErrNotFound;
      }
      if rows[id].user != actor {
        return ErrForbidden;
      }
      if rows[id].status != Pending {
        return ErrNotPending;
      }
      Delete(id);
      r := Ok;
    }

    /** The friendship part of answering an invitation with block. found is the answer of
        FindBetweenUsers. */
    method BlockInviter(actor: nat, inviter: nat, found: Option<nat>)
      requires Valid(View())
      requires found.Some? ==> IsBetween(rows, found.value, actor, inviter)
      requires found.None? ==> forall id :: !IsBetween(rows, id, actor, inviter)
      modifies this
      ensures Valid(View())
      ensures
        var picked := if found.Some? then found.value else nextId;
        View() == Step(old(View()), InvitationBlock(actor, inviter, picked)).0
    {
      if found.Some? {
        UpdateStatus(found.value, Blocked);
      } else {
        assert forall id :: IsPair(rows, id, actor, inviter) ==> IsBetween(rows, id, actor, inviter);
        var ok := CreateWithStatus(actor, inviter, Blocked);
      }
    }

    /** found is what FindAllByUserID returned, in whatever order. */
    method BuildFriendshipMap(user: nat, found: seq<Row>) returns (result: map<nat, Status>)
      ensures result == FriendshipMap(found, user)
    {
      result := map[];
      for i := 0 to |found|
        invariant result == FriendshipMap(found[..i], user)
      {
        assert found[..i + 1][..i] == found[..i];
        var other := found[i].friend;
        if found[i].user != user {
          other := found[i].user;
        }
        result := result[other := found[i].status];
      }
      assert found[..|found|] == found;
    }
  }

  lemma SameFind(rows: map<nat, Row>, rows': map<nat, Row>, user: nat, friend: nat)
    requires rows.Keys == rows'.Keys && forall id :: id in rows ==> SamePair(rows[id], rows'[id])
    ensures Find(rows, user, friend).Some? == Find(rows', user, friend).Some?
  {
    assert forall id :: IsPair(rows, id, user, friend) <==> IsPair(rows', id, user, friend);
  }
}
