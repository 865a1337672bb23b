/** The message table of the chat and the queries that page through a room. */
module Paging {
  import opened Common

  /** A row of chat_records. The identity column numbers rows from 1. */
  datatype Message = Message(
    id: nat, room: nat, sender: nat, content: string, kind: string, replyTo: Option<nat>,
    edited: bool, createdAt: int, deleted: bool)

  type Table = seq<Message>

  const DEFAULT_LIMIT := 20
  const MAX_LIMIT := 100

  function Clamp(limit: nat): (r: nat)
    ensures 1 <= r <= MAX_LIMIT && (1 <= limit <= MAX_LIMIT ==> r == limit)
    ensures limit == 0 ==> r == DEFAULT_LIMIT
    ensures limit > MAX_LIMIT ==> r == MAX_LIMIT
  {
    if limit == 0 then DEFAULT_LIMIT else if limit > MAX_LIMIT then MAX_LIMIT else limit
  }

  ghost predicate WellNumbered(t: Table) {
    && (forall i :: 0 <= i < |t| ==> 1 <= t[i].id)
    && (forall i, j :: 0 <= i < j < |t| ==> t[i].id < t[j].id)
  }

  predicate Matches(m: Message, room: nat, before: int) {
    m.room == room && !m.deleted && m.id < before
  }

  /** WHERE room_id = room AND NOT is_deleted AND id < before ORDER BY id DESC LIMIT limit. */
  function QueryBefore(t: Table, room: nat, before: int, limit: nat): seq<Message>
    decreases |t|
  {
    if t == [] || limit == 0 then []
    else
      var last, rest := t[|t| - 1], t[..|t| - 1];
      if Matches(last, room, before) then [last] + QueryBefore(rest, room, before, limit - 1)
      else QueryBefore(rest, room, before, limit)
  }

  function Reversed(s: seq<Message>): (r: seq<Message>)
    ensures |r| == |s|
    ensures forall k :: 0 <= k < |s| ==> r[k] == s[|s| - 1 - k]
  {
    if s == [] then [] else Reversed(s[1..]) + [s[0]]
  }

  /** What FindByRoomBefore returns: the newest matching rows, oldest first. */
  function PageBefore(t: Table, room: nat, before: int, limit: nat): seq<Message> {
    Reversed(QueryBefore(t, room, before, limit))
  }

  /** An answer to WHERE room_id = room ORDER BY created_at DESC LIMIT limit. Ties in
      created_at may come in any order, and deleted rows are counted. */
  ghost predicate IsLatest(t: Table, room: nat, limit: nat, rows: seq<Message>) {
    && |rows| <= limit
    && (forall i, j :: 0 <= i < j < |rows| ==> rows[i] != rows[j] && rows[j].createdAt <= rows[i].createdAt)
    && (forall m :: m in rows ==> m in t && m.room == room)
    && (forall m, n :: m in t && m.room == room && m !in rows && n in rows ==> m.createdAt <= n.createdAt)
    && (|rows| < limit ==> forall m :: m in t && m.room == room ==> m in rows)
  }

  /** Messages are only added at the end, edited, or marked deleted. */
  ghost predicate Evolves(t: Table, t': Table) {
    && |t| <= |t'|
    && (forall i :: 0 <= i < |t| ==>
          t'[i].id == t[i].id && t'[i].room == t[i].room && (t[i].deleted ==> t'[i].deleted))
  }

  lemma MirrorIsReversed(s: seq<Message>, r: seq<Message>)
    requires |r| == |s| && forall k :: 0 <= k < |s| ==> r[k] == s[|s| - 1 - k]
    ensures r == Reversed(s)
  {
  }

  /** The two-index swap loop. */
  method ReverseInPlace(messages: array<Message>)
    modifies messages
    ensures messages[..] == Reversed(old(messages[..]))
  {
    ghost var was := messages[..];
    var i, j := 0, messages.Length - 1;
    while i < j
      invariant 0 <= i <= j + 1 && i + j == |was| - 1
      invariant forall k :: 0 <= k < i || j < k < |was| ==> messages[k] == was[|was| - 1 - k]
      invariant forall k :: i <= k <= j ==> messages[k] == was[k]
    {
      messages[i], messages[j] := messages[j], messages[i];
      i, j := i + 1, j - 1;
    }
    MirrorIsReversed(was, messages[..]);
  }

  class ChatMessageRepository {
    var rows: Table
    var nextId: nat

    ghost predicate Valid()
      reads this
    {
      WellNumbered(rows) && 1 <= nextId && forall i :: 0 <= i < |rows| ==> rows[i].id < nextId
    }

    constructor ()
      ensures Valid() && rows == []
    {
      rows, nextId := [], 1;
    }

    method Create(room: nat, sender: nat, content: string, kind: string, replyTo: Option<nat>, now: int)
      returns (id: nat)
      requires Valid()
      modifies this
      ensures Valid() && Evolves(old(rows), rows)
      ensures id == old(nextId)
      ensures rows == old(rows) + [Message(id, room, sender, content, kind, replyTo, false, now, false)]
    {
      id := nextId;
      rows, nextId := rows + [Message(id, room, sender, content, kind, replyTo, false, now, false)], nextId + 1;
    }

    /** The position of a row, or the number of rows. */
    method Locate(id: nat) returns (k: nat)
      ensures k <= |rows| && (k < |rows| ==> rows[k].id == id)
      ensures k == |rows| ==> forall i :: 0 <= i < |rows| ==> rows[i].id != id
    {
      k := 0;
      while k < |rows| && rows[k].id != id
        invariant k <= |rows| && forall i :: 0 <= i < k ==> rows[i].id != id
      {
        k := k + 1;
      }
    }

    method SoftDelete(id: nat)
      requires Valid()
      modifies `rows
      ensures Valid() && Evolves(old(rows), rows) && |rows| == |old(rows)|
      ensures forall i :: 0 <= i < |rows| ==>
        rows[i] == if rows[i].id == id then old(rows)[i].(deleted := true) else old(rows)[i]
    {
      var k := Locate(id);
      if k < |rows| {
        rows := rows[k := rows[k].(deleted := true)];
      }
    }

    method Update(id: nat, content: string, edited: bool)
      requires Valid()
      modifies `rows
      ensures Valid() && Evolves(old(rows), rows) && |rows| == |old(rows)|
      ensures forall i :: 0 <= i < |rows| ==>
        rows[i] == if rows[i].id == id then old(rows)[i].(content := content, edited := edited) else old(rows)[i]
    {
      var k := Locate(id);
      if k < |rows| {
        rows := rows[k := rows[k].(content := content, edited := edited)];
      }
    }

    method FindByRoomBefore(room: nat, before: int, limit: nat) returns (messages: array<Message>)
      ensures fresh(messages) && messages[..] == PageBefore(rows, room, before, limit)
    {
      var records := QueryBefore(rows, room, before, limit);
      messages := new Message[|records|](i requires 0 <= i < |records| => records[i]);
      assert messages[..] == records;
      ReverseInPlace(messages);
    }

    /** answer is what the database returned for the query; it may break ties as it likes. */
    method FindByRoom(room: nat, limit: nat, answer: seq<Message>) returns (messages: array<Message>)
      requires IsLatest(rows, room, limit, answer)
      ensures fresh(messages) && messages[..] == answer
    {
      messages := new Message[|answer|](i requires 0 <= i < |answer| => answer[i]);
    }
  }

  datatype MessageInfo = MessageInfo(
    id: nat, sender: nat, participant: nat, content: string, kind: string, replyTo: Option<nat>,
    edited: bool, createdAt: int)

  datatype Answer =
    | Page(messages: seq<MessageInfo>, hasMore: bool)
    | ErrParticipantNotFound
    | ErrNotRoomMember

  /** Looking up a missing key in a Go map gives zero. */
  function InfoOf(m: Message, participants: map<nat, nat>): MessageInfo {
    var participant := if m.sender in participants then participants[m.sender] else 0;
    MessageInfo(m.id, m.sender, participant, m.content, m.kind, m.replyTo, m.edited, m.createdAt)
  }

  function Infos(s: seq<Message>, participants: map<nat, nat>): seq<MessageInfo>
    decreases |s|
  {
    if s == [] then []
    else
      var last := s[|s| - 1];
      Infos(s[..|s| - 1], participants) + (if last.deleted then [] else [InfoOf(last, participants)])
  }

  datatype ChatMember = ChatMember(id: nat, participant: nat, deleted: bool)

  function ParticipantOf(members: seq<ChatMember>): map<nat, nat>
    decreases |members|
  {
    if members == [] then map[]
    else
      var last := members[|members| - 1];
      ParticipantOf(members[..|members| - 1])[last.id := last.participant]
  }

  /** The member id to participant id lookup. */
  method ParticipantMap(members: seq<ChatMember>) returns (participants: map<nat, nat>)
    ensures participants == ParticipantOf(members)
  {
    participants := map[];
    for i := 0 to |members|
      invariant participants == ParticipantOf(members[..i])
    {
      assert members[..i + 1][..i] == members[..i];
      participants := participants[members[i].id := members[i].participant];
    }
    assert members[..|members|] == members;
  }

  /** The loop that skips deleted messages. */
  method ToInfos(found: array<Message>, participants: map<nat, nat>) returns (infos: seq<MessageInfo>)
    ensures infos == Infos(found[..], participants)
  {
    infos := [];
    for i := 0 to found.Length
      invariant infos == Infos(found[..i], participants)
    {
      assert found[..i + 1][..i] == found[..i];
      if !found[i].deleted {
        infos := infos + [InfoOf(found[i], participants)];
      }
    }
    assert found[..found.Length] == found[..];
  }

  /** Row i is the last member row with the id. */
  ghost predicate IsLastWith(members: seq<ChatMember>, id: nat, i: int) {
    0 <= i < |members| && members[i].id == id && forall j :: i < j < |members| ==> members[j].id != id
  }

  /** The participant of the last member row with the id, or 0 if there is none. */
  ghost predicate IsParticipantOf(members: seq<ChatMember>, id: nat, participant: nat) {
    || ((forall i :: 0 <= i < |members| ==> members[i].id != id) && participant == 0)
    || (exists i :: IsLastWith(members, id, i) && members[i].participant == participant)
  }

  /** The entry says about the row what the client is to see. */
  ghost predicate Describes(info: MessageInfo, m: Message, members: seq<ChatMember>) {
    && info.id == m.id && info.sender == m.sender && info.content == m.content && info.kind == m.kind
    && info.replyTo == m.replyTo && info.edited == m.edited && info.createdAt == m.createdAt
    && IsParticipantOf(members, m.sender, info.participant)
  }

  /** The positions of the undeleted rows, in order. */
  ghost predicate Picks(at: seq<int>, rows: seq<Message>) {
    && (forall k :: 0 <= k < |at| ==> 0 <= at[k] < |rows| && !rows[at[k]].deleted)
    && (forall k, l :: 0 <= k < l < |at| ==> at[k] < at[l])
    && (forall i {:trigger Occurs(at, i)} :: 0 <= i < |rows| && !rows[i].deleted ==> Occurs(at, i))
  }

  predicate Occurs(at: seq<int>, i: int) {
    exists k :: 0 <= k < |at| && at[k] == i
  }

  ghost predicate ShownAt(infos: seq<MessageInfo>, rows: seq<Message>, members: seq<ChatMember>, at: seq<int>) {
    Picks(at, rows) && |infos| == |at| && forall k :: 0 <= k < |at| ==> Describes(infos[k], rows[at[k]], members)
  }

  /** The answer has one entry for each undeleted row, in order, and no other. */
  ghost predicate ShowsUndeleted(infos: seq<MessageInfo>, rows: seq<Message>, members: seq<ChatMember>) {
    exists at :: ShownAt(infos, rows, members, at)
  }

  lemma {:induction false} ParticipantFound(members: seq<ChatMember>, id: nat)
    ensures IsParticipantOf(members, id, if id in ParticipantOf(members) then ParticipantOf(members)[id] else 0)
    decreases |members|
  {
    if members != [] {
      var init, k := members[..|members| - 1], |members| - 1;
      ParticipantFound(init, id);
      if members[k].id == id {
        assert IsLastWith(members, id, k);
      } else if i :| IsLastWith(init, id, i) {
        assert IsLastWith(members, id, i);
      }
    }
  }

  lemma PicksMore(at: seq<int>, rows: seq<Message>, last: Message)
    requires Picks(at, rows)
    ensures Picks(if last.deleted then at else at + [|rows|], rows + [last])
  {
    var more, next := rows + [last], if last.deleted then at else at + [|rows|];
    forall i | 0 <= i < |more| && !more[i].deleted ensures Occurs(next, i) {
      if i < |rows| {
        assert more[i] == rows[i] && Occurs(at, i);
        var k :| 0 <= k < |at| && at[k] == i;
        assert next[k] == i;
      } else {
        assert next[|at|] == i;
      }
    }
  }

  lemma InfoDescribes(m: Message, members: seq<ChatMember>)
    ensures Describes(InfoOf(m, ParticipantOf(members)), m, members)
  {
    ParticipantFound(members, m.sender);
  }

  lemma ShownMore(infos: seq<MessageInfo>, rows: seq<Message>, members: seq<ChatMember>, at: seq<int>,
                  last: Message, info: MessageInfo)
    requires ShownAt(infos, rows, members, at) && Describes(info, last, members)
    ensures ShowsUndeleted(if last.deleted then infos else infos + [info], rows + [last], members)
  {
    PicksMore(at, rows, last);
    var more, next := rows + [last], if last.deleted then at else at + [|rows|];
    var all := if last.deleted then infos else infos + [info];
    forall k | 0 <= k < |next| ensures Describes(all[k], more[next[k]], members) {
      if k < |at| {
        assert Describes(infos[k], rows[at[k]], members);
      }
    }
    assert ShownAt(all, more, members, next);
  }

  lemma {:induction false} InfosShowUndeleted(rows: seq<Message>, members: seq<ChatMember>)
    ensures ShowsUndeleted(Infos(rows, ParticipantOf(members)), rows, members)
    decreases |rows|
  {
    if rows == [] {
      assert ShownAt([], rows, members, []);
    } else {
      var init, last := rows[..|rows| - 1], rows[|rows| - 1];
      var infos, info := Infos(init, ParticipantOf(members)), InfoOf(last, ParticipantOf(members));
      InfosShowUndeleted(init, members);
      var at :| ShownAt(infos, init, members, at);
      InfoDescribes(last, members);
      ShownMore(infos, init, members, at, last, info);
      assert rows == init + [last];
      assert Infos(rows, ParticipantOf(members)) == if last.deleted then infos else infos + [info] by {
        assert infos + [] == infos;
      }
    }
  }

  /** Get chat room messages. isParticipant tells whether the calling user is a participant, and
      caller is that participant's member row in the room, if any. */
  method GetMessages(
    repo: ChatMessageRepository, isParticipant: bool, caller: Option<ChatMember>, members: seq<ChatMember>,
    room: nat, before: int, requested: nat, latest: seq<Message>)
    returns (r: Answer)
    requires before == 0 ==> IsLatest(repo.rows, room, Clamp(requested), latest)
    ensures r == ErrParticipantNotFound <==> !isParticipant
    ensures r == ErrNotRoomMember <==> isParticipant && (caller.None? || caller.value.deleted)
    ensures r.Page? && before != 0 ==>
      var found := PageBefore(repo.rows, room, before, Clamp(requested));
      r == Page(Infos(found, ParticipantOf(members)), |found| == Clamp(requested))
    ensures r.Page? && before == 0 ==>
      r == Page(Infos(Reversed(latest), ParticipantOf(members)), |latest| == Clamp(requested))
    ensures r.Page? ==>
      var rows := if before == 0 then Reversed(latest) else PageBefore(repo.rows, room, before, Clamp(requested));
      ShowsUndeleted(r.messages, rows, members) && (r.hasMore <==> |rows| == Clamp(requested))
  {
    if !isParticipant {
      return ErrParticipantNotFound;
    }
    if caller.None? || caller.value.deleted {
      return ErrNotRoomMember;
    }
    var limit := requested;
    if limit == 0 {
      limit := DEFAULT_LIMIT;
    }
    if limit > MAX_LIMIT {
      limit := MAX_LIMIT;
    }
    var participants := ParticipantMap(members);
    var found: array<Message>;
    if before == 0 {
      found := repo.FindByRoom(room, limit, latest);
      ReverseInPlace(found);
    } else {
      found := repo.FindByRoomBefore(room, before, limit);
    }
    var infos := ToInfos(found, participants);
    InfosShowUndeleted(found[..], members);
    r := Page(infos, found.Length == limit);
  }
}
