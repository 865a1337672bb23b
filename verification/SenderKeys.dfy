/** Sender keys, the record of who fetched which chain, and the status queries over them. */
module SenderKeys {
  import opened Common

  /** A row of chat_members, in table order. */
  datatype Member = Member(id: nat, room: nat, deleted: bool)

  /** A row of member_sender_keys. */
  datatype Key = Key(member: nat, chain: int)

  /** One value tuple of UpsertBatch. */
  datatype Dist = Dist(sender: nat, receiver: nat, chain: int)

  type Recorded = map<(nat, nat), int>

  ghost predicate DistinctIds(members: seq<Member>) {
    forall i, j :: 0 <= i < j < |members| ==> members[i].id != members[j].id
  }

  function PairOf(d: Dist): (nat, nat) {
    (d.sender, d.receiver)
  }

  // --- sender_key_distributions ---

  /** INSERT ... ON CONFLICT DO UPDATE SET chain_id = GREATEST(...) for one tuple. */
  function Put(r: Recorded, d: Dist): Recorded {
    r[PairOf(d) := if PairOf(d) in r && r[PairOf(d)] > d.chain then r[PairOf(d)] else d.chain]
  }

  function Merge(r: Recorded, batch: seq<Dist>): Recorded
    decreases |batch|
  {
    if batch == [] then r else Put(Merge(r, batch[..|batch| - 1]), batch[|batch| - 1])
  }

  /** One statement may not update the same row twice; the database refuses it. */
  ghost predicate Refused(batch: seq<Dist>) {
    exists i, j :: 0 <= i < j < |batch| && PairOf(batch[i]) == PairOf(batch[j])
  }

  ghost function Upsert(r: Recorded, batch: seq<Dist>): Recorded {
    if Refused(batch) then r else Merge(r, batch)
  }

  /** The receiver has fetched the sender's key at this chain or a later one. */
  predicate HasFetched(r: Recorded, sender: nat, receiver: nat, chain: int) {
    (sender, receiver) in r && chain <= r[(sender, receiver)]
  }

  function RoomOf(members: seq<Member>, id: nat): Option<nat>
    decreases |members|
  {
    if members == [] then None
    else if members[|members| - 1].id == id then Some(members[|members| - 1].room)
    else RoomOf(members[..|members| - 1], id)
  }

  /** The condition of FindPendingReceivers on one candidate row. */
  predicate Pending(members: seq<Member>, r: Recorded, sender: nat, chain: int, m: Member) {
    Some(m.room) == RoomOf(members, sender) && m.id != sender && !m.deleted && !HasFetched(r, sender, m.id, chain)
  }

  /** The ids of the rows up to k that FindPendingReceivers selects. */
  function PendingReceivers(members: seq<Member>, r: Recorded, sender: nat, chain: int, k: nat): seq<nat>
    requires k <= |members|
  {
    if k == 0 then []
    else PendingReceivers(members, r, sender, chain, k - 1)
         + if Pending(members, r, sender, chain, members[k - 1]) then [members[k - 1].id] else []
  }

  // --- member_sender_keys ---

  ghost predicate IsLatest(keys: set<Key>, member: nat, chain: int) {
    Key(member, chain) in keys && forall k :: k in keys && k.member == member ==> k.chain <= chain
  }

  ghost predicate HasKey(keys: set<Key>, member: nat) {
    exists k :: k in keys && k.member == member
  }

  /** SELECT ... ORDER BY chain_id DESC LIMIT 1. */
  ghost function FindLatest(keys: set<Key>, member: nat): (r: Option<int>)
    ensures r.Some? ==> IsLatest(keys, member, r.value)
    ensures r.None? ==> !HasKey(keys, member)
  {
    LatestExists(keys, member);
    if HasKey(keys, member) then var chain :| IsLatest(keys, member, chain); Some(chain) else None
  }

  lemma {:induction false} LatestExists(keys: set<Key>, member: nat)
    ensures HasKey(keys, member) ==> exists chain :: IsLatest(keys, member, chain)
    decreases keys
  {
    if k :| k in keys && k.member == member {
      var rest := keys - {k};
      LatestExists(rest, member);
      if HasKey(rest, member) {
        var chain :| IsLatest(rest, member, chain);
        assert IsLatest(keys, member, if chain < k.chain then k.chain else chain);
      } else {
        assert forall o :: o in keys && o.member == member ==> o == k by {
          forall o | o in keys && o.member == member ensures o == k {
            assert o in rest || o == k;
          }
        }
        assert IsLatest(keys, member, k.chain);
      }
    }
  }

  // --- status ---

  /** The receivers the caller's latest key is still missing for. */
  ghost function MyPendingReceivers(members: seq<Member>, keys: set<Key>, r: Recorded, caller: nat): seq<nat> {
    var latest := FindLatest(keys, caller);
    if latest.None? then [] else PendingReceivers(members, r, caller, latest.value, |members|)
  }

  /** The loop body of pendingFromMembers: m is reported to the caller. */
  ghost predicate Reported(members: seq<Member>, keys: set<Key>, r: Recorded, room: nat, caller: nat, m: Member) {
    && m.room == room && m.id != caller && !m.deleted
    && FindLatest(keys, m.id).Some?
    && caller in PendingReceivers(members, r, m.id, FindLatest(keys, m.id).value, |members|)
  }

  ghost function PendingFrom(
    members: seq<Member>, keys: set<Key>, r: Recorded, room: nat, caller: nat, k: nat): seq<nat>
    requires k <= |members|
  {
    if k == 0 then []
    else PendingFrom(members, keys, r, room, caller, k - 1)
         + if Reported(members, keys, r, room, caller, members[k - 1]) then [members[k - 1].id] else []
  }

  // --- fetching ---

  /** The keys FindAllByMembers returns for a room: every key of every member row. */
  function KeysOfRoom(members: seq<Member>, keys: set<Key>, room: nat): set<Key> {
    set k | k in keys && RoomOf(members, k.member) == Some(room)
  }

  /** What recordDistributions writes for the keys that were served: one tuple per key,
      except for the receiver's own. */
  function Batch(receiver: nat, served: seq<Key>): seq<Dist>
    decreases |served|
  {
    if served == [] then []
    else
      var last := served[|served| - 1];
      Batch(receiver, served[..|served| - 1])
      + if last.member == receiver then [] else [Dist(last.member, receiver, last.chain)]
  }

  const KEY_LENGTH := 32

  datatype UploadResult = Uploaded | ErrNotRoomMember | ErrInvalidSignature | ErrAdd

  datatype Fetched = Fetched(items: seq<nat>, batch: seq<Dist>)

  /** The tables, and the use cases that read and write them. */
  class E2eeStore {
    var members: seq<Member>
    var keys: set<Key>
    var recorded: Recorded

    constructor (members: seq<Member>)
      ensures this.members == members && keys == {} && recorded == map[]
    {
      this.members, keys, recorded := members, {}, map[];
    }

    /** UNIQUE (chat_member_id, chain_id). */
    method Add(member: nat, chain: int) returns (ok: bool)
      modifies `keys
      ensures ok == (Key(member, chain) !in old(keys)) && keys == old(keys) + {Key(member, chain)}
    {
      ok := Key(member, chain) !in keys;
      keys := keys + {Key(member, chain)};
    }

    /** The upload use case never sets the chain, so the insert carries zero. member is the
        calling user's row in the room; publicKey and message are None if they do not decode. */
    method UploadSenderKey(member: Option<nat>, publicKey: Option<seq<bv8>>, message: Option<seq<bv8>>)
      returns (r: UploadResult)
      modifies `keys
      ensures r == ErrNotRoomMember <==> member.None?
      ensures r == ErrInvalidSignature <==>
        member.Some? && (publicKey.None? || |publicKey.value| != KEY_LENGTH || message.None?)
      ensures r == Uploaded ==> Key(member.value, 0) !in old(keys) && keys == old(keys) + {Key(member.value, 0)}
      ensures r == ErrAdd ==> Key(member.value, 0) in old(keys)
      ensures r != Uploaded ==> keys == old(keys)
    {
      if member.None? {
        return ErrNotRoomMember;
      }
      if publicKey.None? || |publicKey.value| != KEY_LENGTH {
        return ErrInvalidSignature;
      }
      if message.None? {
        return ErrInvalidSignature;
      }
      var ok := Add(member.value, 0);
      r := if ok then Uploaded else ErrAdd;
    }

    method UpsertBatch(batch: seq<Dist>) returns (ok: bool)
      modifies `recorded
      ensures ok == !Refused(batch) && recorded == Upsert(old(recorded), batch)
    {
      if |batch| == 0 {
        return true;
      }
      ok := !exists i, j :: 0 <= i < j < |batch| && PairOf(batch[i]) == PairOf(batch[j]);
      if ok {
        recorded := Merge(recorded, batch);
      }
    }

    /** Scans a member's keys for the largest chain. */
    method Latest(member: nat) returns (r: Option<int>)
      ensures r == FindLatest(keys, member)
    {
      r := None;
      var rest := keys;
      while rest != {}
        invariant rest <= keys
        invariant r.None? ==> forall k :: k in keys - rest ==> k.member != member
        invariant r.Some? ==> IsLatest(keys - rest, member, r.value)
        decreases rest
      {
        var k :| k in rest;
        rest := rest - {k};
        if k.member == member && (r.None? || r.value < k.chain) {
          r := Some(k.chain);
        }
      }
      if r.Some? {
        assert IsLatest(keys, member, r.value);
      }
    }

    method QueryPendingReceivers(sender: nat, chain: int) returns (ids: seq<nat>)
      ensures ids == PendingReceivers(members, recorded, sender, chain, |members|)
    {
      ids := PendingReceivers(members, recorded, sender, chain, |members|);
    }

    method StatusPendingReceivers(caller: nat) returns (ids: seq<nat>)
      ensures ids == MyPendingReceivers(members, keys, recorded, caller)
    {
      var latest := Latest(caller);
      if latest.None? {
        return [];
      }
      ids := QueryPendingReceivers(caller, latest.value);
    }

    /** FindByRoom is the filter on the room; the nested loop stops at the first match. */
    method StatusPendingFromMembers(room: nat, caller: nat) returns (pending: seq<nat>)
      ensures pending == PendingFrom(members, keys, recorded, room, caller, |members|)
    {
      pending := [];
      for k := 0 to |members|
        invariant pending == PendingFrom(members, keys, recorded, room, caller, k)
      {
        var m := members[k];
        if m.room != room || m.id == caller || m.deleted {
          continue;
        }
        var latest := Latest(m.id);
        if latest.None? {
          continue;
        }
        var receivers := QueryPendingReceivers(m.id, latest.value);
        var i := 0;
        while i < |receivers|
          invariant i <= |receivers| && caller !in receivers[..i]
          invariant pending == PendingFrom(members, keys, recorded, room, caller, k)
        {
          if receivers[i] == caller {
            pending := pending + [m.id];
            break;
          }
          i := i + 1;
        }
      }
    }

    /** Get sender key distribution status. caller is the calling user's row in the room. */
    method Status(room: nat, caller: Option<nat>) returns (r: Option<(seq<nat>, seq<nat>)>)
      ensures r.None? <==> caller.None?
      ensures r.Some? ==>
        && r.value.0 == MyPendingReceivers(members, keys, recorded, caller.value)
        && r.value.1 == PendingFrom(members, keys, recorded, room, caller.value, |members|)
    {
      if caller.None? {
        return None;
      }
      var receivers := StatusPendingReceivers(caller.value);
      var from := StatusPendingFromMembers(room, caller.value);
      r := Some((receivers, from));
    }

    /** Get sender keys: served is what the query returned, in any order. items are the owners of
        the keys that the answer carries; batch is what the background goroutine will write. */
    method GetSenderKeys(room: nat, caller: Option<nat>, served: seq<Key>) returns (r: Option<Fetched>)
      requires Enumerates(served, KeysOfRoom(members, keys, room))
      ensures r.None? <==> caller.None?
      ensures r.Some? ==> r.value.batch == Batch(caller.value, served)
      ensures r.Some? ==>
        |r.value.items| == |served| && forall i :: 0 <= i < |served| ==> r.value.items[i] == served[i].member
    {
      if caller.None? {
        return None;
      }
      var items: seq<nat> := [];
      for i := 0 to |served|
        invariant |items| == i && forall j :: 0 <= j < i ==> items[j] == served[j].member
      {
        items := items + [served[i].member];
      }
      var batch := RecordDistributions(caller.value, served);
      r := Some(Fetched(items, batch));
    }

    /** The loop that builds the batch. */
    method RecordDistributions(receiver: nat, served: seq<Key>) returns (batch: seq<Dist>)
      ensures batch == Batch(receiver, served)
    {
      batch := [];
      for i := 0 to |served|
        invariant batch == Batch(receiver, served[..i])
      {
        assert served[..i + 1][..i] == served[..i];
        if served[i].member != receiver {
          batch := batch + [Dist(served[i].member, receiver, served[i].chain)];
        }
      }
      assert served[..|served|] == served;
    }
  }
}
