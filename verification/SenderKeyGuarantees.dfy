/** Merging late acknowledgements, the two views of what is pending, and runs of fetches and
    delayed records. */
module SenderKeyGuarantees {
  import opened Common
  import opened SenderKeys

  // --- merging ---

  /** The chains a list of batches offers for a pair; refused batches offer none. */
  ghost function Offered(batches: seq<seq<Dist>>, pair: (nat, nat)): set<int> {
    set b: seq<Dist>, i: int | b in batches && !Refused(b) && 0 <= i < |b| && PairOf(b[i]) == pair :: b[i].chain
  }

  ghost function ApplyAll(r: Recorded, batches: seq<seq<Dist>>): Recorded
    decreases |batches|
  {
    if batches == [] then r else Upsert(ApplyAll(r, batches[..|batches| - 1]), batches[|batches| - 1])
  }

  /** r' holds, for the pair, the maximum of what r held and of the offered chains. */
  ghost predicate IsMaxOf(r': Recorded, r: Recorded, offered: set<int>, pair: (nat, nat)) {
    && (pair in r' <==> pair in r || offered != {})
    && (pair in r ==> r[pair] <= r'[pair])
    && (forall c :: c in offered ==> pair in r' && c <= r'[pair])
    && (pair in r' ==> (pair in r && r'[pair] == r[pair]) || r'[pair] in offered)
  }

  lemma {:induction false} MergeIsMax(r: Recorded, batch: seq<Dist>, pair: (nat, nat))
    ensures IsMaxOf(Merge(r, batch), r, set i | 0 <= i < |batch| && PairOf(batch[i]) == pair :: batch[i].chain, pair)
    decreases |batch|
  {
    if batch != [] {
      var init, last := batch[..|batch| - 1], batch[|batch| - 1];
      MergeIsMax(r, init, pair);
      var before := set i | 0 <= i < |init| && PairOf(init[i]) == pair :: init[i].chain;
      var after := set i | 0 <= i < |batch| && PairOf(batch[i]) == pair :: batch[i].chain;
      assert forall i :: 0 <= i < |init| ==> batch[i] == init[i];
      assert after == if PairOf(last) == pair then before + {last.chain} else before by {
        forall c ensures c in after <==> c in before || (PairOf(last) == pair && c == last.chain) {
          if c in before {
            var i :| 0 <= i < |init| && PairOf(init[i]) == pair && init[i].chain == c;
            assert PairOf(batch[i]) == pair && batch[i].chain == c;
          }
          if PairOf(last) == pair && c == last.chain {
            assert PairOf(batch[|batch| - 1]) == pair;
          }
        }
      }
    }
  }

  /** Whatever the order, each pair ends with the largest chain that was ever offered. */
  lemma {:induction false} AppliedIsMax(r: Recorded, batches: seq<seq<Dist>>, pair: (nat, nat))
    ensures IsMaxOf(ApplyAll(r, batches), r, Offered(batches, pair), pair)
    decreases |batches|
  {
    if batches != [] {
      var init, last := batches[..|batches| - 1], batches[|batches| - 1];
      AppliedIsMax(r, init, pair);
      MergeIsMax(ApplyAll(r, init), last, pair);
      var chains := set i | 0 <= i < |last| && PairOf(last[i]) == pair :: last[i].chain;
      assert batches == init + [last];
      assert Offered(batches, pair) == if Refused(last) then Offered(init, pair) else Offered(init, pair) + chains;
    }
  }

  lemma MaxIsUnique(a: Recorded, b: Recorded, r: Recorded, offered: set<int>, pair: (nat, nat))
    requires IsMaxOf(a, r, offered, pair) && IsMaxOf(b, r, offered, pair)
    ensures (pair in a <==> pair in b) && (pair in a ==> a[pair] == b[pair])
  {
  }

  /** Batches written late and in any order leave the same record. */
  lemma OrderDoesNotMatter(r: Recorded, batches: seq<seq<Dist>>, reordered: seq<seq<Dist>>)
    requires multiset(batches) == multiset(reordered)
    ensures ApplyAll(r, batches) == ApplyAll(r, reordered)
  {
    var a, b := ApplyAll(r, batches), ApplyAll(r, reordered);
    assert forall batch :: batch in batches <==> batch in multiset(batches);
    assert forall batch :: batch in reordered <==> batch in multiset(reordered);
    forall pair ensures (pair in a <==> pair in b) && (pair in a ==> a[pair] == b[pair]) {
      AppliedIsMax(r, batches, pair);
      AppliedIsMax(r, reordered, pair);
      assert Offered(batches, pair) == Offered(reordered, pair);
      MaxIsUnique(a, b, r, Offered(batches, pair), pair);
    }
  }

  // --- the two views of what is pending ---

  lemma {:induction false} RoomOfMember(members: seq<Member>, i: nat)
    requires DistinctIds(members) && i < |members|
    ensures RoomOf(members, members[i].id) == Some(members[i].room)
    decreases |members|
  {
    if i < |members| - 1 {
      RoomOfMember(members[..|members| - 1], i);
    }
  }

  lemma {:induction false} PendingReceiversIff(
    members: seq<Member>, r: Recorded, sender: nat, chain: int, k: nat, id: nat)
    requires k <= |members|
    ensures id in PendingReceivers(members, r, sender, chain, k) <==>
      exists i :: 0 <= i < k && members[i].id == id && Pending(members, r, sender, chain, members[i])
  {
    if k > 0 {
      PendingReceiversIff(members, r, sender, chain, k - 1, id);
    }
  }

  lemma {:induction false} PendingFromIff(
    members: seq<Member>, keys: set<Key>, r: Recorded, room: nat, caller: nat, k: nat, id: nat)
    requires k <= |members|
    ensures id in PendingFrom(members, keys, r, room, caller, k) <==>
      exists i :: 0 <= i < k && members[i].id == id && Reported(members, keys, r, room, caller, members[i])
  {
    if k > 0 {
      PendingFromIff(members, keys, r, room, caller, k - 1, id);
    }
  }

  /** The record says that the receiver has fetched the sender's key at the chain or later. */
  predicate Fetched(r: Recorded, sender: nat, receiver: nat, chain: int) {
    (sender, receiver) in r && r[(sender, receiver)] >= chain
  }

  /** The query selects exactly the other undeleted members of the sender's own room that have no
      record of its chain or a later one. */
  lemma PendingReceiversExact(members: seq<Member>, r: Recorded, s: nat, chain: int, id: nat)
    requires DistinctIds(members) && s < |members|
    ensures id in PendingReceivers(members, r, members[s].id, chain, |members|) <==>
      exists i :: 0 <= i < |members| && members[i].id == id && i != s && members[i].room == members[s].room
        && !members[i].deleted && !Fetched(r, members[s].id, id, chain)
  {
    RoomOfMember(members, s);
    PendingReceiversIff(members, r, members[s].id, chain, |members|, id);
    if i :| 0 <= i < |members| && members[i].id == id && Pending(members, r, members[s].id, chain, members[i]) {
      assert i != s;
    }
    if i :| (0 <= i < |members| && members[i].id == id && i != s && members[i].room == members[s].room
             && !members[i].deleted && !Fetched(r, members[s].id, id, chain)) {
      assert members[i].id != members[s].id;
      assert Pending(members, r, members[s].id, chain, members[i]);
    }
  }

  lemma {:induction false} PendingReceiversDistinct(
    members: seq<Member>, r: Recorded, sender: nat, chain: int, k: nat, i: nat, j: nat)
    requires DistinctIds(members) && k <= |members| && i < j < |PendingReceivers(members, r, sender, chain, k)|
    ensures PendingReceivers(members, r, sender, chain, k)[i] != PendingReceivers(members, r, sender, chain, k)[j]
  {
    var before := PendingReceivers(members, r, sender, chain, k - 1);
    if j < |before| {
      PendingReceiversDistinct(members, r, sender, chain, k - 1, i, j);
    } else {
      PendingReceiversIff(members, r, sender, chain, k - 1, before[i]);
    }
  }

  /** A sender that is no member row has no room, so nobody is pending. */
  lemma {:induction false} UnknownSender(members: seq<Member>, r: Recorded, sender: nat, chain: int, k: nat)
    requires k <= |members| && forall i :: 0 <= i < |members| ==> members[i].id != sender
    ensures PendingReceivers(members, r, sender, chain, k) == []
  {
    NoRoom(members, sender);
    if k > 0 {
      UnknownSender(members, r, sender, chain, k - 1);
    }
  }

  lemma {:induction false} NoRoom(members: seq<Member>, id: nat)
    requires forall i :: 0 <= i < |members| ==> members[i].id != id
    ensures RoomOf(members, id).None?
    decreases |members|
  {
    if members != [] {
      NoRoom(members[..|members| - 1], id);
    }
  }

  /** The first list of the status: the other undeleted members of the caller's room that have not
      fetched the caller's latest key. */
  lemma StatusReceiversExact(members: seq<Member>, keys: set<Key>, r: Recorded, s: nat, id: nat)
    requires DistinctIds(members) && s < |members|
    ensures id in MyPendingReceivers(members, keys, r, members[s].id) <==>
      exists chain, i :: IsLatest(keys, members[s].id, chain) && 0 <= i < |members| && members[i].id == id && i != s
        && members[i].room == members[s].room && !members[i].deleted && !Fetched(r, members[s].id, id, chain)
  {
    var latest := FindLatest(keys, members[s].id);
    if latest.Some? {
      PendingReceiversExact(members, r, s, latest.value, id);
      assert forall chain :: IsLatest(keys, members[s].id, chain) ==> chain == latest.value;
    } else {
      assert forall chain :: !IsLatest(keys, members[s].id, chain);
    }
  }

  /** The second list: the other undeleted members of the caller's room whose latest key the
      caller, itself undeleted, has not fetched. */
  lemma StatusSendersExact(members: seq<Member>, keys: set<Key>, r: Recorded, c: nat, id: nat)
    requires DistinctIds(members) && c < |members|
    ensures id in PendingFrom(members, keys, r, members[c].room, members[c].id, |members|) <==>
      exists chain, i :: 0 <= i < |members| && members[i].id == id && i != c && members[i].room == members[c].room
        && !members[i].deleted && !members[c].deleted && IsLatest(keys, id, chain)
        && !Fetched(r, id, members[c].id, chain)
  {
    var caller := members[c].id;
    PendingFromIff(members, keys, r, members[c].room, caller, |members|, id);
    var latest := FindLatest(keys, id);
    assert latest.Some? ==> forall chain :: IsLatest(keys, id, chain) ==> chain == latest.value;
    var room := members[c].room;
    if i :| 0 <= i < |members| && members[i].id == id && Reported(members, keys, r, room, caller, members[i]) {
      PendingReceiversExact(members, r, i, latest.value, caller);
      assert IsLatest(keys, id, latest.value);
    }
    if chain, i :| (0 <= i < |members| && members[i].id == id && i != c && members[i].room == members[c].room
                    && !members[i].deleted && !members[c].deleted && IsLatest(keys, id, chain)
                    && !Fetched(r, id, members[c].id, chain)) {
      assert HasKey(keys, id);
      PendingReceiversExact(members, r, i, chain, caller);
      assert Reported(members, keys, r, members[c].room, caller, members[i]);
    }
  }

  /** The keys served for a room are exactly those of its member rows, deleted ones included. */
  lemma ServedKeysExact(members: seq<Member>, keys: set<Key>, room: nat, k: Key)
    requires DistinctIds(members)
    ensures k in KeysOfRoom(members, keys, room) <==>
      k in keys && exists i :: 0 <= i < |members| && members[i].id == k.member && members[i].room == room
  {
    if i :| 0 <= i < |members| && members[i].id == k.member {
      RoomOfMember(members, i);
      assert forall j :: 0 <= j < |members| && members[j].id == k.member ==> j == i;
    } else {
      NoRoom(members, k.member);
    }
  }

  /** The two halves of the status agree: for any tables and any two members a and b of one
      room, a is among b's PendingFromMembers exactly when b is among a's PendingReceivers and
      a is not deleted. */
  lemma StatusIsSymmetric(members: seq<Member>, keys: set<Key>, r: Recorded, i: nat, j: nat)
    requires DistinctIds(members) && i < |members| && j < |members| && i != j && members[i].room == members[j].room
    ensures
      var a, b := members[i], members[j];
      a.id in PendingFrom(members, keys, r, b.room, b.id, |members|) <==>
      b.id in MyPendingReceivers(members, keys, r, a.id) && !a.deleted
  {
    var a, b := members[i], members[j];
    RoomOfMember(members, i);
    PendingFromIff(members, keys, r, b.room, b.id, |members|, a.id);
    var latest := FindLatest(keys, a.id);
    if latest.Some? {
      PendingReceiversIff(members, r, a.id, latest.value, |members|, b.id);
    }
    assert forall k :: 0 <= k < |members| && members[k].id == a.id ==> k == i;
  }

  /** No member is reported twice, although the loop is nested. */
  lemma {:induction false} PendingFromIsDuplicateFree(
    members: seq<Member>, keys: set<Key>, r: Recorded, room: nat, caller: nat, k: nat, i: nat, j: nat)
    requires DistinctIds(members) && k <= |members|
    requires i < j < |PendingFrom(members, keys, r, room, caller, k)|
    ensures PendingFrom(members, keys, r, room, caller, k)[i] != PendingFrom(members, keys, r, room, caller, k)[j]
  {
    var before := PendingFrom(members, keys, r, room, caller, k - 1);
    if j < |before| {
      PendingFromIsDuplicateFree(members, keys, r, room, caller, k - 1, i, j);
    } else {
      PendingFromIff(members, keys, r, room, caller, k - 1, before[i]);
    }
  }

  // --- a fetch and its record ---

  lemma {:induction false} BatchIff(receiver: nat, served: seq<Key>, d: Dist)
    ensures d in Batch(receiver, served) <==>
      d.receiver == receiver && d.sender != receiver && Key(d.sender, d.chain) in served
    decreases |served|
  {
    if served != [] {
      var init, last := served[..|served| - 1], served[|served| - 1];
      BatchIff(receiver, init, d);
      assert served == init + [last];
      assert Key(d.sender, d.chain) in served <==> Key(d.sender, d.chain) in init || Key(d.sender, d.chain) == last;
    }
  }

  ghost predicate TwoKeys(served: seq<Key>, receiver: nat) {
    exists k, l :: k in served && l in served && k.member == l.member && k.member != receiver && k != l
  }

  lemma {:induction false} BatchDistinct(receiver: nat, served: seq<Key>)
    requires forall i, j :: 0 <= i < j < |served| ==> served[i] != served[j]
    ensures forall i, j :: 0 <= i < j < |Batch(receiver, served)| ==>
      Batch(receiver, served)[i] != Batch(receiver, served)[j]
    decreases |served|
  {
    if served != [] {
      var init, last := served[..|served| - 1], served[|served| - 1];
      BatchDistinct(receiver, init);
      BatchIff(receiver, init, Dist(last.member, receiver, last.chain));
    }
  }

  lemma RefusedHasTwo(receiver: nat, served: seq<Key>)
    requires forall i, j :: 0 <= i < j < |served| ==> served[i] != served[j]
    requires Refused(Batch(receiver, served))
    ensures TwoKeys(served, receiver)
  {
    var batch := Batch(receiver, served);
    BatchDistinct(receiver, served);
    var i, j :| 0 <= i < j < |batch| && PairOf(batch[i]) == PairOf(batch[j]);
    BatchIff(receiver, served, batch[i]);
    BatchIff(receiver, served, batch[j]);
    assert Key(batch[i].sender, batch[i].chain) != Key(batch[j].sender, batch[j].chain);
  }

  lemma TwoAreRefused(receiver: nat, served: seq<Key>)
    requires TwoKeys(served, receiver)
    ensures Refused(Batch(receiver, served))
  {
    var batch := Batch(receiver, served);
    var k, l :| k in served && l in served && k.member == l.member && k.member != receiver && k != l;
    var d, e := Dist(k.member, receiver, k.chain), Dist(l.member, receiver, l.chain);
    BatchIff(receiver, served, d);
    BatchIff(receiver, served, e);
    var i :| 0 <= i < |batch| && batch[i] == d;
    var j :| 0 <= j < |batch| && batch[j] == e;
    assert PairOf(batch[i]) == PairOf(batch[j]);
    assert i < j || j < i;
  }

  /** The database refuses the record of a fetch exactly when some other member had two keys. */
  lemma RecordRefusedIff(receiver: nat, served: seq<Key>)
    requires forall i, j :: 0 <= i < j < |served| ==> served[i] != served[j]
    ensures Refused(Batch(receiver, served)) <==> TwoKeys(served, receiver)
  {
    if Refused(Batch(receiver, served)) {
      RefusedHasTwo(receiver, served);
    }
    if TwoKeys(served, receiver) {
      TwoAreRefused(receiver, served);
    }
  }

  /** What the receiver's record says about a sender once the batch has been merged. */
  lemma RecordCovers(
    members: seq<Member>, keys: set<Key>, r: Recorded, served: seq<Key>, room: nat, receiver: nat, sender: nat)
    requires Enumerates(served, KeysOfRoom(members, keys, room)) && !TwoKeys(served, receiver)
    requires RoomOf(members, sender) == Some(room) && sender != receiver
    ensures
      var r' := Upsert(r, Batch(receiver, served));
      var before := FindLatest(keys, sender);
      && (before.Some? ==> HasFetched(r', sender, receiver, before.value))
      && forall chain :: HasFetched(r', sender, receiver, chain) <==>
           HasFetched(r, sender, receiver, chain) || (before.Some? && chain <= before.value)
  {
    var batch, pair := Batch(receiver, served), (sender, receiver);
    RecordRefusedIff(receiver, served);
    MergeIsMax(r, batch, pair);
    var chains := set i | 0 <= i < |batch| && PairOf(batch[i]) == pair :: batch[i].chain;
    var before := FindLatest(keys, sender);
    forall c ensures c in chains <==> before == Some(c) {
      BatchIff(receiver, served, Dist(sender, receiver, c));
      if c in chains {
        var i :| 0 <= i < |batch| && PairOf(batch[i]) == pair && batch[i].chain == c;
        assert batch[i] == Dist(sender, receiver, c) && batch[i] in batch;
        assert Key(sender, c) in served && Key(sender, before.value) in served;
      }
      if before == Some(c) {
        assert Key(sender, c) in served;
        var i :| 0 <= i < |batch| && batch[i] == Dist(sender, receiver, c);
        assert PairOf(batch[i]) == pair;
      }
    }
  }

  /** After a fetch by an active member has been recorded, the members still reported to it
      are exactly the active ones whose latest key now is newer than both what the fetch saw
      and what had been recorded otherwise. keys is the key table at the time of the fetch,
      now the one at the time of the status call. */
  lemma PendingAfterRecord(
    members: seq<Member>, keys: set<Key>, now: set<Key>, r: Recorded, served: seq<Key>, me: nat, i: nat)
    requires DistinctIds(members) && me < |members| && !members[me].deleted
    requires Enumerates(served, KeysOfRoom(members, keys, members[me].room)) && !TwoKeys(served, members[me].id)
    requires i < |members| && members[i].room == members[me].room && i != me
    ensures
      var receiver, sender, room := members[me].id, members[i].id, members[me].room;
      var latest, before := FindLatest(now, sender), FindLatest(keys, sender);
      sender in PendingFrom(members, now, Upsert(r, Batch(receiver, served)), room, receiver, |members|) <==>
        !members[i].deleted && latest.Some?
        && !HasFetched(r, sender, receiver, latest.value) && (before.None? || before.value < latest.value)
  {
    var receiver, sender, room := members[me].id, members[i].id, members[me].room;
    var r' := Upsert(r, Batch(receiver, served));
    RoomOfMember(members, i);
    RoomOfMember(members, me);
    RecordCovers(members, keys, r, served, room, receiver, sender);
    PendingFromIff(members, now, r', room, receiver, |members|, sender);
    assert forall k :: 0 <= k < |members| && members[k].id == sender ==> k == i;
    assert forall k :: 0 <= k < |members| && members[k].id == receiver ==> k == me;
    var latest := FindLatest(now, sender);
    if latest.Some? {
      PendingReceiversIff(members, r', sender, latest.value, |members|, receiver);
    }
  }

  /** With no key added since the fetch, nothing is pending. */
  lemma NothingPendingAfterRecord(members: seq<Member>, keys: set<Key>, r: Recorded, served: seq<Key>, me: nat)
    requires DistinctIds(members) && me < |members| && !members[me].deleted
    requires Enumerates(served, KeysOfRoom(members, keys, members[me].room)) && !TwoKeys(served, members[me].id)
    ensures
      var r' := Upsert(r, Batch(members[me].id, served));
      PendingFrom(members, keys, r', members[me].room, members[me].id, |members|) == []
  {
    var receiver, room := members[me].id, members[me].room;
    var r' := Upsert(r, Batch(receiver, served));
    var pending := PendingFrom(members, keys, r', room, receiver, |members|);
    if pending != [] {
      PendingFromIff(members, keys, r', room, receiver, |members|, pending[0]);
      var i :| 0 <= i < |members| && members[i].id == pending[0]
        && Reported(members, keys, r', room, receiver, members[i]);
      PendingAfterRecord(members, keys, keys, r, served, me, i);
    }
  }

  /** A newer key added between the read and the record leaves exactly its sender pending. */
  lemma OnlyNewKeyPending(
    members: seq<Member>, keys: set<Key>, r: Recorded, served: seq<Key>, me: nat, s: nat, chain: int)
    requires DistinctIds(members) && me < |members| && !members[me].deleted
    requires Enumerates(served, KeysOfRoom(members, keys, members[me].room)) && !TwoKeys(served, members[me].id)
    requires s < |members| && s != me && members[s].room == members[me].room && !members[s].deleted
    requires forall k :: k in keys && k.member == members[s].id ==> k.chain < chain
    requires !HasFetched(r, members[s].id, members[me].id, chain)
    ensures
      var r' := Upsert(r, Batch(members[me].id, served));
      var now := keys + {Key(members[s].id, chain)};
      PendingFrom(members, now, r', members[me].room, members[me].id, |members|) == [members[s].id]
  {
    var receiver, sender, room := members[me].id, members[s].id, members[me].room;
    var now, r' := keys + {Key(sender, chain)}, Upsert(r, Batch(receiver, served));
    var pending := PendingFrom(members, now, r', room, receiver, |members|);
    assert IsLatest(now, sender, chain);
    assert FindLatest(now, sender) == Some(chain);
    PendingAfterRecord(members, keys, now, r, served, me, s);
    assert sender in pending;
    forall id | id in pending ensures id == sender {
      PendingFromIff(members, now, r', room, receiver, |members|, id);
      var i :| 0 <= i < |members| && members[i].id == id && Reported(members, now, r', room, receiver, members[i]);
      PendingAfterRecord(members, keys, now, r, served, me, i);
      if id != sender {
        SameLatest(keys, now, id);
      }
    }
    assert pending[0] in pending && pending[0] == sender;
    if |pending| > 1 {
      assert pending[1] in pending && pending[1] == sender;
      PendingFromIsDuplicateFree(members, now, r', room, receiver, |members|, 0, 1);
    }
  }

  lemma SameLatest(keys: set<Key>, now: set<Key>, member: nat)
    requires forall k: Key :: k.member == member ==> (k in keys <==> k in now)
    ensures FindLatest(keys, member) == FindLatest(now, member)
  {
    var a, b := FindLatest(keys, member), FindLatest(now, member);
    if a.Some? {
      assert Key(member, a.value) in now;
    }
    if b.Some? {
      assert Key(member, b.value) in keys;
    }
  }
}
