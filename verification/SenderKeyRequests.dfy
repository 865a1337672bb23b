/** Requests for a sender key that its owner has not uploaded yet. */
module SenderKeyRequests {
  import opened Common
  import opened SenderKeys

  /** One row per (requester, provider); the value says whether fulfilled_at is set. */
  type Requests = map<(nat, nat), bool>

  function Requesters(r: Requests, provider: nat): set<nat> {
    set pair | pair in r && pair.1 == provider && !r[pair] :: pair.0
  }

  predicate IsActive(members: seq<Member>, id: nat) {
    exists i :: 0 <= i < |members| && members[i].id == id && !members[i].deleted
  }

  function MarkFulfilled(r: Requests, requester: nat, provider: nat): Requests {
    if (requester, provider) in r then r[(requester, provider) := true] else r
  }

  /** Every pending request to the provider whose requester still has a user is fulfilled. */
  function MarkAll(r: Requests, provider: nat, reachable: set<nat>): Requests {
    map pair | pair in r :: r[pair] || (pair.1 == provider && pair.0 in reachable)
  }

  class RequestStore {
    var rows: Requests

    constructor ()
      ensures rows == map[]
    {
      rows := map[];
    }

    /** ON CONFLICT: an existing row becomes pending again. */
    method Upsert(requester: nat, provider: nat)
      modifies this
      ensures rows == old(rows)[(requester, provider) := false]
    {
      rows := rows[(requester, provider) := false];
    }

    method FindPendingByProvider(provider: nat) returns (found: seq<nat>)
      ensures Enumerates(found, Requesters(rows, provider))
      ensures forall q :: q in found <==> (q, provider) in rows && !rows[(q, provider)]
    {
      found := InSomeOrder(Requesters(rows, provider));
      assert forall q :: q in Requesters(rows, provider) <==> (q, provider) in rows && !rows[(q, provider)];
    }

    method Fulfil(requester: nat, provider: nat)
      modifies this
      ensures rows == MarkFulfilled(old(rows), requester, provider)
      ensures rows == if (requester, provider) in old(rows) then old(rows)[(requester, provider) := true] else old(rows)
    {
      if (requester, provider) in rows && !rows[(requester, provider)] {
        rows := rows[(requester, provider) := true];
      }
    }

    /** Create sender key request: the provider's row is looked up by id alone, so it need
        not be in the caller's room. callerIsUser and providerUser are what the two participant
        lookups of the push find; to is the user the push goes to, if any. */
    method CreateRequest(
      members: seq<Member>, caller: Option<Member>, provider: nat, callerIsUser: bool, providerUser: Option<nat>)
      returns (ok: bool, to: Option<nat>)
      requires DistinctIds(members)
      modifies this
      ensures ok <==>
        caller.Some? && !caller.value.deleted
        && exists i :: 0 <= i < |members| && members[i].id == provider && !members[i].deleted
      ensures rows == if ok then old(rows)[(caller.value.id, provider) := false] else old(rows)
      ensures to == if ok && callerIsUser then providerUser else None
    {
      if caller.None? || caller.value.deleted {
        return false, None;
      }
      ok := exists i :: 0 <= i < |members| && members[i].id == provider && !members[i].deleted;
      if ok {
        Upsert(caller.value.id, provider);
      }
      to := if ok && callerIsUser then providerUser else None;
    }

    /** notifyRequesters, run without interruption. reachable are the requesters whose member
        and user can still be resolved; the others are skipped. sent are those a message goes to. */
    method NotifyRequesters(provider: nat, reachable: set<nat>) returns (sent: seq<nat>)
      modifies this
      ensures rows == MarkAll(old(rows), provider, reachable)
      ensures rows.Keys == old(rows).Keys
      ensures forall pair :: pair in rows ==>
        rows[pair] == (old(rows)[pair] || (pair.1 == provider && pair.0 in reachable))
      ensures forall j, k :: 0 <= j < k < |sent| ==> sent[j] != sent[k]
      ensures forall q :: q in sent <==> (q, provider) in old(rows) && !old(rows)[(q, provider)] && q in reachable
    {
      var found := FindPendingByProvider(provider);
      sent := [];
      for i := 0 to |found|
        invariant rows.Keys == old(rows).Keys
        invariant forall x :: x in sent <==> x in found[..i] && x in reachable
        invariant forall j, k :: 0 <= j < k < |sent| ==> sent[j] != sent[k]
        invariant forall pair :: pair in rows ==>
          rows[pair] == (old(rows)[pair] || (pair.1 == provider && pair.0 in reachable && pair.0 in found[..i]))
      {
        assert found[i] !in found[..i];
        if found[i] in reachable {
          sent := sent + [found[i]];
          Fulfil(found[i], provider);
        }
        assert found[..i + 1] == found[..i] + [found[i]];
      }
      assert found[..|found|] == found;
      assert forall pair :: pair in rows && pair.1 == provider && !old(rows)[pair] ==>
        pair.0 in Requesters(old(rows), provider);
    }
  }
}
