/** The delivery queue, the hub's table of pending acknowledgements and the push goroutines,
    as the state the program mutates. Each method is one atomic step. */
module Delivery {
  import opened Common
  import opened DeliverySpec

  class DeliveryService {
    var now: int
    var lastTick: int
    var items: map<nat, Item>
    var nextItem: nat
    var pushes: map<nat, Push>
    var nextPush: nat
    var pendingAcks: map<nat, nat>
    var resolvers: map<nat, Resolver>
    var nextResolver: nat

    ghost function View(): State
      reads this
    {
      State(now, lastTick, items, nextItem, pushes, nextPush, pendingAcks, resolvers, nextResolver)
    }

    constructor ()
      ensures View() == START
    {
      now, lastTick := 0, 0;
      items, nextItem := map[], 1;
      pushes, nextPush := map[], 1;
      pendingAcks, resolvers, nextResolver := map[], map[], 1;
    }

    method Enqueue(user: nat, payload: Payload) returns (id: nat)
      modifies `items, `nextItem
      ensures id == old(nextItem) && nextItem == id + 1
      ensures items == old(items)[id := Item(user, payload, now, Pending, None)]
    {
      id := nextItem;
      items := items[id := Item(user, payload, now, Pending, None)];
      nextItem := nextItem + 1;
    }

    method MarkDelivered(id: nat) returns (found: bool)
      modifies `items
      ensures found == (id in old(items))
      ensures items ==
        if found then old(items)[id := old(items)[id].(status := Delivered, deliveredAt := Some(now))] else old(items)
    {
      found := id in items;
      if found {
        items := items[id := items[id].(status := Delivered, deliveredAt := Some(now))];
      }
    }

    /** The query's rows, in whatever order the database returns them. */
    method FindPendingOlderThan(age: int) returns (found: seq<nat>)
      ensures Enumerates(found, PendingOlderThan(View(), age))
      ensures forall d :: d in found <==> d in items && items[d].status == Pending && items[d].createdAt < now - age
    {
      var cutoff := now - age;
      found := InSomeOrder(set d | d in items && items[d].status == Pending && items[d].createdAt < cutoff);
    }

    /** The go statement in front of pushAndTrack. */
    method Spawn(delivery: nat) returns (p: nat)
      modifies `pushes, `nextPush
      ensures p == old(nextPush) && View() == SpawnAll(old(View()), [delivery])
      ensures nextPush == p + 1 && pushes == old(pushes)[p := Push(delivery, now, now, Spawned)]
    {
      p := nextPush;
      pushes := pushes[p := Push(delivery, now, now, Spawned)];
      nextPush := nextPush + 1;
    }

    method Dispatch(user: nat, payload: Payload) returns (id: nat)
      modifies this
      ensures View() == Step(old(View()), Event.Dispatch(user, payload))
      ensures id == old(nextItem) && items == old(items)[id := Item(user, payload, now, Pending, None)]
      ensures pushes == old(pushes)[old(nextPush) := Push(id, now, now, Spawned)]
    {
      id := Enqueue(user, payload);
      var p := Spawn(id);
    }

    method Retry() returns (order: seq<nat>)
      modifies this
      ensures Enabled(old(View()), Tick(order))
      ensures View() == Step(old(View()), Tick(order))
    {
      order := FindPendingOlderThan(PENDING_AGE);
      ghost var start := View();
      assert Enabled(start, Tick(order));
      SpawnEach(order);
      lastTick := now;
    }

    /** The loop over the due items. */
    method SpawnEach(order: seq<nat>)
      modifies `pushes, `nextPush
      ensures View() == SpawnAll(old(View()), order)
    {
      ghost var start := View();
      assert start == SpawnAll(start, []);
      for i := 0 to |order|
        invariant View() == SpawnAll(start, order[..i])
      {
        var p := Spawn(order[i]);
        assert order[..i + 1] == order[..i] + [order[i]];
        SpawnOneMore(start, order[..i], order[i]);
      }
      assert order[..|order|] == order;
    }

    /** The first half of PushAndWaitAck: the channel is registered, and msg handed to the hub's
        SendToUser. By lemma InvAt the item of a push is always there. */
    method Register(p: nat) returns (msg: Outgoing)
      requires Enabled(View(), Event.Register(p)) && pushes[p].delivery in items
      modifies `pushes, `pendingAcks
      ensures View() == Step(old(View()), Event.Register(p))
      ensures
        var d := old(pushes)[p].delivery;
        && msg == Outgoing(items[d].user, items[d].payload, d)
        && pendingAcks == old(pendingAcks)[d := p]
        && pushes == old(pushes)[p := Push(d, old(pushes)[p].spawnedAt, now, Waiting)]
    {
      var item := items[pushes[p].delivery];
      msg := Outgoing(item.user, item.payload, pushes[p].delivery);
      pendingAcks := pendingAcks[pushes[p].delivery := p];
      pushes := pushes[p := pushes[p].(phase := Waiting, registeredAt := now)];
    }

    /** The first half of ResolveAck: the lookup under the lock. r stands for the call. */
    method LookUpChannel(delivery: nat) returns (r: Option<nat>)
      modifies `resolvers, `nextResolver
      ensures View() == Step(old(View()), Ack(delivery))
      ensures r == if delivery in pendingAcks then Some(old(nextResolver)) else None
      ensures resolvers ==
        if r.None? then old(resolvers)
        else old(resolvers)[r.value := Resolver(delivery, pendingAcks[delivery])]
    {
      r := None;
      if delivery in pendingAcks {
        r := Some(nextResolver);
        resolvers := resolvers[nextResolver := Resolver(delivery, pendingAcks[delivery])];
        nextResolver := nextResolver + 1;
      }
    }

    /** The second half: a send that does not block. If the goroutine is parked in its select,
        the send is what wakes it; otherwise the value stays in the buffer or is dropped. */
    method SendAck(r: nat)
      requires Enabled(View(), Send(r))
      modifies `pushes, `resolvers
      ensures View() == Step(old(View()), Send(r))
      ensures resolvers == old(resolvers) - {r}
      ensures
        var p := old(resolvers)[r].push;
        pushes ==
          if p in old(pushes) && old(pushes)[p].phase == Waiting
          then old(pushes)[p := old(pushes)[p].(phase := Signalled)] else old(pushes)
    {
      var p := resolvers[r].push;
      resolvers := resolvers - {r};
      if p in pushes && pushes[p].phase == Waiting {
        pushes := pushes[p := pushes[p].(phase := Signalled)];
      }
    }

    method TimerFires(p: nat)
      requires Enabled(View(), Timer(p))
      modifies `pushes
      ensures View() == Step(old(View()), Timer(p))
      ensures pushes == old(pushes)[p := old(pushes)[p].(phase := TimedOut)]
    {
      pushes := pushes[p := pushes[p].(phase := TimedOut)];
    }

    /** The second half of PushAndWaitAck; a goroutine that timed out ends here. */
    method FinishPush(p: nat) returns (acked: bool)
      requires Enabled(View(), Return(p))
      modifies `pushes, `pendingAcks
      ensures acked == (old(pushes)[p].phase == Signalled)
      ensures View() == Step(old(View()), Return(p))
      ensures pendingAcks == old(pendingAcks) - {old(pushes)[p].delivery}
      ensures pushes ==
        if acked then old(pushes)[p := old(pushes)[p].(phase := Marking)] else old(pushes) - {p}
    {
      pendingAcks := pendingAcks - {pushes[p].delivery};
      acked := pushes[p].phase == Signalled;
      if acked {
        pushes := pushes[p := pushes[p].(phase := Marking)];
      } else {
        pushes := pushes - {p};
      }
    }

    method Track(p: nat)
      requires Enabled(View(), Mark(p))
      modifies `items, `pushes
      ensures View() == Step(old(View()), Mark(p))
      ensures pushes == old(pushes) - {p}
      ensures old(pushes)[p].delivery in items ==>
        items[old(pushes)[p].delivery].status == Delivered
        && items[old(pushes)[p].delivery].deliveredAt == Some(now)
    {
      var found := MarkDelivered(pushes[p].delivery);
      pushes := pushes - {p};
    }
  }

  lemma SpawnOneMore(s: State, order: seq<nat>, d: nat)
    ensures SpawnAll(SpawnAll(s, order), [d]) == SpawnAll(s, order + [d])
  {
    var s1 := SpawnAll(s, order);
    var left, right := SpawnAll(s1, [d]).pushes, SpawnAll(s, order + [d]).pushes;
    forall p ensures (p in left <==> p in right) && (p in left ==> left[p] == right[p]) {
      if s.nextPush <= p < s1.nextPush {
        assert NewPush(s, order, p) == NewPush(s, order + [d], p);
      } else if p == s1.nextPush {
        assert NewPush(s1, [d], p) == NewPush(s, order + [d], p);
      }
    }
    assert left == right;
  }
}
