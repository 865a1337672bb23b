/** Safety of acknowledged delivery over every run, and what the three time constants buy. */
module DeliveryGuarantees {
  import opened Common
  import opened DeliverySpec

  // --- any timing ---

  ghost predicate PushesOk(s: State) {
    && (forall d :: d in s.items ==> d < s.nextItem)
    && (forall p :: p in s.pushes ==> p < s.nextPush && s.pushes[p].delivery in s.items)
  }

  /** The entry for a delivery belongs to a push for it that has registered and not returned. */
  ghost predicate AcksOk(s: State) {
    forall d :: d in s.pendingAcks ==>
      var p := s.pendingAcks[d];
      p in s.pushes && s.pushes[p].delivery == d && s.pushes[p].phase in {Waiting, Signalled, TimedOut}
  }

  ghost predicate ResolversOk(s: State) {
    forall r :: r in s.resolvers ==> r < s.nextResolver && ResolverOk(s, s.resolvers[r])
  }

  ghost predicate TimersOk(s: State) {
    forall p :: InPhase(s, p, TimedOut) ==> s.pushes[p].registeredAt + PUSH_TIMEOUT <= s.now
  }

  /** True of every state of every run. */
  ghost predicate Inv(s: State) {
    PushesOk(s) && AcksOk(s) && ResolversOk(s) && TimersOk(s)
  }

  /** The push whose channel was looked up is for that delivery and has registered. */
  predicate ResolverOk(s: State, r: Resolver) {
    r.push < s.nextPush
    && (r.push in s.pushes ==> s.pushes[r.push].delivery == r.delivery && s.pushes[r.push].phase != Spawned)
  }

  /** Some goroutine for the delivery has been acknowledged but has not yet marked it. */
  ghost predicate AckInFlight(s: State, d: nat) {
    exists p :: p in s.pushes && s.pushes[p].delivery == d && s.pushes[p].phase in {Signalled, Marking}
  }

  predicate IsDelivered(s: State, d: nat) {
    d in s.items && s.items[d].status == Delivered
  }

  /** The event sends an acknowledgement of d to a goroutine that is waiting for it. */
  predicate LandsFor(s: State, e: Event, d: nat) {
    e.Send? && Lands(s, e.resolver) && s.resolvers[e.resolver].delivery == d
  }

  /** One of the first k events is such an acknowledgement. */
  ghost predicate Acknowledged(s: State, run: seq<Event>, k: nat, d: nat)
    requires k <= |run|
  {
    exists i :: 0 <= i < k && LandsFor(At(s, run, i), run[i], d)
  }

  /** The pushes after a spawn: those before, unchanged, and a new one per listed delivery. */
  lemma AfterSpawn(s: State, order: seq<nat>, p: nat)
    requires PushesOk(s)
    ensures
      var s' := SpawnAll(s, order);
      && (p in s.pushes ==> p in s'.pushes && s'.pushes[p] == s.pushes[p] && p < s.nextPush)
      && (p in s'.pushes && p !in s.pushes ==>
            s.nextPush <= p < s'.nextPush
            && s'.pushes[p] == Push(order[p - s.nextPush], s.now, s.now, Spawned))
  {
  }

  lemma SpawnKeepsInv(s: State, order: seq<nat>)
    requires Inv(s) && forall i :: 0 <= i < |order| ==> order[i] in s.items
    ensures Inv(SpawnAll(s, order))
  {
    var s' := SpawnAll(s, order);
    forall p: nat ensures
      && (p in s.pushes ==> p in s'.pushes && s'.pushes[p] == s.pushes[p] && p < s.nextPush)
      && (p in s'.pushes && p !in s.pushes ==>
            s.nextPush <= p < s'.nextPush && s'.pushes[p].phase.Spawned? && s'.pushes[p].delivery in s.items)
    {
      AfterSpawn(s, order, p);
    }
    assert AcksOk(s');
    forall r | r in s'.resolvers ensures ResolverOk(s', s'.resolvers[r]) {
      assert ResolverOk(s, s.resolvers[r]);
    }
    forall p | InPhase(s', p, TimedOut) ensures s'.pushes[p].registeredAt + PUSH_TIMEOUT <= s'.now {
      assert InPhase(s, p, TimedOut);
    }
  }

  lemma DispatchKeepsInv(s: State, user: nat, payload: Payload)
    requires Inv(s)
    ensures Inv(Step(s, Dispatch(user, payload)))
  {
    var item := Item(user, payload, s.now, Pending, None);
    ItemKeepsInv(s, item);
    SpawnKeepsInv(AddItem(s, item), [s.nextItem]);
  }

  lemma ItemKeepsInv(s: State, item: Item)
    requires Inv(s)
    ensures Inv(AddItem(s, item))
  {
    var s' := AddItem(s, item);
    forall r | r in s'.resolvers ensures ResolverOk(s', s'.resolvers[r]) {
      assert ResolverOk(s, s.resolvers[r]);
    }
    forall p | InPhase(s', p, TimedOut) ensures s'.pushes[p].registeredAt + PUSH_TIMEOUT <= s'.now {
      assert InPhase(s, p, TimedOut);
    }
  }

  lemma TickKeepsInv(s: State, order: seq<nat>)
    requires Inv(s) && Enabled(s, Tick(order))
    ensures Inv(Step(s, Tick(order)))
  {
    assert forall i :: 0 <= i < |order| ==> order[i] in Due(s);
    SpawnKeepsInv(s, order);
    SameButTick(SpawnAll(s, order), s.now);
  }

  lemma SameButTick(s: State, tick: int)
    requires Inv(s)
    ensures Inv(s.(lastTick := tick))
  {
    var s' := s.(lastTick := tick);
    assert forall r :: r in s.resolvers && ResolverOk(s, s.resolvers[r]) ==> ResolverOk(s', s'.resolvers[r]);
    assert forall p :: InPhase(s', p, TimedOut) ==> InPhase(s, p, TimedOut);
  }

  /** Advance and the two halves of ResolveAck. */
  lemma ResolveKeepsInv(s: State, e: Event)
    requires Inv(s) && Enabled(s, e) && (e.Advance? || e.Ack? || e.Send?)
    ensures Inv(Step(s, e))
  {
    var s' := Step(s, e);
    forall r | r in s'.resolvers ensures r < s'.nextResolver && ResolverOk(s', s'.resolvers[r]) {
      assert r in s.resolvers ==> ResolverOk(s, s.resolvers[r]);
    }
    forall p | InPhase(s', p, TimedOut) ensures s'.pushes[p].registeredAt + PUSH_TIMEOUT <= s'.now {
      assert InPhase(s, p, TimedOut);
    }
  }

  /** The steps of one push goroutine. */
  lemma PushKeepsInv(s: State, e: Event)
    requires Inv(s) && Enabled(s, e) && (e.Register? || e.Timer? || e.Return? || e.Mark?)
    ensures Inv(Step(s, e))
  {
    var s' := Step(s, e);
    forall r | r in s'.resolvers ensures ResolverOk(s', s'.resolvers[r]) {
      assert ResolverOk(s, s.resolvers[r]);
    }
    forall p | InPhase(s', p, TimedOut) ensures s'.pushes[p].registeredAt + PUSH_TIMEOUT <= s'.now {
      assert e == Timer(p) || InPhase(s, p, TimedOut);
    }
    assert PushesOk(s');
    assert AcksOk(s');
  }

  lemma InvStep(s: State, e: Event)
    requires Inv(s) && Enabled(s, e)
    ensures Inv(Step(s, e))
  {
    match e
    case Dispatch(user, payload) => DispatchKeepsInv(s, user, payload);
    case Tick(order) => TickKeepsInv(s, order);
    case Advance(_) => ResolveKeepsInv(s, e);
    case Ack(_) => ResolveKeepsInv(s, e);
    case Send(_) => ResolveKeepsInv(s, e);
    case _ => PushKeepsInv(s, e);
  }

  lemma {:induction false} AtNext(s: State, run: seq<Event>, k: nat)
    requires k < |run|
    ensures At(s, run, k + 1) == Step(At(s, run, k), run[k])
    decreases k
  {
    if k > 0 {
      AtNext(Step(s, run[0]), run[1..], k - 1);
    }
  }

  lemma {:induction false} EnabledAt(s: State, run: seq<Event>, k: nat)
    requires Possible(s, run) && k < |run|
    ensures Enabled(At(s, run, k), run[k])
    decreases k
  {
    if k > 0 {
      EnabledAt(Step(s, run[0]), run[1..], k - 1);
    }
  }

  lemma {:induction false} InvFrom(s: State, run: seq<Event>, k: nat)
    requires Inv(s) && Possible(s, run) && k <= |run|
    ensures Inv(At(s, run, k))
    decreases k
  {
    if k > 0 {
      InvStep(s, run[0]);
      InvFrom(Step(s, run[0]), run[1..], k - 1);
    }
  }

  lemma InvAt(run: seq<Event>, k: nat)
    requires Possible(START, run) && k <= |run|
    ensures Inv(At(START, run, k))
  {
    InvFrom(START, run, k);
  }

  /** An acknowledgement that lands is never lost: it is in flight or already recorded. Only
      such an acknowledgement puts one in flight or marks an item. */
  lemma AckFlow(s: State, e: Event, d: nat)
    requires Inv(s) && Enabled(s, e)
    ensures AckInFlight(Step(s, e), d) || IsDelivered(Step(s, e), d) <==>
      AckInFlight(s, d) || IsDelivered(s, d) || LandsFor(s, e, d)
    ensures IsDelivered(s, d) ==> IsDelivered(Step(s, e), d)
  {
    if AckInFlight(s, d) || LandsFor(s, e, d) {
      AckNotLost(s, e, d);
    }
    if AckInFlight(Step(s, e), d) || IsDelivered(Step(s, e), d) {
      AckNotInvented(s, e, d);
    }
  }

  lemma AckNotLost(s: State, e: Event, d: nat)
    requires Inv(s) && Enabled(s, e)
    requires AckInFlight(s, d) || LandsFor(s, e, d)
    ensures AckInFlight(Step(s, e), d) || IsDelivered(Step(s, e), d)
  {
    var s' := Step(s, e);
    if AckInFlight(s, d) {
      var p :| p in s.pushes && s.pushes[p].delivery == d && s.pushes[p].phase in {Signalled, Marking};
      if !(e == Mark(p)) {
        assert p in s'.pushes && s'.pushes[p].delivery == d && s'.pushes[p].phase in {Signalled, Marking};
      }
    }
    if LandsFor(s, e, d) {
      var p := s.resolvers[e.resolver].push;
      assert s'.pushes[p].phase == Signalled && s'.pushes[p].delivery == d;
    }
  }

  lemma AckedBefore(s: State, e: Event, p: nat)
    requires Inv(s) && Enabled(s, e) && p in Step(s, e).pushes && Step(s, e).pushes[p].phase in {Signalled, Marking}
    ensures p in s.pushes && s.pushes[p].delivery == Step(s, e).pushes[p].delivery
    ensures s.pushes[p].phase in {Signalled, Marking} || LandsFor(s, e, s.pushes[p].delivery)
  {
    if e.Tick? {
      AfterSpawn(s, e.order, p);
    } else if e.Send? {
      assert ResolverOk(s, s.resolvers[e.resolver]);
    }
  }

  lemma DeliveredBefore(s: State, e: Event, d: nat)
    requires Inv(s) && Enabled(s, e) && IsDelivered(Step(s, e), d) && !IsDelivered(s, d)
    ensures AckInFlight(s, d)
  {
    assert e.Mark? && s.pushes[e.push].delivery == d && s.pushes[e.push].phase == Marking;
  }

  lemma AckNotInvented(s: State, e: Event, d: nat)
    requires Inv(s) && Enabled(s, e)
    requires AckInFlight(Step(s, e), d) || IsDelivered(Step(s, e), d)
    ensures AckInFlight(s, d) || IsDelivered(s, d) || LandsFor(s, e, d)
  {
    var s' := Step(s, e);
    if AckInFlight(s', d) {
      var p :| p in s'.pushes && s'.pushes[p].delivery == d && s'.pushes[p].phase in {Signalled, Marking};
      AckedBefore(s, e, p);
    } else if !IsDelivered(s, d) {
      DeliveredBefore(s, e, d);
    }
  }

  /** In every interleaving: an item is delivered exactly when an acknowledgement of its ID
      was resolved while a goroutine was waiting for it, and no such acknowledgement is
      still on its way to MarkDelivered. */
  lemma {:induction false} DeliveredIffAcknowledged(run: seq<Event>, k: nat, d: nat)
    requires Possible(START, run) && k <= |run|
    ensures
      var s := At(START, run, k);
      && (Acknowledged(START, run, k, d) <==> AckInFlight(s, d) || IsDelivered(s, d))
      && (IsDelivered(s, d) ==> Acknowledged(START, run, k, d))
    decreases k
  {
    if k > 0 {
      DeliveredIffAcknowledged(run, k - 1, d);
      InvAt(run, k - 1);
      EnabledAt(START, run, k - 1);
      AtNext(START, run, k - 1);
      AcknowledgedNext(START, run, k - 1, d);
      var s, e := At(START, run, k - 1), run[k - 1];
      AckFlow(s, e, d);
    }
  }

  lemma AcknowledgedNext(s: State, run: seq<Event>, k: nat, d: nat)
    requires k < |run|
    ensures Acknowledged(s, run, k + 1, d) <==> Acknowledged(s, run, k, d) || LandsFor(At(s, run, k), run[k], d)
  {
    if Acknowledged(s, run, k + 1, d) {
      var i :| 0 <= i < k + 1 && LandsFor(At(s, run, i), run[i], d);
      assert i == k || Acknowledged(s, run, k, d);
    }
  }

  /** A delivered item never becomes pending again. */
  lemma {:induction false} DeliveredForever(run: seq<Event>, i: nat, j: nat, d: nat)
    requires Possible(START, run) && i <= j <= |run| && IsDelivered(At(START, run, i), d)
    ensures IsDelivered(At(START, run, j), d)
    decreases j
  {
    if i < j {
      DeliveredForever(run, i, j - 1, d);
      InvAt(run, j - 1);
      EnabledAt(START, run, j - 1);
      AtNext(START, run, j - 1);
      AckFlow(At(START, run, j - 1), run[j - 1], d);
    }
  }

  /** A scan made more than PENDING_AGE after an item was enqueued finds it delivered or
      starts exactly one new goroutine for it; no other scan starts one. */
  lemma ScanRetriesOrIsDone(s: State, order: seq<nat>, d: nat)
    requires Inv(s) && Enabled(s, Tick(order)) && d in s.items
    ensures
      var started := set p | p in Step(s, Tick(order)).pushes && p !in s.pushes
                       && Step(s, Tick(order)).pushes[p] == Push(d, s.now, s.now, Spawned);
      && (s.items[d].createdAt < s.now - PENDING_AGE && !IsDelivered(s, d) ==> |started| == 1)
      && (!(s.items[d].createdAt < s.now - PENDING_AGE && !IsDelivered(s, d)) ==> started == {})
  {
    var s' := Step(s, Tick(order));
    var started := set p | p in s'.pushes && p !in s.pushes && s'.pushes[p] == Push(d, s.now, s.now, Spawned);
    if d in Due(s) {
      var i :| 0 <= i < |order| && order[i] == d;
      assert s'.pushes[s.nextPush + i] == NewPush(s, order, s.nextPush + i);
      forall p | p in started ensures p == s.nextPush + i {
        assert order[p - s.nextPush] == d;
      }
      assert started == {s.nextPush + i};
    } else {
      assert forall i :: 0 <= i < |order| ==> order[i] in Due(s);
    }
  }

  // --- timely runs ---

  /** At most one goroutine per delivery. */
  ghost predicate Exclusive(s: State) {
    forall p, q :: p in s.pushes && q in s.pushes && s.pushes[p].delivery == s.pushes[q].delivery ==> p == q
  }

  /** The push is within its deadline, and was spawned with its item or by some tick. */
  predicate InClock(s: State, push: Push, slack: int) {
    && push.spawnedAt <= s.now <= push.spawnedAt + PUSH_TIMEOUT + slack
    && (push.delivery in s.items ==>
          push.spawnedAt == s.items[push.delivery].createdAt || push.spawnedAt <= s.lastTick)
  }

  ghost predicate Clocks(s: State, slack: int) {
    && s.lastTick <= s.now
    && (forall d :: d in s.items ==> s.items[d].createdAt <= s.now)
    && (forall p :: p in s.pushes ==> InClock(s, s.pushes[p], slack))
  }

  /** While it has not returned, a registered goroutine owns the entry for its delivery. */
  ghost predicate Registered(s: State) {
    forall p :: p in s.pushes && s.pushes[p].phase in {Waiting, Signalled, TimedOut} ==>
      s.pushes[p].delivery in s.pendingAcks && s.pendingAcks[s.pushes[p].delivery] == p
  }

  ghost predicate TimedInv(s: State, slack: int) {
    Inv(s) && Exclusive(s) && Clocks(s, slack) && Registered(s)
  }

  /** New pushes for deliveries that have none. */
  lemma SpawnExclusive(s: State, order: seq<nat>)
    requires PushesOk(s) && Exclusive(s) && Registered(s)
    requires forall i, j :: 0 <= i < j < |order| ==> order[i] != order[j]
    requires forall p :: p in s.pushes ==> s.pushes[p].delivery !in order
    ensures Exclusive(SpawnAll(s, order)) && Registered(SpawnAll(s, order))
  {
    var s' := SpawnAll(s, order);
    forall p, q | p in s'.pushes && q in s'.pushes && s'.pushes[p].delivery == s'.pushes[q].delivery ensures p == q {
      AfterSpawn(s, order, p);
      AfterSpawn(s, order, q);
    }
    forall p | p in s'.pushes && s'.pushes[p].phase in {Waiting, Signalled, TimedOut}
      ensures s'.pushes[p].delivery in s'.pendingAcks && s'.pendingAcks[s'.pushes[p].delivery] == p
    {
      AfterSpawn(s, order, p);
    }
  }

  /** A push within its deadline is for an item that is not due, because the deadline ends
      before the item is old enough, or before the next tick. */
  lemma NotDueYet(s: State, order: seq<nat>, slack: int, p: nat)
    requires Clocks(s, slack) && slack <= PENDING_AGE - PUSH_TIMEOUT && p in s.pushes
    requires Enabled(s, Tick(order)) && Timely(s, Tick(order), slack)
    ensures s.pushes[p].delivery !in order
  {
    assert InClock(s, s.pushes[p], slack);
    assert s.pushes[p].delivery in order ==> s.pushes[p].delivery in Due(s);
  }

  lemma SpawnClocks(s: State, order: seq<nat>, slack: int, tick: int)
    requires PushesOk(s) && Clocks(s, slack) && 0 <= slack && s.lastTick <= tick <= s.now
    requires tick == s.now
      || forall i :: 0 <= i < |order| ==> order[i] in s.items && s.items[order[i]].createdAt == s.now
    ensures Clocks(SpawnAll(s, order).(lastTick := tick), slack)
  {
    var s' := SpawnAll(s, order).(lastTick := tick);
    forall p | p in s'.pushes ensures InClock(s', s'.pushes[p], slack) {
      AfterSpawn(s, order, p);
      assert p in s.pushes ==> InClock(s, s.pushes[p], slack);
    }
  }

  lemma TimedTick(s: State, order: seq<nat>, slack: int)
    requires TimedInv(s, slack) && 0 <= slack <= PENDING_AGE - PUSH_TIMEOUT
    requires Enabled(s, Tick(order)) && Timely(s, Tick(order), slack)
    ensures
      var s' := Step(s, Tick(order));
      Exclusive(s') && Clocks(s', slack) && Registered(s')
  {
    forall p | p in s.pushes ensures s.pushes[p].delivery !in order {
      NotDueYet(s, order, slack, p);
    }
    SpawnExclusive(s, order);
    SpawnClocks(s, order, slack, s.now);
  }

  lemma TimedDispatch(s: State, user: nat, payload: Payload, slack: int)
    requires TimedInv(s, slack) && 0 <= slack
    ensures
      var s' := Step(s, Dispatch(user, payload));
      Exclusive(s') && Clocks(s', slack) && Registered(s')
  {
    var s1 := AddItem(s, Item(user, payload, s.now, Pending, None));
    ItemKeepsTimed(s, Item(user, payload, s.now, Pending, None), slack);
    SpawnExclusive(s1, [s.nextItem]);
    SpawnClocks(s1, [s.nextItem], slack, s.lastTick);
    SameLastTick(SpawnAll(s1, [s.nextItem]), s.lastTick);
  }

  lemma SameLastTick(s: State, tick: int)
    requires s.lastTick == tick
    ensures s.(lastTick := tick) == s
  {
  }

  lemma ItemKeepsTimed(s: State, item: Item, slack: int)
    requires TimedInv(s, slack) && item.createdAt == s.now
    ensures
      var s' := AddItem(s, item);
      && PushesOk(s') && Exclusive(s') && Registered(s') && Clocks(s', slack)
      && forall p :: p in s'.pushes ==> s'.pushes[p].delivery !in [s.nextItem]
  {
    var s' := AddItem(s, item);
    assert forall p :: p in s.pushes ==> s.pushes[p].delivery != s.nextItem;
    forall p | p in s'.pushes ensures InClock(s', s'.pushes[p], slack) {
      assert InClock(s, s.pushes[p], slack);
    }
  }

  /** Steps that start no push. */
  lemma ClocksKept(s: State, e: Event, slack: int)
    requires Inv(s) && Clocks(s, slack) && Enabled(s, e) && Timely(s, e, slack) && !e.Dispatch? && !e.Tick?
    ensures Clocks(Step(s, e), slack)
  {
    var s' := Step(s, e);
    forall p | p in s'.pushes ensures InClock(s', s'.pushes[p], slack) {
      assert p in s.pushes && InClock(s, s.pushes[p], slack);
    }
  }

  lemma ExclusiveKept(s: State, e: Event)
    requires Exclusive(s) && Enabled(s, e) && !e.Dispatch? && !e.Tick?
    ensures Exclusive(Step(s, e))
  {
    var s' := Step(s, e);
    assert forall p :: p in s'.pushes ==> p in s.pushes && s'.pushes[p].delivery == s.pushes[p].delivery;
  }

  /** The steps that touch the table of channels. */
  lemma RegisteredTable(s: State, e: Event)
    requires Inv(s) && Exclusive(s) && Registered(s) && Enabled(s, e) && (e.Register? || e.Return?)
    ensures Registered(Step(s, e))
  {
    var s', own := Step(s, e), e.push;
    forall p | p in s'.pushes && s'.pushes[p].phase in {Waiting, Signalled, TimedOut}
      ensures s'.pushes[p].delivery in s'.pendingAcks && s'.pendingAcks[s'.pushes[p].delivery] == p
    {
      if p != own {
        assert s.pushes[p].delivery != s.pushes[own].delivery;
      }
    }
  }

  lemma RegisteredKept(s: State, e: Event)
    requires Inv(s) && Exclusive(s) && Registered(s) && Enabled(s, e) && !e.Dispatch? && !e.Tick?
    ensures Registered(Step(s, e))
  {
    var s' := Step(s, e);
    if e.Register? || e.Return? {
      RegisteredTable(s, e);
    } else {
      assert s'.pendingAcks == s.pendingAcks;
      assert forall p :: p in s'.pushes && s'.pushes[p].phase in {Waiting, Signalled, TimedOut} ==>
        p in s.pushes && s'.pushes[p].delivery == s.pushes[p].delivery
        && s.pushes[p].phase in {Waiting, Signalled, TimedOut};
    }
  }

  lemma TimedStep(s: State, e: Event, slack: int)
    requires TimedInv(s, slack) && 0 <= slack <= PENDING_AGE - PUSH_TIMEOUT
    requires Enabled(s, e) && Timely(s, e, slack)
    ensures TimedInv(Step(s, e), slack)
  {
    InvStep(s, e);
    match e
    case Tick(order) => TimedTick(s, order, slack);
    case Dispatch(user, payload) => TimedDispatch(s, user, payload, slack);
    case _ =>
      ClocksKept(s, e, slack);
      ExclusiveKept(s, e);
      RegisteredKept(s, e);
  }

  lemma {:induction false} TimedFrom(s: State, run: seq<Event>, slack: int, k: nat)
    requires TimedInv(s, slack) && Possible(s, run) && TimelyRun(s, run, slack) && k <= |run|
    requires 0 <= slack <= PENDING_AGE - PUSH_TIMEOUT
    ensures TimedInv(At(s, run, k), slack)
    decreases k
  {
    if k > 0 {
      TimedStep(s, run[0], slack);
      TimedFrom(Step(s, run[0]), run[1..], slack, k - 1);
    }
  }

  lemma TimedAt(run: seq<Event>, slack: int, k: nat)
    requires Possible(START, run) && TimelyRun(START, run, slack) && k <= |run|
    requires 0 <= slack <= PENDING_AGE - PUSH_TIMEOUT
    ensures TimedInv(At(START, run, k), slack)
  {
    TimedFrom(START, run, slack, k);
  }

  /** Two pushes for one delivery never overlap in any timely run exactly when the slack
      does not exceed what pendingAge leaves after pushTimeout, that is 25 seconds. */
  lemma NoOverlapIff(slack: int)
    requires 0 <= slack
    ensures slack <= PENDING_AGE - PUSH_TIMEOUT <==>
      forall run, k :: Possible(START, run) && TimelyRun(START, run, slack) && 0 <= k <= |run| ==>
        Exclusive(At(START, run, k))
  {
    if slack <= PENDING_AGE - PUSH_TIMEOUT {
      forall run, k | Possible(START, run) && TimelyRun(START, run, slack) && 0 <= k <= |run|
        ensures Exclusive(At(START, run, k))
      {
        TimedAt(run, slack, k);
      }
    } else {
      OverlapWithMoreSlack(slack);
    }
  }

  /** An item enqueued one nanosecond too early for the next tick. */
  lemma OverlapWithMoreSlack(slack: int)
    requires PENDING_AGE - PUSH_TIMEOUT < slack
    ensures exists run, k ::
      Possible(START, run) && TimelyRun(START, run, slack) && 0 <= k <= |run| && !Exclusive(At(START, run, k))
  {
    var run := [Advance(SCHEDULER_INTERVAL - PENDING_AGE - 1), Dispatch(1, Payload("", "")),
                Advance(SCHEDULER_INTERVAL), Tick([1])];
    var s1 := Step(START, run[0]);
    var s2 := Step(s1, run[1]);
    var s3 := Step(s2, run[2]);
    var s4 := Step(s3, run[3]);
    assert Due(s3) == {1};
    assert run[1..] == [run[1], run[2], run[3]] && run[1..][1..] == [run[2], run[3]] && run[1..][1..][1..] == [run[3]];
    assert At(s3, [run[3]], 1) == At(s4, [run[3]][1..], 0) == s4;
    assert At(s2, run[1..][1..], 2) == s4 && At(s1, run[1..], 3) == s4;
    assert At(START, run, 4) == s4;
    assert s4.pushes[1].delivery == 1 && s4.pushes[2].delivery == 1;
    assert Possible(s3, [run[3]]) && TimelyRun(s3, [run[3]], slack);
    assert Possible(s2, run[1..][1..]) && TimelyRun(s2, run[1..][1..], slack);
    assert Possible(s1, run[1..]) && TimelyRun(s1, run[1..], slack);
  }

  /** Registering a channel never replaces that of a push that has not returned. */
  lemma RegisterNeverOverwrites(run: seq<Event>, slack: int, k: nat)
    requires Possible(START, run) && TimelyRun(START, run, slack) && k < |run|
    requires 0 <= slack <= PENDING_AGE - PUSH_TIMEOUT && run[k].Register?
    ensures
      var s := At(START, run, k);
      run[k].push in s.pushes && s.pushes[run[k].push].delivery !in s.pendingAcks
  {
    TimedAt(run, slack, k);
    EnabledAt(START, run, k);
  }

  /** Push p for d has chosen the branch that returns true, or has already marked d. */
  ghost predicate Committed(s: State, p: nat, d: nat, spawnedAt: int) {
    && p < s.nextPush
    && (if p in s.pushes
        then s.pushes[p].phase in {Signalled, Marking}
             && s.pushes[p].delivery == d && s.pushes[p].spawnedAt == spawnedAt
        else IsDelivered(s, d))
  }

  lemma CommittedStep(s: State, e: Event, p: nat, d: nat, spawnedAt: int)
    requires Inv(s) && Enabled(s, e)
    requires Committed(s, p, d, spawnedAt)
      || (LandsFor(s, e, d) && s.resolvers[e.resolver].push == p && s.pushes[p].spawnedAt == spawnedAt)
    ensures Committed(Step(s, e), p, d, spawnedAt)
  {
    AckFlow(s, e, d);
  }

  /** Event i sends an acknowledgement of d on the channel of push p, which has not ended, while
      p is before its timeout or still waiting although the timeout has passed. */
  predicate InTime(s: State, e: Event, p: nat, d: nat) {
    && e.Send? && e.resolver in s.resolvers && s.resolvers[e.resolver] == Resolver(d, p)
    && p in s.pushes && (s.now < s.pushes[p].registeredAt + PUSH_TIMEOUT || s.pushes[p].phase == Waiting)
  }

  /** Before its timeout, a push that has registered is waiting or has been acknowledged. */
  lemma NotTimedOutYet(s: State, e: Event, p: nat, d: nat)
    requires Inv(s) && InTime(s, e, p, d)
    ensures LandsFor(s, e, d) || Committed(s, p, d, s.pushes[p].spawnedAt)
  {
    assert ResolverOk(s, s.resolvers[e.resolver]);
    if s.pushes[p].phase != Waiting {
      assert !InPhase(s, p, TimedOut);
    }
  }

  lemma CommittedNext(run: seq<Event>, k: nat, p: nat, d: nat, spawnedAt: int)
    requires Possible(START, run) && k < |run|
    requires
      var s := At(START, run, k);
      Committed(s, p, d, spawnedAt)
      || (LandsFor(s, run[k], d) && s.resolvers[run[k].resolver].push == p && s.pushes[p].spawnedAt == spawnedAt)
    ensures Committed(At(START, run, k + 1), p, d, spawnedAt)
  {
    var s, e := At(START, run, k), run[k];
    InvAt(run, k);
    EnabledAt(START, run, k);
    AtNext(START, run, k);
    CommittedStep(s, e, p, d, spawnedAt);
  }

  lemma {:induction false} CommittedAt(run: seq<Event>, i: nat, j: nat, p: nat, d: nat)
    requires Possible(START, run) && i < j <= |run| && InTime(At(START, run, i), run[i], p, d)
    ensures Committed(At(START, run, j), p, d, At(START, run, i).pushes[p].spawnedAt)
    decreases j
  {
    if i < j - 1 {
      CommittedAt(run, i, j - 1, p, d);
    } else {
      InvAt(run, i);
      NotTimedOutYet(At(START, run, i), run[i], p, d);
    }
    CommittedNext(run, j - 1, p, d, At(START, run, i).pushes[p].spawnedAt);
  }

  /** An acknowledgement that is sent before the push's timeout makes that push, and in timely
      runs no other, return true: from then on it is on its way to MarkDelivered or has made the
      item delivered, and it has done so once the clock has passed its deadline. */
  lemma AckBeforeTimeoutDelivers(run: seq<Event>, slack: int, i: nat, j: nat, p: nat, d: nat)
    requires Possible(START, run) && TimelyRun(START, run, slack) && i < j <= |run|
    requires 0 <= slack <= PENDING_AGE - PUSH_TIMEOUT && InTime(At(START, run, i), run[i], p, d)
    ensures
      var push, s := At(START, run, i).pushes[p], At(START, run, j);
      && Committed(s, p, d, push.spawnedAt)
      && (p in s.pushes ==> forall q :: q in s.pushes && s.pushes[q].delivery == d ==> q == p)
      && (push.spawnedAt + PUSH_TIMEOUT + slack < s.now ==> IsDelivered(s, d))
  {
    CommittedAt(run, i, j, p, d);
    TimedAt(run, slack, j);
  }

  /** An acknowledgement finds the push's channel from its registration until it returns. */
  lemma AckFindsPush(run: seq<Event>, slack: int, i: nat, p: nat, d: nat)
    requires Possible(START, run) && TimelyRun(START, run, slack) && i < |run| && run[i] == Ack(d)
    requires 0 <= slack <= PENDING_AGE - PUSH_TIMEOUT
    requires
      var s := At(START, run, i);
      p in s.pushes && s.pushes[p].delivery == d && s.pushes[p].phase in {Waiting, Signalled, TimedOut}
    ensures
      var s := At(START, run, i);
      At(START, run, i + 1).resolvers == s.resolvers[s.nextResolver := Resolver(d, p)]
  {
    TimedAt(run, slack, i);
    AtNext(START, run, i);
  }
}
