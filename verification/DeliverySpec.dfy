/** Acknowledged delivery as interleaved atomic steps: the dispatcher, the retry scheduler,
    the goroutines inside PushAndWaitAck, and the acknowledgements of clients. */
module DeliverySpec {
  import opened Common

  // Nanoseconds, as in a Go Duration.
  const SECOND: int := 1_000_000_000
  const PUSH_TIMEOUT: int := 5 * SECOND
  const PENDING_AGE: int := 30 * SECOND
  const SCHEDULER_INTERVAL: int := 60 * SECOND

  datatype Status = Pending | Delivered

  datatype Payload = Payload(kind: string, data: string)

  /** What a push sends: a typed message with its delivery ID, to the connections of a user. */
  datatype Outgoing = Outgoing(user: nat, payload: Payload, delivery: nat)

  /** A row of delivery_queue. */
  datatype Item = Item(user: nat, payload: Payload, createdAt: int, status: Status, deliveredAt: Option<int>)

  /** Where a push goroutine is. Spawned: not yet in PushAndWaitAck. Waiting: its channel is
      registered. Signalled and TimedOut: its select has chosen a branch, but the channel is
      still registered. Marking: it returned true and will call MarkDelivered. */
  datatype Phase = Spawned | Waiting | Signalled | TimedOut | Marking

  datatype Push = Push(delivery: nat, spawnedAt: int, registeredAt: int, phase: Phase)

  /** A ResolveAck call that has looked up the channel of a push and not yet sent on it. */
  datatype Resolver = Resolver(delivery: nat, push: nat)

  /** pendingAcks maps a delivery ID to the push whose channel is registered for it. */
  datatype State = State(
    now: int, lastTick: int,
    items: map<nat, Item>, nextItem: nat,
    pushes: map<nat, Push>, nextPush: nat,
    pendingAcks: map<nat, nat>,
    resolvers: map<nat, Resolver>, nextResolver: nat)

  datatype Event =
    | Advance(to: int)
    | Dispatch(user: nat, payload: Payload)
    | Tick(order: seq<nat>)
    | Register(push: nat)
    | Ack(delivery: nat)
    | Send(resolver: nat)
    | Timer(push: nat)
    | Return(push: nat)
    | Mark(push: nat)

  const START := State(0, 0, map[], 1, map[], 1, map[], map[], 1)

  function PendingOlderThan(s: State, age: int): set<nat> {
    set d | d in s.items && s.items[d].status == Pending && s.items[d].createdAt < s.now - age
  }

  function Due(s: State): set<nat> {
    PendingOlderThan(s, PENDING_AGE)
  }

  predicate InPhase(s: State, p: nat, phase: Phase) {
    p in s.pushes && s.pushes[p].phase == phase
  }

  /** What each step needs in order to happen at all, whatever the timing. */
  ghost predicate Enabled(s: State, e: Event) {
    match e
    case Advance(to) => s.now <= to
    case Dispatch(_, _) => true
    case Tick(order) => Enumerates(order, Due(s))
    case Register(p) => InPhase(s, p, Spawned)
    case Ack(_) => true
    case Send(r) => r in s.resolvers
    case Timer(p) => InPhase(s, p, Waiting) && s.pushes[p].registeredAt + PUSH_TIMEOUT <= s.now
    case Return(p) => InPhase(s, p, Signalled) || InPhase(s, p, TimedOut)
    case Mark(p) => InPhase(s, p, Marking)
  }

  /** The send reaches a goroutine that is still waiting. */
  predicate Lands(s: State, r: nat) {
    r in s.resolvers && InPhase(s, s.resolvers[r].push, Waiting)
  }

  function SetPhase(s: State, p: nat, phase: Phase): State
    requires p in s.pushes
  {
    s.(pushes := s.pushes[p := s.pushes[p].(phase := phase)])
  }

  function NewPush(s: State, order: seq<nat>, p: nat): Push
    requires s.nextPush <= p < s.nextPush + |order|
  {
    Push(order[p - s.nextPush], s.now, s.now, Spawned)
  }

  /** One new goroutine per listed delivery. */
  function SpawnAll(s: State, order: seq<nat>): State {
    s.(pushes := s.pushes + map p | s.nextPush <= p < s.nextPush + |order| :: NewPush(s, order, p),
       nextPush := s.nextPush + |order|)
  }

  function AddItem(s: State, item: Item): State {
    s.(items := s.items[s.nextItem := item], nextItem := s.nextItem + 1)
  }

  function MarkItem(items: map<nat, Item>, d: nat, now: int): map<nat, Item> {
    if d in items then items[d := items[d].(status := Delivered, deliveredAt := Some(now))] else items
  }

  function Step(s: State, e: Event): State {
    match e
    case Advance(to) => s.(now := to)
    case Dispatch(user, payload) =>
      SpawnAll(AddItem(s, Item(user, payload, s.now, Pending, None)), [s.nextItem])
    case Tick(order) => SpawnAll(s, order).(lastTick := s.now)
    case Register(p) =>
      if p !in s.pushes then s else
        s.(pushes := s.pushes[p := s.pushes[p].(phase := Waiting, registeredAt := s.now)],
           pendingAcks := s.pendingAcks[s.pushes[p].delivery := p])
    case Ack(delivery) =>
      if delivery !in s.pendingAcks then s else
        s.(resolvers := s.resolvers[s.nextResolver := Resolver(delivery, s.pendingAcks[delivery])],
           nextResolver := s.nextResolver + 1)
    case Send(r) =>
      if r !in s.resolvers then s else
        var sent := s.(resolvers := s.resolvers - {r});
        if Lands(s, r) then SetPhase(sent, s.resolvers[r].push, Signalled) else sent
    case Timer(p) =>
      if p in s.pushes then SetPhase(s, p, TimedOut) else s
    case Return(p) =>
      if p !in s.pushes then s else
        var unregistered := s.(pendingAcks := s.pendingAcks - {s.pushes[p].delivery});
        if s.pushes[p].phase == Signalled then SetPhase(unregistered, p, Marking)
        else unregistered.(pushes := s.pushes - {p})
    case Mark(p) =>
      if p !in s.pushes then s else
        var d := s.pushes[p].delivery;
        s.(items := MarkItem(s.items, d, s.now), pushes := s.pushes - {p})
  }

  /** A run of the protocol with any timing. */
  ghost predicate Possible(s: State, run: seq<Event>)
    decreases |run|
  {
    run == [] || (Enabled(s, run[0]) && Possible(Step(s, run[0]), run[1..]))
  }

  function At(s: State, run: seq<Event>, k: nat): State
    requires k <= |run|
    decreases k
  {
    if k == 0 then s else At(Step(s, run[0]), run[1..], k - 1)
  }

  /** Every push goroutine is done within the timeout plus slack of being spawned, and ticks
      are at least the scheduler interval apart. */
  ghost predicate Timely(s: State, e: Event, slack: int) {
    match e
    case Advance(to) => forall p :: p in s.pushes ==> to <= s.pushes[p].spawnedAt + PUSH_TIMEOUT + slack
    case Tick(_) => s.lastTick + SCHEDULER_INTERVAL <= s.now
    case _ => true
  }

  ghost predicate TimelyRun(s: State, run: seq<Event>, slack: int)
    decreases |run|
  {
    run == [] || (Timely(s, run[0], slack) && TimelyRun(Step(s, run[0]), run[1..], slack))
  }
}
