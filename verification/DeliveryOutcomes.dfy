/** What becomes of a dispatched message: what each push sends for it, how a whole exchange with
    a client ends, and what the row then says. */
module DeliveryOutcomes {
  import opened Common
  import opened DeliverySpec
  import opened DeliveryGuarantees

  // --- the message ---

  /** Event i gave this user and payload to Dispatch, which made the row of d for it. */
  ghost predicate Dispatched(run: seq<Event>, i: nat, d: nat, user: nat, payload: Payload)
    requires i < |run|
  {
    run[i] == Dispatch(user, payload) && At(START, run, i).nextItem == d
  }

  /** The row of d is for that user, with that payload, since that instant. */
  predicate RowFor(s: State, d: nat, user: nat, payload: Payload, createdAt: int) {
    && d in s.items && d < s.nextItem
    && s.items[d].user == user && s.items[d].payload == payload && s.items[d].createdAt == createdAt
  }

  lemma RowForStep(s: State, e: Event, d: nat, user: nat, payload: Payload, createdAt: int)
    requires RowFor(s, d, user, payload, createdAt)
      || (e == Dispatch(user, payload) && s.nextItem == d && s.now == createdAt)
    ensures RowFor(Step(s, e), d, user, payload, createdAt)
  {
  }

  lemma {:induction false} DispatchedRow(run: seq<Event>, i: nat, k: nat, d: nat, user: nat, payload: Payload)
    requires i < k <= |run| && Dispatched(run, i, d, user, payload)
    ensures RowFor(At(START, run, k), d, user, payload, At(START, run, i).now)
    decreases k
  {
    if i + 1 < k {
      DispatchedRow(run, i, k - 1, d, user, payload);
    }
    AtNext(START, run, k - 1);
    RowForStep(At(START, run, k - 1), run[k - 1], d, user, payload, At(START, run, i).now);
  }

  lemma RowOrigin(s: State, e: Event, d: nat)
    requires d in Step(s, e).items
    ensures d in s.items || (e.Dispatch? && s.nextItem == d)
  {
  }

  /** Every row was made by some Dispatch. */
  lemma {:induction false} RowWasDispatched(run: seq<Event>, k: nat, d: nat) returns (i: nat)
    requires k <= |run| && d in At(START, run, k).items
    ensures i < k && run[i].Dispatch? && Dispatched(run, i, d, run[i].user, run[i].payload)
    decreases k
  {
    assert k > 0;
    AtNext(START, run, k - 1);
    if d in At(START, run, k - 1).items {
      i := RowWasDispatched(run, k - 1, d);
    } else {
      RowOrigin(At(START, run, k - 1), run[k - 1], d);
      i := k - 1;
    }
  }

  /** In every run, each push for a delivery, the first one and every retry, sends exactly what
      the one Dispatch that created the delivery was given. */
  lemma SendsWhatWasDispatched(run: seq<Event>, k: nat, p: nat)
    requires Possible(START, run) && k < |run| && run[k] == Register(p)
    ensures
      var s := At(START, run, k);
      && p in s.pushes && s.pushes[p].delivery in s.items
      && (exists i :: 0 <= i < k && run[i].Dispatch? && At(START, run, i).nextItem == s.pushes[p].delivery)
      && (forall i :: 0 <= i < k && run[i].Dispatch? && At(START, run, i).nextItem == s.pushes[p].delivery ==>
            s.items[s.pushes[p].delivery].user == run[i].user
            && s.items[s.pushes[p].delivery].payload == run[i].payload)
  {
    InvAt(run, k);
    EnabledAt(START, run, k);
    var d := At(START, run, k).pushes[p].delivery;
    var first := RowWasDispatched(run, k, d);
    forall i | 0 <= i < k && run[i].Dispatch? && At(START, run, i).nextItem == d
      ensures RowFor(At(START, run, k), d, run[i].user, run[i].payload, At(START, run, i).now)
    {
      DispatchedRow(run, i, k, d, run[i].user, run[i].payload);
    }
  }

  // --- the exchange ---

  /** The goroutine registers its channel and the acknowledgement finds and wakes it. */
  lemma AnswerWakes(s: State, p: nat)
    requires Inv(s) && InPhase(s, p, Spawned)
    ensures
      var d := s.pushes[p].delivery;
      var found := Step(Step(s, Register(p)), Ack(d));
      && Enabled(s, Register(p)) && Enabled(found, Send(s.nextResolver))
      && Step(found, Send(s.nextResolver)) ==
           s.(pushes := s.pushes[p := Push(d, s.pushes[p].spawnedAt, s.now, Signalled)],
              pendingAcks := s.pendingAcks[d := p], nextResolver := s.nextResolver + 1)
  {
    var d := s.pushes[p].delivery;
    var found := Step(Step(s, Register(p)), Ack(d));
    assert found.resolvers - {s.nextResolver} == s.resolvers;
  }

  /** A goroutine, its client and nobody else: the client answers, and the row is delivered at
      that instant; the goroutine, its channel and the resolver are gone. */
  lemma AnsweredExchange(s: State, p: nat)
    requires Inv(s) && InPhase(s, p, Spawned)
    ensures
      var d := s.pushes[p].delivery;
      var woken := Step(Step(Step(s, Register(p)), Ack(d)), Send(s.nextResolver));
      var returned := Step(woken, Return(p));
      && Enabled(woken, Return(p)) && Enabled(returned, Mark(p)) && d in s.items
      && Step(returned, Mark(p)) ==
           s.(items := s.items[d := s.items[d].(status := Delivered, deliveredAt := Some(s.now))],
              pushes := s.pushes - {p}, pendingAcks := s.pendingAcks - {d}, nextResolver := s.nextResolver + 1)
  {
    AnswerWakes(s, p);
    var d := s.pushes[p].delivery;
    AfterWaking(s, p, Push(d, s.pushes[p].spawnedAt, s.now, Signalled));
  }

  lemma AfterWaking(s: State, p: nat, push: Push)
    requires p in s.pushes && push.phase == Signalled && push.delivery in s.items
    ensures
      var d := push.delivery;
      var woken := s.(pushes := s.pushes[p := push], pendingAcks := s.pendingAcks[d := p],
                      nextResolver := s.nextResolver + 1);
      var returned := Step(woken, Return(p));
      && Enabled(woken, Return(p)) && Enabled(returned, Mark(p))
      && Step(returned, Mark(p)) ==
           s.(items := s.items[d := s.items[d].(status := Delivered, deliveredAt := Some(s.now))],
              pushes := s.pushes - {p}, pendingAcks := s.pendingAcks - {d}, nextResolver := s.nextResolver + 1)
  {
    var d := push.delivery;
    assert s.pendingAcks[d := p] - {d} == s.pendingAcks - {d};
    assert s.pushes[p := push][p := push.(phase := Marking)] - {p} == s.pushes - {p};
  }

  /** Nobody answers: after the timeout the goroutine and its channel are gone, and the row is
      as it was, so a later scan finds it. */
  lemma UnansweredExchange(s: State, p: nat, later: int)
    requires Inv(s) && InPhase(s, p, Spawned) && s.now + PUSH_TIMEOUT <= later
    ensures
      var d := s.pushes[p].delivery;
      var waited := Step(Step(s, Register(p)), Advance(later));
      var timedOut := Step(waited, Timer(p));
      && Enabled(waited, Timer(p)) && Enabled(timedOut, Return(p))
      && (forall t :: s.now <= t < s.now + PUSH_TIMEOUT ==>
            !Enabled(Step(Step(s, Register(p)), Advance(t)), Timer(p)))
      && Step(timedOut, Return(p)) ==
           s.(now := later, pushes := s.pushes - {p}, pendingAcks := s.pendingAcks - {d})
  {
    var d := s.pushes[p].delivery;
    var timedOut := Step(Step(Step(s, Register(p)), Advance(later)), Timer(p));
    assert timedOut.pushes - {p} == s.pushes - {p};
    assert timedOut.pendingAcks - {d} == s.pendingAcks - {d};
  }

  // --- the row ---

  /** The row of d says when it was delivered. */
  predicate DeliveredSince(s: State, d: nat, t: int) {
    d in s.items && s.items[d].deliveredAt == Some(t)
  }

  /** A goroutine of d marks it, as the event at instant t. */
  predicate Marks(s: State, e: Event, d: nat, t: int) {
    e.Mark? && e.push in s.pushes && s.pushes[e.push].delivery == d && s.now == t
  }

  lemma MarkStep(s: State, e: Event, d: nat)
    requires Inv(s) && Enabled(s, e)
    ensures
      var s' := Step(s, e);
      if Marks(s, e, d, s.now) then IsDelivered(s', d) && DeliveredSince(s', d, s.now)
      else if d in s.items then d in s'.items && s'.items[d] == s.items[d]
      else d in s'.items ==> s'.items[d].status == Pending && s'.items[d].deliveredAt == None
  {
  }

  /** Event i marks d at instant t, and none of the events up to the k-th marks it again. */
  ghost predicate MarkedLast(run: seq<Event>, i: nat, k: nat, d: nat, t: int)
    requires i < k <= |run|
  {
    && Marks(At(START, run, i), run[i], d, t)
    && forall j :: i < j < k ==> !Marks(At(START, run, j), run[j], d, At(START, run, j).now)
  }

  ghost predicate LastMarked(run: seq<Event>, k: nat, d: nat, t: int)
    requires k <= |run|
  {
    exists i :: 0 <= i < k && MarkedLast(run, i, k, d, t)
  }

  lemma LastMarkedNext(run: seq<Event>, k: nat, d: nat, t: int)
    requires k < |run|
    ensures
      var s := At(START, run, k);
      LastMarked(run, k + 1, d, t) <==>
        if Marks(s, run[k], d, s.now) then t == s.now else LastMarked(run, k, d, t)
  {
    if i :| 0 <= i < k && MarkedLast(run, i, k, d, t) {
      assert !Marks(At(START, run, k), run[k], d, At(START, run, k).now) ==> MarkedLast(run, i, k + 1, d, t);
    }
    var next := k + 1;
    if i :| 0 <= i < next && MarkedLast(run, i, next, d, t) {
      assert i < k ==> MarkedLast(run, i, k, d, t);
    }
    assert Marks(At(START, run, k), run[k], d, t) ==> MarkedLast(run, k, k + 1, d, t);
  }

  /** In every run a row is delivered exactly if it has a delivery time, and that is the instant
      of the last goroutine of the delivery to mark it. */
  lemma {:induction false} DeliveryTimeIsLastMark(run: seq<Event>, k: nat, d: nat, t: int)
    requires Possible(START, run) && k <= |run|
    ensures
      var s := At(START, run, k);
      && (DeliveredSince(s, d, t) <==> LastMarked(run, k, d, t))
      && (d in s.items ==> (IsDelivered(s, d) <==> s.items[d].deliveredAt.Some?))
    decreases k
  {
    if k > 0 {
      DeliveryTimeIsLastMark(run, k - 1, d, t);
      InvAt(run, k - 1);
      EnabledAt(START, run, k - 1);
      AtNext(START, run, k - 1);
      LastMarkedNext(run, k - 1, d, t);
      MarkStep(At(START, run, k - 1), run[k - 1], d);
    }
  }
}
