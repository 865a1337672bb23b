/** Runs in which uploads, fetches, their delayed records, requests and background
    notifications interleave. */
module SenderKeyRuns {
  import opened Common
  import opened SenderKeys
  import opened SenderKeyRequests
  import G = SenderKeyGuarantees

  /** A notifyRequesters goroutine: before its query, between two requesters, and after it has
      sent the message to a requester but not yet marked the request. */
  datatype Notifier =
    | Starting(provider: nat)
    | Sending(provider: nat, todo: seq<nat>)
    | Marking(provider: nat, requester: nat, todo: seq<nat>)

  datatype State = State(
    members: seq<Member>, keys: set<Key>, recorded: Recorded,
    inFlight: map<nat, seq<Dist>>, nextFetch: nat,
    requests: Requests, notifiers: map<nat, Notifier>, nextNotifier: nat)

  datatype Event =
    | ChangeMembers(to: seq<Member>)
    | AddKey(member: nat, chain: int)
    | Upload(member: nat)
    | Fetch(receiver: nat, room: nat, served: seq<Key>)
    | Record(fetch: nat)
    | Lose(fetch: nat)
    | Request(requester: nat, provider: nat)
    | Begin(notifier: nat, found: seq<nat>)
    | Notify(notifier: nat, reachable: bool)
    | Mark(notifier: nat)

  const START := State([], {}, map[], map[], 1, map[], map[], 1)

  ghost predicate Enabled(s: State, e: Event) {
    match e
    case Fetch(_, room, served) => Enumerates(served, KeysOfRoom(s.members, s.keys, room))
    case Record(f) => f in s.inFlight
    case Lose(f) => f in s.inFlight
    case Begin(n, found) =>
      n in s.notifiers && s.notifiers[n].Starting? && Enumerates(found, Requesters(s.requests, s.notifiers[n].provider))
    case Notify(n, _) => n in s.notifiers && s.notifiers[n].Sending? && s.notifiers[n].todo != []
    case Mark(n) => n in s.notifiers && s.notifiers[n].Marking?
    case _ => true
  }

  ghost function Step(s: State, e: Event): State
    requires Enabled(s, e)
  {
    match e
    case ChangeMembers(to) => s.(members := to)
    case AddKey(member, chain) => s.(keys := s.keys + {Key(member, chain)})
    case Upload(member) =>
      // The use case leaves the chain zero, so a second upload violates the unique constraint.
      if Key(member, 0) in s.keys then s
      else s.(keys := s.keys + {Key(member, 0)},
              notifiers := s.notifiers[s.nextNotifier := Starting(member)], nextNotifier := s.nextNotifier + 1)
    case Fetch(receiver, _, served) =>
      s.(inFlight := s.inFlight[s.nextFetch := Batch(receiver, served)], nextFetch := s.nextFetch + 1)
    case Record(f) => s.(recorded := Upsert(s.recorded, s.inFlight[f]), inFlight := s.inFlight - {f})
    case Lose(f) => s.(inFlight := s.inFlight - {f})
    case Request(requester, provider) =>
      if IsActive(s.members, requester) && IsActive(s.members, provider)
      then s.(requests := s.requests[(requester, provider) := false]) else s
    case Begin(n, found) => s.(notifiers := s.notifiers[n := Sending(s.notifiers[n].provider, found)])
    case Notify(n, reachable) =>
      // The message goes out here; a requester that cannot be resolved is skipped.
      var Sending(provider, todo) := s.notifiers[n];
      s.(notifiers := s.notifiers[n := if reachable then Marking(provider, todo[0], todo[1..])
                                       else Sending(provider, todo[1..])])
    case Mark(n) =>
      var Marking(provider, requester, todo) := s.notifiers[n];
      s.(requests := MarkFulfilled(s.requests, requester, provider),
         notifiers := s.notifiers[n := Sending(provider, todo)])
  }

  ghost predicate Possible(s: State, run: seq<Event>)
    decreases |run|
  {
    run == [] || (Enabled(s, run[0]) && Possible(Step(s, run[0]), run[1..]))
  }

  ghost function At(s: State, run: seq<Event>, k: nat): State
    requires Possible(s, run) && k <= |run|
    decreases k
  {
    if k == 0 then s else At(Step(s, run[0]), run[1..], k - 1)
  }

  lemma {:induction false} AtNext(s: State, run: seq<Event>, k: nat)
    requires Possible(s, run) && k < |run|
    ensures Enabled(At(s, run, k), run[k]) && At(s, run, k + 1) == Step(At(s, run, k), run[k])
    decreases k
  {
    if k > 0 {
      AtNext(Step(s, run[0]), run[1..], k - 1);
    }
  }

  // --- distribution records ---

  /** The batches written by the first k events, in the order they were written. */
  ghost function Written(run: seq<Event>, k: nat): seq<seq<Dist>>
    requires Possible(START, run) && k <= |run|
  {
    if k == 0 then []
    else
      var s := At(START, run, k - 1);
      Written(run, k - 1)
      + if run[k - 1].Record? && run[k - 1].fetch in s.inFlight then [s.inFlight[run[k - 1].fetch]] else []
  }

  lemma ApplyOneMore(r: Recorded, batches: seq<seq<Dist>>, batch: seq<Dist>)
    ensures G.ApplyAll(r, batches + [batch]) == Upsert(G.ApplyAll(r, batches), batch)
  {
    assert (batches + [batch])[..|batches|] == batches;
  }

  lemma {:induction false} RecordedIsApplied(run: seq<Event>, k: nat)
    requires Possible(START, run) && k <= |run|
    ensures At(START, run, k).recorded == G.ApplyAll(map[], Written(run, k))
  {
    if k > 0 {
      RecordedIsApplied(run, k - 1);
      AtNext(START, run, k - 1);
      var s, before := At(START, run, k - 1), Written(run, k - 1);
      if run[k - 1].Record? {
        ApplyOneMore(map[], before, s.inFlight[run[k - 1].fetch]);
      } else {
        assert before + [] == before;
      }
    }
  }

  /** The record table is the maximum of what was written, however late it was written. */
  lemma {:induction false} RecordedIsMaxOfWritten(run: seq<Event>, k: nat, pair: (nat, nat))
    requires Possible(START, run) && k <= |run|
    ensures G.IsMaxOf(At(START, run, k).recorded, map[], G.Offered(Written(run, k), pair), pair)
  {
    RecordedIsApplied(run, k);
    G.AppliedIsMax(map[], Written(run, k), pair);
  }

  /** Some earlier fetch by the receiver returned the sender's key with this chain. */
  ghost predicate WasServed(run: seq<Event>, k: nat, d: Dist)
    requires k <= |run|
  {
    d.sender != d.receiver &&
    exists i :: 0 <= i < k && run[i].Fetch? && run[i].receiver == d.receiver && Key(d.sender, d.chain) in run[i].served
  }

  ghost predicate AllServed(s: State, run: seq<Event>, k: nat)
    requires k <= |run|
  {
    && (forall f, d :: f in s.inFlight && d in s.inFlight[f] ==> WasServed(run, k, d))
    && (forall pair :: pair in s.recorded ==> WasServed(run, k, Dist(pair.0, pair.1, s.recorded[pair])))
  }

  lemma ServedLater(run: seq<Event>, k: nat, d: Dist)
    requires k < |run| && WasServed(run, k, d)
    ensures WasServed(run, k + 1, d)
  {
    var i :| 0 <= i < k && run[i].Fetch? && run[i].receiver == d.receiver && Key(d.sender, d.chain) in run[i].served;
  }

  lemma {:induction false} AllServedAt(run: seq<Event>, k: nat)
    requires Possible(START, run) && k <= |run|
    ensures AllServed(At(START, run, k), run, k)
  {
    if k > 0 {
      AllServedAt(run, k - 1);
      AtNext(START, run, k - 1);
      var s, s', e := At(START, run, k - 1), At(START, run, k), run[k - 1];
      forall f, d | f in s'.inFlight && d in s'.inFlight[f] ensures WasServed(run, k, d) {
        if f in s.inFlight && s'.inFlight[f] == s.inFlight[f] {
          ServedLater(run, k - 1, d);
        } else {
          G.BatchIff(e.receiver, e.served, d);
          assert run[k - 1].Fetch? && run[k - 1].receiver == d.receiver;
        }
      }
      forall pair | pair in s'.recorded ensures WasServed(run, k, Dist(pair.0, pair.1, s'.recorded[pair])) {
        if pair in s.recorded && s'.recorded[pair] == s.recorded[pair] {
          ServedLater(run, k - 1, Dist(pair.0, pair.1, s.recorded[pair]));
        } else {
          var batch := s.inFlight[e.fetch];
          G.MergeIsMax(s.recorded, batch, pair);
          var i :| 0 <= i < |batch| && PairOf(batch[i]) == pair && batch[i].chain == s'.recorded[pair];
          assert batch[i] == Dist(pair.0, pair.1, s'.recorded[pair]) && batch[i] in batch;
          ServedLater(run, k - 1, batch[i]);
        }
      }
    }
  }

  /** What is recorded for a receiver is a chain that was really served to it, so it never
      exceeds the largest one served; and once recorded it only grows. */
  lemma RecordedWasServedAndGrows(run: seq<Event>, k: nat, pair: (nat, nat))
    requires Possible(START, run) && k < |run| && pair in At(START, run, k).recorded
    ensures
      var r, r' := At(START, run, k).recorded, At(START, run, k + 1).recorded;
      && WasServed(run, k, Dist(pair.0, pair.1, r[pair]))
      && pair in r' && r[pair] <= r'[pair]
  {
    AllServedAt(run, k);
    AtNext(START, run, k);
    if run[k].Record? {
      G.MergeIsMax(At(START, run, k).recorded, At(START, run, k).inFlight[run[k].fetch], pair);
    }
  }

  // --- as the use cases are written ---

  /** Keys enter only through the upload use case, which always leaves the chain zero. */
  predicate UploadsOnly(run: seq<Event>) {
    forall i :: 0 <= i < |run| ==> !run[i].AddKey?
  }

  ghost predicate OneKeyEach(s: State) {
    && (forall k :: k in s.keys ==> k.chain == 0)
    && (forall f :: f in s.inFlight ==> !Refused(s.inFlight[f]))
  }

  lemma {:induction false} OneKeyEachAt(run: seq<Event>, k: nat)
    requires Possible(START, run) && UploadsOnly(run) && k <= |run|
    ensures OneKeyEach(At(START, run, k))
  {
    if k > 0 {
      OneKeyEachAt(run, k - 1);
      AtNext(START, run, k - 1);
      var s, e := At(START, run, k - 1), run[k - 1];
      if e.Fetch? {
        assert !G.TwoKeys(e.served, e.receiver) by {
          assert forall key :: key in e.served ==> key in s.keys;
        }
        G.RecordRefusedIff(e.receiver, e.served);
      }
    }
  }

  /** A member never has two keys, so the database accepts every record it is sent. */
  lemma EveryRecordIsAccepted(run: seq<Event>, k: nat)
    requires Possible(START, run) && UploadsOnly(run) && k < |run| && run[k].Record?
    ensures
      var s := At(START, run, k);
      && run[k].fetch in s.inFlight && !Refused(s.inFlight[run[k].fetch])
      && At(START, run, k + 1).recorded == Merge(s.recorded, s.inFlight[run[k].fetch])
    ensures forall a, b :: a in At(START, run, k).keys && b in At(START, run, k).keys && a.member == b.member ==> a == b
  {
    OneKeyEachAt(run, k);
    AtNext(START, run, k);
  }

  // --- requests ---

  /** A notifier runs only for a member that has a key, and so does every fulfilled request. */
  ghost predicate ProvidersHaveKeys(s: State) {
    && (forall n :: n in s.notifiers ==> HasKey(s.keys, s.notifiers[n].provider))
    && (forall pair :: pair in s.requests && s.requests[pair] ==> HasKey(s.keys, pair.1))
  }

  lemma ProvidersStep(s: State, e: Event)
    requires ProvidersHaveKeys(s) && Enabled(s, e)
    ensures ProvidersHaveKeys(Step(s, e))
  {
    var s' := Step(s, e);
    forall member | HasKey(s.keys, member) ensures HasKey(s'.keys, member) {
      var k :| k in s.keys && k.member == member;
      assert k in s'.keys;
    }
    if e.Upload? {
      assert Key(e.member, 0) in s'.keys;
    }
  }

  /** A request is marked fulfilled only when its provider has a stored sender key. */
  lemma {:induction false} FulfilledHasKey(run: seq<Event>, k: nat)
    requires Possible(START, run) && k <= |run|
    ensures ProvidersHaveKeys(At(START, run, k))
  {
    if k > 0 {
      FulfilledHasKey(run, k - 1);
      AtNext(START, run, k - 1);
      ProvidersStep(At(START, run, k - 1), run[k - 1]);
    }
  }

  /** Event i sends the message to the requester, from a goroutine of its provider, which has a
      key. */
  ghost predicate NotifiedAt(run: seq<Event>, i: nat, pair: (nat, nat))
    requires Possible(START, run) && i < |run|
  {
    var s, e := At(START, run, i), run[i];
    && e.Notify? && e.reachable && e.notifier in s.notifiers && HasKey(s.keys, pair.1)
    && s.notifiers[e.notifier].Sending? && s.notifiers[e.notifier].provider == pair.1
    && s.notifiers[e.notifier].todo != [] && s.notifiers[e.notifier].todo[0] == pair.0
  }

  /** Event i is a request, or a repeated one, that is let through. */
  ghost predicate RequestedAt(run: seq<Event>, i: nat, pair: (nat, nat))
    requires Possible(START, run) && i < |run|
  {
    var members := At(START, run, i).members;
    run[i] == Request(pair.0, pair.1) && IsActive(members, pair.0) && IsActive(members, pair.1)
  }

  /** Goroutine n has notified the pair's requester and will mark the pair next. */
  predicate Marks(s: State, n: nat, pair: (nat, nat)) {
    n in s.notifiers && s.notifiers[n].Marking? && (s.notifiers[n].requester, s.notifiers[n].provider) == pair
  }

  ghost predicate Quiet(run: seq<Event>, i: nat, k: nat, pair: (nat, nat))
    requires Possible(START, run) && k <= |run|
  {
    forall j :: i < j < k ==> !RequestedAt(run, j, pair)
  }

  /** Event i is the notification after which n has been about to mark the pair until state k. */
  ghost predicate NotifiedBy(run: seq<Event>, i: nat, k: nat, n: nat, pair: (nat, nat))
    requires Possible(START, run) && k <= |run|
  {
    i < k && NotifiedAt(run, i, pair) && run[i].notifier == n
    && forall j :: i < j <= k ==> Marks(At(START, run, j), n, pair)
  }

  lemma {:induction false} MarkingWasNotified(run: seq<Event>, k: nat, n: nat, pair: (nat, nat))
    requires Possible(START, run) && k <= |run| && Marks(At(START, run, k), n, pair)
    ensures exists i :: NotifiedBy(run, i, k, n, pair)
  {
    if k > 0 {
      AtNext(START, run, k - 1);
      if run[k - 1].Notify? && run[k - 1].notifier == n {
        FulfilledHasKey(run, k - 1);
        assert NotifiedBy(run, k - 1, k, n, pair);
      } else {
        MarkingWasNotified(run, k - 1, n, pair);
        var i :| NotifiedBy(run, i, k - 1, n, pair);
        assert NotifiedBy(run, i, k, n, pair);
      }
    }
  }

  /** Event m is the mark of the pair by n, notified at i, and no request came after it. */
  ghost predicate MarkedAfter(run: seq<Event>, i: nat, m: nat, k: nat, n: nat, pair: (nat, nat))
    requires Possible(START, run) && k <= |run|
  {
    m < k && run[m] == Mark(n) && NotifiedBy(run, i, m, n, pair) && Quiet(run, m, k, pair)
  }

  /** A request is fulfilled only because a goroutine of its provider sent its requester the
      message, at a moment when the provider had a key, and then marked it; since that mark it
      has not been made again. */
  lemma {:induction false} FulfilledWasNotified(run: seq<Event>, k: nat, pair: (nat, nat))
    requires Possible(START, run) && k <= |run|
    requires pair in At(START, run, k).requests && At(START, run, k).requests[pair]
    ensures exists i, m, n :: MarkedAfter(run, i, m, k, n, pair)
  {
    if k > 0 {
      AtNext(START, run, k - 1);
      var s := At(START, run, k - 1);
      if pair in s.requests && s.requests[pair] {
        FulfilledWasNotified(run, k - 1, pair);
        var i, m, n :| MarkedAfter(run, i, m, k - 1, n, pair);
        assert !RequestedAt(run, k - 1, pair);
        assert MarkedAfter(run, i, m, k, n, pair);
      } else {
        var n := run[k - 1].notifier;
        MarkingWasNotified(run, k - 1, n, pair);
        var i :| NotifiedBy(run, i, k - 1, n, pair);
        assert MarkedAfter(run, i, k - 1, k, n, pair);
      }
    }
  }

  // --- requests repeated while they are being answered ---

  /** The message for the pair was sent after the last time the request was made. */
  ghost predicate NotifiedSince(run: seq<Event>, k: nat, pair: (nat, nat))
    requires Possible(START, run) && k <= |run|
  {
    exists i :: 0 <= i < k && NotifiedAt(run, i, pair) && Quiet(run, i, k, pair)
  }

  /** The pair is fulfilled, or will be by the next step of some goroutine. */
  ghost predicate FulfilledOrAboutToBe(s: State, pair: (nat, nat)) {
    (pair in s.requests && s.requests[pair]) || exists n :: Marks(s, n, pair)
  }

  /** No request is let through between the message for it and its mark. */
  ghost predicate NoRepeatInBetween(run: seq<Event>)
    requires Possible(START, run)
  {
    forall k, n, pair :: 0 <= k < |run| && RequestedAt(run, k, pair) ==> !Marks(At(START, run, k), n, pair)
  }

  lemma SinceStillHolds(run: seq<Event>, k: nat, pair: (nat, nat))
    requires Possible(START, run) && k < |run| && NotifiedSince(run, k, pair) && !RequestedAt(run, k, pair)
    ensures NotifiedSince(run, k + 1, pair)
  {
    var i :| 0 <= i < k && NotifiedAt(run, i, pair) && Quiet(run, i, k, pair);
    assert Quiet(run, i, k + 1, pair);
  }

  lemma {:induction false} NotifiedSinceAt(run: seq<Event>, k: nat, pair: (nat, nat))
    requires Possible(START, run) && NoRepeatInBetween(run) && k <= |run|
    requires FulfilledOrAboutToBe(At(START, run, k), pair)
    ensures NotifiedSince(run, k, pair)
  {
    if k > 0 {
      AtNext(START, run, k - 1);
      var s, s', e := At(START, run, k - 1), At(START, run, k), run[k - 1];
      assert e.Mark? && pair in s'.requests && s'.requests[pair] ==> s.requests[pair] || Marks(s, e.notifier, pair);
      if FulfilledOrAboutToBe(s, pair) && !RequestedAt(run, k - 1, pair) {
        NotifiedSinceAt(run, k - 1, pair);
        SinceStillHolds(run, k - 1, pair);
      } else if n :| Marks(s', n, pair) {
        MarkingWasNotified(run, k, n, pair);
        var i :| NotifiedBy(run, i, k, n, pair);
        assert !Marks(s, n, pair);
        assert i == k - 1 && Quiet(run, i, k, pair);
      }
    }
  }

  /** In a run, whatever is fulfilled or about to be was notified since it was last made, at
      every moment, if and only if no request is let through between the message and the mark.
      Sending and marking are two steps without a lock around them. */
  lemma NotifiedSinceIff(run: seq<Event>)
    requires Possible(START, run)
    ensures NoRepeatInBetween(run) <==>
      forall k, pair :: 0 <= k <= |run| && FulfilledOrAboutToBe(At(START, run, k), pair) ==> NotifiedSince(run, k, pair)
  {
    if NoRepeatInBetween(run) {
      forall k, pair | 0 <= k <= |run| && FulfilledOrAboutToBe(At(START, run, k), pair)
        ensures NotifiedSince(run, k, pair)
      {
        NotifiedSinceAt(run, k, pair);
      }
    } else {
      var k, n, pair :| 0 <= k < |run| && RequestedAt(run, k, pair) && Marks(At(START, run, k), n, pair);
      AtNext(START, run, k);
      assert Marks(At(START, run, k + 1), n, pair);
      assert !NotifiedSince(run, k + 1, pair);
    }
  }

  const TWO_MEMBERS := [Member(1, 1, false), Member(2, 1, false)]

  const REPEATED: seq<Event> := [
    ChangeMembers(TWO_MEMBERS), Request(1, 2), Upload(2), Begin(1, [1]), Notify(1, true), Request(1, 2), Mark(1)]

  /** The state after the first k events of REPEATED. */
  function Repeated(k: nat): State {
    State(
      if k == 0 then [] else TWO_MEMBERS,
      if k < 3 then {} else {Key(2, 0)},
      map[], map[], 1,
      if k < 2 then map[] else map[(1, 2) := k >= 7],
      if k < 3 then map[]
      else map[1 := if k == 3 then Starting(2) else if k == 4 then Sending(2, [1])
                    else if k < 7 then Marking(2, 1, []) else Sending(2, [])],
      if k < 3 then 1 else 2)
  }

  lemma RepeatedStep(k: nat)
    requires k < |REPEATED|
    ensures Enabled(Repeated(k), REPEATED[k]) && Step(Repeated(k), REPEATED[k]) == Repeated(k + 1)
  {
    assert TWO_MEMBERS[0].id == 1 && TWO_MEMBERS[1].id == 2;
    assert IsActive(TWO_MEMBERS, 1) && IsActive(TWO_MEMBERS, 2);
    var todo: seq<nat> := [1];
    assert todo[1..] == [];
    if k == 3 {
      assert (1, 2) in Repeated(3).requests;
      assert Requesters(Repeated(3).requests, 2) == {1};
    }
  }

  lemma {:induction false} RepeatedFrom(k: nat)
    requires k <= |REPEATED|
    ensures Possible(Repeated(k), REPEATED[k..])
    ensures forall j :: 0 <= j <= |REPEATED| - k ==> At(Repeated(k), REPEATED[k..], j) == Repeated(k + j)
    decreases |REPEATED| - k
  {
    if k < |REPEATED| {
      RepeatedStep(k);
      RepeatedFrom(k + 1);
      assert REPEATED[k..][1..] == REPEATED[k + 1..];
    }
  }

  /** A run in which a repeated request falls in between: it ends fulfilled, and nothing was
      sent after it. */
  lemma RepeatedRequestIsSwallowed()
    ensures Possible(START, REPEATED) && RequestedAt(REPEATED, 5, (1, 2))
    ensures At(START, REPEATED, 7).requests == map[(1, 2) := true] && !NotifiedSince(REPEATED, 7, (1, 2))
  {
    RepeatedFrom(0);
    assert REPEATED[0..] == REPEATED && Repeated(0) == START;
    assert TWO_MEMBERS[0].id == 1 && TWO_MEMBERS[1].id == 2;
    assert RequestedAt(REPEATED, 5, (1, 2));
  }

  // --- a goroutine that is not interrupted ---

  /** The run continued by one goroutine alone: it sends to and marks each of its requesters
      that is reachable, and skips the others. */
  ghost function Alone(s: State, n: nat, reachable: set<nat>): State
    requires n in s.notifiers && s.notifiers[n].Sending?
    decreases |s.notifiers[n].todo|
  {
    var todo := s.notifiers[n].todo;
    if todo == [] then s
    else if todo[0] in reachable then Alone(Step(Step(s, Notify(n, true)), Mark(n)), n, reachable)
    else Alone(Step(s, Notify(n, false)), n, reachable)
  }

  lemma OneAnswered(s: State, n: nat)
    requires n in s.notifiers && s.notifiers[n].Sending? && s.notifiers[n].todo != []
    ensures
      var Sending(provider, todo) := s.notifiers[n];
      && Step(Step(s, Notify(n, true)), Mark(n)) ==
           s.(requests := MarkFulfilled(s.requests, todo[0], provider),
              notifiers := s.notifiers[n := Sending(provider, todo[1..])])
      && Step(s, Notify(n, false)) == s.(notifiers := s.notifiers[n := Sending(provider, todo[1..])])
  {
  }

  lemma {:induction false} AloneFulfils(s: State, n: nat, reachable: set<nat>)
    requires n in s.notifiers && s.notifiers[n].Sending?
    ensures
      var s', provider, todo := Alone(s, n, reachable), s.notifiers[n].provider, s.notifiers[n].todo;
      && s' == s.(requests := s'.requests, notifiers := s'.notifiers)
      && s'.notifiers == s.notifiers[n := Sending(provider, [])]
      && s'.requests.Keys == s.requests.Keys
      && forall pair :: pair in s.requests ==>
           s'.requests[pair] == (s.requests[pair] || (pair.1 == provider && pair.0 in todo && pair.0 in reachable))
    decreases |s.notifiers[n].todo|
  {
    var todo := s.notifiers[n].todo;
    if todo == [] {
      assert s.notifiers[n := Sending(s.notifiers[n].provider, [])] == s.notifiers;
    } else {
      assert forall q :: q in todo <==> q == todo[0] || q in todo[1..];
      OneAnswered(s, n);
      if todo[0] in reachable {
        AloneFulfils(Step(Step(s, Notify(n, true)), Mark(n)), n, reachable);
      } else {
        AloneFulfils(Step(s, Notify(n, false)), n, reachable);
      }
    }
  }

  /** A first upload starts a goroutine; run alone it fulfils exactly the member's pending
      requests whose requesters are reachable, which is what the method NotifyRequesters does. */
  lemma UploadAnswersRequests(s: State, member: nat, found: seq<nat>, reachable: set<nat>)
    requires Key(member, 0) !in s.keys && Enumerates(found, Requesters(s.requests, member))
    ensures
      var uploaded := Step(s, Upload(member));
      && Enabled(uploaded, Begin(s.nextNotifier, found))
      && var done := Alone(Step(uploaded, Begin(s.nextNotifier, found)), s.nextNotifier, reachable);
      && done.keys == s.keys + {Key(member, 0)}
      && done.requests == MarkAll(s.requests, member, reachable)
      && done.requests.Keys == s.requests.Keys
      && forall pair :: pair in s.requests ==>
           done.requests[pair] == (s.requests[pair] || (pair.1 == member && pair.0 in reachable))
  {
    var uploaded := Step(s, Upload(member));
    AloneFulfils(Step(uploaded, Begin(s.nextNotifier, found)), s.nextNotifier, reachable);
    assert forall pair :: pair in s.requests && pair.1 == member && !s.requests[pair] ==>
      pair.0 in Requesters(s.requests, member);
  }

  /** Request rows never disappear: once made, a request is pending or fulfilled for ever. */
  lemma {:induction false} RequestsStay(run: seq<Event>, i: nat, k: nat, pair: (nat, nat))
    requires Possible(START, run) && i <= k <= |run| && pair in At(START, run, i).requests
    ensures pair in At(START, run, k).requests
  {
    if i < k {
      RequestsStay(run, i, k - 1, pair);
      AtNext(START, run, k - 1);
    }
  }
}
