/** The index always holds exactly the live clients of each user, in registration order. */
module HubGuarantees {
  import opened HubSpec

  /** The clients registered by a run, in order. */
  function Registered(run: seq<Event>): seq<Client>
    decreases |run|
  {
    if run == [] then []
    else
      var last := run[|run| - 1];
      Registered(run[..|run| - 1]) + (if last.Register? then [last.client] else [])
  }

  /** No client is registered twice. */
  predicate RegisteredOnce(run: seq<Event>) {
    forall i, j :: 0 <= i < j < |run| && run[i].Register? && run[j].Register? ==> run[i].client != run[j].client
  }

  function LiveOf(order: seq<Client>, live: set<Client>, user: string): seq<Client>
    decreases |order|
  {
    if order == [] then []
    else
      var last := order[|order| - 1];
      LiveOf(order[..|order| - 1], live, user) + (if last in live && last.user == user then [last] else [])
  }

  ghost predicate Distinct(s: seq<Client>) {
    forall i, j :: 0 <= i < j < |s| ==> s[i] != s[j]
  }

  /** The channels: who is live, and how often each channel was closed. */
  ghost predicate ChannelsOk(s: State, order: seq<Client>) {
    && (forall c :: c in s.clients ==> c in order)
    && s.queues.Keys == s.closes.Keys
    && (forall c :: c in order ==> c in s.queues) && (forall c :: c in s.queues ==> c in order)
    && (forall c :: c in s.closes ==> s.closes[c] == (if c in s.clients then 0 else 1))
  }

  ghost predicate IndexOk(s: State, order: seq<Client>) {
    && "" !in s.index
    && (forall user :: user != "" ==> ClientsOf(s.index, user) == LiveOf(order, s.clients, user))
    && (forall user :: user in s.index ==> s.index[user] != [])
  }

  ghost predicate Inv(s: State, order: seq<Client>) {
    Distinct(order) && ChannelsOk(s, order) && IndexOk(s, order)
  }

  // --- facts about LiveOf ---

  lemma {:induction false} LiveOfMembers(order: seq<Client>, live: set<Client>, user: string, c: Client)
    ensures c in LiveOf(order, live, user) <==> c in order && c in live && c.user == user
    decreases |order|
  {
    if order != [] {
      LiveOfMembers(order[..|order| - 1], live, user, c);
      assert order == order[..|order| - 1] + [order[|order| - 1]];
    }
  }

  lemma {:induction false} LiveOfDistinct(order: seq<Client>, live: set<Client>, user: string)
    requires Distinct(order)
    ensures Distinct(LiveOf(order, live, user))
    decreases |order|
  {
    if order != [] {
      var init, last := order[..|order| - 1], order[|order| - 1];
      LiveOfDistinct(init, live, user);
      LiveOfMembers(init, live, user, last);
    }
  }

  /** A client that is not in the order does not matter. */
  lemma {:induction false} LiveOfIgnores(order: seq<Client>, live: set<Client>, user: string, c: Client)
    requires c !in order || c.user != user
    ensures LiveOf(order, live + {c}, user) == LiveOf(order, live, user) == LiveOf(order, live - {c}, user)
    decreases |order|
  {
    if order != [] {
      LiveOfIgnores(order[..|order| - 1], live, user, c);
    }
  }

  lemma {:induction false} LiveOfRemove(order: seq<Client>, live: set<Client>, c: Client)
    requires Distinct(order)
    ensures LiveOf(order, live - {c}, c.user) == RemoveFirst(LiveOf(order, live, c.user), c)
    decreases |order|
  {
    if order != [] {
      var init, last := order[..|order| - 1], order[|order| - 1];
      if last == c {
        LiveOfIgnores(init, live, c.user, c);
        LiveOfMembers(init, live, c.user, c);
        RemoveFirstAppend(LiveOf(init, live, c.user), c, c);
        RemoveAbsent(LiveOf(init, live, c.user), c);
        assert LiveOf(init, live, c.user) + [] == LiveOf(init, live, c.user);
      } else {
        LiveOfRemove(init, live, c);
        if last in live && last.user == c.user {
          var before := LiveOf(init, live, c.user);
          RemoveFirstAppend(before, last, c);
          if c !in before {
            RemoveAbsent(before, c);
          }
        } else {
          assert LiveOf(order, live, c.user) == LiveOf(init, live, c.user);
          assert LiveOf(order, live - {c}, c.user) == LiveOf(init, live - {c}, c.user);
        }
      }
    }
  }

  lemma {:induction false} RemoveAbsent(s: seq<Client>, c: Client)
    requires c !in s
    ensures RemoveFirst(s, c) == s
  {
    if s != [] {
      RemoveAbsent(s[1..], c);
    }
  }

  lemma {:induction false} RemoveFirstAppend(s: seq<Client>, last: Client, c: Client)
    ensures RemoveFirst(s + [last], c) ==
      if c in s then RemoveFirst(s, c) + [last] else if last == c then s else s + [last]
  {
    if s != [] {
      assert (s + [last])[1..] == s[1..] + [last];
      RemoveFirstAppend(s[1..], last, c);
    }
  }

  // --- sending ---

  lemma {:induction false} OfferEachOnce(queues: map<Client, seq<Message>>, to: seq<Client>, msg: Message)
    requires Distinct(to) && forall c :: c in to ==> c in queues
    ensures forall c :: c in queues ==>
      OfferEach(queues, to, msg)[c] == if c in to then Offer(queues[c], msg) else queues[c]
  {
    if to != [] {
      OfferEachOnce(queues[to[0] := Offer(queues[to[0]], msg)], to[1..], msg);
    }
  }

  // --- invariant ---

  lemma IndexAfterRegister(s: State, order: seq<Client>, c: Client)
    requires IndexOk(s, order) && c !in order
    ensures IndexOk(Step(s, Event.Register(c)), order + [c])
  {
    var s' := Step(s, Event.Register(c));
    forall user | user != "" ensures ClientsOf(s'.index, user) == LiveOf(order + [c], s'.clients, user) {
      assert (order + [c])[..|order|] == order;
      LiveOfIgnores(order, s.clients, user, c);
    }
  }

  lemma RegisterKeepsInv(s: State, order: seq<Client>, c: Client)
    requires Inv(s, order) && c !in order
    ensures Inv(Step(s, Event.Register(c)), order + [c])
  {
    IndexAfterRegister(s, order, c);
    assert ChannelsOk(Step(s, Event.Register(c)), order + [c]);
  }

  lemma IndexAfterUnregister(s: State, order: seq<Client>, c: Client)
    requires Distinct(order) && IndexOk(s, order) && c in s.clients
    ensures IndexOk(Step(s, Event.Unregister(c)), order)
  {
    var s' := Step(s, Event.Unregister(c));
    forall user | user != "" ensures ClientsOf(s'.index, user) == LiveOf(order, s'.clients, user) {
      if user == c.user {
        LiveOfRemove(order, s.clients, c);
      } else {
        LiveOfIgnores(order, s.clients, user, c);
      }
    }
  }

  lemma UnregisterKeepsInv(s: State, order: seq<Client>, c: Client)
    requires Inv(s, order)
    ensures Inv(Step(s, Event.Unregister(c)), order)
  {
    if c in s.clients {
      IndexAfterUnregister(s, order, c);
      assert ChannelsOk(Step(s, Event.Unregister(c)), order);
    }
  }

  /** A step that changes nothing but what is queued. */
  lemma QueuesKeepInv(s: State, s': State, order: seq<Client>)
    requires Inv(s, order) && s' == s.(queues := s'.queues) && s'.queues.Keys == s.queues.Keys
    ensures Inv(s', order)
  {
  }

  lemma SendKeepsInv(s: State, order: seq<Client>, user: string, msg: Message)
    requires Inv(s, order)
    ensures Inv(Step(s, Event.SendToUser(user, msg)), order)
    ensures SentOnce(s, Step(s, Event.SendToUser(user, msg)), user, msg)
  {
    var to := ClientsOf(s.index, user);
    if user != "" {
      LiveOfDistinct(order, s.clients, user);
      forall c ensures c in to <==> c in order && c in s.clients && c.user == user {
        LiveOfMembers(order, s.clients, user, c);
      }
    }
    OfferEachOnce(s.queues, to, msg);
  }

  /** The message is queued once, at the end, for each live connection of the user with room in
      its buffer, and for nothing else; no receiver's channel had been closed. Connections
      without a user get nothing. */
  ghost predicate SentOnce(s: State, s': State, user: string, msg: Message) {
    && s'.queues.Keys == s.queues.Keys
    && (forall c :: c in s.queues ==>
          s'.queues[c] ==
            if c in s.clients && c.user == user && user != "" && |s.queues[c]| < 256 then s.queues[c] + [msg]
            else s.queues[c])
    && (forall c :: c in ClientsOf(s.index, user) ==> c in s.closes && s.closes[c] == 0)
  }

  lemma {:induction false} RegisteredMembers(run: seq<Event>, c: Client)
    ensures c in Registered(run) <==> exists i :: 0 <= i < |run| && run[i] == Event.Register(c)
    decreases |run|
  {
    if run != [] {
      var init, last := run[..|run| - 1], run[|run| - 1];
      RegisteredMembers(init, c);
      if last == Event.Register(c) {
        assert run[|run| - 1] == Event.Register(c);
      }
      if i :| 0 <= i < |run| && run[i] == Event.Register(c) {
        assert i < |init| ==> init[i] == Event.Register(c);
      }
      if i :| 0 <= i < |init| && init[i] == Event.Register(c) {
        assert run[i] == Event.Register(c);
      }
    }
  }

  lemma {:induction false} InvHolds(run: seq<Event>)
    requires RegisteredOnce(run)
    ensures Inv(Run(run), Registered(run))
    decreases |run|
  {
    if run != [] {
      var init, last := run[..|run| - 1], run[|run| - 1];
      var s, order := Run(init), Registered(init);
      InvHolds(init);
      assert Registered(run) == order + (if last.Register? then [last.client] else []);
      if last.Register? {
        RegisteredMembers(init, last.client);
      }
      StepKeepsInv(s, order, last);
    }
  }

  lemma StepKeepsInv(s: State, order: seq<Client>, e: Event)
    requires Inv(s, order) && (e.Register? ==> e.client !in order)
    ensures Inv(Step(s, e), order + (if e.Register? then [e.client] else []))
  {
    assert order + [] == order;
    match e
    case Register(c) => RegisterKeepsInv(s, order, c);
    case Unregister(c) => UnregisterKeepsInv(s, order, c);
    case SendToUser(user, msg) => SendKeepsInv(s, order, user, msg);
    case _ => QueuesKeepInv(s, Step(s, e), order);
  }

  // --- main results ---

  /** After any run, each user's list is duplicate-free and is exactly that user's live
      clients in registration order; there is no empty list and none for the anonymous user. */
  lemma {:induction false} IndexIsLiveClients(run: seq<Event>, user: string)
    requires RegisteredOnce(run)
    ensures
      var s := Run(run);
      && (user in s.index <==> user != "" && exists c :: c in s.clients && c.user == user)
      && (user in s.index ==> s.index[user] == LiveOf(Registered(run), s.clients, user) && Distinct(s.index[user]))
  {
    InvHolds(run);
    var s, order := Run(run), Registered(run);
    LiveOfDistinct(order, s.clients, user);
    if user in s.index {
      InIndex(s, order, user, s.index[user][0]);
      assert s.index[user][0] in s.clients && s.index[user][0].user == user;
    } else if c :| c in s.clients && c.user == user {
      InIndex(s, order, user, c);
    }
  }

  /** Whoever SendToUser sends to is live, so its channel is open. */
  lemma IndexedAreLive(run: seq<Event>, user: string)
    requires RegisteredOnce(run)
    ensures forall c :: c in ClientsOf(Run(run).index, user) ==> c in Run(run).clients && c.user == user
  {
    InvHolds(run);
    forall c | c in ClientsOf(Run(run).index, user) ensures c in Run(run).clients && c.user == user {
      InIndex(Run(run), Registered(run), user, c);
    }
  }

  lemma InIndex(s: State, order: seq<Client>, user: string, c: Client)
    requires Inv(s, order)
    ensures c in ClientsOf(s.index, user) <==> c in s.clients && c.user == user && user != ""
  {
    LiveOfMembers(order, s.clients, user, c);
  }

  /** A registered client's channel has been closed exactly once if the client is no longer
      live, and never otherwise. */
  lemma {:induction false} ClosedExactlyOnce(run: seq<Event>, c: Client)
    requires RegisteredOnce(run)
    ensures c in Run(run).closes <==> Event.Register(c) in run
    ensures Event.Register(c) in run ==> Run(run).closes[c] == (if c in Run(run).clients then 0 else 1)
  {
    InvHolds(run);
    RegisteredMembers(run, c);
  }

  /** After any run, SendToUser reaches each live connection of the user exactly once. */
  lemma SendReachesLiveClients(run: seq<Event>, user: string, msg: Message)
    requires RegisteredOnce(run)
    ensures SentOnce(Run(run), Step(Run(run), Event.SendToUser(user, msg)), user, msg)
  {
    InvHolds(run);
    SendKeepsInv(Run(run), Registered(run), user, msg);
  }

  /** A broadcast is queued once, at the end, for each live connection with room in its buffer, and
      changes nothing else. */
  lemma BroadcastReachesLiveClients(run: seq<Event>, msg: Message)
    ensures
      var s, s' := Run(run), Step(Run(run), Event.Broadcast(msg));
      && s'.clients == s.clients && s'.index == s.index && s'.closes == s.closes && s'.queues.Keys == s.queues.Keys
      && forall c :: c in s.queues ==>
           s'.queues[c] == if c in s.clients && |s.queues[c]| < 256 then s.queues[c] + [msg] else s.queues[c]
  {
  }

  // --- what a client receives ---

  /** The event sends the message to the client: it is live and among the receivers. */
  predicate Addresses(s: State, e: Event, c: Client) {
    && c in s.clients
    && match e
       case Broadcast(_) => true
       case SendToUser(user, _) => user != "" && c.user == user
       case _ => false
  }

  /** What the event adds to the end of the client's channel. */
  function Arrives(s: State, e: Event, c: Client): seq<Message> {
    if Addresses(s, e, c) && c in s.queues && |s.queues[c]| < 256 then [e.msg] else []
  }

  /** What the event lets the client's write pump take from the channel. */
  function Leaves(s: State, e: Event, c: Client): seq<Message> {
    if e == Event.Drain(c) && c in s.queues && s.queues[c] != [] then [s.queues[c][0]] else []
  }

  /** The messages of a run that were sent to the client while its buffer had room, in order. */
  function Sent(run: seq<Event>, c: Client): seq<Message>
    decreases |run|
  {
    if run == [] then []
    else Sent(run[..|run| - 1], c) + Arrives(Run(run[..|run| - 1]), run[|run| - 1], c)
  }

  /** The messages that the client's write pump took from its channel, in order. */
  function Drained(run: seq<Event>, c: Client): seq<Message>
    decreases |run|
  {
    if run == [] then []
    else Drained(run[..|run| - 1], c) + Leaves(Run(run[..|run| - 1]), run[|run| - 1], c)
  }

  lemma SendArrives(s: State, order: seq<Client>, e: Event, c: Client)
    requires Inv(s, order) && e.SendToUser? && c in s.queues
    ensures c in Step(s, e).queues && Step(s, e).queues[c] == s.queues[c] + Arrives(s, e, c)
  {
    SendKeepsInv(s, order, e.user, e.msg);
  }

  /** One event: what leaves the channel plus what stays is what was there plus what arrives. */
  lemma ChannelStep(s: State, order: seq<Client>, e: Event, c: Client)
    requires Inv(s, order) && c in s.queues && !(e.Register? && e.client == c)
    ensures c in Step(s, e).queues
    ensures Leaves(s, e, c) + Step(s, e).queues[c] == s.queues[c] + Arrives(s, e, c)
  {
    match e
    case SendToUser(_, _) => SendArrives(s, order, e, c);
    case Drain(d) =>
      if d == c && s.queues[c] != [] {
        assert [s.queues[c][0]] + s.queues[c][1..] == s.queues[c];
      }
    case _ =>
  }

  lemma Glue(drained: seq<Message>, leaves: seq<Message>, next: seq<Message>, sent: seq<Message>,
             queue: seq<Message>, arrives: seq<Message>)
    requires drained + queue == sent && leaves + next == queue + arrives
    ensures (drained + leaves) + next == sent + arrives
  {
    assert (drained + leaves) + next == drained + (leaves + next);
    assert drained + (queue + arrives) == (drained + queue) + arrives;
  }

  lemma {:induction false} NothingBeforeRegister(run: seq<Event>, c: Client)
    requires RegisteredOnce(run) && c !in Run(run).queues
    ensures Sent(run, c) == [] && Drained(run, c) == []
    decreases |run|
  {
    if run != [] {
      var init := run[..|run| - 1];
      InvHolds(run);
      InvHolds(init);
      NothingBeforeRegister(init, c);
    }
  }

  /** Main result: a client's channel hands out exactly the messages that were sent to the client
      while there was room, in sending order; those not yet handed out are still queued, and
      there are never more than 256 of them. */
  lemma {:induction false} DrainedInOrder(run: seq<Event>, c: Client)
    requires RegisteredOnce(run) && c in Run(run).queues
    ensures Drained(run, c) + Run(run).queues[c] == Sent(run, c)
    ensures |Run(run).queues[c]| <= 256
    decreases |run|
  {
    var init, last := run[..|run| - 1], run[|run| - 1];
    var s := Run(init);
    InvHolds(init);
    if last == Event.Register(c) {
      RegisteredMembers(init, c);
      NothingBeforeRegister(init, c);
    } else {
      KnownBefore(s, last, c);
      DrainedInOrder(init, c);
      ChannelStep(s, Registered(init), last, c);
      Glue(Drained(init, c), Leaves(s, last, c), Run(run).queues[c], Sent(init, c), s.queues[c], Arrives(s, last, c));
      assert |Leaves(s, last, c) + Run(run).queues[c]| == |s.queues[c] + Arrives(s, last, c)|;
    }
  }

  lemma KnownBefore(s: State, e: Event, c: Client)
    requires c in Step(s, e).queues && e != Event.Register(c)
    ensures c in s.queues
  {
  }
}
