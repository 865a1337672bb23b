/** The hub itself: Go slices over backing arrays, edited in place. */
module Hub {
  import opened HubSpec

  /** A slice header: its elements are backing[..len]. */
  datatype Slice = Slice(backing: array<Client>, len: nat)

  /** append(s, c): in place if the array has room, otherwise into a larger copy. */
  method AppendTo(s: Slice, c: Client) returns (r: Slice)
    requires s.len <= s.backing.Length
    modifies s.backing
    ensures r.backing == s.backing || fresh(r.backing)
    ensures r.len == s.len + 1 <= r.backing.Length
    ensures r.backing[..r.len] == old(s.backing[..s.len]) + [c]
  {
    if s.len < s.backing.Length {
      s.backing[s.len] := c;
      return Slice(s.backing, s.len + 1);
    }
    var larger := new Client[2 * s.len + 1](_ => c);
    for i := 0 to s.len
      invariant larger[..i] == s.backing[..i]
      invariant larger[s.len] == c
      invariant s.backing[..] == old(s.backing[..])
    {
      larger[i] := s.backing[i];
    }
    r := Slice(larger, s.len + 1);
  }

  /** append(s[:i], s[i+1:]...): shifts the tail down in the same array. */
  method CutAt(s: Slice, i: nat) returns (r: Slice)
    requires i < s.len <= s.backing.Length
    modifies s.backing
    ensures r == Slice(s.backing, s.len - 1)
    ensures r.backing[..r.len] == old(s.backing[..i]) + old(s.backing[i + 1..s.len])
  {
    ghost var before := s.backing[..];
    var j := i + 1;
    while j < s.len
      invariant i + 1 <= j <= s.len
      invariant forall k :: 0 <= k < i ==> s.backing[k] == before[k]
      invariant forall k :: i <= k < j - 1 ==> s.backing[k] == before[k + 1]
      invariant forall k :: j - 1 <= k < s.len ==> s.backing[k] == before[k]
    {
      s.backing[j - 1] := s.backing[j];
      j := j + 1;
    }
    r := Slice(s.backing, s.len - 1);
    ShiftedDown(before, r.backing[..r.len], i, s.len);
  }

  lemma ShiftedDown(before: seq<Client>, after: seq<Client>, i: nat, n: nat)
    requires i < n <= |before| && |after| == n - 1
    requires forall k :: 0 <= k < i ==> after[k] == before[k]
    requires forall k :: i <= k < n - 1 ==> after[k] == before[k + 1]
    ensures after == before[..i] + before[i + 1..n]
  {
  }

  /** The search loop of removeUserClient, and the cut at the position it finds. */
  method CutFirst(s: Slice, target: Client) returns (r: Slice)
    requires s.len <= s.backing.Length
    modifies s.backing
    ensures r.backing == s.backing && r.len <= r.backing.Length
    ensures r.backing[..r.len] == RemoveFirst(old(s.backing[..s.len]), target)
  {
    ghost var elements := s.backing[..s.len];
    var i := 0;
    while i < s.len && s.backing[i] != target
      invariant i <= s.len
      invariant target !in elements[..i]
    {
      i := i + 1;
    }
    FirstAt(elements, target, i);
    if i < s.len {
      assert elements[..i] + elements[i + 1..] == s.backing[..i] + s.backing[i + 1..s.len];
      r := CutAt(s, i);
    } else {
      r := s;
    }
  }

  /** The map of slices behind the hub's lock. Contents says what they hold. */
  class UserClients {
    var slices: map<string, Slice>
    ghost var Contents: map<string, seq<Client>>
    ghost var arrays: set<array<Client>>

    /** Slices stay inside their arrays and no two users share one. */
    ghost predicate Valid()
      reads this, arrays
    {
      && slices.Keys == Contents.Keys
      && (forall user :: user in slices ==> Holds(slices[user], Contents[user]))
      && (forall u, v :: u in slices && v in slices && u != v ==> slices[u].backing != slices[v].backing)
    }

    ghost predicate Holds(s: Slice, elements: seq<Client>)
      reads this, arrays
    {
      s.backing in arrays && s.len <= s.backing.Length && s.backing[..s.len] == elements
    }

    constructor ()
      ensures Valid() && Contents == map[] && arrays == {}
    {
      slices, Contents, arrays := map[], map[], {};
    }

    method Add(c: Client)
      requires Valid()
      modifies this, arrays
      ensures Valid() && fresh(arrays - old(arrays))
      ensures Contents == Append(old(Contents), c)
    {
      if c.user in slices {
        var t := AppendTo(slices[c.user], c);
        Update(c.user, t, ClientsOf(Contents, c.user) + [c]);
      } else {
        var one := new Client[1](_ => c);
        Update(c.user, Slice(one, 1), ClientsOf(Contents, c.user) + [c]);
      }
    }

    /** Stores a slice that no other user's slice shares its array with. */
    method Update(user: string, s: Slice, ghost elements: seq<Client>)
      requires slices.Keys == Contents.Keys
      requires forall u :: u in slices && u != user ==> Holds(slices[u], Contents[u]) && slices[u].backing != s.backing
      requires forall u, v :: u in slices && v in slices && u != v ==> slices[u].backing != slices[v].backing
      requires s.len <= s.backing.Length && s.backing[..s.len] == elements
      modifies this
      ensures Valid() && arrays == old(arrays) + {s.backing}
      ensures Contents == old(Contents)[user := elements]
    {
      slices, Contents, arrays := slices[user := s], Contents[user := elements], arrays + {s.backing};
    }

    method Drop(user: string)
      requires slices.Keys == Contents.Keys
      requires forall u :: u in slices && u != user ==> Holds(slices[u], Contents[u])
      requires forall u, v :: u in slices && v in slices && u != v ==> slices[u].backing != slices[v].backing
      modifies this
      ensures Valid() && arrays == old(arrays)
      ensures Contents == old(Contents) - {user}
    {
      slices, Contents := slices - {user}, Contents - {user};
    }

    /** Removes target from the user's slice and drops the slice when it becomes empty. */
    method Remove(user: string, target: Client)
      requires Valid()
      modifies this, arrays
      ensures Valid() && arrays == old(arrays)
      ensures Contents == RemoveUserClient(old(Contents), user, target)
    {
      if user !in slices {
        return;
      }
      var s := CutFirst(slices[user], target);
      if s.len == 0 {
        Drop(user);
      } else {
        Update(user, s, RemoveFirst(Contents[user], target));
      }
    }
  }

  /** view is the hub as the specification sees it. */
  class Hub {
    var clients: set<Client>
    const userClients: UserClients
    ghost var view: State

    ghost predicate Valid()
      reads this, userClients, userClients.arrays, view.queues.Keys
    {
      userClients.Valid() && userClients.Contents == view.index && ChannelsValid()
    }

    /** The channels of live clients are open, all others have been closed. */
    ghost predicate ChannelsValid()
      reads this, view.queues.Keys
    {
      && clients == view.clients
      && view.clients <= view.queues.Keys && view.closes.Keys == view.queues.Keys
      && (forall c :: c in view.queues ==> c.queue == view.queues[c] && (c.closed <==> c !in clients))
    }

    constructor ()
      ensures Valid() && view == EMPTY && fresh(userClients) && userClients.arrays == {}
    {
      clients, view := {}, EMPTY;
      userClients := new UserClients();
    }

    method Register(c: Client)
      requires Valid() && c !in view.queues && !c.closed && c.queue == []
      modifies this, userClients, userClients.arrays
      ensures Valid() && fresh(userClients.arrays - old(userClients.arrays))
      ensures view == Step(old(view), Event.Register(c))
    {
      clients := clients + {c};
      view := Step(view, Event.Register(c));
      Index(c);
    }

    /** The part of the register case that only named users need. */
    method Index(c: Client)
      requires userClients.Valid() && ChannelsValid()
      modifies userClients, userClients.arrays
      ensures userClients.Valid() && ChannelsValid() && fresh(userClients.arrays - old(userClients.arrays))
      ensures userClients.Contents ==
        if c.user != "" then Append(old(userClients.Contents), c) else old(userClients.Contents)
    {
      if c.user != "" {
        userClients.Add(c);
      }
    }

    method Unregister(c: Client)
      requires Valid()
      modifies this, userClients, userClients.arrays, clients
      ensures Valid() && userClients.arrays == old(userClients.arrays)
      ensures view == Step(old(view), Event.Unregister(c))
    {
      if c in clients {
        clients := clients - {c};
        c.Close();
        view := Step(view, Event.Unregister(c));
        Unindex(c);
      }
    }

    method Unindex(c: Client)
      requires userClients.Valid() && ChannelsValid()
      modifies userClients, userClients.arrays
      ensures userClients.Valid() && ChannelsValid() && userClients.arrays == old(userClients.arrays)
      ensures userClients.Contents ==
        if c.user != "" then RemoveUserClient(old(userClients.Contents), c.user, c) else old(userClients.Contents)
    {
      if c.user != "" {
        userClients.Remove(c.user, c);
      }
    }

    /** Map iteration visits the clients in some unspecified order. */
    method Broadcast(msg: Message)
      requires Valid()
      modifies this, clients
      ensures Valid()
      ensures view == Step(old(view), Event.Broadcast(msg))
    {
      OfferAll(msg);
      view := Step(view, Event.Broadcast(msg));
    }

    method OfferAll(msg: Message)
      requires Valid()
      modifies clients
      ensures userClients.Valid()
      ensures forall c :: c in view.queues ==>
        && c.queue == (if c in clients then Offer(view.queues[c], msg) else view.queues[c])
        && (c.closed <==> c !in clients)
    {
      var rest := clients;
      while rest != {}
        invariant rest <= clients
        invariant forall c :: c in view.queues ==> c.closed == old(c.closed)
        invariant forall c :: c in view.queues ==>
          c.queue == if c in clients - rest then Offer(view.queues[c], msg) else view.queues[c]
        decreases rest
      {
        var c :| c in rest;
        c.Send(msg);
        rest := rest - {c};
      }
    }

    /** Sending needs open channels: lemma IndexedAreLive shows that after every run the
        index holds live clients only. */
    method SendToUser(user: string, msg: Message)
      requires Valid() && forall c :: c in ClientsOf(view.index, user) ==> c in clients
      modifies this, clients
      ensures Valid()
      ensures view == Step(old(view), Event.SendToUser(user, msg))
    {
      if user in userClients.slices {
        Deliver(user, msg);
        view := view.(queues := OfferEach(view.queues, ClientsOf(view.index, user), msg));
      }
    }

    method Deliver(user: string, msg: Message)
      requires Valid() && user in userClients.slices
      requires forall c :: c in ClientsOf(view.index, user) ==> c in clients
      modifies clients
      ensures userClients.Valid()
      ensures forall c :: c in view.queues ==>
        c.queue == OfferEach(view.queues, ClientsOf(view.index, user), msg)[c] && (c.closed <==> c !in clients)
    {
      SendEach(userClients.slices[user], msg, ClientsOf(view.index, user), view.queues);
    }

    /** One turn of the client's write pump with a message waiting. */
    method Drain(c: Client) returns (msg: Message)
      requires Valid() && c in view.queues && c.queue != []
      modifies this, c
      ensures Valid()
      ensures msg == old(view).queues[c][0] && view == Step(old(view), Event.Drain(c))
    {
      msg := c.Receive();
      view := Step(view, Event.Drain(c));
    }
  }

  /** The range loop of SendToUser. queues says what the channels hold before it. */
  method SendEach(s: Slice, msg: Message, ghost to: seq<Client>, ghost queues: map<Client, seq<Message>>)
    requires s.len <= s.backing.Length && s.backing[..s.len] == to
    requires forall c :: c in queues ==> c.queue == queues[c]
    requires forall c :: c in to ==> c in queues && !c.closed
    modifies to
    ensures forall c :: c in queues ==> c.queue == OfferEach(queues, to, msg)[c] && c.closed == old(c.closed)
  {
    for i := 0 to s.len
      invariant forall c :: c in queues ==> c.closed == old(c.closed)
      invariant forall c :: c in queues ==> c.queue == OfferEach(queues, to[..i], msg)[c]
    {
      OfferOneMore(queues, to[..i], to[i], msg);
      assert to[..i + 1] == to[..i] + [to[i]];
      s.backing[i].Send(msg);
    }
    assert to[..s.len] == to;
  }

  lemma {:induction false} OfferOneMore(queues: map<Client, seq<Message>>, to: seq<Client>, c: Client, msg: Message)
    ensures
      var q := OfferEach(queues, to, msg);
      OfferEach(queues, to + [c], msg) == if c in q then q[c := Offer(q[c], msg)] else q
  {
    if to != [] {
      assert (to + [c])[1..] == to[1..] + [c];
      var first := to[0];
      OfferOneMore(if first in queues then queues[first := Offer(queues[first], msg)] else queues, to[1..], c, msg);
    }
  }

  /** Where a scan from the left stops is where RemoveFirst cuts. */
  lemma {:induction false} FirstAt(s: seq<Client>, target: Client, i: nat)
    requires i <= |s| && target !in s[..i] && (i < |s| ==> s[i] == target)
    ensures RemoveFirst(s, target) == if i < |s| then s[..i] + s[i + 1..] else s
  {
    if i > 0 {
      assert s[0] in s[..i];
      forall c | c in s[1..][..i - 1] ensures c in s[..i] {
      }
      FirstAt(s[1..], target, i - 1);
    }
  }
}
