/** The hub's client set and its per-user index: one step per case of the event loop, one per
    SendToUser call, and one per message that a client's write pump takes from its channel. */
module HubSpec {

  type Message = string

  const SEND_BUFFER := 256

  /** A WebSocket connection: its user, its buffered send channel, and whether that channel
      has been closed. */
  class Client {
    const user: string
    var queue: seq<Message>
    var closed: bool

    constructor (user: string)
      ensures this.user == user && queue == [] && !closed
    {
      this.user, queue, closed := user, [], false;
    }

    /** A send on a closed channel would panic; on a full one the message is dropped. */
    method Send(msg: Message)
      requires !closed
      modifies `queue
      ensures |old(queue)| < 256 ==> queue == old(queue) + [msg]
      ensures |old(queue)| >= 256 ==> queue == old(queue)
    {
      if |queue| < SEND_BUFFER {
        queue := queue + [msg];
      }
    }

    /** The write pump receives the oldest message, also after the channel was closed. */
    method Receive() returns (msg: Message)
      requires queue != []
      modifies `queue
      ensures msg == old(queue)[0] && queue == old(queue)[1..]
    {
      msg, queue := queue[0], queue[1..];
    }

    /** Closing a closed channel would panic. */
    method Close()
      requires !closed
      modifies `closed
      ensures closed
    {
      closed := true;
    }
  }

  function Offer(queue: seq<Message>, msg: Message): seq<Message> {
    if |queue| < SEND_BUFFER then queue + [msg] else queue
  }

  /** queues and closes range over every client ever registered; closes counts how often the
      client's channel was closed. */
  datatype State = State(
    clients: set<Client>, index: map<string, seq<Client>>,
    queues: map<Client, seq<Message>>, closes: map<Client, nat>)

  datatype Event =
    | Register(client: Client)
    | Unregister(client: Client)
    | Broadcast(msg: Message)
    | SendToUser(user: string, msg: Message)
    | Drain(client: Client)

  const EMPTY := State({}, map[], map[], map[])

  function ClientsOf(index: map<string, seq<Client>>, user: string): seq<Client> {
    if user in index then index[user] else []
  }

  /** The slice without the first occurrence of target. */
  function RemoveFirst(s: seq<Client>, target: Client): seq<Client> {
    if s == [] then [] else if s[0] == target then s[1..] else [s[0]] + RemoveFirst(s[1..], target)
  }

  function Append(index: map<string, seq<Client>>, client: Client): map<string, seq<Client>> {
    index[client.user := ClientsOf(index, client.user) + [client]]
  }

  function RemoveUserClient(index: map<string, seq<Client>>, user: string, target: Client): map<string, seq<Client>> {
    var rest := RemoveFirst(ClientsOf(index, user), target);
    if rest == [] then index - {user} else index[user := rest]
  }

  /** One Send per element of the slice, in order. */
  function OfferEach(queues: map<Client, seq<Message>>, to: seq<Client>, msg: Message)
    : (r: map<Client, seq<Message>>)
    ensures r.Keys == queues.Keys
  {
    if to == [] then queues
    else
      var c := to[0];
      OfferEach(if c in queues then queues[c := Offer(queues[c], msg)] else queues, to[1..], msg)
  }

  function Step(s: State, e: Event): State {
    match e
    case Register(c) =>
      State(s.clients + {c}, if c.user != "" then Append(s.index, c) else s.index,
            s.queues[c := []], s.closes[c := 0])
    case Unregister(c) =>
      if c !in s.clients then s else
        s.(clients := s.clients - {c},
           closes := if c in s.closes then s.closes[c := s.closes[c] + 1] else s.closes,
           index := if c.user != "" then RemoveUserClient(s.index, c.user, c) else s.index)
    case Broadcast(msg) =>
      s.(queues := map c | c in s.queues :: if c in s.clients then Offer(s.queues[c], msg) else s.queues[c])
    case SendToUser(user, msg) =>
      s.(queues := OfferEach(s.queues, ClientsOf(s.index, user), msg))
    case Drain(c) =>
      if c in s.queues && s.queues[c] != [] then s.(queues := s.queues[c := s.queues[c][1..]]) else s
  }

  function Run(run: seq<Event>): State
    decreases |run|
  {
    if run == [] then EMPTY else Step(Run(run[..|run| - 1]), run[|run| - 1])
  }
}
