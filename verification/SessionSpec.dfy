/** What each operation of the session manager does to the Redis cache and to the
    account_sessions table. Every operation happens at one clock instant. */
module SessionSpec {
  import opened Common

  type Token = nat

  /** SHA-256 of a raw token; a constructor, because the hash is taken to be injective. */
  datatype Hash = Hash(raw: Token)

  datatype TokenPair = TokenPair(access: Token, refresh: Token, expiresAt: int)

  /** The JSON document stored under an access key. */
  datatype Session = Session(
    id: nat, account: nat, user: nat, device: nat, token: TokenPair, createdAt: int)

  /** One row of account_sessions. */
  datatype Row = Row(
    account: nat, user: nat, device: nat, refreshHash: Hash,
    createdAt: int, expiresAt: int, revoked: bool)

  /** A cache value together with the instant from which Redis no longer returns it. */
  datatype Entry<+V> = Entry(value: V, expiry: int)

  /** access and ids are the two key families; rows is the table. */
  datatype State = State(
    access: map<Hash, Entry<Session>>, ids: map<nat, Entry<Hash>>,
    rows: map<nat, Row>, nextId: nat)

  datatype Error = ErrGenerateToken | ErrSessionNotFound | ErrRefreshToken

  datatype Response = Issued(pair: TokenPair) | Found(session: Session) | Done | Denied(error: Error)

  datatype Op =
    | Create(account: nat, user: nat, device: nat, newAccess: Token, newRefresh: Token)
    | FindByToken(token: Token)
    | Refresh(token: Token, newAccess: Token, newRefresh: Token)
    | Revoke(token: Token)
    | RevokeAllForUser(account: nat)
    | RevokeAll
    | SwitchUser(token: Token, user: nat)

  datatype Event = Event(at: int, op: Op)

  const EMPTY := State(map[], map[], map[], 1)

  // --- cache ---

  predicate IsLive<K, V>(m: map<K, Entry<V>>, k: K, now: int) {
    k in m && now < m[k].expiry
  }

  function Get<K, V>(m: map<K, Entry<V>>, k: K, now: int): Option<V> {
    if IsLive(m, k, now) then Some(m[k].value) else None
  }

  function SetCacheEntries(exp: int, s: State, now: int, hash: Hash, session: Session): State {
    s.(access := s.access[hash := Entry(session, now + exp)],
       ids := s.ids[session.id := Entry(hash, now + exp)])
  }

  /** Drops the id keys in gone, and the access keys that those id keys still lead to. */
  function Purge(s: State, now: int, gone: set<nat>): State {
    s.(access := s.access - (set id | id in gone && IsLive(s.ids, id, now) :: s.ids[id].value),
       ids := s.ids - gone)
  }

  // --- table ---

  predicate IsActive(row: Row, now: int) {
    !row.revoked && now < row.expiresAt
  }

  ghost function ActiveIds(rows: map<nat, Row>, now: int): set<nat> {
    set id | id in rows && IsActive(rows[id], now)
  }

  ghost function ActiveIdsOf(rows: map<nat, Row>, account: nat, now: int): set<nat> {
    set id | id in rows && rows[id].account == account && IsActive(rows[id], now)
  }

  function IdsOf(rows: map<nat, Row>, account: nat): set<nat> {
    set id | id in rows && rows[id].account == account
  }

  ghost predicate RefreshTaken(rows: map<nat, Row>, hash: Hash) {
    exists id :: id in rows && rows[id].refreshHash == hash
  }

  ghost function FindByRefreshHash(rows: map<nat, Row>, hash: Hash): (r: Option<nat>)
    ensures r.Some? ==> r.value in rows && rows[r.value].refreshHash == hash
    ensures r.None? ==> !RefreshTaken(rows, hash)
  {
    if RefreshTaken(rows, hash)
    then var id :| id in rows && rows[id].refreshHash == hash; Some(id)
    else None
  }

  /** UNIQUE (refresh_token_hash). */
  ghost predicate UniqueRefresh(rows: map<nat, Row>) {
    forall i, j :: i in rows && j in rows && rows[i].refreshHash == rows[j].refreshHash ==> i == j
  }

  function RevokeRows(rows: map<nat, Row>, ids: set<nat>): map<nat, Row> {
    map id | id in rows :: if id in ids then rows[id].(revoked := true) else rows[id]
  }

  // --- operations ---

  ghost function CreateSession(
    exp: int, s: State, now: int, account: nat, user: nat, device: nat, newAccess: Token, newRefresh: Token)
    : (State, Response)
  {
    if RefreshTaken(s.rows, Hash(newRefresh)) then (s, Denied(ErrGenerateToken))
    else
      var row := Row(account, user, device, Hash(newRefresh), now, now + exp, false);
      var pair := TokenPair(newAccess, newRefresh, now + exp);
      var session := Session(s.nextId, account, user, device, pair, now);
      var s1 := s.(rows := s.rows[s.nextId := row], nextId := s.nextId + 1);
      (SetCacheEntries(exp, s1, now, Hash(newAccess), session), Issued(pair))
  }

  function FindSession(exp: int, s: State, now: int, token: Token): (State, Response) {
    match Get(s.access, Hash(token), now)
    case None => (s, Denied(ErrSessionNotFound))
    case Some(cached) =>
      var session := cached.(token := cached.token.(expiresAt := now + exp));
      var s1 := SetCacheEntries(exp, s, now, Hash(token), session);
      var rows := if session.id in s.rows
                  then s.rows[session.id := s.rows[session.id].(expiresAt := now + exp)] else s.rows;
      (s1.(rows := rows), Found(session))
  }

  ghost function RefreshSession(
    exp: int, s: State, now: int, token: Token, newAccess: Token, newRefresh: Token): (State, Response)
  {
    match FindByRefreshHash(s.rows, Hash(token))
    case None => (s, Denied(ErrRefreshToken))
    case Some(id) =>
      var row := s.rows[id];
      if row.revoked || row.expiresAt < now then (s, Denied(ErrRefreshToken))
      else
        var s1 := if IsLive(s.ids, id, now) then Purge(s, now, {id}) else s;
        if Hash(newRefresh) != row.refreshHash && RefreshTaken(s.rows, Hash(newRefresh))
        then (s1, Denied(ErrRefreshToken))
        else
          var pair := TokenPair(newAccess, newRefresh, now + exp);
          var session := Session(id, row.account, row.user, row.device, pair, row.createdAt);
          var s2 := s1.(rows := s1.rows[id := row.(refreshHash := Hash(newRefresh), expiresAt := now + exp)]);
          (SetCacheEntries(exp, s2, now, Hash(newAccess), session), Issued(pair))
  }

  function RevokeSession(s: State, now: int, token: Token): (State, Response) {
    match Get(s.access, Hash(token), now)
    case None => (s, Done)
    case Some(session) =>
      (s.(access := s.access - {Hash(token)}, ids := s.ids - {session.id},
          rows := RevokeRows(s.rows, {session.id})), Done)
  }

  ghost function RevokeAccount(s: State, now: int, account: nat): (State, Response) {
    var s1 := Purge(s, now, ActiveIdsOf(s.rows, account, now));
    (s1.(rows := RevokeRows(s.rows, IdsOf(s.rows, account))), Done)
  }

  ghost function RevokeEverything(s: State, now: int): (State, Response) {
    var s1 := Purge(s, now, ActiveIds(s.rows, now));
    (s1.(rows := RevokeRows(s.rows, s.rows.Keys)), Done)
  }

  function SwitchSessionUser(exp: int, s: State, now: int, token: Token, user: nat): (State, Response) {
    match Get(s.access, Hash(token), now)
    case None => (s, Denied(ErrSessionNotFound))
    case Some(session) =>
      var rows := if session.id in s.rows
                  then s.rows[session.id := s.rows[session.id].(user := user)] else s.rows;
      (SetCacheEntries(exp, s.(rows := rows), now, Hash(token), session.(user := user)), Done)
  }

  ghost function Step(exp: int, s: State, e: Event): (State, Response) {
    match e.op
    case Create(account, user, device, a, r) => CreateSession(exp, s, e.at, account, user, device, a, r)
    case FindByToken(token) => FindSession(exp, s, e.at, token)
    case Refresh(token, a, r) => RefreshSession(exp, s, e.at, token, a, r)
    case Revoke(token) => RevokeSession(s, e.at, token)
    case RevokeAllForUser(account) => RevokeAccount(s, e.at, account)
    case RevokeAll => RevokeEverything(s, e.at)
    case SwitchUser(token, user) => SwitchSessionUser(exp, s, e.at, token, user)
  }

  /** The state after a run, and everything the callers were told during it. */
  ghost function Run(exp: int, s: State, run: seq<Event>): (r: (State, seq<Response>))
    ensures |r.1| == |run|
    decreases |run|
  {
    if run == [] then (s, [])
    else
      var (s1, response) := Step(exp, s, run[0]);
      var (s2, responses) := Run(exp, s1, run[1..]);
      (s2, [response] + responses)
  }

  lemma RunCons(exp: int, s: State, e: Event, rest: seq<Event>)
    ensures
      var (s1, answer) := Step(exp, s, e);
      Run(exp, s, [e] + rest) == (Run(exp, s1, rest).0, [answer] + Run(exp, s1, rest).1)
  {
    assert ([e] + rest)[1..] == rest;
  }
}
