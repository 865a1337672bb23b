/** The cache and the table together behave like one table that also stores the current
    access token: in every run they give the same answers. */
module SessionRefinement {
  import opened Common
  import opened SessionSpec

  /** What a session is, with no cache: the current token pair and its expiry. */
  datatype Slot = Slot(
    account: nat, user: nat, device: nat, access: Token, refresh: Token,
    createdAt: int, expiresAt: int, revoked: bool)

  datatype Table = Table(slots: map<nat, Slot>, nextId: nat)

  const NO_SESSIONS := Table(map[], 1)

  predicate IsValid(slot: Slot, now: int) {
    !slot.revoked && now < slot.expiresAt
  }

  ghost predicate Accepts(t: Table, token: Token, now: int, id: nat) {
    id in t.slots && t.slots[id].access == token && IsValid(t.slots[id], now)
  }

  ghost predicate HasRefresh(t: Table, token: Token, id: nat) {
    id in t.slots && t.slots[id].refresh == token
  }

  ghost function Holder(t: Table, token: Token, now: int): (r: Option<nat>)
    ensures r.Some? ==> Accepts(t, token, now, r.value)
    ensures r.None? ==> forall id :: !Accepts(t, token, now, id)
  {
    if exists id :: Accepts(t, token, now, id) then var id :| Accepts(t, token, now, id); Some(id) else None
  }

  ghost function RefreshHolder(t: Table, token: Token): (r: Option<nat>)
    ensures r.Some? ==> HasRefresh(t, token, r.value)
    ensures r.None? ==> forall id :: !HasRefresh(t, token, id)
  {
    if exists id :: HasRefresh(t, token, id) then var id :| HasRefresh(t, token, id); Some(id) else None
  }

  function PairOf(slot: Slot): TokenPair {
    TokenPair(slot.access, slot.refresh, slot.expiresAt)
  }

  function SessionOf(id: nat, slot: Slot): Session {
    Session(id, slot.account, slot.user, slot.device, PairOf(slot), slot.createdAt)
  }

  ghost function RevokeWhere(t: Table, which: set<nat>): Table {
    t.(slots := map id | id in t.slots :: if id in which then t.slots[id].(revoked := true) else t.slots[id])
  }

  function SlotsOf(t: Table, account: nat): set<nat> {
    set id | id in t.slots && t.slots[id].account == account
  }

  /** One operation on the single table. SwitchUser is not part of this machine. */
  ghost function TableStep(exp: int, t: Table, e: Event): (Table, Response) {
    match e.op
    case Create(account, user, device, a, r) =>
      var slot := Slot(account, user, device, a, r, e.at, e.at + exp, false);
      (Table(t.slots[t.nextId := slot], t.nextId + 1), Issued(PairOf(slot)))
    case FindByToken(token) =>
      (match Holder(t, token, e.at)
       case None => (t, Denied(ErrSessionNotFound))
       case Some(id) =>
         var slot := t.slots[id].(expiresAt := e.at + exp);
         (t.(slots := t.slots[id := slot]), Found(SessionOf(id, slot))))
    case Refresh(token, a, r) =>
      (match RefreshHolder(t, token)
       case None => (t, Denied(ErrRefreshToken))
       case Some(id) =>
         if t.slots[id].revoked || t.slots[id].expiresAt < e.at then (t, Denied(ErrRefreshToken))
         else
           var slot := t.slots[id].(access := a, refresh := r, expiresAt := e.at + exp);
           (t.(slots := t.slots[id := slot]), Issued(PairOf(slot))))
    case Revoke(token) =>
      (match Holder(t, token, e.at)
       case None => (t, Done)
       case Some(id) => (RevokeWhere(t, {id}), Done))
    case RevokeAllForUser(account) =>
      (RevokeWhere(t, SlotsOf(t, account)), Done)
    case RevokeAll => (RevokeWhere(t, t.slots.Keys), Done)
    case SwitchUser(_, _) => (t, Done)
  }

  ghost function TableRun(exp: int, t: Table, run: seq<Event>): (r: (Table, seq<Response>))
    ensures |r.1| == |run|
    decreases |run|
  {
    if run == [] then (t, [])
    else
      var (t1, response) := TableStep(exp, t, run[0]);
      var (t2, responses) := TableRun(exp, t1, run[1..]);
      (t2, [response] + responses)
  }

  // --- runs ---

  function NewTokens(op: Op): set<Token> {
    match op
    case Create(_, _, _, a, r) => {a, r}
    case Refresh(_, a, r) => {a, r}
    case _ => {}
  }

  /** The clock does not go back, and generated tokens were never generated before. */
  ghost predicate LegalRun(clock: int, issued: set<Token>, run: seq<Event>)
    decreases |run|
  {
    run == [] ||
    (&& clock <= run[0].at
     && NewTokens(run[0].op) !! issued
     && LegalRun(run[0].at, issued + NewTokens(run[0].op), run[1..]))
  }

  ghost predicate NoSwitch(run: seq<Event>) {
    forall i :: 0 <= i < |run| ==> !run[i].op.SwitchUser?
  }

  // --- simulation ---

  ghost predicate TableOk(t: Table, issued: set<Token>) {
    && (forall id :: id in t.slots ==>
          id < t.nextId && t.slots[id].access in issued && t.slots[id].refresh in issued)
    && (forall i, j :: i in t.slots && j in t.slots && t.slots[i].access == t.slots[j].access ==> i == j)
    && (forall i, j :: i in t.slots && j in t.slots && t.slots[i].refresh == t.slots[j].refresh ==> i == j)
  }

  function RowOf(slot: Slot): Row {
    Row(slot.account, slot.user, slot.device, Hash(slot.refresh), slot.createdAt, slot.expiresAt, slot.revoked)
  }

  ghost predicate SameRows(s: State, t: Table) {
    && s.nextId == t.nextId
    && s.rows.Keys == t.slots.Keys
    && (forall id :: id in s.rows ==> s.rows[id] == RowOf(t.slots[id]))
  }

  /** Each valid slot is cached under both keys, and with its own expiry. */
  ghost predicate Cached(s: State, id: nat, slot: Slot) {
    && Hash(slot.access) in s.access
    && s.access[Hash(slot.access)] == Entry(SessionOf(id, slot), slot.expiresAt)
    && id in s.ids && s.ids[id] == Entry(Hash(slot.access), slot.expiresAt)
  }

  /** Every cached entry belongs to a valid slot and every valid slot is cached; the slots
      in skip take no part. */
  ghost predicate Linked(s: State, t: Table, now: int, skip: set<nat>) {
    && (forall id :: id in t.slots && id !in skip && IsValid(t.slots[id], now) ==> Cached(s, id, t.slots[id]))
    && (forall h :: IsLive(s.access, h, now) ==> Explained(s, t, now, h) && s.access[h].value.id !in skip)
    && (forall id :: IsLive(s.ids, id, now) ==> id in t.slots && id !in skip && IsValid(t.slots[id], now))
  }

  ghost predicate Explained(s: State, t: Table, now: int, h: Hash)
    requires h in s.access
  {
    var id := s.access[h].value.id;
    id in t.slots && IsValid(t.slots[id], now) && h == Hash(t.slots[id].access)
  }

  ghost predicate Sim(s: State, t: Table, now: int) {
    SameRows(s, t) && Linked(s, t, now, {})
  }

  lemma SimLater(s: State, t: Table, now: int, later: int)
    requires Sim(s, t, now) && now <= later
    ensures Sim(s, t, later)
  {
    assert forall id :: id in t.slots && IsValid(t.slots[id], later) ==> IsValid(t.slots[id], now);
    assert forall h :: IsLive(s.access, h, later) ==> IsLive(s.access, h, now);
    assert forall id :: IsLive(s.ids, id, later) ==> IsLive(s.ids, id, now);
  }

  lemma SameRefreshHolder(s: State, t: Table, token: Token, issued: set<Token>)
    requires SameRows(s, t) && TableOk(t, issued)
    ensures FindByRefreshHash(s.rows, Hash(token)) == RefreshHolder(t, token)
  {
    var a, b := FindByRefreshHash(s.rows, Hash(token)), RefreshHolder(t, token);
    if a.Some? {
      assert HasRefresh(t, token, a.value);
    }
    if b.Some? {
      assert s.rows[b.value].refreshHash == Hash(token);
    }
  }

  /** A token is accepted by the cache exactly when the table has it in a valid slot. */
  lemma SameHolder(s: State, t: Table, token: Token, now: int, issued: set<Token>)
    requires Sim(s, t, now) && TableOk(t, issued)
    ensures IsLive(s.access, Hash(token), now) <==> Holder(t, token, now).Some?
    ensures Holder(t, token, now).Some? ==>
      var id := Holder(t, token, now).value;
      Cached(s, id, t.slots[id]) && s.access[Hash(token)].value == SessionOf(id, t.slots[id])
  {
    if IsLive(s.access, Hash(token), now) {
      assert Accepts(t, token, now, s.access[Hash(token)].value.id);
    }
  }

  /** Writing the two cache entries of one slot links it. */
  lemma PutSlot(exp: int, s: State, t: Table, now: int, id: nat, slot: Slot)
    requires Linked(s, t, now, {id}) && slot.expiresAt == now + exp && !slot.revoked
    requires forall j :: j in t.slots && j != id ==> t.slots[j].access != slot.access
    ensures Linked(SetCacheEntries(exp, s, now, Hash(slot.access), SessionOf(id, slot)),
                   t.(slots := t.slots[id := slot]), now, {})
  {
    var s' := SetCacheEntries(exp, s, now, Hash(slot.access), SessionOf(id, slot));
    var t' := t.(slots := t.slots[id := slot]);
    forall j | j in t'.slots && IsValid(t'.slots[j], now) ensures Cached(s', j, t'.slots[j]) {
      if j != id {
        assert Cached(s, j, t.slots[j]);
      }
    }
    forall h | IsLive(s'.access, h, now) ensures Explained(s', t', now, h) {
      if h != Hash(slot.access) {
        assert IsLive(s.access, h, now);
      }
    }
    forall j | IsLive(s'.ids, j, now) ensures j in t'.slots && IsValid(t'.slots[j], now) {
      if j != id {
        assert IsLive(s.ids, j, now);
      }
    }
  }

  /** Purging a set of slots unlinks exactly those. */
  lemma PurgeUnlinks(s: State, t: Table, now: int, gone: set<nat>)
    requires Linked(s, t, now, {})
    requires forall i, j :: i in t.slots && j in t.slots && t.slots[i].access == t.slots[j].access ==> i == j
    ensures Linked(Purge(s, now, gone), t, now, gone)
  {
    var s' := Purge(s, now, gone);
    forall id | id in t.slots && id !in gone && IsValid(t.slots[id], now) ensures Cached(s', id, t.slots[id]) {
      assert Cached(s, id, t.slots[id]);
      forall j | j in gone && IsLive(s.ids, j, now) ensures s.ids[j].value != Hash(t.slots[id].access) {
        assert Cached(s, j, t.slots[j]);
      }
    }
    forall h | IsLive(s'.access, h, now) ensures Explained(s', t, now, h) && s'.access[h].value.id !in gone {
      assert IsLive(s.access, h, now) && Explained(s, t, now, h);
      var id := s.access[h].value.id;
      assert Cached(s, id, t.slots[id]);
    }
    forall id | IsLive(s'.ids, id, now) ensures id in t.slots && id !in gone && IsValid(t.slots[id], now) {
      assert IsLive(s.ids, id, now);
    }
  }

  /** A slot with no live id key is not valid, so leaving it out changes nothing. */
  lemma UnlinkedAlready(s: State, t: Table, now: int, id: nat)
    requires Linked(s, t, now, {}) && !IsLive(s.ids, id, now)
    ensures Linked(s, t, now, {id})
  {
    forall h | IsLive(s.access, h, now) ensures s.access[h].value.id != id {
      var j := s.access[h].value.id;
      assert Explained(s, t, now, h) && Cached(s, j, t.slots[j]);
    }
  }

  lemma LinkedOnlyCache(s: State, s': State, t: Table, now: int, skip: set<nat>)
    requires Linked(s, t, now, skip) && s'.access == s.access && s'.ids == s.ids
    ensures Linked(s', t, now, skip)
  {
    assert forall id :: id in t.slots && Cached(s, id, t.slots[id]) ==> Cached(s', id, t.slots[id]);
    assert forall h :: IsLive(s'.access, h, now) ==> IsLive(s.access, h, now) && Explained(s, t, now, h);
  }

  lemma CreateLinks(exp: int, s: State, t: Table, now: int, slot: Slot, issued: set<Token>)
    requires Sim(s, t, now) && TableOk(t, issued)
    requires slot.access !in issued && slot.expiresAt == now + exp && !slot.revoked
    ensures
      var s1 := s.(rows := s.rows[s.nextId := RowOf(slot)], nextId := s.nextId + 1);
      Linked(SetCacheEntries(exp, s1, now, Hash(slot.access), SessionOf(s.nextId, slot)),
             Table(t.slots[t.nextId := slot], t.nextId + 1), now, {})
  {
    var id := t.nextId;
    NoKeysYet(s, t, now, id, issued);
    var s1 := s.(rows := s.rows[id := RowOf(slot)], nextId := id + 1);
    LinkedOnlyCache(s, s1, t, now, {id});
    PutSlot(exp, s1, t, now, id, slot);
    var t' := t.(slots := t.slots[id := slot]);
    var s' := SetCacheEntries(exp, s1, now, Hash(slot.access), SessionOf(id, slot));
    LinkedOnlySlots(s', t', t'.(nextId := id + 1), now);
  }

  lemma NoKeysYet(s: State, t: Table, now: int, id: nat, issued: set<Token>)
    requires Sim(s, t, now) && TableOk(t, issued) && t.nextId <= id
    ensures Linked(s, t, now, {id})
  {
    assert id !in t.slots;
    assert !IsLive(s.ids, id, now);
    UnlinkedAlready(s, t, now, id);
  }

  lemma LinkedOnlySlots(s: State, t: Table, t': Table, now: int)
    requires Linked(s, t, now, {}) && t'.slots == t.slots
    ensures Linked(s, t', now, {})
  {
    assert forall h :: IsLive(s.access, h, now) ==> Explained(s, t, now, h);
  }

  lemma CreateOutcome(exp: int, s: State, t: Table, e: Event, issued: set<Token>)
    requires SameRows(s, t) && TableOk(t, issued) && e.op.Create? && NewTokens(e.op) !! issued
    ensures
      var slot := Slot(e.op.account, e.op.user, e.op.device, e.op.newAccess, e.op.newRefresh, e.at, e.at + exp, false);
      var s1 := s.(rows := s.rows[s.nextId := RowOf(slot)], nextId := s.nextId + 1);
      && Step(exp, s, e)
         == (SetCacheEntries(exp, s1, e.at, Hash(slot.access), SessionOf(s.nextId, slot)), Issued(PairOf(slot)))
      && TableStep(exp, t, e) == (Table(t.slots[t.nextId := slot], t.nextId + 1), Issued(PairOf(slot)))
  {
    FreshRefresh(s, t, issued, e.op);
    assert e.op.newRefresh in NewTokens(e.op);
  }

  lemma SimCreate(exp: int, s: State, t: Table, e: Event, issued: set<Token>)
    requires Sim(s, t, e.at) && TableOk(t, issued) && e.op.Create? && NewTokens(e.op) !! issued
    ensures Step(exp, s, e).1 == TableStep(exp, t, e).1
    ensures Sim(Step(exp, s, e).0, TableStep(exp, t, e).0, e.at)
  {
    var slot := Slot(e.op.account, e.op.user, e.op.device, e.op.newAccess, e.op.newRefresh, e.at, e.at + exp, false);
    assert slot.access in NewTokens(e.op);
    CreateOutcome(exp, s, t, e, issued);
    CreateLinks(exp, s, t, e.at, slot, issued);
    assert SameRows(Step(exp, s, e).0, TableStep(exp, t, e).0);
  }

  lemma FreshRefresh(s: State, t: Table, issued: set<Token>, op: Op)
    requires SameRows(s, t) && TableOk(t, issued) && NewTokens(op) !! issued
    ensures forall token :: token in NewTokens(op) ==> !RefreshTaken(s.rows, Hash(token))
  {
    assert forall id :: id in s.rows ==>
      s.rows[id].refreshHash == Hash(t.slots[id].refresh) && t.slots[id].refresh in issued;
  }

  /** Purging a slot's old entries, updating its row and caching it again keeps the simulation. */
  lemma RelinkSlot(exp: int, s: State, t: Table, now: int, id: nat, slot: Slot, issued: set<Token>)
    requires Sim(s, t, now) && TableOk(t, issued) && id in t.slots
    requires forall j :: j in t.slots && j != id ==> t.slots[j].access != slot.access
    requires slot.expiresAt == now + exp && !slot.revoked
    ensures
      var s1 := if IsLive(s.ids, id, now) then Purge(s, now, {id}) else s;
      var s2 := s1.(rows := s1.rows[id := RowOf(slot)]);
      Sim(SetCacheEntries(exp, s2, now, Hash(slot.access), SessionOf(id, slot)),
          t.(slots := t.slots[id := slot]), now)
  {
    var s1 := if IsLive(s.ids, id, now) then Purge(s, now, {id}) else s;
    if IsLive(s.ids, id, now) {
      PurgeUnlinks(s, t, now, {id});
    } else {
      UnlinkedAlready(s, t, now, id);
    }
    var s2 := s1.(rows := s1.rows[id := RowOf(slot)]);
    LinkedOnlyCache(s1, s2, t, now, {id});
    PutSlot(exp, s2, t, now, id, slot);
  }

  lemma FindOutcome(exp: int, s: State, t: Table, e: Event, issued: set<Token>, id: nat)
    requires Sim(s, t, e.at) && TableOk(t, issued) && e.op.FindByToken?
    requires Holder(t, e.op.token, e.at) == Some(id)
    ensures
      var slot := t.slots[id].(expiresAt := e.at + exp);
      var s1 := Purge(s, e.at, {id});
      var s2 := s1.(rows := s1.rows[id := RowOf(slot)]);
      && IsLive(s.ids, id, e.at)
      && Step(exp, s, e)
         == (SetCacheEntries(exp, s2, e.at, Hash(slot.access), SessionOf(id, slot)), Found(SessionOf(id, slot)))
      && TableStep(exp, t, e) == (t.(slots := t.slots[id := slot]), Found(SessionOf(id, slot)))
  {
    SameHolder(s, t, e.op.token, e.at, issued);
    var slot := t.slots[id].(expiresAt := e.at + exp);
    assert s.rows[id].(expiresAt := e.at + exp) == RowOf(slot);
    PurgeThenSet(exp, s, e.at, id, SessionOf(id, slot));
  }

  lemma PurgeThenSet(exp: int, s: State, now: int, id: nat, session: Session)
    requires IsLive(s.ids, id, now) && session.id == id
    ensures
      var h := s.ids[id].value;
      var s1 := SetCacheEntries(exp, Purge(s, now, {id}), now, h, session);
      var s2 := SetCacheEntries(exp, s, now, h, session);
      s1.access == s2.access && s1.ids == s2.ids
  {
  }

  lemma SimFind(exp: int, s: State, t: Table, e: Event, issued: set<Token>)
    requires Sim(s, t, e.at) && TableOk(t, issued) && e.op.FindByToken?
    ensures Step(exp, s, e).1 == TableStep(exp, t, e).1
    ensures Sim(Step(exp, s, e).0, TableStep(exp, t, e).0, e.at)
  {
    SameHolder(s, t, e.op.token, e.at, issued);
    var holder := Holder(t, e.op.token, e.at);
    if holder.Some? {
      var id := holder.value;
      FindOutcome(exp, s, t, e, issued, id);
      RelinkSlot(exp, s, t, e.at, id, t.slots[id].(expiresAt := e.at + exp), issued);
    }
  }

  lemma RefreshOutcome(exp: int, s: State, t: Table, e: Event, issued: set<Token>, id: nat)
    requires SameRows(s, t) && TableOk(t, issued) && e.op.Refresh? && NewTokens(e.op) !! issued
    requires RefreshHolder(t, e.op.token) == Some(id) && !t.slots[id].revoked && e.at <= t.slots[id].expiresAt
    ensures
      var slot := t.slots[id].(access := e.op.newAccess, refresh := e.op.newRefresh, expiresAt := e.at + exp);
      var s1 := if IsLive(s.ids, id, e.at) then Purge(s, e.at, {id}) else s;
      var s2 := s1.(rows := s1.rows[id := RowOf(slot)]);
      && Step(exp, s, e)
         == (SetCacheEntries(exp, s2, e.at, Hash(slot.access), SessionOf(id, slot)), Issued(PairOf(slot)))
      && TableStep(exp, t, e) == (t.(slots := t.slots[id := slot]), Issued(PairOf(slot)))
  {
    SameRefreshHolder(s, t, e.op.token, issued);
    FreshRefresh(s, t, issued, e.op);
    assert e.op.newRefresh in NewTokens(e.op);
    assert s.rows[id] == RowOf(t.slots[id]);
  }

  lemma SimRefresh(exp: int, s: State, t: Table, e: Event, issued: set<Token>)
    requires Sim(s, t, e.at) && TableOk(t, issued) && e.op.Refresh? && NewTokens(e.op) !! issued
    ensures Step(exp, s, e).1 == TableStep(exp, t, e).1
    ensures Sim(Step(exp, s, e).0, TableStep(exp, t, e).0, e.at)
  {
    SameRefreshHolder(s, t, e.op.token, issued);
    var holder := RefreshHolder(t, e.op.token);
    if holder.Some? {
      var id := holder.value;
      assert s.rows[id] == RowOf(t.slots[id]);
      if !t.slots[id].revoked && e.at <= t.slots[id].expiresAt {
        var slot := t.slots[id].(access := e.op.newAccess, refresh := e.op.newRefresh, expiresAt := e.at + exp);
        assert slot.access in NewTokens(e.op);
        RefreshOutcome(exp, s, t, e, issued, id);
        RelinkSlot(exp, s, t, e.at, id, slot, issued);
      }
    }
  }

  /** Purging every valid slot of a set and revoking the set keeps the simulation: the rows
      the scan skips have expired, and so has everything cached for them. */
  lemma SimRevokeSet(s: State, t: Table, now: int, revoked: set<nat>, purged: set<nat>, issued: set<Token>)
    requires Sim(s, t, now) && TableOk(t, issued)
    requires purged <= revoked
    requires forall id :: id in revoked && id in t.slots && IsValid(t.slots[id], now) ==> id in purged
    ensures Sim(Purge(s, now, purged).(rows := RevokeRows(s.rows, revoked)), RevokeWhere(t, revoked), now)
  {
    PurgeUnlinks(s, t, now, purged);
    RevokeUnlinked(Purge(s, now, purged), t, now, revoked, purged, RevokeRows(s.rows, revoked));
  }

  /** Slots that are not valid, or have no live keys, may be revoked without touching the cache. */
  lemma RevokeUnlinked(s: State, t: Table, now: int, revoked: set<nat>, skip: set<nat>, rows: map<nat, Row>)
    requires Linked(s, t, now, skip) && skip <= revoked
    requires forall id :: id in revoked && id in t.slots && IsValid(t.slots[id], now) ==> id in skip
    ensures Linked(s.(rows := rows), RevokeWhere(t, revoked), now, {})
  {
    var s', t' := s.(rows := rows), RevokeWhere(t, revoked);
    forall id | id in t'.slots && IsValid(t'.slots[id], now) ensures Cached(s', id, t'.slots[id]) {
      assert IsValid(t.slots[id], now) && id !in skip;
      assert Cached(s, id, t.slots[id]);
    }
    forall h | IsLive(s'.access, h, now) ensures Explained(s', t', now, h) {
      assert IsLive(s.access, h, now) && Explained(s, t, now, h);
    }
    forall id | IsLive(s'.ids, id, now) ensures id in t'.slots && IsValid(t'.slots[id], now) {
      assert IsLive(s.ids, id, now);
    }
  }

  lemma PurgeOne(s: State, now: int, id: nat)
    requires IsLive(s.ids, id, now)
    ensures Purge(s, now, {id}) == s.(access := s.access - {s.ids[id].value}, ids := s.ids - {id})
  {
    assert (set j | j in {id} && IsLive(s.ids, j, now) :: s.ids[j].value) == {s.ids[id].value};
  }

  lemma RevokeOutcome(s: State, t: Table, e: Event, issued: set<Token>, id: nat)
    requires Sim(s, t, e.at) && TableOk(t, issued) && e.op.Revoke?
    requires Holder(t, e.op.token, e.at) == Some(id)
    ensures RevokeSession(s, e.at, e.op.token) == (Purge(s, e.at, {id}).(rows := RevokeRows(s.rows, {id})), Done)
  {
    SameHolder(s, t, e.op.token, e.at, issued);
    PurgeOne(s, e.at, id);
  }

  lemma SimRevoke(exp: int, s: State, t: Table, e: Event, issued: set<Token>)
    requires Sim(s, t, e.at) && TableOk(t, issued) && e.op.Revoke?
    ensures Step(exp, s, e).1 == TableStep(exp, t, e).1
    ensures Sim(Step(exp, s, e).0, TableStep(exp, t, e).0, e.at)
  {
    SameHolder(s, t, e.op.token, e.at, issued);
    var holder := Holder(t, e.op.token, e.at);
    if holder.Some? {
      RevokeOutcome(s, t, e, issued, holder.value);
      SimRevokeSet(s, t, e.at, {holder.value}, {holder.value}, issued);
    }
  }

  lemma SimRevokeAccount(exp: int, s: State, t: Table, e: Event, issued: set<Token>)
    requires Sim(s, t, e.at) && TableOk(t, issued) && e.op.RevokeAllForUser?
    ensures Step(exp, s, e).1 == TableStep(exp, t, e).1
    ensures Sim(Step(exp, s, e).0, TableStep(exp, t, e).0, e.at)
  {
    var revoked := IdsOf(s.rows, e.op.account);
    var purged := ActiveIdsOf(s.rows, e.op.account, e.at);
    SameAccountIds(s, t, e.op.account);
    SimRevokeSet(s, t, e.at, revoked, purged, issued);
  }

  lemma SameAccountIds(s: State, t: Table, account: nat)
    requires SameRows(s, t)
    ensures IdsOf(s.rows, account) == SlotsOf(t, account)
  {
  }

  lemma SimRevokeAll(exp: int, s: State, t: Table, e: Event, issued: set<Token>)
    requires Sim(s, t, e.at) && TableOk(t, issued) && e.op.RevokeAll?
    ensures Step(exp, s, e).1 == TableStep(exp, t, e).1
    ensures Sim(Step(exp, s, e).0, TableStep(exp, t, e).0, e.at)
  {
    SimRevokeSet(s, t, e.at, s.rows.Keys, ActiveIds(s.rows, e.at), issued);
  }

  /** Replacing or adding one slot keeps the token columns unique. */
  lemma TableOkPut(t: Table, issued: set<Token>, next: set<Token>, id: nat, slot: Slot, nextId: nat)
    requires TableOk(t, issued) && issued <= next && id < nextId && t.nextId <= nextId
    requires slot.access in next && slot.refresh in next
    requires forall j :: j in t.slots && j != id ==>
      t.slots[j].access != slot.access && t.slots[j].refresh != slot.refresh
    ensures TableOk(Table(t.slots[id := slot], nextId), next)
  {
  }

  lemma TableOkStep(exp: int, t: Table, e: Event, issued: set<Token>)
    requires TableOk(t, issued) && NewTokens(e.op) !! issued
    ensures TableOk(TableStep(exp, t, e).0, issued + NewTokens(e.op))
  {
    var next := issued + NewTokens(e.op);
    var t' := TableStep(exp, t, e).0;
    match e.op
    case Create(_, _, _, a, r) =>
      assert a in NewTokens(e.op) && r in NewTokens(e.op);
      TableOkPut(t, issued, next, t.nextId, t'.slots[t.nextId], t.nextId + 1);
    case FindByToken(token) =>
      var holder := Holder(t, token, e.at);
      if holder.Some? {
        TableOkPut(t, issued, next, holder.value, t'.slots[holder.value], t.nextId);
      }
    case Refresh(token, a, r) =>
      assert a in NewTokens(e.op) && r in NewTokens(e.op);
      var holder := RefreshHolder(t, token);
      if holder.Some? {
        TableOkPut(t, issued, next, holder.value, t'.slots[holder.value], t.nextId);
      }
    case _ =>
      assert forall id :: id in t'.slots ==>
        id in t.slots && t'.slots[id].access == t.slots[id].access && t'.slots[id].refresh == t.slots[id].refresh;
  }

  lemma SimStep(exp: int, s: State, t: Table, e: Event, issued: set<Token>)
    requires Sim(s, t, e.at) && TableOk(t, issued) && !e.op.SwitchUser? && NewTokens(e.op) !! issued
    ensures Step(exp, s, e).1 == TableStep(exp, t, e).1
    ensures Sim(Step(exp, s, e).0, TableStep(exp, t, e).0, e.at)
  {
    match e.op
    case Create(_, _, _, _, _) => SimCreate(exp, s, t, e, issued);
    case FindByToken(_) => SimFind(exp, s, t, e, issued);
    case Refresh(_, _, _) => SimRefresh(exp, s, t, e, issued);
    case Revoke(_) => SimRevoke(exp, s, t, e, issued);
    case RevokeAllForUser(_) => SimRevokeAccount(exp, s, t, e, issued);
    case RevokeAll => SimRevokeAll(exp, s, t, e, issued);
  }

  lemma {:induction false} SimRun(exp: int, s: State, t: Table, clock: int, issued: set<Token>, run: seq<Event>)
    requires Sim(s, t, clock) && TableOk(t, issued) && LegalRun(clock, issued, run) && NoSwitch(run)
    ensures Run(exp, s, run).1 == TableRun(exp, t, run).1
    decreases |run|
  {
    if run != [] {
      SimLater(s, t, clock, run[0].at);
      SimStep(exp, s, t, run[0], issued);
      TableOkStep(exp, t, run[0], issued);
      SimRun(exp, Step(exp, s, run[0]).0, TableStep(exp, t, run[0]).0, run[0].at,
             issued + NewTokens(run[0].op), run[1..]);
    }
  }

  /** Main result: although FindByToken never reads the table, and the scans of the two
      revoke-all operations skip expired rows, every run is answered as the single table
      answers it. */
  lemma CacheRefinesTable(exp: int, clock: int, run: seq<Event>)
    requires LegalRun(clock, {}, run) && NoSwitch(run)
    ensures Run(exp, EMPTY, run).1 == TableRun(exp, NO_SESSIONS, run).1
  {
    SimRun(exp, EMPTY, NO_SESSIONS, clock, {}, run);
  }
}
