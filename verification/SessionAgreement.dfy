/** How the two key families and the rows agree when SwitchUser is used as well, and when
    exactly the revoke-all operations then reach every cached session. */
module SessionAgreement {
  import opened Common
  import opened SessionSpec
  import R = SessionRefinement

  /** Live access keys and live id keys are inverse maps with equal expiry; sessions in
      skip have no live key at all. */
  ghost predicate Inverse(s: State, now: int, skip: set<nat>) {
    && (forall h :: IsLive(s.access, h, now) ==>
          var id := s.access[h].value.id;
          id !in skip && id in s.ids && s.ids[id] == Entry(h, s.access[h].expiry))
    && (forall id :: IsLive(s.ids, id, now) ==>
          var h := s.ids[id].value;
          id !in skip && h in s.access && s.access[h].value.id == id && s.access[h].expiry == s.ids[id].expiry)
  }

  /** A cached session says what its row says, and carries the token it is cached under. */
  predicate Mirrors(session: Session, h: Hash, row: Row) {
    && session.account == row.account && session.user == row.user && session.device == row.device
    && session.createdAt == row.createdAt
    && Hash(session.token.access) == h && Hash(session.token.refresh) == row.refreshHash
    && session.token.expiresAt == row.expiresAt
  }

  ghost predicate Mirrored(s: State, now: int) {
    forall h :: IsLive(s.access, h, now) ==>
      var session := s.access[h].value;
      session.id in s.rows && Mirrors(session, h, s.rows[session.id])
  }

  ghost predicate Bounded(s: State, issued: set<Token>) {
    && UniqueRefresh(s.rows)
    && (forall h :: h in s.access ==> h.raw in issued)
    && (forall id :: id in s.rows ==> id < s.nextId && s.rows[id].refreshHash.raw in issued)
  }

  ghost predicate Agree(s: State, now: int, issued: set<Token>) {
    Inverse(s, now, {}) && Mirrored(s, now) && Bounded(s, issued)
  }

  // --- preservation ---

  lemma InversePurge(s: State, now: int, gone: set<nat>)
    requires Inverse(s, now, {})
    ensures Inverse(Purge(s, now, gone), now, gone)
  {
    var s' := Purge(s, now, gone);
    assert forall h :: IsLive(s'.access, h, now) ==> IsLive(s.access, h, now);
    assert forall id :: IsLive(s'.ids, id, now) ==> IsLive(s.ids, id, now);
    forall h | IsLive(s'.access, h, now) ensures s.access[h].value.id !in gone {
      var id := s.access[h].value.id;
      assert IsLive(s.ids, id, now) && s.ids[id].value == h;
    }
  }

  lemma InverseSet(exp: int, s: State, now: int, h: Hash, session: Session)
    requires Inverse(s, now, {session.id}) && !IsLive(s.access, h, now)
    ensures Inverse(SetCacheEntries(exp, s, now, h, session), now, {})
  {
    var s' := SetCacheEntries(exp, s, now, h, session);
    forall g | IsLive(s'.access, g, now) ensures
      var id := s'.access[g].value.id; id in s'.ids && s'.ids[id] == Entry(g, s'.access[g].expiry)
    {
      assert g != h ==> IsLive(s.access, g, now);
    }
    forall id | IsLive(s'.ids, id, now) ensures
      var g := s'.ids[id].value;
      g in s'.access && s'.access[g].value.id == id && s'.access[g].expiry == s'.ids[id].expiry
    {
      assert id != session.id ==> IsLive(s.ids, id, now);
    }
  }

  /** Replacing what is cached for one session, whose old key, if it is still live, is either
      reused or dropped first. */
  lemma InverseReset(exp: int, s: State, now: int, h: Hash, session: Session)
    requires Inverse(s, now, {})
    requires IsLive(s.access, h, now) ==> s.access[h].value.id == session.id
    ensures Inverse(SetCacheEntries(exp, Purge(s, now, {session.id}), now, h, session), now, {})
  {
    InversePurge(s, now, {session.id});
    InverseSet(exp, Purge(s, now, {session.id}), now, h, session);
  }

  lemma SameCache(s: State, s': State, now: int, skip: set<nat>)
    requires Inverse(s, now, skip) && s'.access == s.access && s'.ids == s.ids
    ensures Inverse(s', now, skip)
  {
    assert forall h :: IsLive(s'.access, h, now) ==> IsLive(s.access, h, now);
    assert forall id :: IsLive(s'.ids, id, now) ==> IsLive(s.ids, id, now);
  }

  /** Purging an id that has no live key leaves the same live keys. */
  lemma PurgeDeadId(s: State, now: int, id: nat)
    requires Inverse(s, now, {}) && !IsLive(s.ids, id, now)
    ensures Inverse(s, now, {id})
  {
    forall h | IsLive(s.access, h, now) ensures s.access[h].value.id != id {
      var j := s.access[h].value.id;
      assert s.ids[j] == Entry(h, s.access[h].expiry) && IsLive(s.ids, j, now);
    }
  }

  lemma StepInverse(exp: int, s: State, e: Event, issued: set<Token>)
    requires Agree(s, e.at, issued) && R.NewTokens(e.op) !! issued
    ensures Inverse(Step(exp, s, e).0, e.at, {})
  {
    var now := e.at;
    var s' := Step(exp, s, e).0;
    match e.op
    case Create(_, _, _, a, _) =>
      assert a in R.NewTokens(e.op);
      if s' != s {
        PurgeDeadId(s, now, s.nextId) by {
          assert forall h :: IsLive(s.access, h, now) ==> s.access[h].value.id in s.rows;
        }
        var s1 := s.(rows := s'.rows, nextId := s'.nextId);
        SameCache(s, s1, now, {s.nextId});
        InverseSet(exp, s1, now, Hash(a), s'.access[Hash(a)].value);
      }
    case FindByToken(token) =>
      RewriteInverse(exp, s, s', now, Hash(token));
    case Refresh(_, a, _) =>
      assert a in R.NewTokens(e.op);
      RefreshInverse(exp, s, e, issued);
    case Revoke(token) =>
      if IsLive(s.access, Hash(token), now) {
        var id := s.access[Hash(token)].value.id;
        InversePurge(s, now, {id});
        R.PurgeOne(s, now, id);
        SameCache(Purge(s, now, {id}), s', now, {});
      }
    case RevokeAllForUser(account) =>
      InversePurge(s, now, ActiveIdsOf(s.rows, account, now));
      SameCache(Purge(s, now, ActiveIdsOf(s.rows, account, now)), s', now, {});
    case RevokeAll =>
      InversePurge(s, now, ActiveIds(s.rows, now));
      SameCache(Purge(s, now, ActiveIds(s.rows, now)), s', now, {});
    case SwitchUser(token, _) =>
      RewriteInverse(exp, s, s', now, Hash(token));
  }

  /** FindByToken and SwitchUser write the same two keys again. */
  lemma RewriteInverse(exp: int, s: State, s': State, now: int, h: Hash)
    requires Inverse(s, now, {})
    requires IsLive(s.access, h, now) ==>
      exists session: Session :: session.id == s.access[h].value.id
        && s'.access == s.access[h := Entry(session, now + exp)]
        && s'.ids == s.ids[session.id := Entry(h, now + exp)]
    requires !IsLive(s.access, h, now) ==> s' == s
    ensures Inverse(s', now, {})
  {
    if IsLive(s.access, h, now) {
      var session: Session :| session.id == s.access[h].value.id
        && s'.access == s.access[h := Entry(session, now + exp)]
        && s'.ids == s.ids[session.id := Entry(h, now + exp)];
      R.PurgeThenSet(exp, s, now, session.id, session);
      InverseReset(exp, s, now, h, session);
      SameCache(SetCacheEntries(exp, Purge(s, now, {session.id}), now, h, session), s', now, {});
    }
  }

  lemma RefreshInverse(exp: int, s: State, e: Event, issued: set<Token>)
    requires Agree(s, e.at, issued) && e.op.Refresh? && e.op.newAccess !in issued
    ensures Inverse(Step(exp, s, e).0, e.at, {})
  {
    var found := FindByRefreshHash(s.rows, Hash(e.op.token));
    if found.Some? && !s.rows[found.value].revoked && e.at <= s.rows[found.value].expiresAt {
      var id := found.value;
      var s1 := if IsLive(s.ids, id, e.at) then Purge(s, e.at, {id}) else s;
      if IsLive(s.ids, id, e.at) {
        InversePurge(s, e.at, {id});
      } else {
        PurgeDeadId(s, e.at, id);
      }
      var s' := Step(exp, s, e).0;
      if s' != s1 {
        var h := Hash(e.op.newAccess);
        assert h !in s1.access;
        var s2 := s1.(rows := s'.rows);
        SameCache(s1, s2, e.at, {id});
        InverseSet(exp, s2, e.at, h, s'.access[h].value);
      }
    }
  }

  /** Entries kept from the previous state stay mirrored if their rows keep what they mirror. */
  lemma MirroredKept(s: State, s': State, now: int, changed: set<nat>)
    requires Mirrored(s, now)
    requires forall h :: h in s'.access && s'.access[h].value.id !in changed ==>
      h in s.access && s'.access[h] == s.access[h]
    requires forall id :: id in s.rows && id !in changed ==>
      id in s'.rows && s'.rows[id].(revoked := false) == s.rows[id].(revoked := false)
    requires forall h :: IsLive(s'.access, h, now) && s'.access[h].value.id in changed ==>
      s'.access[h].value.id in s'.rows && Mirrors(s'.access[h].value, h, s'.rows[s'.access[h].value.id])
    ensures Mirrored(s', now)
  {
    forall h | IsLive(s'.access, h, now) && s'.access[h].value.id !in changed
      ensures s'.access[h].value.id in s'.rows && Mirrors(s'.access[h].value, h, s'.rows[s'.access[h].value.id])
    {
      assert IsLive(s.access, h, now);
      var id := s.access[h].value.id;
      assert s'.rows[id].(revoked := false) == s.rows[id].(revoked := false);
    }
  }

  /** At most one live access key carries a given session. */
  lemma OneKey(s: State, now: int, g: Hash, h: Hash)
    requires Inverse(s, now, {}) && IsLive(s.access, g, now) && IsLive(s.access, h, now)
    requires s.access[g].value.id == s.access[h].value.id
    ensures g == h
  {
    var id := s.access[g].value.id;
    assert s.ids[id] == Entry(g, s.access[g].expiry) && s.ids[id] == Entry(h, s.access[h].expiry);
  }

  lemma StepMirrored(exp: int, s: State, e: Event, issued: set<Token>)
    requires Agree(s, e.at, issued) && R.NewTokens(e.op) !! issued
    ensures Mirrored(Step(exp, s, e).0, e.at)
  {
    var s' := Step(exp, s, e).0;
    match e.op
    case Create(_, _, _, _, _) => CreateMirrored(exp, s, e, issued);
    case FindByToken(token) => RewriteMirrored(exp, s, e, issued, token);
    case SwitchUser(token, _) => RewriteMirrored(exp, s, e, issued, token);
    case Refresh(_, _, _) => RefreshMirrored(exp, s, e, issued);
    case _ => MirroredKept(s, s', e.at, {});
  }

  lemma CreateMirrored(exp: int, s: State, e: Event, issued: set<Token>)
    requires Agree(s, e.at, issued) && e.op.Create?
    ensures Mirrored(Step(exp, s, e).0, e.at)
  {
    var s' := Step(exp, s, e).0;
    if s' != s {
      forall h | IsLive(s'.access, h, e.at) && s'.access[h].value.id == s.nextId
        ensures Mirrors(s'.access[h].value, h, s'.rows[s.nextId])
      {
        assert h != Hash(e.op.newAccess) ==> IsLive(s.access, h, e.at);
      }
      MirroredKept(s, s', e.at, {s.nextId});
    }
  }

  lemma RewriteMirrored(exp: int, s: State, e: Event, issued: set<Token>, token: Token)
    requires Agree(s, e.at, issued)
    requires e.op == FindByToken(token) || (e.op.SwitchUser? && e.op.token == token)
    ensures Mirrored(Step(exp, s, e).0, e.at)
  {
    var s' := Step(exp, s, e).0;
    if IsLive(s.access, Hash(token), e.at) {
      var id := s.access[Hash(token)].value.id;
      forall h | IsLive(s'.access, h, e.at) && s'.access[h].value.id == id
        ensures id in s'.rows && Mirrors(s'.access[h].value, h, s'.rows[id])
      {
        if h != Hash(token) {
          assert IsLive(s.access, h, e.at);
          OneKey(s, e.at, h, Hash(token));
        }
      }
      MirroredKept(s, s', e.at, {id});
    }
  }

  lemma RefreshMirrored(exp: int, s: State, e: Event, issued: set<Token>)
    requires Agree(s, e.at, issued) && e.op.Refresh?
    ensures Mirrored(Step(exp, s, e).0, e.at)
  {
    var s' := Step(exp, s, e).0;
    var found := FindByRefreshHash(s.rows, Hash(e.op.token));
    if found.Some? && !s.rows[found.value].revoked && e.at <= s.rows[found.value].expiresAt {
      var id := found.value;
      forall h | IsLive(s'.access, h, e.at) && s'.access[h].value.id == id
        ensures id in s'.rows && Mirrors(s'.access[h].value, h, s'.rows[id])
      {
        if h in s.access && s'.access[h] == s.access[h] && IsLive(s.access, h, e.at) {
          assert s.ids[id] == Entry(h, s.access[h].expiry) && IsLive(s.ids, id, e.at);
        }
      }
      MirroredKept(s, s', e.at, {id});
    }
  }

  lemma BoundedPut(s: State, issued: set<Token>, rows: map<nat, Row>, id: nat, row: Row, nextId: nat)
    requires Bounded(s, issued) && rows == s.rows[id := row] && id < nextId && s.nextId <= nextId
    requires forall j :: j in s.rows && j != id ==> s.rows[j].refreshHash != row.refreshHash
    ensures UniqueRefresh(rows)
    ensures forall j :: j in rows ==> j < nextId && (j == id || rows[j].refreshHash.raw in issued)
  {
  }

  lemma CreateBounded(exp: int, s: State, e: Event, issued: set<Token>)
    requires Bounded(s, issued) && e.op.Create?
    ensures Bounded(Step(exp, s, e).0, issued + R.NewTokens(e.op))
  {
    var s' := Step(exp, s, e).0;
    assert e.op.newAccess in R.NewTokens(e.op) && e.op.newRefresh in R.NewTokens(e.op);
    if s' != s {
      BoundedPut(s, issued, s'.rows, s.nextId, s'.rows[s.nextId], s.nextId + 1);
    }
  }

  lemma RefreshBounded(exp: int, s: State, e: Event, issued: set<Token>)
    requires Bounded(s, issued) && e.op.Refresh?
    ensures Bounded(Step(exp, s, e).0, issued + R.NewTokens(e.op))
  {
    var s' := Step(exp, s, e).0;
    assert e.op.newAccess in R.NewTokens(e.op) && e.op.newRefresh in R.NewTokens(e.op);
    var found := FindByRefreshHash(s.rows, Hash(e.op.token));
    if found.Some? && s'.rows != s.rows {
      BoundedPut(s, issued, s'.rows, found.value, s'.rows[found.value], s.nextId);
    }
  }

  lemma StepBounded(exp: int, s: State, e: Event, issued: set<Token>)
    requires Bounded(s, issued)
    ensures Bounded(Step(exp, s, e).0, issued + R.NewTokens(e.op))
  {
    match e.op
    case Create(_, _, _, _, _) => CreateBounded(exp, s, e, issued);
    case Refresh(_, _, _) => RefreshBounded(exp, s, e, issued);
    case _ => BoundedKept(s, Step(exp, s, e).0, issued, R.NewTokens(e.op));
  }

  lemma BoundedKept(s: State, s': State, issued: set<Token>, more: set<Token>)
    requires Bounded(s, issued) && s'.nextId == s.nextId && s'.access.Keys <= s.access.Keys
    requires s'.rows.Keys == s.rows.Keys
    requires forall id :: id in s.rows ==> s'.rows[id].refreshHash == s.rows[id].refreshHash
    ensures Bounded(s', issued + more)
  {
  }

  lemma AgreeLater(s: State, now: int, later: int, issued: set<Token>)
    requires Agree(s, now, issued) && now <= later
    ensures Agree(s, later, issued)
  {
    assert forall h :: IsLive(s.access, h, later) ==> IsLive(s.access, h, now);
    assert forall id :: IsLive(s.ids, id, later) ==> IsLive(s.ids, id, now);
  }

  lemma {:induction false} AgreeFrom(exp: int, s: State, clock: int, issued: set<Token>, run: seq<Event>, end: int)
    requires Agree(s, clock, issued) && R.LegalRun(clock, issued, run)
    requires (if run == [] then clock else run[|run| - 1].at) <= end
    ensures exists issued' :: Agree(Run(exp, s, run).0, end, issued')
    decreases |run|
  {
    if run == [] {
      AgreeLater(s, clock, end, issued);
      assert Agree(Run(exp, s, run).0, end, issued);
    } else {
      AgreeNext(exp, s, run[0], clock, issued);
      var s1 := Step(exp, s, run[0]).0;
      AgreeFrom(exp, s1, run[0].at, issued + R.NewTokens(run[0].op), run[1..], end);
      var issued' :| Agree(Run(exp, s1, run[1..]).0, end, issued');
      assert Run(exp, s, run).0 == Run(exp, s1, run[1..]).0;
    }
  }

  /** In every reachable state, with every operation allowed: the live access keys and the
      live id keys are inverse to each other, so a session has at most one live access token,
      and a cached session agrees with its row. */
  lemma CacheAgreesWithRows(exp: int, clock: int, run: seq<Event>, now: int)
    requires R.LegalRun(clock, {}, run) && run != [] && run[|run| - 1].at <= now
    ensures
      var s := Run(exp, EMPTY, run).0;
      && (forall h, id :: (IsLive(s.access, h, now) && s.access[h].value.id == id) <==> Get(s.ids, id, now) == Some(h))
      && Mirrored(s, now)
  {
    AgreeFrom(exp, EMPTY, clock, {}, run, now);
  }

  // --- revoke-all after SwitchUser ---

  /** Every session FindByToken would return has a row that is not revoked. */
  ghost predicate Sound(s: State, now: int) {
    forall h :: IsLive(s.access, h, now) ==>
      s.access[h].value.id in s.rows && !s.rows[s.access[h].value.id].revoked
  }

  /** No session that is still cached, and whose row is about to be revoked, has outlived the
      row; so the scan for unexpired rows lists it. */
  ghost predicate ScanReaches(s: State, now: int, revoked: set<nat>) {
    forall h :: IsLive(s.access, h, now) && s.access[h].value.id in revoked ==>
      s.access[h].value.id in s.rows && now < s.rows[s.access[h].value.id].expiresAt
  }

  /** What a revoke-all does: it purges the unexpired ones among the rows it revokes. */
  lemma ScanSoundIff(s: State, now: int, revoked: set<nat>, purged: set<nat>, issued: set<Token>)
    requires Agree(s, now, issued) && Sound(s, now)
    requires forall id :: id in purged <==> id in revoked && id in s.rows && IsActive(s.rows[id], now)
    ensures Sound(Purge(s, now, purged).(rows := RevokeRows(s.rows, revoked)), now) <==> ScanReaches(s, now, revoked)
  {
    var s' := Purge(s, now, purged).(rows := RevokeRows(s.rows, revoked));
    forall h | IsLive(s.access, h, now)
      ensures IsLive(s'.access, h, now) <==> s.access[h].value.id !in purged
    {
      PurgedWhenGone(s, now, purged, h);
    }
    if ScanReaches(s, now, revoked) {
      forall h | IsLive(s'.access, h, now)
        ensures s'.access[h].value.id in s'.rows && !s'.rows[s'.access[h].value.id].revoked
      {
        assert IsLive(s.access, h, now);
      }
    } else {
      var h :| IsLive(s.access, h, now) && s.access[h].value.id in revoked
        && !(now < s.rows[s.access[h].value.id].expiresAt);
      assert IsLive(s'.access, h, now);
      assert s'.rows[s'.access[h].value.id].revoked;
    }
  }

  lemma PurgedWhenGone(s: State, now: int, gone: set<nat>, h: Hash)
    requires Inverse(s, now, {}) && IsLive(s.access, h, now)
    ensures IsLive(Purge(s, now, gone).access, h, now) <==> s.access[h].value.id !in gone
  {
    var id := s.access[h].value.id;
    assert s.ids[id] == Entry(h, s.access[h].expiry) && IsLive(s.ids, id, now);
  }

  /** RevokeAllForUser leaves no accepted token with a revoked row exactly when no cached
      session of the account has outlived its row. */
  lemma RevokeAllForUserSoundIff(s: State, now: int, account: nat, issued: set<Token>)
    requires Agree(s, now, issued) && Sound(s, now)
    ensures Sound(RevokeAccount(s, now, account).0, now) <==> ScanReaches(s, now, IdsOf(s.rows, account))
  {
    ScanSoundIff(s, now, IdsOf(s.rows, account), ActiveIdsOf(s.rows, account, now), issued);
  }

  /** RevokeAll does so exactly when no cached session at all has outlived its row. */
  lemma RevokeAllSoundIff(s: State, now: int, issued: set<Token>)
    requires Agree(s, now, issued) && Sound(s, now)
    ensures Sound(RevokeEverything(s, now).0, now) <==> ScanReaches(s, now, s.rows.Keys)
  {
    ScanSoundIff(s, now, s.rows.Keys, ActiveIds(s.rows, now), issued);
  }

  /** If the event is a revoke-all, its scan reaches every cached session it should. */
  ghost predicate ScanMet(s: State, e: Event) {
    match e.op
    case RevokeAllForUser(account) => ScanReaches(s, e.at, IdsOf(s.rows, account))
    case RevokeAll => ScanReaches(s, e.at, s.rows.Keys)
    case _ => true
  }

  /** Entries that stay as they were stay sound if their rows do not become revoked. */
  lemma SoundKept(s: State, s': State, now: int, changed: set<nat>)
    requires Sound(s, now)
    requires forall h :: IsLive(s'.access, h, now) && s'.access[h].value.id !in changed ==>
      IsLive(s.access, h, now) && s'.access[h].value.id == s.access[h].value.id
    requires forall id :: id in s.rows && id !in changed ==> id in s'.rows && s'.rows[id].revoked == s.rows[id].revoked
    requires forall h :: IsLive(s'.access, h, now) && s'.access[h].value.id in changed ==>
      s'.access[h].value.id in s'.rows && !s'.rows[s'.access[h].value.id].revoked
    ensures Sound(s', now)
  {
  }

  lemma CreateSound(exp: int, s: State, e: Event, issued: set<Token>)
    requires Agree(s, e.at, issued) && Sound(s, e.at) && e.op.Create?
    ensures Sound(Step(exp, s, e).0, e.at)
  {
    if Step(exp, s, e).0 != s {
      SoundKept(s, Step(exp, s, e).0, e.at, {s.nextId});
    }
  }

  lemma RewriteSound(exp: int, s: State, e: Event, issued: set<Token>)
    requires Agree(s, e.at, issued) && Sound(s, e.at) && (e.op.FindByToken? || e.op.SwitchUser?)
    ensures Sound(Step(exp, s, e).0, e.at)
  {
    if IsLive(s.access, Hash(e.op.token), e.at) {
      SoundKept(s, Step(exp, s, e).0, e.at, {s.access[Hash(e.op.token)].value.id});
    }
  }

  lemma RefreshSound(exp: int, s: State, e: Event, issued: set<Token>)
    requires Agree(s, e.at, issued) && Sound(s, e.at) && e.op.Refresh?
    ensures Sound(Step(exp, s, e).0, e.at)
  {
    var found := FindByRefreshHash(s.rows, Hash(e.op.token));
    if found.Some? && !s.rows[found.value].revoked && e.at <= s.rows[found.value].expiresAt {
      SoundKept(s, Step(exp, s, e).0, e.at, {found.value});
    }
  }

  lemma RevokeSound(exp: int, s: State, e: Event, issued: set<Token>)
    requires Agree(s, e.at, issued) && Sound(s, e.at) && e.op.Revoke?
    ensures Sound(Step(exp, s, e).0, e.at)
  {
    var h := Hash(e.op.token);
    if IsLive(s.access, h, e.at) {
      var s' := Step(exp, s, e).0;
      forall g | IsLive(s'.access, g, e.at) ensures s'.access[g].value.id != s.access[h].value.id {
        assert IsLive(s.access, g, e.at);
        if s.access[g].value.id == s.access[h].value.id {
          OneKey(s, e.at, g, h);
        }
      }
      SoundKept(s, s', e.at, {s.access[h].value.id});
    }
  }

  /** An operation keeps every accepted token backed by an unrevoked row exactly if its scan,
      when it has one, reaches all it should; the operations without a scan always do. */
  lemma SoundStepIff(exp: int, s: State, e: Event, issued: set<Token>)
    requires Agree(s, e.at, issued) && Sound(s, e.at)
    ensures Sound(Step(exp, s, e).0, e.at) <==> ScanMet(s, e)
  {
    match e.op
    case Create(_, _, _, _, _) => CreateSound(exp, s, e, issued);
    case FindByToken(_) => RewriteSound(exp, s, e, issued);
    case Refresh(_, _, _) => RefreshSound(exp, s, e, issued);
    case Revoke(_) => RevokeSound(exp, s, e, issued);
    case RevokeAllForUser(account) => RevokeAllForUserSoundIff(s, e.at, account, issued);
    case RevokeAll => RevokeAllSoundIff(s, e.at, issued);
    case SwitchUser(_, _) => RewriteSound(exp, s, e, issued);
  }

  lemma SoundLater(s: State, now: int, later: int)
    requires Sound(s, now) && now <= later
    ensures Sound(s, later)
  {
    assert forall h :: IsLive(s.access, h, later) ==> IsLive(s.access, h, now);
  }

  ghost predicate ScansMet(exp: int, s: State, run: seq<Event>)
    decreases |run|
  {
    run == [] || (ScanMet(s, run[0]) && ScansMet(exp, Step(exp, s, run[0]).0, run[1..]))
  }

  /** After every event of the run each accepted token has an unrevoked row. */
  ghost predicate StaysSound(exp: int, s: State, run: seq<Event>)
    decreases |run|
  {
    run == [] ||
    (Sound(Step(exp, s, run[0]).0, run[0].at) && StaysSound(exp, Step(exp, s, run[0]).0, run[1..]))
  }

  lemma AgreeNext(exp: int, s: State, e: Event, clock: int, issued: set<Token>)
    requires Agree(s, clock, issued) && clock <= e.at && R.NewTokens(e.op) !! issued
    ensures Agree(s, e.at, issued) && Agree(Step(exp, s, e).0, e.at, issued + R.NewTokens(e.op))
  {
    AgreeLater(s, clock, e.at, issued);
    StepInverse(exp, s, e, issued);
    StepMirrored(exp, s, e, issued);
    StepBounded(exp, s, e, issued);
  }

  lemma {:induction false} StaysSoundFrom(exp: int, s: State, clock: int, issued: set<Token>, run: seq<Event>)
    requires Agree(s, clock, issued) && Sound(s, clock) && R.LegalRun(clock, issued, run)
    ensures StaysSound(exp, s, run) <==> ScansMet(exp, s, run)
    decreases |run|
  {
    if run != [] {
      var e, s' := run[0], Step(exp, s, run[0]).0;
      AgreeNext(exp, s, e, clock, issued);
      SoundLater(s, clock, e.at);
      SoundStepIff(exp, s, e, issued);
      if ScanMet(s, e) {
        StaysSoundFrom(exp, s', e.at, issued + R.NewTokens(e.op), run[1..]);
      }
    }
  }

  /** In every legal run of all seven operations, SwitchUser included: every accepted token has
      an unrevoked row throughout, if and only if no revoke-all in the run met a cached session
      that had outlived its row. */
  lemma StaysSoundIff(exp: int, clock: int, run: seq<Event>)
    requires R.LegalRun(clock, {}, run)
    ensures StaysSound(exp, EMPTY, run) <==> ScansMet(exp, EMPTY, run)
  {
    StaysSoundFrom(exp, EMPTY, clock, {}, run);
  }

  lemma {:induction false} SoundAtEnd(exp: int, s: State, clock: int, run: seq<Event>, now: int)
    requires Sound(s, clock) && StaysSound(exp, s, run)
    requires (if run == [] then clock else run[|run| - 1].at) <= now
    ensures Sound(Run(exp, s, run).0, now)
    decreases |run|
  {
    if run == [] {
      SoundLater(s, clock, now);
    } else {
      var s' := Step(exp, s, run[0]).0;
      SoundAtEnd(exp, s', run[0].at, run[1..], now);
      assert Run(exp, s, run).0 == Run(exp, s', run[1..]).0;
    }
  }

  /** So after such a run, at any later instant, whatever token is accepted has an unrevoked row. */
  lemma AcceptedAreNotRevoked(exp: int, clock: int, run: seq<Event>, now: int)
    requires R.LegalRun(clock, {}, run) && ScansMet(exp, EMPTY, run)
    requires run != [] && run[|run| - 1].at <= now
    ensures Sound(Run(exp, EMPTY, run).0, now)
  {
    StaysSoundIff(exp, clock, run);
    SoundAtEnd(exp, EMPTY, clock, run, now);
  }

  /** A run in which the condition fails for either revoke-all: SwitchUser keeps the cache entry
      alive past the row's expiry, the scan skips the row, and the token is accepted afterwards. */
  lemma SwitchUserOutlivesRow(revokeAll: Op)
    requires revokeAll in {RevokeAllForUser(1), RevokeAll}
    ensures
      var run := [Event(0, Create(1, 1, 1, 11, 12)), Event(5, SwitchUser(11, 2)),
                  Event(10, revokeAll), Event(10, FindByToken(11))];
      && R.LegalRun(0, {}, run)
      && var (s, answers) := Run(10, EMPTY, run);
         answers[3].Found? && answers[3].session.id in s.rows && s.rows[answers[3].session.id].revoked
  {
    var e0, e1, e2, e3 := Event(0, Create(1, 1, 1, 11, 12)), Event(5, SwitchUser(11, 2)),
                          Event(10, revokeAll), Event(10, FindByToken(11));
    var s2 := Step(10, Step(10, EMPTY, e0).0, e1).0;
    AfterSwitch();
    var s3 := Step(10, s2, e2).0;
    ScanSkipsRow(s2, revokeAll);
    var (s4, answer) := Step(10, s3, e3);
    assert answer.Found? && answer.session.id == 1 && s4.rows[1].revoked;
    RunCons(10, s3, e3, []);
    RunCons(10, s2, e2, [e3]);
    RunCons(10, Step(10, EMPTY, e0).0, e1, [e2, e3]);
    RunCons(10, EMPTY, e0, [e1, e2, e3]);
    LegalFour(e0, e1, e2, e3);
  }

  /** The cache entry now lives until 15, the row until 10. */
  ghost predicate Outlived(s: State) {
    && Hash(11) in s.access && s.access[Hash(11)].expiry == 15 && s.access[Hash(11)].value.id == 1
    && s.rows.Keys == {1} && s.rows[1].expiresAt == 10 && s.rows[1].account == 1
  }

  lemma AfterSwitch()
    ensures Outlived(Step(10, Step(10, EMPTY, Event(0, Create(1, 1, 1, 11, 12))).0, Event(5, SwitchUser(11, 2))).0)
  {
    var s1 := Step(10, EMPTY, Event(0, Create(1, 1, 1, 11, 12))).0;
    assert s1.rows == map[1 := Row(1, 1, 1, Hash(12), 0, 10, false)];
  }

  lemma ScanSkipsRow(s: State, revokeAll: Op)
    requires Outlived(s) && revokeAll in {RevokeAllForUser(1), RevokeAll}
    ensures
      var s' := Step(10, s, Event(10, revokeAll)).0;
      Outlived(s') && s'.rows[1].revoked
  {
    assert ActiveIdsOf(s.rows, 1, 10) == {} == ActiveIds(s.rows, 10);
  }

  lemma LegalFour(e0: Event, e1: Event, e2: Event, e3: Event)
    requires 0 <= e0.at <= e1.at <= e2.at <= e3.at
    requires R.NewTokens(e1.op) == R.NewTokens(e2.op) == R.NewTokens(e3.op) == {}
    ensures R.LegalRun(0, {}, [e0, e1, e2, e3])
  {
    var run := [e0, e1, e2, e3];
    var issued := {} + R.NewTokens(e0.op);
    assert run[1..] == [e1, e2, e3] && [e1, e2, e3][1..] == [e2, e3] && [e2, e3][1..] == [e3];
    assert issued + {} == issued;
    assert R.LegalRun(e2.at, issued, [e3]);
    assert R.LegalRun(e1.at, issued, [e2, e3]);
    assert R.LegalRun(e0.at, issued, [e1, e2, e3]);
  }
}
