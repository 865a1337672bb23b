/** The session manager over a Redis cache and the account_sessions table, as the
    objects the program mutates. Randomness and the clock are parameters. */
module SessionManager {
  import opened Common
  import opened SessionSpec

  /** The two key families of the cache, with their expiry instants. */
  class RedisCache {
    var access: map<Hash, Entry<Session>>
    var ids: map<nat, Entry<Hash>>

    constructor ()
      ensures access == map[] && ids == map[]
    {
      access, ids := map[], map[];
    }

    method DeleteAccess(hash: Hash)
      modifies `access
      ensures access == old(access) - {hash}
    {
      access := access - {hash};
    }

    method DeleteId(id: nat)
      modifies `ids
      ensures ids == old(ids) - {id}
    {
      ids := ids - {id};
    }
  }

  class SessionRepository {
    var rows: map<nat, Row>
    var nextId: nat

    constructor ()
      ensures rows == map[] && nextId == 1
    {
      rows, nextId := map[], 1;
    }

    /** INSERT ... RETURNING id; None is a unique violation on refresh_token_hash. */
    method Create(account: nat, user: nat, device: nat, refreshHash: Hash, expiresAt: int, now: int)
      returns (id: Option<nat>)
      modifies this
      ensures RefreshTaken(old(rows), refreshHash) ==> id.None? && rows == old(rows) && nextId == old(nextId)
      ensures !RefreshTaken(old(rows), refreshHash) ==>
                && id == Some(old(nextId)) && nextId == old(nextId) + 1
                && rows == old(rows)[old(nextId) := Row(account, user, device, refreshHash, now, expiresAt, false)]
    {
      var clash := exists id :: id in rows && rows[id].refreshHash == refreshHash;
      if clash {
        return None;
      }
      rows := rows[nextId := Row(account, user, device, refreshHash, now, expiresAt, false)];
      id := Some(nextId);
      nextId := nextId + 1;
    }

    method FindByRefreshTokenHash(hash: Hash) returns (id: Option<nat>)
      requires UniqueRefresh(rows)
      ensures id == FindByRefreshHash(rows, hash)
    {
      var found := exists id :: id in rows && rows[id].refreshHash == hash;
      if found {
        var i :| i in rows && rows[i].refreshHash == hash;
        id := Some(i);
      } else {
        id := None;
      }
    }

    method FindActiveIDsByAccountID(account: nat, now: int) returns (found: seq<nat>)
      ensures Enumerates(found, ActiveIdsOf(rows, account, now))
    {
      found := InSomeOrder(set id | id in rows && rows[id].account == account && IsActive(rows[id], now));
    }

    method FindAllActiveIDs(now: int) returns (found: seq<nat>)
      ensures Enumerates(found, ActiveIds(rows, now))
    {
      found := InSomeOrder(set id | id in rows && IsActive(rows[id], now));
    }

    /** False is a unique violation: another row already has the new hash. An unknown id updates
        no row, which is no error. */
    method UpdateRefreshToken(id: nat, newHash: Hash, expiresAt: int) returns (ok: bool)
      requires UniqueRefresh(rows)
      modifies `rows
      ensures ok == (id !in old(rows) || newHash == old(rows)[id].refreshHash || !RefreshTaken(old(rows), newHash))
      ensures rows == if ok && id in old(rows)
                      then old(rows)[id := old(rows)[id].(refreshHash := newHash, expiresAt := expiresAt)]
                      else old(rows)
    {
      var clash := id in rows && exists j :: j in rows && j != id && rows[j].refreshHash == newHash;
      ok := !clash;
      if ok && id in rows {
        rows := rows[id := rows[id].(refreshHash := newHash, expiresAt := expiresAt)];
      }
    }

    method UpdateExpiresAt(id: nat, expiresAt: int)
      modifies `rows
      ensures rows == if id in old(rows) then old(rows)[id := old(rows)[id].(expiresAt := expiresAt)] else old(rows)
    {
      if id in rows {
        rows := rows[id := rows[id].(expiresAt := expiresAt)];
      }
    }

    method UpdateUserID(id: nat, user: nat)
      modifies `rows
      ensures rows == if id in old(rows) then old(rows)[id := old(rows)[id].(user := user)] else old(rows)
    {
      if id in rows {
        rows := rows[id := rows[id].(user := user)];
      }
    }

    method Revoke(id: nat)
      modifies `rows
      ensures rows == RevokeRows(old(rows), {id})
    {
      if id in rows {
        rows := rows[id := rows[id].(revoked := true)];
      }
    }

    method RevokeAllForAccount(account: nat)
      modifies `rows
      ensures rows == RevokeRows(old(rows), IdsOf(old(rows), account))
    {
      rows := map id | id in rows ::
        if rows[id].account == account then rows[id].(revoked := true) else rows[id];
    }

    /** WHERE revoked = false: the rows it skips are revoked already. */
    method RevokeAll()
      modifies `rows
      ensures rows == RevokeRows(old(rows), old(rows).Keys)
    {
      rows := map id | id in rows :: if !rows[id].revoked then rows[id].(revoked := true) else rows[id];
    }
  }

  class SessionManager {
    const cache: RedisCache
    const repo: SessionRepository
    const expiration: int

    constructor (cache: RedisCache, repo: SessionRepository, expiration: int)
      ensures this.cache == cache && this.repo == repo && this.expiration == expiration
    {
      this.cache, this.repo, this.expiration := cache, repo, expiration;
    }

    ghost function View(): State
      reads cache, repo
    {
      State(cache.access, cache.ids, repo.rows, repo.nextId)
    }

    ghost predicate Valid()
      reads repo
    {
      UniqueRefresh(repo.rows) && (forall id :: id in repo.rows ==> id < repo.nextId)
    }

    method SetCache(sessionId: nat, accessHash: Hash, session: Session, now: int)
      requires session.id == sessionId
      modifies cache
      ensures View() == SetCacheEntries(expiration, old(View()), now, accessHash, session)
    {
      cache.access := cache.access[accessHash := Entry(session, now + expiration)];
      cache.ids := cache.ids[sessionId := Entry(accessHash, now + expiration)];
    }

    method DeleteBySessionID(id: nat, now: int)
      modifies cache
      ensures View() == Purge(old(View()), now, {id})
    {
      var found := Get(cache.ids, id, now);
      if found.Some? {
        cache.DeleteAccess(found.value);
      }
      cache.DeleteId(id);
    }

    method Create(account: nat, user: nat, device: nat, rawAccess: Token, rawRefresh: Token, now: int)
      returns (r: Response)
      requires Valid()
      modifies cache, repo
      ensures Valid()
      ensures (View(), r) == CreateSession(expiration, old(View()), now, account, user, device, rawAccess, rawRefresh)
    {
      var expiresAt := now + expiration;
      var id := repo.Create(account, user, device, Hash(rawRefresh), expiresAt, now);
      if id.None? {
        return Denied(ErrGenerateToken);
      }
      var pair := TokenPair(rawAccess, rawRefresh, expiresAt);
      SetCache(id.value, Hash(rawAccess), Session(id.value, account, user, device, pair, now), now);
      r := Issued(pair);
    }

    method FindByToken(token: Token, now: int) returns (r: Response)
      requires Valid()
      modifies cache, repo
      ensures Valid()
      ensures (View(), r) == FindSession(expiration, old(View()), now, token)
    {
      var data := Get(cache.access, Hash(token), now);
      if data.None? {
        return Denied(ErrSessionNotFound);
      }
      var newExpiry := now + expiration;
      var session := data.value.(token := data.value.token.(expiresAt := newExpiry));
      SetCache(session.id, Hash(token), session, now);
      repo.UpdateExpiresAt(session.id, newExpiry);
      r := Found(session);
    }

    method Refresh(token: Token, rawAccess: Token, rawRefresh: Token, now: int) returns (r: Response)
      requires Valid()
      modifies cache, repo
      ensures Valid()
      ensures (View(), r) == RefreshSession(expiration, old(View()), now, token, rawAccess, rawRefresh)
    {
      var found := repo.FindByRefreshTokenHash(Hash(token));
      if found.None? {
        return Denied(ErrRefreshToken);
      }
      var id := found.value;
      var rec := repo.rows[id];
      if rec.revoked || rec.expiresAt < now {
        return Denied(ErrRefreshToken);
      }
      var oldHash := Get(cache.ids, id, now);
      if oldHash.Some? {
        cache.DeleteAccess(oldHash.value);
        cache.DeleteId(id);
        assert View() == Purge(old(View()), now, {id});
      }
      var expiresAt := now + expiration;
      var ok := repo.UpdateRefreshToken(id, Hash(rawRefresh), expiresAt);
      if !ok {
        return Denied(ErrRefreshToken);
      }
      var pair := TokenPair(rawAccess, rawRefresh, expiresAt);
      SetCache(id, Hash(rawAccess), Session(id, rec.account, rec.user, rec.device, pair, rec.createdAt), now);
      r := Issued(pair);
    }

    method Revoke(token: Token, now: int) returns (r: Response)
      requires Valid()
      modifies cache, repo
      ensures Valid()
      ensures (View(), r) == RevokeSession(old(View()), now, token)
    {
      var data := Get(cache.access, Hash(token), now);
      if data.None? {
        return Done;
      }
      cache.DeleteId(data.value.id);
      repo.Revoke(data.value.id);
      cache.DeleteAccess(Hash(token));
      r := Done;
    }

    method DeleteAll(found: seq<nat>, now: int)
      modifies cache
      ensures View() == Purge(old(View()), now, Elements(found))
    {
      ghost var start := View();
      for i := 0 to |found|
        invariant View() == Purge(start, now, Elements(found[..i]))
      {
        DeleteBySessionID(found[i], now);
        PurgeTwice(start, now, Elements(found[..i]), found[i]);
        assert Elements(found[..i + 1]) == Elements(found[..i]) + {found[i]};
      }
      assert found[..|found|] == found;
    }

    method RevokeAllForUser(account: nat, now: int) returns (r: Response)
      requires Valid()
      modifies cache, repo
      ensures Valid()
      ensures (View(), r) == RevokeAccount(old(View()), now, account)
    {
      var found := repo.FindActiveIDsByAccountID(account, now);
      assert Elements(found) == ActiveIdsOf(repo.rows, account, now);
      DeleteAll(found, now);
      repo.RevokeAllForAccount(account);
      r := Done;
    }

    method RevokeAll(now: int) returns (r: Response)
      requires Valid()
      modifies cache, repo
      ensures Valid()
      ensures (View(), r) == RevokeEverything(old(View()), now)
    {
      var found := repo.FindAllActiveIDs(now);
      assert Elements(found) == ActiveIds(repo.rows, now);
      DeleteAll(found, now);
      repo.RevokeAll();
      r := Done;
    }

    method SwitchUser(token: Token, user: nat, now: int) returns (r: Response)
      requires Valid()
      modifies cache, repo
      ensures Valid()
      ensures (View(), r) == SwitchSessionUser(expiration, old(View()), now, token, user)
    {
      var data := Get(cache.access, Hash(token), now);
      if data.None? {
        return Denied(ErrSessionNotFound);
      }
      repo.UpdateUserID(data.value.id, user);
      SetCache(data.value.id, Hash(token), data.value.(user := user), now);
      r := Done;
    }
  }

  /** Purging one more id after others is purging them together. */
  lemma PurgeTwice(s: State, now: int, gone: set<nat>, id: nat)
    ensures Purge(Purge(s, now, gone), now, {id}) == Purge(s, now, gone + {id})
  {
    var one := Purge(s, now, gone);
    var two := Purge(one, now, {id});
    var both := Purge(s, now, gone + {id});
    assert two.ids == both.ids;
    assert two.access == both.access;
  }
}
