/** Tokens that never work again, over runs of all seven operations, SwitchUser included. */
module SessionFinality {
  import opened Common
  import opened SessionSpec
  import opened SessionGuarantees
  import opened A = SessionAgreement
  import R = SessionRefinement

  // --- walking along a run ---

  lemma {:induction false} AnswerIsStep(exp: int, s: State, run: seq<Event>, k: nat)
    requires k < |run|
    ensures Run(exp, s, run).1[k] == Step(exp, Run(exp, s, run[..k]).0, run[k]).1
    decreases k
  {
    if k > 0 {
      AnswerIsStep(exp, Step(exp, s, run[0]).0, run[1..], k - 1);
      assert run[..k][1..] == run[1..][..k - 1];
    }
  }

  lemma {:induction false} AgreeAt(exp: int, clock: int, run: seq<Event>, k: nat)
    requires R.LegalRun(clock, {}, run) && k < |run|
    ensures Agree(StateAt(exp, run, k), run[k].at, IssuedBy(run, k))
    decreases k
  {
    if k > 0 {
      AgreeAt(exp, clock, run, k - 1);
      AgreeAfter(exp, clock, run, k - 1);
      LegalAt(clock, {}, run, k);
      AgreeLater(StateAt(exp, run, k), run[k - 1].at, run[k].at, IssuedBy(run, k));
    }
  }

  lemma AgreeAfter(exp: int, clock: int, run: seq<Event>, k: nat)
    requires R.LegalRun(clock, {}, run) && k < |run|
    requires Agree(StateAt(exp, run, k), run[k].at, IssuedBy(run, k))
    ensures Agree(StateAt(exp, run, k + 1), run[k].at, IssuedBy(run, k + 1))
  {
    LegalAt(clock, {}, run, k);
    AgreeNext(exp, StateAt(exp, run, k), run[k], run[k].at, IssuedBy(run, k));
    RunNext(exp, EMPTY, run, k);
    IssuedNext(run, k);
  }

  // --- two more invariants ---

  /** The tokens of every cached session are one generated pair. */
  ghost predicate CachePaired(s: State, run: seq<Event>, k: nat)
    requires k <= |run|
  {
    forall h :: h in s.access ==>
      exists p :: 0 <= p < k && Generates(run[p].op, s.access[h].value.token.access, s.access[h].value.token.refresh)
  }

  lemma {:induction false} CachePairedAt(exp: int, run: seq<Event>, k: nat)
    requires k <= |run|
    ensures CachePaired(StateAt(exp, run, k), run, k)
    decreases k
  {
    if k > 0 {
      CachePairedAt(exp, run, k - 1);
      RunNext(exp, EMPTY, run, k - 1);
      var s, s' := StateAt(exp, run, k - 1), StateAt(exp, run, k);
      forall h | h in s'.access
        ensures
          var token := s'.access[h].value.token;
          exists p :: 0 <= p < k && Generates(run[p].op, token.access, token.refresh)
      {
        PairKept(exp, s, run[k - 1], h);
        var token := s'.access[h].value.token;
        if !Generates(run[k - 1].op, token.access, token.refresh) {
          var p :| 0 <= p < k - 1 && Generates(run[p].op, token.access, token.refresh);
        }
      }
    }
  }

  lemma PairKept(exp: int, s: State, e: Event, h: Hash)
    requires h in Step(exp, s, e).0.access
    ensures
      var token := Step(exp, s, e).0.access[h].value.token;
      Generates(e.op, token.access, token.refresh)
      || (h in s.access && s.access[h].value.token.access == token.access
          && s.access[h].value.token.refresh == token.refresh)
  {
  }

  /** An active row has a live id key that lasts at least as long. */
  ghost predicate Covered(exp: int, s: State, now: int) {
    && (forall id :: id in s.rows ==> s.rows[id].expiresAt <= now + exp)
    && (forall id :: id in s.rows && IsActive(s.rows[id], now) ==>
          id in s.ids && s.rows[id].expiresAt <= s.ids[id].expiry)
  }

  lemma RefreshCovers(exp: int, s: State, e: Event, issued: set<Token>)
    requires Agree(s, e.at, issued) && Covered(exp, s, e.at) && R.NewTokens(e.op) !! issued && e.op.Refresh?
    ensures Covered(exp, Step(exp, s, e).0, e.at)
  {
    assert e.op.newRefresh in R.NewTokens(e.op);
    assert !RefreshTaken(s.rows, Hash(e.op.newRefresh));
    var s', found := Step(exp, s, e).0, FindByRefreshHash(s.rows, Hash(e.op.token));
    if s' != s {
      assert s'.rows == s.rows[found.value := s'.rows[found.value]];
      assert forall id :: id in s.ids && id != found.value ==> id in s'.ids && s'.ids[id] == s.ids[id];
    }
  }

  /** The id keys that a revocation drops belong to rows it revokes. */
  lemma RevokeCovers(exp: int, s: State, e: Event, issued: set<Token>)
    requires Agree(s, e.at, issued) && Covered(exp, s, e.at)
    requires e.op.Revoke? || e.op.RevokeAllForUser? || e.op.RevokeAll?
    ensures Covered(exp, Step(exp, s, e).0, e.at)
  {
    var s' := Step(exp, s, e).0;
    forall id | id in s'.rows && IsActive(s'.rows[id], e.at)
      ensures id in s'.ids && s'.rows[id].expiresAt <= s'.ids[id].expiry
    {
      assert id in s.rows && IsActive(s.rows[id], e.at) && s'.rows[id] == s.rows[id];
    }
  }

  lemma CoveredStep(exp: int, s: State, e: Event, issued: set<Token>)
    requires Agree(s, e.at, issued) && Covered(exp, s, e.at) && R.NewTokens(e.op) !! issued
    ensures Covered(exp, Step(exp, s, e).0, e.at)
  {
    match e.op
    case Refresh(_, _, _) => RefreshCovers(exp, s, e, issued);
    case Revoke(_) => RevokeCovers(exp, s, e, issued);
    case RevokeAllForUser(_) => RevokeCovers(exp, s, e, issued);
    case RevokeAll => RevokeCovers(exp, s, e, issued);
    case _ =>
  }

  lemma {:induction false} CoveredAt(exp: int, clock: int, run: seq<Event>, k: nat)
    requires R.LegalRun(clock, {}, run) && k < |run|
    ensures Covered(exp, StateAt(exp, run, k), run[k].at)
    decreases k
  {
    if k > 0 {
      var s := StateAt(exp, run, k - 1);
      CoveredAt(exp, clock, run, k - 1);
      AgreeAt(exp, clock, run, k - 1);
      LegalAt(clock, {}, run, k - 1);
      LegalAt(clock, {}, run, k);
      RunNext(exp, EMPTY, run, k - 1);
      CoveredStep(exp, s, run[k - 1], IssuedBy(run, k - 1));
    }
  }

  // --- what a pair says about cache and rows ---

  /** A cached access token leads to the row that holds its refresh token. */
  lemma CachedPair(exp: int, clock: int, run: seq<Event>, p: nat, k: nat, access: Token, refresh: Token)
    requires R.LegalRun(clock, {}, run) && p < k < |run| && Generates(run[p].op, access, refresh)
    requires IsLive(StateAt(exp, run, k).access, Hash(access), run[k].at)
    ensures
      var s := StateAt(exp, run, k);
      var id := s.access[Hash(access)].value.id;
      && id in s.rows && s.rows[id].refreshHash == Hash(refresh)
      && IsLive(s.ids, id, run[k].at) && s.ids[id].value == Hash(access)
  {
    var s := StateAt(exp, run, k);
    var token := s.access[Hash(access)].value.token;
    AgreeAt(exp, clock, run, k);
    CachePairedAt(exp, run, k);
    var q :| 0 <= q < k && Generates(run[q].op, token.access, token.refresh);
    GeneratedOnce(clock, run, p, q, access);
  }

  /** A row that holds the refresh token is cached under the access token of the pair, or not at
      all. */
  lemma RowPair(exp: int, clock: int, run: seq<Event>, p: nat, k: nat, access: Token, refresh: Token, id: nat)
    requires R.LegalRun(clock, {}, run) && p < k < |run| && Generates(run[p].op, access, refresh)
    requires
      var s := StateAt(exp, run, k);
      id in s.rows && s.rows[id].refreshHash == Hash(refresh) && IsLive(s.ids, id, run[k].at)
    ensures IsLive(StateAt(exp, run, k).access, Hash(access), run[k].at)
  {
    var s := StateAt(exp, run, k);
    AgreeAt(exp, clock, run, k);
    var h := s.ids[id].value;
    assert IsLive(s.access, h, run[k].at) && s.access[h].value.id == id;
    var token := s.access[h].value.token;
    CachePairedAt(exp, run, k);
    var q :| 0 <= q < k && Generates(run[q].op, token.access, token.refresh);
    GeneratedOnce(clock, run, p, q, refresh);
  }

  // --- tokens that are gone ---

  lemma AccessGoneStep(exp: int, s: State, e: Event, access: Token, later: int)
    requires !IsLive(s.access, Hash(access), e.at) && access !in R.NewTokens(e.op) && e.at <= later
    ensures !IsLive(Step(exp, s, e).0.access, Hash(access), later)
  {
    assert (e.op.Create? || e.op.Refresh?) ==> e.op.newAccess in R.NewTokens(e.op);
  }

  /** An access token that is not in the cache never comes back. */
  lemma {:induction false} AccessGoneLater(exp: int, clock: int, run: seq<Event>, i: nat, j: nat, access: Token)
    requires R.LegalRun(clock, {}, run) && i < j < |run| && access in IssuedBy(run, i + 1)
    requires !IsLive(StateAt(exp, run, i + 1).access, Hash(access), run[i].at)
    ensures !IsLive(StateAt(exp, run, j).access, Hash(access), run[j].at)
    decreases j
  {
    if i + 1 == j {
      LegalAt(clock, {}, run, j);
    } else {
      AccessGoneLater(exp, clock, run, i, j - 1, access);
      NotNewAgain(clock, run, i + 1, j - 1, access);
      RunNext(exp, EMPTY, run, j - 1);
      AccessGoneStep(exp, StateAt(exp, run, j - 1), run[j - 1], access, run[j].at);
    }
  }

  /** Every row with the refresh token is revoked, or has expired and is no longer cached. */
  ghost predicate RefreshGone(s: State, refresh: Token, now: int) {
    forall id :: id in s.rows && s.rows[id].refreshHash == Hash(refresh) ==>
      s.rows[id].revoked || (s.rows[id].expiresAt < now && !IsLive(s.ids, id, now))
  }

  lemma RefreshGoneStep(exp: int, s: State, e: Event, refresh: Token, later: int)
    requires Inverse(s, e.at, {}) && RefreshGone(s, refresh, e.at)
    requires refresh !in R.NewTokens(e.op) && e.at <= later
    ensures RefreshGone(Step(exp, s, e).0, refresh, later)
  {
    var s' := Step(exp, s, e).0;
    assert (e.op.Create? || e.op.Refresh?) ==> e.op.newRefresh in R.NewTokens(e.op);
    forall id | id in s'.rows && s'.rows[id].refreshHash == Hash(refresh) && !s'.rows[id].revoked
      ensures s'.rows[id].expiresAt < later && !IsLive(s'.ids, id, later)
    {
      assert id in s.rows && s.rows[id].refreshHash == Hash(refresh) && !s.rows[id].revoked;
      assert !IsLive(s.ids, id, e.at);
    }
  }

  lemma {:induction false} RefreshGoneLater(exp: int, clock: int, run: seq<Event>, i: nat, j: nat, refresh: Token)
    requires R.LegalRun(clock, {}, run) && i < j < |run| && refresh in IssuedBy(run, i + 1)
    requires RefreshGone(StateAt(exp, run, i + 1), refresh, run[i].at)
    ensures RefreshGone(StateAt(exp, run, j), refresh, run[j].at)
    decreases j
  {
    if i + 1 == j {
      LegalAt(clock, {}, run, j);
    } else {
      RefreshGoneLater(exp, clock, run, i, j - 1, refresh);
      NotNewAgain(clock, run, i + 1, j - 1, refresh);
      RefreshGoneNext(exp, clock, run, j - 1, refresh);
    }
  }

  lemma RefreshGoneNext(exp: int, clock: int, run: seq<Event>, k: nat, refresh: Token)
    requires R.LegalRun(clock, {}, run) && k + 1 < |run| && RefreshGone(StateAt(exp, run, k), refresh, run[k].at)
    requires refresh !in R.NewTokens(run[k].op) && run[k].at <= run[k + 1].at
    ensures RefreshGone(StateAt(exp, run, k + 1), refresh, run[k + 1].at)
  {
    RunNext(exp, EMPTY, run, k);
    AgreeAt(exp, clock, run, k);
    RefreshGoneStep(exp, StateAt(exp, run, k), run[k], refresh, run[k + 1].at);
  }

  /** From the state after event i on, both tokens are denied. */
  lemma BothDenied(exp: int, clock: int, run: seq<Event>, i: nat, j: nat, access: Token, refresh: Token)
    requires R.LegalRun(clock, {}, run) && i < j < |run|
    requires access in IssuedBy(run, i + 1) && refresh in IssuedBy(run, i + 1)
    requires !IsLive(StateAt(exp, run, i + 1).access, Hash(access), run[i].at)
    requires RefreshGone(StateAt(exp, run, i + 1), refresh, run[i].at)
    ensures Denies(exp, run, j, access, refresh)
  {
    AccessGoneLater(exp, clock, run, i, j, access);
    RefreshDenied(exp, clock, run, i, j, refresh);
    AnswerIsStep(exp, EMPTY, run, j);
  }

  lemma RefreshDenied(exp: int, clock: int, run: seq<Event>, i: nat, j: nat, refresh: Token)
    requires R.LegalRun(clock, {}, run) && i < j < |run| && refresh in IssuedBy(run, i + 1)
    requires RefreshGone(StateAt(exp, run, i + 1), refresh, run[i].at)
    ensures run[j].op.Refresh? && run[j].op.token == refresh ==> Answers(exp, run)[j].Denied?
  {
    RefreshGoneLater(exp, clock, run, i, j, refresh);
    AnswerIsStep(exp, EMPTY, run, j);
  }

  /** If event j presents one of the two tokens, it is denied. */
  ghost predicate Denies(exp: int, run: seq<Event>, j: nat, access: Token, refresh: Token)
    requires j < |run|
  {
    && (run[j].op == FindByToken(access) ==> Answers(exp, run)[j].Denied?)
    && (run[j].op.Refresh? && run[j].op.token == refresh ==> Answers(exp, run)[j].Denied?)
  }

  // --- main results ---

  /** Once refused, an access token that had been issued is refused for the rest of the run. */
  lemma RefusedStaysRefused(exp: int, clock: int, run: seq<Event>, i: nat, j: nat, token: Token)
    requires R.LegalRun(clock, {}, run) && i < j < |run| && token in IssuedBy(run, i)
    requires run[i].op == FindByToken(token) && run[j].op == FindByToken(token)
    requires Answers(exp, run)[i].Denied?
    ensures Answers(exp, run)[j].Denied?
  {
    AnswerIsStep(exp, EMPTY, run, i);
    RunNext(exp, EMPTY, run, i);
    IssuedNext(run, i);
    AccessGoneLater(exp, clock, run, i, j, token);
    AnswerIsStep(exp, EMPTY, run, j);
  }

  /** A refresh that succeeds leaves no row with the refresh token it was given. */
  lemma RefreshRotates(exp: int, s: State, e: Event)
    requires UniqueRefresh(s.rows) && e.op.Refresh? && e.op.newRefresh != e.op.token && Step(exp, s, e).1.Issued?
    ensures RefreshGone(Step(exp, s, e).0, e.op.token, e.at)
  {
    var id := FindByRefreshHash(s.rows, Hash(e.op.token)).value;
    assert Step(exp, s, e).0.rows[id].refreshHash == Hash(e.op.newRefresh);
  }

  lemma AfterRefresh(exp: int, clock: int, run: seq<Event>, p: nat, i: nat, access: Token, refresh: Token)
    requires R.LegalRun(clock, {}, run) && p < i < |run| && Generates(run[p].op, access, refresh)
    requires run[i].op.Refresh? && run[i].op.token == refresh && Answers(exp, run)[i].Issued?
    ensures !IsLive(StateAt(exp, run, i + 1).access, Hash(access), run[i].at)
    ensures RefreshGone(StateAt(exp, run, i + 1), refresh, run[i].at)
  {
    var s, e := StateAt(exp, run, i), run[i];
    AnswerIsStep(exp, EMPTY, run, i);
    RunNext(exp, EMPTY, run, i);
    AgreeAt(exp, clock, run, i);
    IssuedWhenGenerated(run, p, i, access, refresh);
    NotNewAgain(clock, run, i, i, access);
    NotNewAgain(clock, run, i, i, refresh);
    assert e.op.newAccess in R.NewTokens(e.op) && e.op.newRefresh in R.NewTokens(e.op);
    RefreshRotates(exp, s, e);
    var id := FindByRefreshHash(s.rows, Hash(refresh)).value;
    if IsLive(s.access, Hash(access), e.at) {
      CachedPair(exp, clock, run, p, i, access, refresh);
      assert s.access[Hash(access)].value.id == id;
      R.PurgeOne(s, e.at, id);
    }
  }

  /** After a successful refresh, the access token and the refresh token of the old pair are
      denied for the rest of the run. */
  lemma RefreshRetiresOldPair(
    exp: int, clock: int, run: seq<Event>, p: nat, i: nat, j: nat, access: Token, refresh: Token)
    requires R.LegalRun(clock, {}, run) && p < i < j < |run| && Generates(run[p].op, access, refresh)
    requires run[i].op.Refresh? && run[i].op.token == refresh && Answers(exp, run)[i].Issued?
    ensures Denies(exp, run, j, access, refresh)
  {
    AfterRefresh(exp, clock, run, p, i, access, refresh);
    IssuedWhenGenerated(run, p, i + 1, access, refresh);
    BothDenied(exp, clock, run, i, j, access, refresh);
  }

  /** No refresh token is accepted twice in a run. */
  lemma RefreshTokensAreSingleUse(exp: int, clock: int, run: seq<Event>, i: nat, j: nat)
    requires R.LegalRun(clock, {}, run) && i < j < |run|
    requires run[i].op.Refresh? && run[j].op.Refresh? && run[i].op.token == run[j].op.token
    ensures !(Answers(exp, run)[i].Issued? && Answers(exp, run)[j].Issued?)
  {
    if Answers(exp, run)[i].Issued? {
      var s, e, refresh := StateAt(exp, run, i), run[i], run[i].op.token;
      AnswerIsStep(exp, EMPTY, run, i);
      RunNext(exp, EMPTY, run, i);
      AgreeAt(exp, clock, run, i);
      assert refresh in IssuedBy(run, i);
      NotNewAgain(clock, run, i, i, refresh);
      assert e.op.newRefresh in R.NewTokens(e.op);
      IssuedNext(run, i);
      RefreshRotates(exp, s, e);
      RefreshDenied(exp, clock, run, i, j, refresh);
    }
  }

  /** The instant is exactly the expiry of an unrevoked row that holds the refresh token. */
  ghost predicate ExpiresNow(rows: map<nat, Row>, refresh: Token, now: int) {
    exists id :: id in rows && rows[id].refreshHash == Hash(refresh) && !rows[id].revoked && rows[id].expiresAt == now
  }

  lemma AfterRevoke(exp: int, clock: int, run: seq<Event>, p: nat, i: nat, access: Token, refresh: Token)
    requires R.LegalRun(clock, {}, run) && p < i < |run| && Generates(run[p].op, access, refresh)
    requires run[i].op == Revoke(access) && IsLive(StateAt(exp, run, i).access, Hash(access), run[i].at)
    ensures !IsLive(StateAt(exp, run, i + 1).access, Hash(access), run[i].at)
    ensures RefreshGone(StateAt(exp, run, i + 1), refresh, run[i].at)
  {
    RunNext(exp, EMPTY, run, i);
    AgreeAt(exp, clock, run, i);
    CachedPair(exp, clock, run, p, i, access, refresh);
  }

  /** With no live entry and no expiry at this instant, the pair is gone already. */
  lemma GoneAlready(exp: int, clock: int, run: seq<Event>, p: nat, i: nat, access: Token, refresh: Token)
    requires R.LegalRun(clock, {}, run) && p < i < |run| && Generates(run[p].op, access, refresh)
    requires !IsLive(StateAt(exp, run, i).access, Hash(access), run[i].at)
    requires !ExpiresNow(StateAt(exp, run, i).rows, refresh, run[i].at)
    ensures RefreshGone(StateAt(exp, run, i), refresh, run[i].at)
  {
    var s, now := StateAt(exp, run, i), run[i].at;
    CoveredAt(exp, clock, run, i);
    forall id | id in s.rows && s.rows[id].refreshHash == Hash(refresh) && !s.rows[id].revoked
      ensures s.rows[id].expiresAt < now && !IsLive(s.ids, id, now)
    {
      if IsLive(s.ids, id, now) {
        RowPair(exp, clock, run, p, i, access, refresh, id);
      }
      assert !IsActive(s.rows[id], now);
    }
  }

  /** After Revoke of an access token, neither token of its pair works again, unless the token
      was not cached and the session expired at that very instant. */
  lemma RevokeIsFinal(
    exp: int, clock: int, run: seq<Event>, p: nat, i: nat, j: nat, access: Token, refresh: Token)
    requires R.LegalRun(clock, {}, run) && p < i < j < |run|
    requires Generates(run[p].op, access, refresh) && run[i].op == Revoke(access)
    requires
      var s := StateAt(exp, run, i);
      IsLive(s.access, Hash(access), run[i].at) || !ExpiresNow(s.rows, refresh, run[i].at)
    ensures Denies(exp, run, j, access, refresh)
  {
    if IsLive(StateAt(exp, run, i).access, Hash(access), run[i].at) {
      AfterRevoke(exp, clock, run, p, i, access, refresh);
    } else {
      GoneAlready(exp, clock, run, p, i, access, refresh);
      RunNext(exp, EMPTY, run, i);
    }
    IssuedWhenGenerated(run, p, i + 1, access, refresh);
    BothDenied(exp, clock, run, i, j, access, refresh);
  }

  /** In the excepted case Revoke does nothing, while Refresh still accepts the row: refreshing
      next succeeds. So the exception is exact. */
  lemma RevokeAtExpiryLeavesRefresh(
    exp: int, clock: int, run: seq<Event>, access: Token, refresh: Token, newAccess: Token, newRefresh: Token)
    requires R.LegalRun(clock, {}, run) && run != [] && run[|run| - 1].op == Revoke(access)
    requires
      var s, now := StateAt(exp, run, |run| - 1), run[|run| - 1].at;
      !IsLive(s.access, Hash(access), now) && ExpiresNow(s.rows, refresh, now)
    requires {newAccess, newRefresh} !! IssuedBy(run, |run|)
    ensures
      var next := run + [Event(run[|run| - 1].at, Refresh(refresh, newAccess, newRefresh))];
      R.LegalRun(clock, {}, next) && Answers(exp, next)[|run|].Issued?
  {
    var i, s := |run| - 1, StateAt(exp, run, |run| - 1);
    var e := Event(run[i].at, Refresh(refresh, newAccess, newRefresh));
    AgreeAt(exp, clock, run, i);
    RunNext(exp, EMPTY, run, i);
    assert StateAt(exp, run, |run|) == s;
    LegalAppend(clock, {}, run, e);
    AnswerIsStep(exp, EMPTY, run + [e], |run|);
    assert (run + [e])[..|run|] == run == run[..|run|];
    assert (run + [e])[|run|] == e;
    IssuedNext(run, i);
    assert forall id :: id in s.rows ==> s.rows[id].refreshHash.raw in IssuedBy(run, |run|);
    RefreshIssues(exp, s, e);
  }

  lemma RefreshIssues(exp: int, s: State, e: Event)
    requires UniqueRefresh(s.rows) && e.op.Refresh? && ExpiresNow(s.rows, e.op.token, e.at)
    requires !RefreshTaken(s.rows, Hash(e.op.newRefresh))
    ensures Step(exp, s, e).1.Issued?
  {
    var id :| id in s.rows && s.rows[id].refreshHash == Hash(e.op.token) && !s.rows[id].revoked
      && s.rows[id].expiresAt == e.at;
    assert FindByRefreshHash(s.rows, Hash(e.op.token)) == Some(id);
  }

  // --- revoking everything ---

  /** Every revoke-all among the first k events reached all the cached sessions it should. */
  ghost predicate ScansReached(exp: int, run: seq<Event>, k: nat)
    requires k <= |run|
  {
    forall m :: 0 <= m < k ==> ScanMet(StateAt(exp, run, m), run[m])
  }

  lemma {:induction false} SoundAt(exp: int, clock: int, run: seq<Event>, k: nat)
    requires R.LegalRun(clock, {}, run) && k < |run| && ScansReached(exp, run, k)
    ensures Sound(StateAt(exp, run, k), run[k].at)
    decreases k
  {
    if k > 0 {
      SoundAt(exp, clock, run, k - 1);
      SoundAfter(exp, clock, run, k - 1);
      LegalAt(clock, {}, run, k);
      SoundLater(StateAt(exp, run, k), run[k - 1].at, run[k].at);
    }
  }

  lemma SoundAfter(exp: int, clock: int, run: seq<Event>, k: nat)
    requires R.LegalRun(clock, {}, run) && k < |run| && ScanMet(StateAt(exp, run, k), run[k])
    requires Sound(StateAt(exp, run, k), run[k].at)
    ensures Sound(StateAt(exp, run, k + 1), run[k].at)
  {
    AgreeAt(exp, clock, run, k);
    SoundStepIff(exp, StateAt(exp, run, k), run[k], IssuedBy(run, k));
    RunNext(exp, EMPTY, run, k);
  }

  /** Without SwitchUser they always do. */
  lemma TimedScansReached(exp: int, clock: int, run: seq<Event>, k: nat)
    requires R.LegalRun(clock, {}, run) && R.NoSwitch(run) && k <= |run|
    ensures ScansReached(exp, run, k)
  {
    forall m | 0 <= m < k ensures ScanMet(StateAt(exp, run, m), run[m]) {
      SimAt(exp, clock, run, m);
      ReachedWhenLinked(StateAt(exp, run, m), TableAt(exp, R.NO_SESSIONS, run, m), run[m].at);
    }
  }

  lemma ReachedWhenLinked(s: State, t: R.Table, now: int)
    requires R.Sim(s, t, now)
    ensures forall revoked :: ScanReaches(s, now, revoked)
  {
    forall h | IsLive(s.access, h, now)
      ensures s.access[h].value.id in s.rows && now < s.rows[s.access[h].value.id].expiresAt
    {
      assert R.Explained(s, t, now, h);
    }
  }

  /** After RevokeAll, no refresh token issued before it works again, and no access token if the
      scans so far reached what they should, as they always do without SwitchUser. */
  lemma RevokeAllIsFinal(exp: int, clock: int, run: seq<Event>, i: nat, j: nat, token: Token)
    requires R.LegalRun(clock, {}, run) && i < j < |run| && run[i].op.RevokeAll? && token in IssuedBy(run, i)
    ensures run[j].op.Refresh? && run[j].op.token == token ==> Answers(exp, run)[j].Denied?
    ensures (R.NoSwitch(run) || ScansReached(exp, run, i + 1)) && run[j].op == FindByToken(token) ==>
      Answers(exp, run)[j].Denied?
  {
    RunNext(exp, EMPTY, run, i);
    IssuedNext(run, i);
    RefreshDenied(exp, clock, run, i, j, token);
    if R.NoSwitch(run) || ScansReached(exp, run, i + 1) {
      if R.NoSwitch(run) {
        TimedScansReached(exp, clock, run, i + 1);
      }
      SoundAt(exp, clock, run, i);
      SoundAfter(exp, clock, run, i);
      AccessGoneLater(exp, clock, run, i, j, token);
      AnswerIsStep(exp, EMPTY, run, j);
    }
  }

  /** After RevokeAllForUser, the current refresh token of each of the account's rows never works
      again, and neither does the access token of its pair under the same condition, whether or
      not the row had expired when the scan ran. */
  lemma RevokeAllForUserIsFinal(
    exp: int, clock: int, run: seq<Event>, p: nat, i: nat, j: nat, id: nat, access: Token, refresh: Token)
    requires R.LegalRun(clock, {}, run) && p < i < j < |run|
    requires Generates(run[p].op, access, refresh) && run[i].op.RevokeAllForUser?
    requires
      var rows := StateAt(exp, run, i).rows;
      id in rows && rows[id].account == run[i].op.account && rows[id].refreshHash == Hash(refresh)
    ensures run[j].op.Refresh? && run[j].op.token == refresh ==> Answers(exp, run)[j].Denied?
    ensures (R.NoSwitch(run) || ScansReached(exp, run, i + 1)) && run[j].op == FindByToken(access) ==>
      Answers(exp, run)[j].Denied?
  {
    AgreeAt(exp, clock, run, i);
    RunNext(exp, EMPTY, run, i);
    IssuedWhenGenerated(run, p, i + 1, access, refresh);
    RefreshDenied(exp, clock, run, i, j, refresh);
    if R.NoSwitch(run) || ScansReached(exp, run, i + 1) {
      if R.NoSwitch(run) {
        TimedScansReached(exp, clock, run, i + 1);
      }
      SoundAt(exp, clock, run, i);
      SoundAfter(exp, clock, run, i);
      AccountAccessGone(exp, clock, run, p, i, id, access, refresh);
      AccessGoneLater(exp, clock, run, i, j, access);
      AnswerIsStep(exp, EMPTY, run, j);
    }
  }

  lemma AccountAccessGone(
    exp: int, clock: int, run: seq<Event>, p: nat, i: nat, id: nat, access: Token, refresh: Token)
    requires R.LegalRun(clock, {}, run) && p < i < |run|
    requires Generates(run[p].op, access, refresh) && run[i].op.RevokeAllForUser?
    requires
      var rows := StateAt(exp, run, i).rows;
      id in rows && rows[id].account == run[i].op.account && rows[id].refreshHash == Hash(refresh)
    requires Sound(StateAt(exp, run, i + 1), run[i].at)
    ensures !IsLive(StateAt(exp, run, i + 1).access, Hash(access), run[i].at)
  {
    var s := StateAt(exp, run, i);
    AgreeAt(exp, clock, run, i);
    RunNext(exp, EMPTY, run, i);
    if IsLive(s.access, Hash(access), run[i].at) {
      CachedPair(exp, clock, run, p, i, access, refresh);
      assert s.access[Hash(access)].value.id == id;
    }
  }
}
