/** What SwitchUser does to the row and to later answers, over runs of all seven operations. */
module SessionSwitching {
  import opened Common
  import opened SessionSpec
  import opened SessionGuarantees
  import opened SessionFinality
  import A = SessionAgreement
  import R = SessionRefinement

  /** The token is in the cache and its entry has not expired. */
  ghost predicate IsCached(s: State, token: Token, now: int) {
    Hash(token) in s.access && now < s.access[Hash(token)].expiry
  }

  ghost predicate Switched(exp: int, s: State, s': State, now: int, token: Token, user: nat)
    requires Hash(token) in s.access
  {
    var session := s.access[Hash(token)].value;
    && session.id in s.rows && s'.nextId == s.nextId
    && s'.rows == s.rows[session.id := s.rows[session.id].(user := user)]
    && s'.access == s.access[Hash(token) := Entry(session.(user := user), now + exp)]
    && s'.ids == s.ids[session.id := Entry(Hash(token), now + exp)]
  }

  lemma SwitchStep(exp: int, s: State, e: Event)
    requires e.op.SwitchUser?
    requires IsCached(s, e.op.token, e.at) ==> s.access[Hash(e.op.token)].value.id in s.rows
    ensures
      var (s', answer) := Step(exp, s, e);
      if IsCached(s, e.op.token, e.at) then answer == Done && Switched(exp, s, s', e.at, e.op.token, e.op.user)
      else answer == Denied(ErrSessionNotFound) && s' == s
  {
  }

  /** SwitchUser answers Done exactly for a cached token; then the row of the token's session has
      the new user, its other columns and all other rows are as before, and the two cache keys of
      the session are renewed with the new user. Otherwise nothing changes. */
  lemma SwitchOutcome(exp: int, clock: int, run: seq<Event>, i: nat, token: Token, user: nat)
    requires R.LegalRun(clock, {}, run) && i < |run| && run[i].op == SwitchUser(token, user)
    ensures
      var s, s', now := StateAt(exp, run, i), StateAt(exp, run, i + 1), run[i].at;
      if IsCached(s, token, now) then Answers(exp, run)[i] == Done && Switched(exp, s, s', now, token, user)
      else Answers(exp, run)[i] == Denied(ErrSessionNotFound) && s' == s
  {
    AnswerIsStep(exp, EMPTY, run, i);
    RunNext(exp, EMPTY, run, i);
    AgreeAt(exp, clock, run, i);
    SwitchStep(exp, StateAt(exp, run, i), run[i]);
  }

  /** While it is cached, the token's session has this user. */
  ghost predicate CachedAs(s: State, token: Token, user: nat, now: int) {
    IsCached(s, token, now) ==> s.access[Hash(token)].value.user == user
  }

  lemma CachedAsStep(exp: int, s: State, e: Event, token: Token, user: nat, later: int)
    requires CachedAs(s, token, user, e.at) && token !in R.NewTokens(e.op) && e.at <= later
    requires !(e.op.SwitchUser? && e.op.token == token)
    ensures CachedAs(Step(exp, s, e).0, token, user, later)
  {
    assert (e.op.Create? || e.op.Refresh?) ==> e.op.newAccess in R.NewTokens(e.op);
  }

  ghost predicate NoSwitchOf(run: seq<Event>, i: nat, j: nat, token: Token) {
    forall m :: i < m < j && m < |run| ==> !(run[m].op.SwitchUser? && run[m].op.token == token)
  }

  lemma {:induction false} CachedAsLater(
    exp: int, clock: int, run: seq<Event>, i: nat, j: nat, token: Token, user: nat)
    requires R.LegalRun(clock, {}, run) && i < j < |run| && token in IssuedBy(run, i)
    requires NoSwitchOf(run, i, j, token) && CachedAs(StateAt(exp, run, i + 1), token, user, run[i].at)
    ensures CachedAs(StateAt(exp, run, j), token, user, run[j].at)
    decreases j
  {
    if i + 1 == j {
      LegalAt(clock, {}, run, j);
    } else {
      CachedAsLater(exp, clock, run, i, j - 1, token, user);
      NotNewAgain(clock, run, i, j - 1, token);
      RunNext(exp, EMPTY, run, j - 1);
      CachedAsStep(exp, StateAt(exp, run, j - 1), run[j - 1], token, user, run[j].at);
    }
  }

  /** After a successful SwitchUser and until the next one of the same token, every session that
      FindByToken returns for the token has the new user. */
  lemma FoundAsSwitched(exp: int, clock: int, run: seq<Event>, i: nat, j: nat, token: Token, user: nat)
    requires R.LegalRun(clock, {}, run) && i < j < |run| && NoSwitchOf(run, i, j, token)
    requires run[i].op == SwitchUser(token, user) && Answers(exp, run)[i] == Done
    requires run[j].op == FindByToken(token) && Answers(exp, run)[j].Found?
    ensures Answers(exp, run)[j].session.user == user
  {
    SwitchOutcome(exp, clock, run, i, token, user);
    AgreeAt(exp, clock, run, i);
    assert Hash(token).raw in IssuedBy(run, i);
    CachedAsLater(exp, clock, run, i, j, token, user);
    AnswerIsStep(exp, EMPTY, run, j);
  }

  /** Whatever FindByToken returns agrees with its row, SwitchUser or not. */
  lemma FoundMirrorsRow(exp: int, clock: int, run: seq<Event>, k: nat, token: Token)
    requires R.LegalRun(clock, {}, run) && k < |run|
    requires run[k].op == FindByToken(token) && Answers(exp, run)[k].Found?
    ensures
      var rows, session := StateAt(exp, run, k).rows, Answers(exp, run)[k].session;
      && session.id in rows && session.account == rows[session.id].account && session.user == rows[session.id].user
      && session.device == rows[session.id].device && session.createdAt == rows[session.id].createdAt
      && session.token.access == token && Hash(session.token.refresh) == rows[session.id].refreshHash
  {
    AgreeAt(exp, clock, run, k);
    AnswerIsStep(exp, EMPTY, run, k);
  }

  lemma UserStep(exp: int, s: State, e: Event, id: nat)
    requires id in s.rows && id < s.nextId
    ensures
      var s' := Step(exp, s, e).0;
      && id in s'.rows
      && (s'.rows[id].user != s.rows[id].user ==>
            && e.op.SwitchUser? && s'.rows[id].user == e.op.user && IsCached(s, e.op.token, e.at)
            && s.access[Hash(e.op.token)].value.id == id)
  {
  }

  /** The user of a row changes only by a SwitchUser of a token that is cached for that session. */
  lemma UserChangesBySwitch(exp: int, clock: int, run: seq<Event>, k: nat, id: nat)
    requires R.LegalRun(clock, {}, run) && k < |run| && id in StateAt(exp, run, k).rows
    ensures
      var s, s', e := StateAt(exp, run, k), StateAt(exp, run, k + 1), run[k];
      && id in s'.rows
      && (s'.rows[id].user != s.rows[id].user ==>
            && e.op.SwitchUser? && s'.rows[id].user == e.op.user && IsCached(s, e.op.token, e.at)
            && s.access[Hash(e.op.token)].value.id == id)
  {
    RunNext(exp, EMPTY, run, k);
    AgreeAt(exp, clock, run, k);
    UserStep(exp, StateAt(exp, run, k), run[k], id);
  }
}
