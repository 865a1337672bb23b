/** Runs of the session manager, and what FindByToken's answers say about the rows although it
    never reads them. Everything here is about the answers of the two-place implementation; the
    proofs go through the table. */
module SessionGuarantees {
  import opened Common
  import opened SessionSpec
  import opened SessionRefinement

  /** The answers given during a run that starts with no sessions. */
  ghost function Answers(exp: int, run: seq<Event>): (r: seq<Response>)
    ensures |r| == |run|
  {
    Run(exp, EMPTY, run).1
  }

  /** The cache and the rows after the first k events of a run that starts with no sessions. */
  ghost function StateAt(exp: int, run: seq<Event>, k: nat): State
    requires k <= |run|
  {
    Run(exp, EMPTY, run[..k]).0
  }

  /** The single table after the first k events of a run. */
  ghost function TableAt(exp: int, t: Table, run: seq<Event>, k: nat): Table
    requires k <= |run|
    decreases k
  {
    if k == 0 then t else TableAt(exp, TableStep(exp, t, run[0]).0, run[1..], k - 1)
  }

  function IssuedBy(run: seq<Event>, k: nat): set<Token>
    requires k <= |run|
  {
    set i, token | 0 <= i < k && token in NewTokens(run[i].op) :: token
  }

  predicate Generates(op: Op, access: Token, refresh: Token) {
    (op.Create? || op.Refresh?) && op.newAccess == access && op.newRefresh == refresh
  }

  // --- walking along a run ---

  lemma {:induction false} AnswerAt(exp: int, t: Table, run: seq<Event>, k: nat)
    requires k < |run|
    ensures TableRun(exp, t, run).1[k] == TableStep(exp, TableAt(exp, t, run, k), run[k]).1
    decreases k
  {
    if k > 0 {
      AnswerAt(exp, TableStep(exp, t, run[0]).0, run[1..], k - 1);
    }
  }

  lemma {:induction false} TableAtNext(exp: int, t: Table, run: seq<Event>, k: nat)
    requires k < |run|
    ensures TableAt(exp, t, run, k + 1) == TableStep(exp, TableAt(exp, t, run, k), run[k]).0
    decreases k
  {
    if k > 0 {
      TableAtNext(exp, TableStep(exp, t, run[0]).0, run[1..], k - 1);
    }
  }

  lemma {:induction false} LegalAt(clock: int, issued: set<Token>, run: seq<Event>, k: nat)
    requires LegalRun(clock, issued, run) && k < |run|
    ensures NewTokens(run[k].op) !! issued + IssuedBy(run, k)
    ensures clock <= run[k].at
    ensures k > 0 ==> run[k - 1].at <= run[k].at
    decreases k
  {
    if k > 0 {
      var first := NewTokens(run[0].op);
      LegalAt(run[0].at, issued + first, run[1..], k - 1);
      forall token | token in IssuedBy(run, k) ensures token in first + IssuedBy(run[1..], k - 1) {
        var i :| 0 <= i < k && token in NewTokens(run[i].op);
        if i > 0 {
          assert token in NewTokens(run[1..][i - 1].op);
        }
      }
    }
  }

  /** What was issued before is not generated again. */
  lemma NotNewAgain(clock: int, run: seq<Event>, i: nat, k: nat, token: Token)
    requires LegalRun(clock, {}, run) && i <= k < |run| && token in IssuedBy(run, i)
    ensures token !in NewTokens(run[k].op)
    ensures k + 1 < |run| ==> run[k].at <= run[k + 1].at
  {
    var g :| 0 <= g < i && token in NewTokens(run[g].op);
    LegalAt(clock, {}, run, k);
    assert token in IssuedBy(run, k);
    if k + 1 < |run| {
      LegalAt(clock, {}, run, k + 1);
    }
  }

  lemma IssuedNext(run: seq<Event>, k: nat)
    requires k < |run|
    ensures IssuedBy(run, k + 1) == IssuedBy(run, k) + NewTokens(run[k].op)
  {
  }

  lemma {:induction false} TableOkAt(exp: int, clock: int, run: seq<Event>, k: nat)
    requires LegalRun(clock, {}, run) && k <= |run|
    ensures TableOk(TableAt(exp, NO_SESSIONS, run, k), IssuedBy(run, k))
    decreases k
  {
    if k > 0 {
      TableOkAt(exp, clock, run, k - 1);
      LegalAt(clock, {}, run, k - 1);
      TableOkStep(exp, TableAt(exp, NO_SESSIONS, run, k - 1), run[k - 1], IssuedBy(run, k - 1));
      TableAtNext(exp, NO_SESSIONS, run, k - 1);
      IssuedNext(run, k - 1);
    }
  }

  lemma {:induction false} RunNext(exp: int, s: State, run: seq<Event>, k: nat)
    requires k < |run|
    ensures Run(exp, s, run[..k + 1]).0 == Step(exp, Run(exp, s, run[..k]).0, run[k]).0
    decreases k
  {
    if k == 0 {
      assert run[..1][1..] == [];
    } else {
      assert run[..k + 1][1..] == run[1..][..k] && run[..k][1..] == run[1..][..k - 1];
      RunNext(exp, Step(exp, s, run[0]).0, run[1..], k - 1);
    }
  }

  /** The two places and the single table match at every event of a run. */
  lemma {:induction false} SimAt(exp: int, clock: int, run: seq<Event>, k: nat)
    requires LegalRun(clock, {}, run) && NoSwitch(run) && k < |run|
    ensures Sim(StateAt(exp, run, k), TableAt(exp, NO_SESSIONS, run, k), run[k].at)
    decreases k
  {
    if k > 0 {
      SimAt(exp, clock, run, k - 1);
      TableOkAt(exp, clock, run, k - 1);
      LegalAt(clock, {}, run, k - 1);
      LegalAt(clock, {}, run, k);
      TableAtNext(exp, NO_SESSIONS, run, k - 1);
      RunNext(exp, EMPTY, run, k - 1);
      SimNext(exp, StateAt(exp, run, k - 1), TableAt(exp, NO_SESSIONS, run, k - 1), run[k - 1], run[k].at,
              IssuedBy(run, k - 1));
    }
  }

  lemma SimNext(exp: int, s: State, t: Table, e: Event, later: int, issued: set<Token>)
    requires Sim(s, t, e.at) && TableOk(t, issued) && !e.op.SwitchUser? && NewTokens(e.op) !! issued && e.at <= later
    ensures Sim(Step(exp, s, e).0, TableStep(exp, t, e).0, later)
  {
    SimStep(exp, s, t, e, issued);
    SimLater(Step(exp, s, e).0, TableStep(exp, t, e).0, e.at, later);
  }

  lemma AnswerFromTable(exp: int, clock: int, run: seq<Event>, k: nat)
    requires LegalRun(clock, {}, run) && NoSwitch(run) && k < |run|
    ensures Answers(exp, run)[k] == TableStep(exp, TableAt(exp, NO_SESSIONS, run, k), run[k]).1
  {
    CacheRefinesTable(exp, clock, run);
    AnswerAt(exp, NO_SESSIONS, run, k);
  }

  // --- main results ---

  /** The row is active and holds the refresh token that op generated together with token. */
  predicate Backs(row: Row, op: Op, token: Token, now: int) {
    && (op.Create? || op.Refresh?) && op.newAccess == token
    && row.refreshHash == Hash(op.newRefresh) && IsActive(row, now)
  }

  /** The active rows decide: FindByToken, which never reads them, accepts a token exactly when
      some row that is neither revoked nor expired holds the refresh token generated with it. */
  lemma AcceptedIffRowIsActive(exp: int, clock: int, run: seq<Event>, k: nat, token: Token)
    requires LegalRun(clock, {}, run) && NoSwitch(run) && k < |run| && run[k].op == FindByToken(token)
    ensures
      var rows := StateAt(exp, run, k).rows;
      Answers(exp, run)[k].Found? <==>
        exists id, p :: id in rows && 0 <= p < k && Backs(rows[id], run[p].op, token, run[k].at)
  {
    var s, t := StateAt(exp, run, k), TableAt(exp, NO_SESSIONS, run, k);
    AnswerFromTable(exp, clock, run, k);
    SimAt(exp, clock, run, k);
    PairedAt(exp, run, k);
    if Answers(exp, run)[k].Found? {
      var id := Holder(t, token, run[k].at).value;
      var p :| 0 <= p < k && Generates(run[p].op, t.slots[id].access, t.slots[id].refresh);
      assert s.rows[id] == RowOf(t.slots[id]) && Backs(s.rows[id], run[p].op, token, run[k].at);
    }
    if id, p :| id in s.rows && 0 <= p < k && Backs(s.rows[id], run[p].op, token, run[k].at) {
      SlotOfPair(exp, clock, run, p, k, id, token, run[p].op.newRefresh);
      assert Accepts(t, token, run[k].at, id);
    }
  }

  /** A row holding the refresh token of a pair stands for the slot with the whole pair. */
  lemma SlotOfPair(exp: int, clock: int, run: seq<Event>, p: nat, k: nat, id: nat, access: Token, refresh: Token)
    requires LegalRun(clock, {}, run) && NoSwitch(run) && p < k < |run| && Generates(run[p].op, access, refresh)
    requires id in StateAt(exp, run, k).rows && StateAt(exp, run, k).rows[id].refreshHash == Hash(refresh)
    ensures
      var t := TableAt(exp, NO_SESSIONS, run, k);
      id in t.slots && t.slots[id].access == access && t.slots[id].refresh == refresh
      && StateAt(exp, run, k).rows[id] == RowOf(t.slots[id])
  {
    var t := TableAt(exp, NO_SESSIONS, run, k);
    SimAt(exp, clock, run, k);
    assert StateAt(exp, run, k).rows[id] == RowOf(t.slots[id]);
    PairedAt(exp, run, k);
    var q :| 0 <= q < k && Generates(run[q].op, t.slots[id].access, t.slots[id].refresh);
    GeneratedOnce(clock, run, p, q, refresh);
  }

  /** Whatever FindByToken returns is a session whose row is neither revoked nor expired, and
      says about it what the row says. */
  lemma FoundMatchesRow(exp: int, clock: int, run: seq<Event>, k: nat, token: Token)
    requires LegalRun(clock, {}, run) && NoSwitch(run) && k < |run|
    requires run[k].op == FindByToken(token) && Answers(exp, run)[k].Found?
    ensures
      var rows, session := StateAt(exp, run, k).rows, Answers(exp, run)[k].session;
      && session.id in rows && IsActive(rows[session.id], run[k].at)
      && rows[session.id].account == session.account && rows[session.id].user == session.user
      && rows[session.id].device == session.device && session.token.access == token
      && Hash(session.token.refresh) == rows[session.id].refreshHash
      && session.token.expiresAt == run[k].at + exp
  {
    AnswerFromTable(exp, clock, run, k);
    SimAt(exp, clock, run, k);
  }

  /** The two tokens of a session are always those of one generated pair. */
  ghost predicate Paired(t: Table, run: seq<Event>, k: nat)
    requires k <= |run|
  {
    forall id :: id in t.slots ==>
      exists p :: 0 <= p < k && Generates(run[p].op, t.slots[id].access, t.slots[id].refresh)
  }

  lemma {:induction false} PairedAt(exp: int, run: seq<Event>, k: nat)
    requires k <= |run|
    ensures Paired(TableAt(exp, NO_SESSIONS, run, k), run, k)
    decreases k
  {
    if k > 0 {
      PairedAt(exp, run, k - 1);
      TableAtNext(exp, NO_SESSIONS, run, k - 1);
      var t, t' := TableAt(exp, NO_SESSIONS, run, k - 1), TableAt(exp, NO_SESSIONS, run, k);
      forall id | id in t'.slots
        ensures exists p :: 0 <= p < k && Generates(run[p].op, t'.slots[id].access, t'.slots[id].refresh)
      {
        if id in t.slots && t'.slots[id].access == t.slots[id].access && t'.slots[id].refresh == t.slots[id].refresh {
          var p :| 0 <= p < k - 1 && Generates(run[p].op, t.slots[id].access, t.slots[id].refresh);
        } else {
          assert Generates(run[k - 1].op, t'.slots[id].access, t'.slots[id].refresh);
        }
      }
    }
  }

  lemma NotGeneratedAgain(clock: int, run: seq<Event>, p: nat, q: nat, token: Token)
    requires LegalRun(clock, {}, run) && p < q < |run| && token in NewTokens(run[p].op)
    ensures token !in NewTokens(run[q].op)
  {
    LegalAt(clock, {}, run, q);
    assert token in IssuedBy(run, q);
  }

  /** Only one event of a legal run generates a given token. */
  lemma GeneratedOnce(clock: int, run: seq<Event>, p: nat, q: nat, token: Token)
    requires LegalRun(clock, {}, run) && p < |run| && q < |run|
    requires token in NewTokens(run[p].op) && token in NewTokens(run[q].op)
    ensures p == q
  {
    if p < q {
      NotGeneratedAgain(clock, run, p, q, token);
    } else if q < p {
      NotGeneratedAgain(clock, run, q, p, token);
    }
  }

  lemma IssuedWhenGenerated(run: seq<Event>, p: nat, k: nat, access: Token, refresh: Token)
    requires p < k <= |run| && Generates(run[p].op, access, refresh)
    ensures access in IssuedBy(run, k) && refresh in IssuedBy(run, k)
  {
    assert access in NewTokens(run[p].op) && refresh in NewTokens(run[p].op);
  }

  lemma {:induction false} LegalAppend(clock: int, issued: set<Token>, run: seq<Event>, e: Event)
    requires LegalRun(clock, issued, run) && (if run == [] then clock else run[|run| - 1].at) <= e.at
    requires NewTokens(e.op) !! issued + IssuedBy(run, |run|)
    ensures LegalRun(clock, issued, run + [e])
    decreases |run|
  {
    if run != [] {
      var first := NewTokens(run[0].op);
      forall token | token in IssuedBy(run[1..], |run| - 1) ensures token in IssuedBy(run, |run|) {
        var i :| 0 <= i < |run| - 1 && token in NewTokens(run[1..][i].op);
        assert token in NewTokens(run[i + 1].op);
      }
      assert forall token :: token in first ==> token in IssuedBy(run, |run|);
      LegalAppend(run[0].at, issued + first, run[1..], e);
      assert (run + [e])[1..] == run[1..] + [e];
    }
  }
}
