/** Walking through a room with before_id, while the table changes between the pages. */
module PagingGuarantees {
  import opened Paging

  // --- one page ---

  /** The row is in the room, not deleted and below the cursor. */
  predicate Shown(m: Message, room: nat, before: int) {
    m.room == room && !m.deleted && m.id < before
  }

  lemma {:induction false} QuerySound(t: Table, room: nat, before: int, limit: nat)
    ensures |QueryBefore(t, room, before, limit)| <= limit
    ensures forall m :: m in QueryBefore(t, room, before, limit) ==> m in t && Matches(m, room, before)
    decreases |t|
  {
    if t != [] && limit > 0 {
      var last, rest := t[|t| - 1], t[..|t| - 1];
      QuerySound(rest, room, before, if Matches(last, room, before) then limit - 1 else limit);
    }
  }

  lemma {:induction false} QueryDescends(t: Table, room: nat, before: int, limit: nat, i: nat, j: nat)
    requires WellNumbered(t) && i < j < |QueryBefore(t, room, before, limit)|
    ensures QueryBefore(t, room, before, limit)[j].id < QueryBefore(t, room, before, limit)[i].id
    decreases |t|
  {
    var last, rest := t[|t| - 1], t[..|t| - 1];
    if !Matches(last, room, before) {
      QueryDescends(rest, room, before, limit, i, j);
    } else if i > 0 {
      QueryDescends(rest, room, before, limit - 1, i - 1, j - 1);
    } else {
      QuerySound(rest, room, before, limit - 1);
      assert QueryBefore(rest, room, before, limit - 1)[j - 1] in rest;
    }
  }

  /** Nothing that matches is left out, except below a full page. */
  lemma {:induction false} QueryComplete(t: Table, room: nat, before: int, limit: nat, m: Message)
    requires WellNumbered(t) && m in t && Matches(m, room, before) && m !in QueryBefore(t, room, before, limit)
    ensures |QueryBefore(t, room, before, limit)| == limit
    ensures forall n :: n in QueryBefore(t, room, before, limit) ==> m.id < n.id
    decreases |t|
  {
    if limit > 0 {
      var last, rest := t[|t| - 1], t[..|t| - 1];
      assert m in rest || m == last;
      assert m in rest ==> m.id < last.id;
      QueryComplete(rest, room, before, if Matches(last, room, before) then limit - 1 else limit, m);
    }
  }

  /** The rows of a page: newest matching ones, strictly ascending, and nothing between them
      and the cursor left out. */
  lemma PageShape(t: Table, room: nat, before: int, limit: nat)
    requires WellNumbered(t)
    ensures
      var p := PageBefore(t, room, before, limit);
      && |p| <= limit
      && (forall m :: m in p ==> m in t && Shown(m, room, before))
      && (forall i, j :: 0 <= i < j < |p| ==> p[i].id < p[j].id)
      && (forall m :: m in t && Shown(m, room, before) && m !in p ==>
            |p| == limit && forall n :: n in p ==> m.id < n.id)
  {
    var q, p := QueryBefore(t, room, before, limit), PageBefore(t, room, before, limit);
    QuerySound(t, room, before, limit);
    forall m ensures m in p <==> m in q {
      if m in p {
        var k :| 0 <= k < |p| && p[k] == m;
        assert q[|q| - 1 - k] == m;
      }
      if m in q {
        var k :| 0 <= k < |q| && q[k] == m;
        assert p[|q| - 1 - k] == m;
      }
    }
    forall i, j | 0 <= i < j < |p| ensures p[i].id < p[j].id {
      QueryDescends(t, room, before, limit, |q| - 1 - j, |q| - 1 - i);
    }
    forall m | m in t && Shown(m, room, before) && m !in p
      ensures |p| == limit && forall n :: n in p ==> m.id < n.id
    {
      QueryComplete(t, room, before, limit, m);
    }
  }

  lemma {:induction false} InfosOfLive(p: seq<Message>, participants: map<nat, nat>)
    requires forall m :: m in p ==> !m.deleted
    ensures |Infos(p, participants)| == |p|
    ensures forall i :: 0 <= i < |p| ==> Infos(p, participants)[i] == InfoOf(p[i], participants)
    decreases |p|
  {
    if p != [] {
      InfosOfLive(p[..|p| - 1], participants);
    }
  }

  /** A continuation page reaches the client whole: the loop that skips deleted messages skips
      none, so the oldest id the client sees is that of the oldest row. */
  lemma ClientSeesPage(t: Table, room: nat, before: int, limit: nat, participants: map<nat, nat>)
    requires WellNumbered(t)
    ensures
      var p := PageBefore(t, room, before, limit);
      var infos := Infos(p, participants);
      |infos| == |p| && forall i :: 0 <= i < |p| ==> infos[i] == InfoOf(p[i], participants)
  {
    PageShape(t, room, before, limit);
    InfosOfLive(PageBefore(t, room, before, limit), participants);
  }

  /** A full page of ids below the cursor leaves a smaller, positive cursor. */
  lemma NextCursor(t: Table, room: nat, before: int, limit: nat)
    requires WellNumbered(t) && 1 <= limit && |PageBefore(t, room, before, limit)| == limit
    ensures 1 <= PageBefore(t, room, before, limit)[0].id <= before - limit
  {
    PageShape(t, room, before, limit);
    var p := PageBefore(t, room, before, limit);
    AscendingSpread(p, limit - 1);
    assert p[0] in p && p[limit - 1] in p;
  }

  lemma {:induction false} AscendingSpread(p: seq<Message>, k: nat)
    requires k < |p| && forall i, j :: 0 <= i < j < |p| ==> p[i].id < p[j].id
    ensures p[0].id + k <= p[k].id
  {
    if k > 0 {
      AscendingSpread(p, k - 1);
    }
  }

  // --- a walk ---

  /** The pages a client gets when page i is served from tables[i]: it goes on from the oldest
      id of the last page for as long as HasMore is true. */
  function Walk(tables: seq<Table>, room: nat, before: int, limit: nat): seq<seq<Message>>
    decreases |tables|
  {
    if tables == [] then []
    else
      var page := PageBefore(tables[0], room, before, limit);
      if |page| == limit && limit > 0 then [page] + Walk(tables[1..], room, page[0].id, limit) else [page]
  }

  ghost predicate History(tables: seq<Table>) {
    && (forall i :: 0 <= i < |tables| ==> WellNumbered(tables[i]))
    && (forall i, j :: 0 <= i <= j < |tables| ==> Evolves(tables[i], tables[j]))
  }

  lemma HistoryTail(tables: seq<Table>)
    requires History(tables) && tables != []
    ensures History(tables[1..])
  {
    var rest := tables[1..];
    assert forall i :: 0 <= i < |rest| ==> rest[i] == tables[i + 1];
  }

  predicate Finished(pages: seq<seq<Message>>, limit: nat) {
    pages != [] && |pages[|pages| - 1]| < limit
  }

  lemma OneFewer(n: int, limit: nat)
    ensures (n - 1) * limit == n * limit - limit
  {
  }

  /** The walk ends: a cursor admits at most (before - 1) / limit full pages. */
  lemma {:induction false} WalkTerminates(tables: seq<Table>, room: nat, before: nat, limit: nat)
    requires History(tables) && 1 <= limit && 1 <= before && before <= |tables| * limit
    ensures Finished(Walk(tables, room, before, limit), limit)
    ensures (|Walk(tables, room, before, limit)| - 1) * limit < before
    decreases |tables|
  {
    var page := PageBefore(tables[0], room, before, limit);
    PageShape(tables[0], room, before, limit);
    if |page| == limit {
      NextCursor(tables[0], room, before, limit);
      var rest := tables[1..];
      OneFewer(|tables|, limit);
      HistoryTail(tables);
      WalkTerminates(rest, room, page[0].id, limit);
      var pages := Walk(rest, room, page[0].id, limit);
      assert Walk(tables, room, before, limit) == [page] + pages;
      OneFewer(|pages|, limit);
    }
  }

  /** No continuation cursor is 0, which would restart from the newest messages. */
  lemma {:induction false} CursorsStayPositive(tables: seq<Table>, room: nat, before: int, limit: nat, k: nat)
    requires History(tables) && 1 <= limit && k < |Walk(tables, room, before, limit)|
    requires Walk(tables, room, before, limit)[k] != []
    ensures 1 <= Walk(tables, room, before, limit)[k][0].id < before
    decreases |tables|
  {
    var page := PageBefore(tables[0], room, before, limit);
    PageShape(tables[0], room, before, limit);
    if k == 0 {
      assert page[0] in page;
    } else {
      NextCursor(tables[0], room, before, limit);
      var rest := tables[1..];
      HistoryTail(tables);
      CursorsStayPositive(rest, room, page[0].id, limit, k - 1);
    }
  }

  /** Everything shown on page k was there when it was served: in the room, not deleted, below
      the starting cursor. */
  lemma {:induction false} ShownIsReal(tables: seq<Table>, room: nat, before: int, limit: nat, k: nat, m: Message)
    requires History(tables) && 1 <= limit && k < |Walk(tables, room, before, limit)|
    requires m in Walk(tables, room, before, limit)[k]
    ensures k < |tables| && m in tables[k] && Shown(m, room, before)
    decreases |tables|
  {
    var page := PageBefore(tables[0], room, before, limit);
    PageShape(tables[0], room, before, limit);
    if k > 0 {
      NextCursor(tables[0], room, before, limit);
      var rest := tables[1..];
      HistoryTail(tables);
      ShownIsReal(rest, room, page[0].id, limit, k - 1, m);
    }
  }

  /** Everything on a later page is below everything on the first one. */
  lemma LaterIsBelow(tables: seq<Table>, room: nat, before: int, limit: nat, i: nat, l: nat, j: nat)
    requires History(tables) && 1 <= limit && 0 < l < |Walk(tables, room, before, limit)|
    requires i < |Walk(tables, room, before, limit)[0]| && j < |Walk(tables, room, before, limit)[l]|
    ensures Walk(tables, room, before, limit)[l][j].id < Walk(tables, room, before, limit)[0][i].id
  {
    var page, pages := PageBefore(tables[0], room, before, limit), Walk(tables, room, before, limit);
    FirstIsOldest(tables[0], room, before, limit, i);
    HistoryTail(tables);
    assert pages == [page] + Walk(tables[1..], room, page[0].id, limit);
    ShownIsReal(tables[1..], room, page[0].id, limit, l - 1, pages[l][j]);
  }

  lemma FirstIsOldest(t: Table, room: nat, before: int, limit: nat, i: nat)
    requires WellNumbered(t) && i < |PageBefore(t, room, before, limit)|
    ensures PageBefore(t, room, before, limit)[0].id <= PageBefore(t, room, before, limit)[i].id
  {
    PageShape(t, room, before, limit);
  }

  /** No id is shown twice: pages ascend inside, and each lies wholly below the one before. */
  lemma {:induction false} ShownAtMostOnce(
    tables: seq<Table>, room: nat, before: int, limit: nat, k: nat, i: nat, l: nat, j: nat)
    requires History(tables) && 1 <= limit && k <= l < |Walk(tables, room, before, limit)|
    requires i < |Walk(tables, room, before, limit)[k]| && j < |Walk(tables, room, before, limit)[l]|
    ensures
      var pages := Walk(tables, room, before, limit);
      && (k < l ==> pages[l][j].id < pages[k][i].id)
      && (k == l && i < j ==> pages[k][i].id < pages[l][j].id)
    decreases |tables|
  {
    if l == 0 {
      PageShape(tables[0], room, before, limit);
    } else if k == 0 {
      LaterIsBelow(tables, room, before, limit, i, l, j);
    } else {
      var page := PageBefore(tables[0], room, before, limit);
      HistoryTail(tables);
      assert Walk(tables, room, before, limit) == [page] + Walk(tables[1..], room, page[0].id, limit);
      ShownAtMostOnce(tables[1..], room, page[0].id, limit, k - 1, i, l - 1, j);
    }
  }

  predicate SurvivesAt(tables: seq<Table>, n: nat, room: nat, before: int) {
    forall k :: 0 <= k < |tables| ==> n < |tables[k]| && Shown(tables[k][n], room, before)
  }

  /** A survivor below the next cursor survives the rest of the walk. */
  lemma SurvivesLater(tables: seq<Table>, n: nat, room: nat, before: int, cursor: int)
    requires History(tables) && tables != [] && SurvivesAt(tables, n, room, before) && tables[0][n].id < cursor
    ensures SurvivesAt(tables[1..], n, room, cursor)
  {
    forall k | 0 <= k < |tables| - 1 ensures n < |tables[1..][k]| && Shown(tables[1..][k][n], room, cursor) {
      assert Evolves(tables[0], tables[k + 1]) && Shown(tables[k + 1][n], room, before);
    }
  }

  predicate Shows(pages: seq<seq<Message>>, id: nat) {
    exists k, i :: 0 <= k < |pages| && 0 <= i < |pages[k]| && pages[k][i].id == id
  }

  lemma ShowsMore(page: seq<Message>, later: seq<seq<Message>>, id: nat)
    requires Shows(later, id) || exists i :: 0 <= i < |page| && page[i].id == id
    ensures Shows([page] + later, id)
  {
    var pages: seq<seq<Message>> := [page] + later;
    if Shows(later, id) {
      var k, i :| 0 <= k < |later| && 0 <= i < |later[k]| && later[k][i].id == id;
      assert pages[k + 1][i].id == id;
    } else {
      var i :| 0 <= i < |page| && page[i].id == id;
      assert pages[0][i].id == id;
    }
  }

  /** A finished walk whose first page left out a match goes on below that page. */
  lemma WalkGoesOn(tables: seq<Table>, room: nat, before: int, limit: nat, m: Message)
    requires History(tables) && 1 <= limit && tables != [] && m in tables[0] && Shown(m, room, before)
    requires m !in PageBefore(tables[0], room, before, limit)
    requires Finished(Walk(tables, room, before, limit), limit)
    ensures
      var page := PageBefore(tables[0], room, before, limit);
      && page != [] && m.id < page[0].id && |tables| > 1
      && Walk(tables, room, before, limit) == [page] + Walk(tables[1..], room, page[0].id, limit)
      && Finished(Walk(tables[1..], room, page[0].id, limit), limit)
  {
    var page := PageBefore(tables[0], room, before, limit);
    PageShape(tables[0], room, before, limit);
    assert |page| == limit && page[0] in page;
    var later := Walk(tables[1..], room, page[0].id, limit);
    var pages := Walk(tables, room, before, limit);
    assert pages == [page] + later;
    assert pages[|pages| - 1] != page;
  }

  /** Main result: when the walk is finished it has shown every message that was below the
      starting cursor and was never deleted meanwhile, whatever was inserted, edited or
      deleted between the pages. With ShownAtMostOnce: exactly once. */
  lemma {:induction false} WalkShowsSurvivors(tables: seq<Table>, room: nat, before: int, limit: nat, n: nat)
    requires History(tables) && 1 <= limit && tables != [] && SurvivesAt(tables, n, room, before)
    requires Finished(Walk(tables, room, before, limit), limit)
    ensures Shows(Walk(tables, room, before, limit), tables[0][n].id)
    decreases |tables|
  {
    var page, m := PageBefore(tables[0], room, before, limit), tables[0][n];
    if m in page {
      FirstPageShows(tables, room, before, limit, m);
    } else {
      WalkGoesOn(tables, room, before, limit, m);
      HistoryTail(tables);
      SurvivesLater(tables, n, room, before, page[0].id);
      WalkShowsSurvivors(tables[1..], room, page[0].id, limit, n);
      assert Evolves(tables[0], tables[1]);
      ShowsMore(page, Walk(tables[1..], room, page[0].id, limit), m.id);
    }
  }

  lemma FirstPageShows(tables: seq<Table>, room: nat, before: int, limit: nat, m: Message)
    requires tables != [] && m in PageBefore(tables[0], room, before, limit)
    ensures Shows(Walk(tables, room, before, limit), m.id)
  {
    var page := PageBefore(tables[0], room, before, limit);
    var i :| 0 <= i < |page| && page[i] == m;
    assert Walk(tables, room, before, limit)[0][i].id == m.id;
  }
}
