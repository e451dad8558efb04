/**
 The account-rating leaderboard (cmd/telesrv-admin/readstore.go, ListAccountRatings): keyset
 pages over (level descending, stars descending, user ID), with one look-ahead row that says
 whether there is more, and the cursor the panel follows (server.go).
 */
module RatingPages {
  import opened Wrappers

  datatype Row = Row(userID: int, level: int, stars: int)

  /** account_rating: user_id is its primary key. */
  type Table = map<int, Row>

  ghost predicate ValidTable(t: Table) {
    forall id | id in t :: t[id].userID == id
  }

  /** ORDER BY level DESC, stars DESC, user_id */
  predicate Before(a: Row, b: Row) {
    || a.level > b.level
    || (a.level == b.level && a.stars > b.stars)
    || (a.level == b.level && a.stars == b.stars && a.userID < b.userID)
  }

  /** The rows the filters let through. */
  function Filtered(t: Table, keep: Row -> bool): set<Row> {
    set id | id in t && keep(t[id]) :: t[id]
  }

  /** The keyset condition: no cursor row, or strictly behind it.  A cursor of 0 is none. */
  predicate Behind(t: Table, beforeID: int, r: Row) {
    beforeID == 0 || beforeID !in t ||
    var c := t[beforeID];
    || r.level < c.level
    || (r.level == c.level && r.stars < c.stars)
    || (r.level == c.level && r.stars == c.stars && r.userID > c.userID)
  }

  predicate First(r: Row, s: set<Row>) {
    r in s && forall o | o in s :: o == r || Before(r, o)
  }

  /** The rows in their order. */
  ghost function Ordered(s: set<Row>): seq<Row> {
    if s == {} then []
    else
      FirstExists(s);
      var r :| First(r, s);
      [r] + Ordered(s - {r})
  }

  lemma FirstExists(s: set<Row>)
    requires s != {}
    ensures exists r :: First(r, s)
    decreases |s|
  {
    var r :| r in s;
    if s == {r} {
      assert First(r, s);
    } else {
      FirstExists(s - {r});
      var m :| First(m, s - {r});
      if Before(r, m) {
        forall o | o in s ensures o == r || Before(r, o) { assert o == r || o == m || Before(m, o); }
        assert First(r, s);
      } else {
        assert First(m, s);
      }
    }
  }

  // ---------------------------------------------------------------------------
  // One page
  // ---------------------------------------------------------------------------

  const DEFAULT_LIMIT := 50
  const MAX_LIMIT := 200

  function Clamp(limit: int): (n: nat)
    ensures 1 <= n <= MAX_LIMIT
  {
    if limit <= 0 then DEFAULT_LIMIT else if limit > MAX_LIMIT then MAX_LIMIT else limit
  }

  /** The page size: what was asked for up to 200, and 50 when nothing was. */
  lemma ClampMeans(limit: int)
    ensures limit <= 0 ==> Clamp(limit) == 50
    ensures 1 <= limit <= 200 ==> Clamp(limit) == limit
    ensures limit > 200 ==> Clamp(limit) == 200
  {
  }

  /** ORDER BY ... LIMIT n */
  method Select(rows: set<Row>, n: nat) returns (out: seq<Row>)
    ensures |Ordered(rows)| == |rows|
    ensures out == Ordered(rows)[..if n < |rows| then n else |rows|]
  {
    OrderedLength(rows);
    out := [];
    var left := rows;
    while left != {} && |out| < n
      invariant |out| <= n && |out| + |left| == |rows|
      invariant Ordered(rows) == out + Ordered(left)
      decreases |left|
    {
      FirstExists(left);
      var r :| First(r, left);
      OrderedStarts(left, r);
      assert out + ([r] + Ordered(left - {r})) == out + [r] + Ordered(left - {r});
      out := out + [r];
      left := left - {r};
    }
    OrderedLength(left);
    assert out == Ordered(rows)[..|out|];
  }

  lemma {:induction false} OrderedLength(s: set<Row>)
    ensures |Ordered(s)| == |s|
    decreases |s|
  {
    if s != {} {
      FirstExists(s);
      var r :| First(r, s) && Ordered(s) == [r] + Ordered(s - {r});
      OrderedLength(s - {r});
    }
  }

  /** The first row is determined by the set. */
  lemma OrderedStarts(s: set<Row>, r: Row)
    requires First(r, s)
    ensures Ordered(s) == [r] + Ordered(s - {r})
  {
  }

  /** ListAccountRatings: the filtered rows behind the cursor, in order, cut at the limit. */
  method List(t: Table, keep: Row -> bool, beforeID: int, limit: int) returns (out: seq<Row>, hasMore: bool)
    ensures var rest := Ordered(set r | r in Filtered(t, keep) && Behind(t, beforeID, r)); var n := Clamp(limit);
      && out == (if n < |rest| then rest[..n] else rest)
      && (hasMore <==> |rest| > n)
  {
    var n := Clamp(limit);
    var matching := set r | r in Filtered(t, keep) && Behind(t, beforeID, r);
    out := Select(matching, n + 1);
    hasMore := |out| > n;
    if hasMore {
      out := out[..n];
    }
  }

  // ---------------------------------------------------------------------------
  // The cursor
  // ---------------------------------------------------------------------------

  /** The rows behind the k-th row of an ordered set are the rows after it in order. */
  lemma {:induction false} BehindNth(s: set<Row>, k: nat)
    requires k < |Ordered(s)|
    ensures Ordered(s)[k] in s
    ensures Ordered(set r | r in s && Before(Ordered(s)[k], r)) == Ordered(s)[k + 1..]
    decreases |s|
  {
    FirstExists(s);
    var r :| First(r, s) && Ordered(s) == [r] + Ordered(s - {r});
    var rest := s - {r};
    if k == 0 {
      assert (set o | o in s && Before(r, o)) == rest;
      assert Ordered(s)[1..] == Ordered(rest);
    } else {
      BehindNth(rest, k - 1);
      var c := Ordered(s)[k];
      assert c == Ordered(rest)[k - 1];
      assert (set o | o in s && Before(c, o)) == (set o | o in rest && Before(c, o));
      assert Ordered(s)[k + 1..] == Ordered(rest)[k..];
    }
  }

  /** The cursor of the k-th row continues right behind it, unless its user ID is 0. */
  lemma CursorContinues(t: Table, keep: Row -> bool, k: nat)
    requires ValidTable(t) && k < |Ordered(Filtered(t, keep))|
    ensures var all := Ordered(Filtered(t, keep)); var next := Ordered(set r | r in Filtered(t, keep) && Behind(t, all[k].userID, r));
      && (all[k].userID != 0 ==> next == all[k + 1..])
      && (all[k].userID == 0 ==> next == all)
  {
    var f := Filtered(t, keep);
    var c := Ordered(f)[k];
    BehindNth(f, k);
    assert c in f && c.userID in t && t[c.userID] == c;
    if c.userID != 0 {
      assert (set r | r in f && Behind(t, c.userID, r)) == (set r | r in f && Before(c, r));
    } else {
      assert (set r | r in f && Behind(t, c.userID, r)) == f;
    }
  }

  ghost function Rest(t: Table, keep: Row -> bool, beforeID: int): seq<Row> {
    Ordered(set r | r in Filtered(t, keep) && Behind(t, beforeID, r))
  }

  lemma {:induction false} OrderedIsBefore(s: set<Row>)
    ensures forall r :: r in Ordered(s) <==> r in s
    ensures forall i, j | 0 <= i < j < |Ordered(s)| :: Before(Ordered(s)[i], Ordered(s)[j])
    decreases |s|
  {
    if s != {} {
      FirstExists(s);
      var r :| First(r, s) && Ordered(s) == [r] + Ordered(s - {r});
      OrderedIsBefore(s - {r});
    }
  }

  /** Ordered means what it says: every row once, by level, then stars, both falling, then user ID. */
  lemma OrderedIsSorted(s: set<Row>)
    ensures forall r :: r in Ordered(s) <==> r in s
    ensures forall i, j {:trigger Ordered(s)[i], Ordered(s)[j]} | 0 <= i < j < |Ordered(s)| ::
      && Ordered(s)[i].level >= Ordered(s)[j].level
      && (Ordered(s)[i].level == Ordered(s)[j].level ==> Ordered(s)[i].stars >= Ordered(s)[j].stars)
      && (Ordered(s)[i].level == Ordered(s)[j].level && Ordered(s)[i].stars == Ordered(s)[j].stars ==>
            Ordered(s)[i].userID < Ordered(s)[j].userID)
  {
    OrderedIsBefore(s);
    forall i, j | 0 <= i < j < |Ordered(s)|
      ensures var a, b := Ordered(s)[i], Ordered(s)[j];
        && a.level >= b.level && (a.level == b.level ==> a.stars >= b.stars)
        && (a.level == b.level && a.stars == b.stars ==> a.userID < b.userID)
    {
      assert Before(Ordered(s)[i], Ordered(s)[j]);
    }
  }

  // ---------------------------------------------------------------------------
  // The handler
  // ---------------------------------------------------------------------------

  /** handleAccountRatingsAPI: a page and the cursor for the next one, or a refusal. */
  datatype Reply = BadRequest | Page(rows: seq<Row>, hasMore: bool, nextID: int)

  ghost function Answer(t: Table, keep: Row -> bool, limit: int, beforeID: int): Reply {
    var rest, n := Rest(t, keep, beforeID), Clamp(limit);
    if beforeID < 0 || limit < 0 then BadRequest
    else if n < |rest| then Page(rest[..n], true, rest[n - 1].userID)
    else Page(rest, false, 0)
  }

  ghost function Handler(t: Table, keep: Row -> bool, limit: int): int -> Reply {
    beforeID => Answer(t, keep, limit, beforeID)
  }

  method Handle(t: Table, keep: Row -> bool, limit: int, beforeID: int) returns (reply: Reply)
    ensures reply == Answer(t, keep, limit, beforeID)
  {
    if beforeID < 0 || limit < 0 {
      return BadRequest;
    }
    var rows, hasMore := List(t, keep, beforeID, limit);
    var nextID := 0;
    if hasMore && |rows| > 0 {
      nextID := rows[|rows| - 1].userID;
    }
    return Page(rows, hasMore, nextID);
  }

  // ---------------------------------------------------------------------------
  // Following the cursor
  // ---------------------------------------------------------------------------

  /** What a client has after a number of requests: the rows so far, and where it stands. */
  datatype Walk = Finished(rows: seq<Row>) | Refused(rows: seq<Row>) | Going(rows: seq<Row>) {
    function After(front: seq<Row>): Walk {
      this.(rows := front + rows)
    }
  }

  /** A client that starts at a cursor and follows next_before_id. */
  ghost function Follow(answer: int -> Reply, beforeID: int, requests: nat): Walk
    decreases requests
  {
    if requests == 0 then Going([])
    else
      match answer(beforeID)
      case BadRequest => Refused([])
      case Page(rows, hasMore, nextID) =>
        if hasMore then Follow(answer, nextID, requests - 1).After(rows) else Finished(rows)
  }

  /** The page that begins behind the first done rows of a list. */
  function PageAt(all: seq<Row>, n: nat, done: nat): Reply
    requires n > 0 && done <= |all|
  {
    if |all| <= done + n then Page(all[done..], false, 0)
    else Page(all[done..done + n], true, all[done + n - 1].userID)
  }

  ghost predicate ContinuesBehind(answer: int -> Reply, all: seq<Row>, n: nat, k: nat)
    requires n > 0 && k < |all|
  {
    all[k].userID > 0 ==> answer(all[k].userID) == PageAt(all, n, k + 1)
  }

  /** The answers page through the list: from its start, from behind any row with a positive ID,
      and not at all from a negative cursor. */
  ghost predicate Pages(answer: int -> Reply, all: seq<Row>, n: nat) {
    && n > 0
    && answer(0) == PageAt(all, n, 0)
    && (forall k | 0 <= k < |all| :: ContinuesBehind(answer, all, n, k))
    && (forall id | id < 0 :: answer(id) == BadRequest)
  }

  /** The handler does, over the filtered list in order. */
  lemma HandlerPages(t: Table, keep: Row -> bool, limit: int)
    requires ValidTable(t) && limit >= 0
    ensures Pages(Handler(t, keep, limit), Ordered(Filtered(t, keep)), Clamp(limit))
  {
    var all, n := Ordered(Filtered(t, keep)), Clamp(limit);
    assert (set r | r in Filtered(t, keep) && Behind(t, 0, r)) == Filtered(t, keep);
    AnswerIsPage(t, keep, limit, 0, 0);
    forall k | 0 <= k < |all| ensures ContinuesBehind(Handler(t, keep, limit), all, n, k) {
      CursorContinues(t, keep, k);
      if all[k].userID > 0 { AnswerIsPage(t, keep, limit, all[k].userID, k + 1); }
    }
  }

  lemma AnswerIsPage(t: Table, keep: Row -> bool, limit: int, beforeID: int, done: nat)
    requires beforeID >= 0 && limit >= 0 && done <= |Ordered(Filtered(t, keep))|
    requires Rest(t, keep, beforeID) == Ordered(Filtered(t, keep))[done..]
    ensures Answer(t, keep, limit, beforeID) == PageAt(Ordered(Filtered(t, keep)), Clamp(limit), done)
  {
    var all, n := Ordered(Filtered(t, keep)), Clamp(limit);
    if done + n < |all| { assert all[done..][..n] == all[done..done + n] && all[done..][n - 1] == all[done + n - 1]; }
  }

  /** The first page-ending user ID behind the first done rows that is not positive, if any. */
  function BadEnd(all: seq<Row>, n: nat, done: nat): Option<int>
    requires n > 0
    decreases |all| - done
  {
    if |all| <= done + n then None
    else if all[done + n - 1].userID <= 0 then Some(all[done + n - 1].userID)
    else BadEnd(all, n, done + n)
  }

  lemma {:induction false} BadEndIsBad(all: seq<Row>, n: nat, done: nat)
    requires n > 0
    ensures BadEnd(all, n, done).Some? ==> BadEnd(all, n, done).value <= 0
    ensures (forall r | r in all :: r.userID > 0) ==> BadEnd(all, n, done) == None
    decreases |all| - done
  {
    if done + n < |all| {
      assert all[done + n - 1] in all;
      BadEndIsBad(all, n, done + n);
    }
  }

  /** With positive page ends the walk finishes with all that was left, and is never refused. */
  lemma {:induction false} WalkFinishes(answer: int -> Reply, all: seq<Row>, n: nat, beforeID: int, done: nat, requests: nat)
    requires Pages(answer, all, n) && done <= |all| && answer(beforeID) == PageAt(all, n, done) && BadEnd(all, n, done) == None
    ensures requests > |all| - done ==> Follow(answer, beforeID, requests) == Finished(all[done..])
    ensures !Follow(answer, beforeID, requests).Refused?
    decreases requests
  {
    if requests > 0 && done + n < |all| {
      assert ContinuesBehind(answer, all, n, done + n - 1);
      WalkFinishes(answer, all, n, all[done + n - 1].userID, done + n, requests - 1);
      assert all[done..done + n] + all[done + n..] == all[done..];
    }
  }

  /** With a page end that is not positive no walk finishes: at 0 it starts over, and at a negative
      one it is refused. */
  lemma {:induction false} WalkBreaks(answer: int -> Reply, all: seq<Row>, n: nat, beforeID: int, done: nat, requests: nat)
    requires Pages(answer, all, n) && done <= |all| && answer(beforeID) == PageAt(all, n, done)
    requires BadEnd(all, n, 0).Some? && BadEnd(all, n, done) == BadEnd(all, n, 0)
    ensures var walk, end := Follow(answer, beforeID, requests), BadEnd(all, n, 0).value;
      && !walk.Finished?
      && (end == 0 ==> walk.Going?)
      && (end < 0 && requests > |all| - done + 1 ==> walk.Refused?)
    decreases requests
  {
    if requests > 0 {
      var last := all[done + n - 1].userID;
      assert ContinuesBehind(answer, all, n, done + n - 1);
      if last > 0 {
        WalkBreaks(answer, all, n, last, done + n, requests - 1);
      } else if last == 0 {
        WalkBreaks(answer, all, n, 0, 0, requests - 1);
      }
    }
  }

  /** Following the cursor from the first page: some number of requests finishes if and only if
      every page-ending user ID is positive, and then the pages together are the whole filtered
      list in order.  The handler refuses the walk if and only if the first other one is negative;
      if and only if it is 0 the walk goes round for good. */
  lemma FollowsExactly(t: Table, keep: Row -> bool, limit: int)
    requires ValidTable(t) && limit >= 0
    ensures var all := Ordered(Filtered(t, keep)); var end := BadEnd(all, Clamp(limit), 0);
      var answer := Handler(t, keep, limit);
      && (end.None? <==> exists requests :: Follow(answer, 0, requests) == Finished(all))
      && (end.None? <==> exists requests :: Follow(answer, 0, requests).Finished?)
      && (end.Some? && end.value < 0 <==> exists requests :: Follow(answer, 0, requests).Refused?)
      && (end.Some? && end.value == 0 <==> forall requests :: Follow(answer, 0, requests).Going?)
  {
    HandlerPages(t, keep, limit);
    PagesExactly(Handler(t, keep, limit), Ordered(Filtered(t, keep)), Clamp(limit));
  }

  lemma PagesExactly(answer: int -> Reply, all: seq<Row>, n: nat)
    requires Pages(answer, all, n)
    ensures var end := BadEnd(all, n, 0);
      && (end.None? <==> exists requests :: Follow(answer, 0, requests) == Finished(all))
      && (end.None? <==> exists requests :: Follow(answer, 0, requests).Finished?)
      && (end.Some? && end.value < 0 <==> exists requests :: Follow(answer, 0, requests).Refused?)
      && (end.Some? && end.value == 0 <==> forall requests :: Follow(answer, 0, requests).Going?)
  {
    BadEndIsBad(all, n, 0);
    assert all[0..] == all;
    var enough := |all| + 2;
    if BadEnd(all, n, 0).None? {
      forall k ensures !Follow(answer, 0, k).Refused? { WalkFinishes(answer, all, n, 0, 0, k); }
      WalkFinishes(answer, all, n, 0, 0, enough);
    } else {
      forall k
        ensures !Follow(answer, 0, k).Finished? && (BadEnd(all, n, 0).value == 0 ==> Follow(answer, 0, k).Going?)
      {
        WalkBreaks(answer, all, n, 0, 0, k);
      }
      WalkBreaks(answer, all, n, 0, 0, enough);
    }
  }

  /** On a table of positive user IDs, as Telegram's are, the walk finishes. */
  lemma PositiveIdsFinish(t: Table, keep: Row -> bool, limit: int)
    requires ValidTable(t) && limit >= 0 && (forall id | id in t :: id > 0)
    ensures BadEnd(Ordered(Filtered(t, keep)), Clamp(limit), 0) == None
  {
    OrderedIsSorted(Filtered(t, keep));
    BadEndIsBad(Ordered(Filtered(t, keep)), Clamp(limit), 0);
  }

  /** Both failures happen: with one row to a page, a row with user ID -1 or 0 in front of another. */
  lemma BadEndInstances(id: int)
    requires id == 0 || id == -1
    ensures var first, second := Row(id, 2, 0), Row(7, 1, 0);
      var t: Table := map[id := first, 7 := second];
      ValidTable(t) && BadEnd(Ordered(Filtered(t, r => true)), Clamp(1), 0) == Some(id)
  {
    var first, second := Row(id, 2, 0), Row(7, 1, 0);
    var t: Table := map[id := first, 7 := second];
    var s := Filtered(t, r => true);
    assert t[id] in s && t[7] in s;
    assert s == {first, second};
    OrderedStarts(s, first);
    assert s - {first} == {second};
    OrderedStarts({second}, second);
  }
}
