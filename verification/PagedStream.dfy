/** Walking a time range backwards in windows of six hours, and each window in pages. */
module PagedStream {
  import opened ChartRows
  import opened Common
  import opened StoredTime

  const STREAM_QUERY_WINDOW := 6 * 3600 * 1_000_000_000
  const MAX_RESULTS_PER_WINDOW := 50000

  /**
   * A table row joined with its series: its id, the place of its stored time among all texts of times, and the
   * result as it is read. Queries, cursors and order go by the text.
   */
  datatype Stored = Stored(id: nat, text: int, row: Row)

  /** What one query finds: the table as it is at that moment, or an error. */
  datatype Snapshot = Table(rows: seq<Stored>) | QueryFails

  /** since <= checked_at < before as texts, of one agent or, with an empty name, of all. */
  datatype Query = Query(since: int, before: int, agent: Text)

  predicate Matches(q: Query, r: Stored) {
    && q.since <= r.text < q.before
    && (q.agent == EMPTY_TEXT || r.row.key.agent == q.agent)
  }

  /** ORDER BY checked_at DESC, id DESC */
  predicate Precedes(a: Stored, b: Stored) {
    a.text > b.text || (a.text == b.text && a.id > b.id)
  }

  /** Strictly in that order, so nothing occurs twice. */
  predicate Sorted(rows: seq<Stored>) {
    |rows| >= 2 ==> Precedes(rows[|rows| - 2], rows[|rows| - 1]) && Sorted(rows[..|rows| - 1])
  }

  lemma {:induction false} SortedPair(rows: seq<Stored>, i: nat, j: nat)
    requires Sorted(rows) && i < j < |rows|
    ensures Precedes(rows[i], rows[j])
  {
    var front := rows[..|rows| - 1];
    if j < |front| {
      SortedPair(front, i, j);
    } else if i < j - 1 {
      SortedPair(front, i, j - 1);
    }
  }

  lemma SortedAppend(rows: seq<Stored>, r: Stored)
    requires Sorted(rows) && (rows != [] ==> Precedes(rows[|rows| - 1], r))
    ensures Sorted(rows + [r])
  {
    assert (rows + [r])[..|rows|] == rows;
  }

  lemma {:induction false} SortedConcat(a: seq<Stored>, b: seq<Stored>)
    requires Sorted(a) && Sorted(b)
    requires a != [] && b != [] ==> Precedes(a[|a| - 1], b[0])
    ensures Sorted(a + b)
  {
    if b == [] {
      assert a + b == a;
    } else {
      var front := b[..|b| - 1];
      SortedConcat(a, front);
      assert a + b == a + front + [b[|b| - 1]];
      SortedAppend(a + front, b[|b| - 1]);
    }
  }

  lemma {:induction false} SortedTake(rows: seq<Stored>, n: nat)
    requires Sorted(rows) && n <= |rows|
    ensures Sorted(rows[..n])
  {
    if n < |rows| {
      var front := rows[..|rows| - 1];
      SortedTake(front, n);
      assert front[..n] == rows[..n];
    } else {
      assert rows[..n] == rows;
    }
  }

  // ----- Queries

  /** The clause that continues after the last row of the previous page. */
  predicate Beyond(cursor: Option<(int, nat)>, r: Stored) {
    match cursor
    case None => true
    case Some((text, id)) => r.text < text || (r.text == text && r.id < id)
  }

  /** The matching rows past the cursor, in order, of a table kept in index order. */
  function Found(rows: seq<Stored>, q: Query, cursor: Option<(int, nat)>): seq<Stored> {
    if rows == [] then []
    else
      var front, last := Found(rows[..|rows| - 1], q, cursor), rows[|rows| - 1];
      if Matches(q, last) && Beyond(cursor, last) then front + [last] else front
  }

  /** The plain query: filter, in order. */
  function Select(rows: seq<Stored>, q: Query): seq<Stored> {
    Found(rows, q, None)
  }

  function Limited(rows: seq<Stored>, limit: nat): seq<Stored> {
    if |rows| > limit then rows[..limit] else rows
  }

  lemma {:induction false} FoundSorted(rows: seq<Stored>, q: Query, cursor: Option<(int, nat)>)
    requires Sorted(rows)
    ensures var found := Found(rows, q, cursor);
      && Sorted(found)
      && (found != [] ==>
            rows != [] && (found[|found| - 1] == rows[|rows| - 1] || Precedes(found[|found| - 1], rows[|rows| - 1])))
  {
    hide Matches, Beyond, Precedes, Sorted;
    SortedFront(rows);
    if rows != [] {
      var front, last := rows[..|rows| - 1], rows[|rows| - 1];
      FoundSorted(front, q, cursor);
      assert rows == front + [last];
      SortedAppendIf(Found(front, q, cursor), last, front);
    }
  }

  lemma SortedFront(rows: seq<Stored>)
    requires Sorted(rows)
    ensures rows != [] ==> Sorted(rows[..|rows| - 1])
    ensures Sorted([])
  {
  }

  lemma SortedAppendIf(found: seq<Stored>, last: Stored, front: seq<Stored>)
    requires Sorted(found) && Sorted(front + [last])
    requires found != [] ==>
      front != [] && (found[|found| - 1] == front[|front| - 1] || Precedes(found[|found| - 1], front[|front| - 1]))
    ensures Sorted(found + [last])
    ensures found != [] ==> Precedes(found[|found| - 1], last)
  {
    if found != [] {
      SortedPair(front + [last], |front| - 1, |front|);
    }
    SortedAppend(found, last);
  }

  lemma {:induction false} FoundFrom(rows: seq<Stored>, q: Query, cursor: Option<(int, nat)>, i: nat) returns (j: nat)
    requires i < |Found(rows, q, cursor)|
    ensures j < |rows| && rows[j] == Found(rows, q, cursor)[i]
    ensures Matches(q, rows[j]) && Beyond(cursor, rows[j])
  {
    var front := rows[..|rows| - 1];
    if i < |Found(front, q, cursor)| {
      j := FoundFrom(front, q, cursor, i);
    } else {
      j := |front|;
    }
  }

  lemma {:induction false} FoundAt(rows: seq<Stored>, q: Query, cursor: Option<(int, nat)>, j: nat) returns (i: nat)
    requires j < |rows| && Matches(q, rows[j]) && Beyond(cursor, rows[j])
    ensures i < |Found(rows, q, cursor)| && Found(rows, q, cursor)[i] == rows[j]
  {
    var front := rows[..|rows| - 1];
    if j < |front| {
      i := FoundAt(front, q, cursor, j);
    } else {
      i := |Found(front, q, cursor)|;
    }
  }

  // ----- What a stream has delivered

  predicate AllMatch(q: Query, rows: seq<Stored>) {
    forall i :: 0 <= i < |rows| ==> Matches(q, rows[i])
  }

  /** r is there whenever queries from..to look. */
  ghost predicate Throughout(db: nat -> Snapshot, from: nat, to: nat, r: Stored) {
    forall t :: from <= t < to && db(t).Table? ==> r in db(t).rows
  }

  /** r was there for one of the queries. */
  ghost predicate SeenBy(db: nat -> Snapshot, from: nat, to: nat, r: Stored) {
    exists t :: from <= t < to && db(t).Table? && r in db(t).rows
  }

  /** The stream has come as far as r in the order. */
  predicate Reached(rows: seq<Stored>, r: Stored) {
    rows != [] && !Precedes(rows[|rows| - 1], r)
  }

  /** Strictly in order, nothing outside the range, and nothing that was in no snapshot. */
  ghost predicate Sound(db: nat -> Snapshot, from: nat, to: nat, q: Query, rows: seq<Stored>) {
    && Sorted(rows)
    && AllMatch(q, rows)
    && forall i :: 0 <= i < |rows| ==> SeenBy(db, from, to, rows[i])
  }

  /** No row that was there all along has been passed over. */
  ghost predicate Gapless(db: nat -> Snapshot, from: nat, to: nat, q: Query, rows: seq<Stored>) {
    forall r :: Matches(q, r) && Throughout(db, from, to, r) && Reached(rows, r) ==> r in rows
  }

  ghost predicate Complete(db: nat -> Snapshot, from: nat, to: nat, q: Query, rows: seq<Stored>) {
    forall r :: Matches(q, r) && Throughout(db, from, to, r) ==> r in rows
  }

  /** Every table is in index order. */
  ghost predicate Indexed(db: nat -> Snapshot) {
    forall t :: db(t).Table? ==> Sorted(db(t).rows)
  }

  // ----- One page

  /** Hands rows to the callback until it, or reading the row, fails. */
  method StreamWithCursor(page: seq<Stored>, fails: Stored -> bool)
    returns (count: nat, lastTime: int, lastId: nat, ok: bool)
    ensures count <= |page| && (ok <==> count == |page|)
    ensures forall i :: 0 <= i < count ==> !fails(page[i])
    ensures !ok ==> fails(page[count])
    ensures count > 0 ==> lastTime == page[count - 1].text && lastId == page[count - 1].id
  {
    count, lastTime, lastId, ok := 0, 0, 0, true;
    while count < |page|
      invariant 0 <= count <= |page|
      invariant forall i :: 0 <= i < count ==> !fails(page[i])
      invariant count > 0 ==> lastTime == page[count - 1].text && lastId == page[count - 1].id
    {
      if fails(page[count]) {
        ok := false;
        return;
      }
      lastTime, lastId := page[count].text, page[count].id;
      count := count + 1;
    }
  }

  /** The cursor stands on the last row delivered. */
  predicate CursorAt(cursor: Option<(int, nat)>, rows: seq<Stored>) {
    if rows == [] then cursor == None
    else cursor == Some((rows[|rows| - 1].text, rows[|rows| - 1].id))
  }

  /** n rows of the next page continue the stream. */
  lemma PageContinues(
    db: nat -> Snapshot, from: nat, t: nat, q: Query, cursor: Option<(int, nat)>, rows: seq<Stored>, n: nat)
    requires Indexed(db) && from <= t && db(t).Table?
    requires CursorAt(cursor, rows) && n <= |Found(db(t).rows, q, cursor)|
    requires Sound(db, from, t, q, rows) && Gapless(db, from, t, q, rows)
    ensures var next := rows + Found(db(t).rows, q, cursor)[..n];
      Sound(db, from, t + 1, q, next) && Gapless(db, from, t + 1, q, next)
  {
    PageSound(db, from, t, q, cursor, rows, n);
    var found := Found(db(t).rows, q, cursor);
    var next := rows + found[..n];
    forall r | Matches(q, r) && Throughout(db, from, t + 1, r) && Reached(next, r) ensures r in next {
      if Reached(rows, r) {
        assert Throughout(db, from, t, r);
      } else {
        assert r in db(t).rows;
        PageReaches(db(t).rows, q, cursor, rows, n, r);
      }
    }
  }

  lemma PageSound(
    db: nat -> Snapshot, from: nat, t: nat, q: Query, cursor: Option<(int, nat)>, rows: seq<Stored>, n: nat)
    requires Indexed(db) && from <= t && db(t).Table?
    requires CursorAt(cursor, rows) && n <= |Found(db(t).rows, q, cursor)|
    requires Sound(db, from, t, q, rows)
    ensures Sound(db, from, t + 1, q, rows + Found(db(t).rows, q, cursor)[..n])
  {
    hide Sorted, Found, Matches, Precedes, CursorAt, Beyond;
    var page := Found(db(t).rows, q, cursor)[..n];
    PageSorted(db(t).rows, q, cursor, rows, n);
    forall i | 0 <= i < n ensures Matches(q, page[i]) && SeenBy(db, from, t + 1, page[i]) {
      var j := FoundFrom(db(t).rows, q, cursor, i);
    }
    forall i | 0 <= i < |rows| ensures SeenBy(db, from, t + 1, rows[i]) {
      assert SeenBy(db, from, t, rows[i]);
    }
  }

  lemma PageSorted(table: seq<Stored>, q: Query, cursor: Option<(int, nat)>, rows: seq<Stored>, n: nat)
    requires Sorted(table) && Sorted(rows) && CursorAt(cursor, rows) && n <= |Found(table, q, cursor)|
    ensures Sorted(rows + Found(table, q, cursor)[..n])
  {
    hide Sorted, Found, Matches;
    var found := Found(table, q, cursor);
    FoundSorted(table, q, cursor);
    SortedTake(found, n);
    if n > 0 {
      var j := FoundFrom(table, q, cursor, 0);
    }
    SortedConcat(rows, found[..n]);
  }

  lemma PageReaches(table: seq<Stored>, q: Query, cursor: Option<(int, nat)>, rows: seq<Stored>, n: nat, r: Stored)
    requires Sorted(table) && CursorAt(cursor, rows) && n <= |Found(table, q, cursor)|
    requires r in table && Matches(q, r) && !Reached(rows, r)
    requires Reached(rows + Found(table, q, cursor)[..n], r)
    ensures r in Found(table, q, cursor)[..n]
  {
    hide Sorted, Found, Matches, Precedes, CursorAt;
    var found := Found(table, q, cursor);
    var i := FoundPast(table, q, cursor, rows, r);
    FoundSorted(table, q, cursor);
    assert rows + found[..0] == rows;
    TakenUpTo(found, i, n);
  }

  lemma FoundPast(table: seq<Stored>, q: Query, cursor: Option<(int, nat)>, rows: seq<Stored>, r: Stored)
    returns (i: nat)
    requires CursorAt(cursor, rows) && r in table && Matches(q, r) && !Reached(rows, r)
    ensures i < |Found(table, q, cursor)| && Found(table, q, cursor)[i] == r
  {
    var j: nat :| j < |table| && table[j] == r;
    i := FoundAt(table, q, cursor, j);
  }

  lemma TakenUpTo(found: seq<Stored>, i: nat, n: nat)
    requires Sorted(found) && i < |found| && 0 < n <= |found|
    requires !Precedes(found[n - 1], found[i])
    ensures found[i] in found[..n]
  {
    if n - 1 < i {
      SortedPair(found, n - 1, i);
    } else {
      assert found[..n][i] == found[i];
    }
  }

  /** A page that was not full was the last. */
  lemma PageEnds(db: nat -> Snapshot, from: nat, t: nat, q: Query, cursor: Option<(int, nat)>, rows: seq<Stored>)
    requires Indexed(db) && from <= t && db(t).Table? && CursorAt(cursor, rows)
    requires Gapless(db, from, t, q, rows)
    ensures Complete(db, from, t + 1, q, rows + Found(db(t).rows, q, cursor))
  {
    var found := Found(db(t).rows, q, cursor);
    forall r | Matches(q, r) && Throughout(db, from, t + 1, r) ensures r in rows + found {
      if Reached(rows, r) {
        assert Throughout(db, from, t, r);
      } else {
        assert r in db(t).rows;
        var j: nat :| j < |db(t).rows| && db(t).rows[j] == r;
        var i := FoundAt(db(t).rows, q, cursor, j);
      }
    }
  }

  // ----- One window

  /** Some query failed, or some row it found could not be read or was refused by the callback. */
  ghost predicate Trouble(db: nat -> Snapshot, fails: Stored -> bool, from: nat, to: nat) {
    exists t :: from <= t < to && (db(t).QueryFails? || exists r :: r in db(t).rows && fails(r))
  }

  lemma RefusedRow(
    db: nat -> Snapshot, fails: Stored -> bool, from: nat, t: nat, q: Query, cursor: Option<(int, nat)>, i: nat)
    requires from <= t && db(t).Table?
    requires i < |Found(db(t).rows, q, cursor)| && fails(Found(db(t).rows, q, cursor)[i])
    ensures Trouble(db, fails, from, t + 1)
  {
    var j := FoundFrom(db(t).rows, q, cursor, i);
    assert db(t).rows[j] in db(t).rows;
  }

  /** The cursor moves strictly down, first in time and then in id. */
  lemma CursorDescends(table: seq<Stored>, q: Query, cursor: Option<(int, nat)>, i: nat)
    requires i < |Found(table, q, cursor)|
    ensures var last := Found(table, q, cursor)[i];
      last.text >= q.since
      && (cursor == None
          || last.text < cursor.value.0
          || (last.text == cursor.value.0 && last.id < cursor.value.1))
  {
    var j := FoundFrom(table, q, cursor, i);
  }

  /** Pages through one window until a page comes back short, while the table may change between pages. */
  method StreamWindow(db: nat -> Snapshot, fails: Stored -> bool, q: Query, tick: nat)
    returns (emitted: seq<Stored>, ok: bool, next: nat)
    requires Indexed(db)
    ensures tick < next
    ensures Sound(db, tick, next, q, emitted) && Gapless(db, tick, next, q, emitted)
    ensures ok ==> Complete(db, tick, next, q, emitted)
    ensures forall i :: 0 <= i < |emitted| ==> !fails(emitted[i])
    ensures !ok ==> Trouble(db, fails, tick, next)
  {
    hide Sound, Gapless, Complete, Trouble, Found, Indexed;
    StreamStart(db, tick, q);
    var cursor: Option<(int, nat)> := None;
    emitted, ok, next := [], true, tick;
    while true
      invariant tick <= next && CursorAt(cursor, emitted)
      invariant Sound(db, tick, next, q, emitted) && Gapless(db, tick, next, q, emitted)
      invariant forall i :: 0 <= i < |emitted| ==> !fails(emitted[i])
      decreases cursor == None,
                if cursor == None then 0 else cursor.value.0 - q.since,
                if cursor == None then 0 else cursor.value.1
    {
      var snapshot := db(next);
      next := next + 1;
      if snapshot.QueryFails? {
        FailedQuery(db, fails, tick, next - 1, q, emitted);
        return emitted, false, next;
      }
      var found := Found(snapshot.rows, q, cursor);
      var page := Limited(found, MAX_RESULTS_PER_WINDOW);
      var count, lastTime, lastId, scanned := StreamWithCursor(page, fails);
      assert page[..count] == found[..count];
      PageContinues(db, tick, next - 1, q, cursor, emitted, count);
      if !scanned {
        RefusedRow(db, fails, tick, next - 1, q, cursor, count);
        return emitted + page[..count], false, next;
      }
      if count < MAX_RESULTS_PER_WINDOW {
        PageEnds(db, tick, next - 1, q, cursor, emitted);
        assert page[..count] == found;
        return emitted + page[..count], true, next;
      }
      CursorDescends(snapshot.rows, q, cursor, count - 1);
      emitted := emitted + page[..count];
      cursor := Some((lastTime, lastId));
    }
  }

  lemma StreamStart(db: nat -> Snapshot, tick: nat, q: Query)
    ensures Sound(db, tick, tick, q, []) && Gapless(db, tick, tick, q, [])
  {
  }

  lemma FailedQuery(db: nat -> Snapshot, fails: Stored -> bool, from: nat, t: nat, q: Query, rows: seq<Stored>)
    requires from <= t && db(t).QueryFails?
    requires Sound(db, from, t, q, rows) && Gapless(db, from, t, q, rows)
    ensures Sound(db, from, t + 1, q, rows) && Gapless(db, from, t + 1, q, rows)
    ensures Trouble(db, fails, from, t + 1)
  {
    LaterSound(db, from, t, t + 1, q, rows);
    LaterGapless(db, from, t, t + 1, q, rows);
  }

  lemma LaterSound(db: nat -> Snapshot, from: nat, t: nat, to: nat, q: Query, rows: seq<Stored>)
    requires t <= to && Sound(db, from, t, q, rows)
    ensures Sound(db, from, to, q, rows)
  {
    forall i | 0 <= i < |rows| ensures SeenBy(db, from, to, rows[i]) {
      assert SeenBy(db, from, t, rows[i]);
    }
  }

  lemma LaterGapless(db: nat -> Snapshot, from: nat, t: nat, to: nat, q: Query, rows: seq<Stored>)
    requires t <= to && Gapless(db, from, t, q, rows)
    ensures Gapless(db, from, to, q, rows)
  {
    forall r | Matches(q, r) && Throughout(db, from, to, r) && Reached(rows, r) ensures r in rows {
      assert Throughout(db, from, t, r);
    }
  }

  // ----- All windows

  /** A window continues the windows after it. */
  lemma WindowSound(
    db: nat -> Snapshot, from: nat, t: nat, to: nat, q: Query, cursor: int, rows: seq<Stored>, w: seq<Stored>)
    requires from <= t <= to && q.since <= cursor <= q.before
    requires Sound(db, from, t, q.(since := cursor), rows) && Sound(db, t, to, q.(before := cursor), w)
    ensures Sound(db, from, to, q, rows + w)
  {
    hide Sorted;
    assert w != [] ==> Matches(q.(before := cursor), w[0]);
    assert rows != [] ==> Matches(q.(since := cursor), rows[|rows| - 1]);
    SortedConcat(rows, w);
    forall i | 0 <= i < |rows| ensures SeenBy(db, from, to, rows[i]) {
      assert SeenBy(db, from, t, rows[i]);
    }
    forall i | 0 <= i < |w| ensures SeenBy(db, from, to, w[i]) {
      assert SeenBy(db, t, to, w[i]);
    }
  }

  lemma WindowComplete(
    db: nat -> Snapshot, from: nat, t: nat, to: nat, q: Query, cursor: int, rows: seq<Stored>, w: seq<Stored>)
    requires from <= t <= to && q.since <= cursor <= q.before
    requires Complete(db, from, t, q.(since := cursor), rows) && Complete(db, t, to, q.(before := cursor), w)
    ensures Complete(db, from, to, q, rows + w)
  {
    forall r | Matches(q, r) && Throughout(db, from, to, r) ensures r in rows + w {
      assert Throughout(db, from, t, r) && Throughout(db, t, to, r);
      if r.text >= cursor {
        assert r in rows;
      } else {
        assert r in w;
      }
    }
  }

  lemma WindowGapless(db: nat -> Snapshot, from: nat, t: nat, to: nat, q: Query, start: int, cursor: int,
                      rows: seq<Stored>, w: seq<Stored>)
    requires from <= t <= to && q.since <= start <= cursor <= q.before
    requires Complete(db, from, t, q.(since := cursor), rows) && AllMatch(q.(since := cursor), rows)
    requires Gapless(db, t, to, q.(since := start, before := cursor), w)
    requires AllMatch(q.(since := start, before := cursor), w)
    ensures Gapless(db, from, to, q, rows + w)
  {
    forall r | Matches(q, r) && Throughout(db, from, to, r) && Reached(rows + w, r) ensures r in rows + w {
      assert Throughout(db, from, t, r) && Throughout(db, t, to, r);
      if r.text >= cursor {
        assert r in rows;
      } else {
        assert w == [] ==> rows + w == rows;
        assert w != [] ==> Matches(q.(since := start, before := cursor), w[|w| - 1]);
        assert r in w;
      }
    }
  }

  lemma TroubleLater(db: nat -> Snapshot, fails: Stored -> bool, from: nat, t: nat, to: nat)
    requires from <= t && Trouble(db, fails, t, to)
    ensures Trouble(db, fails, from, to)
  {
  }

  lemma Widen(db: nat -> Snapshot, from: nat, to: nat, q: Query, start: int, rows: seq<Stored>)
    requires q.since <= start && Sound(db, from, to, q.(since := start), rows)
    ensures Sound(db, from, to, q, rows)
  {
    forall i | 0 <= i < |rows| ensures Matches(q, rows[i]) {
      assert Matches(q.(since := start), rows[i]);
    }
  }

  lemma CompleteIsGapless(db: nat -> Snapshot, from: nat, to: nat, q: Query, rows: seq<Stored>)
    requires Complete(db, from, to, q, rows)
    ensures Gapless(db, from, to, q, rows)
  {
  }

  lemma EmptyRange(db: nat -> Snapshot, from: nat, q: Query)
    requires q.before <= q.since
    ensures Sound(db, from, from, q, []) && Complete(db, from, from, q, [])
  {
  }

  lemma NothingMatches(q: Query, rows: seq<Stored>)
    requires q.before <= q.since && AllMatch(q, rows)
    ensures rows == []
  {
    assert rows != [] ==> Matches(q, rows[0]);
  }

  lemma LaterComplete(db: nat -> Snapshot, from: nat, t: nat, to: nat, q: Query, rows: seq<Stored>)
    requires t <= to && Complete(db, from, t, q, rows)
    ensures Complete(db, from, to, q, rows)
  {
    forall r | Matches(q, r) && Throughout(db, from, to, r) ensures r in rows {
      assert Throughout(db, from, t, r);
    }
  }

  // ----- From instants to texts

  /** The oldest of the cursors, which go back six hours at a time, that is still after since. */
  function LastCursor(since: int, before: int): int
    requires since < before
    decreases before - since
  {
    if before - STREAM_QUERY_WINDOW <= since then before else LastCursor(since, before - STREAM_QUERY_WINDOW)
  }

  /**
   * The text the stream really reaches back to. The last window runs from since to the last cursor; when the texts of
   * the two are in the wrong order, that window is empty, and the one before it reaches down to the last cursor.
   */
  function Floor(since: int, before: int): int {
    if before <= since then TextRank(before)
    else if TextRank(LastCursor(since, before)) < TextRank(since) then TextRank(LastCursor(since, before))
    else TextRank(since)
  }

  /** Windows of six hours have their bounds in the right order as texts as well. */
  lemma WindowInOrder(cursor: int)
    ensures TextRank(cursor - STREAM_QUERY_WINDOW) < TextRank(cursor)
  {
    TextRankOrders(cursor - STREAM_QUERY_WINDOW, cursor);
  }

  lemma {:induction false} LastIsLowest(since: int, cursor: int)
    requires since < cursor
    ensures since < LastCursor(since, cursor) <= cursor
    ensures LastCursor(since, cursor) - STREAM_QUERY_WINDOW <= since
    ensures TextRank(LastCursor(since, cursor)) <= TextRank(cursor)
    decreases cursor - since
  {
    hide TextRank;
    if cursor - STREAM_QUERY_WINDOW > since {
      WindowInOrder(cursor);
      LastIsLowest(since, cursor - STREAM_QUERY_WINDOW);
    }
  }

  /** The floor is since itself, unless since is written as a beginning of the last cursor. */
  lemma FloorIsSinceIff(since: int, before: int)
    requires since < before
    ensures Floor(since, before) == TextRank(since) <==> !IsBeginning(since, LastCursor(since, before))
    ensures Floor(since, before) <= TextRank(since)
  {
    LastIsLowest(since, before);
    ReversedIff(since, LastCursor(since, before));
    TextRankOrders(LastCursor(since, before), since);
    hide TextRank, TextBefore, IsBeginning;
  }

  /** And then both lie in the same second, so nothing stored in whole seconds lies between them. */
  lemma WholeBelowFloor(second: int, since: int, before: int)
    requires since < before && TextRank(second * NANOS) < TextRank(since)
    ensures TextRank(second * NANOS) < Floor(since, before)
  {
    var last := LastCursor(since, before);
    LastIsLowest(since, before);
    TextRankOrders(second * NANOS, since);
    TextRankOrders(second * NANOS, last);
    WholeSecondBefore(second, since);
    WholeSecondBefore(second, last);
    LaterSecond(since, last);
    hide TextRank, TextBefore, LastCursor;
  }

  lemma LaterSecond(a: int, b: int)
    requires a <= b
    ensures Sec(a) <= Sec(b)
  {
  }

  /** From the newest window to the oldest; the last is cut off at since. */
  method StreamWindowed(db: nat -> Snapshot, fails: Stored -> bool, since: int, before: int, agent: Text, tick: nat)
    returns (emitted: seq<Stored>, ok: bool, next: nat)
    requires Indexed(db)
    ensures tick <= next
    ensures Sound(db, tick, next, Query(Floor(since, before), TextRank(before), agent), emitted)
    ensures Gapless(db, tick, next, Query(Floor(since, before), TextRank(before), agent), emitted)
    ensures ok ==> Complete(db, tick, next, Query(Floor(since, before), TextRank(before), agent), emitted)
    ensures forall i :: 0 <= i < |emitted| ==> !fails(emitted[i])
    ensures !ok ==> Trouble(db, fails, tick, next)
  {
    hide Sound, Gapless, Complete, Trouble, Indexed, TextRank, LastCursor;
    ghost var q := Query(Floor(since, before), TextRank(before), agent);
    var cursor := before;
    ghost var low := TextRank(before);
    emitted, ok, next := [], true, tick;
    EmptyRange(db, tick, q.(since := low));
    if cursor <= since {
      CompleteIsGapless(db, tick, tick, q, []);
      return;
    }
    LastIsLowest(since, before);
    while cursor > since
      invariant since <= cursor <= before && tick <= next && ok
      invariant cursor > since ==> low == TextRank(cursor) && LastCursor(since, cursor) == LastCursor(since, before)
      invariant cursor == since ==> low == q.since
      invariant q.since <= low <= q.before
      invariant Sound(db, tick, next, q.(since := low), emitted)
      invariant Complete(db, tick, next, q.(since := low), emitted)
      invariant forall i :: 0 <= i < |emitted| ==> !fails(emitted[i])
    {
      var start := cursor - STREAM_QUERY_WINDOW;
      if start < since {
        start := since;
      }
      NextWindow(since, before, cursor);
      ghost var lower := if TextRank(start) <= low then TextRank(start) else low;
      var window, done, last := StreamWindow(db, fails, Query(TextRank(start), TextRank(cursor), agent), next);
      JoinWindow(db, tick, next, last, q, TextRank(start), low, emitted, window, done);
      if !done {
        TroubleLater(db, fails, tick, next, last);
        return emitted + window, false, last;
      }
      emitted, next, cursor, low := emitted + window, last, start, lower;
    }
    CompleteIsGapless(db, tick, next, q, emitted);
  }

  /** Where the next window starts, and that it brings the floor nearer. */
  lemma NextWindow(since: int, before: int, cursor: int)
    requires since < cursor <= before && LastCursor(since, cursor) == LastCursor(since, before)
    ensures var start := if cursor - STREAM_QUERY_WINDOW < since then since else cursor - STREAM_QUERY_WINDOW;
      && start < cursor
      && (start > since ==>
            && LastCursor(since, start) == LastCursor(since, before)
            && Floor(since, before) <= TextRank(start) <= TextRank(cursor))
      && (start == since ==>
            Floor(since, before) == if TextRank(start) <= TextRank(cursor) then TextRank(start) else TextRank(cursor))
  {
    hide TextRank;
    var start := if cursor - STREAM_QUERY_WINDOW < since then since else cursor - STREAM_QUERY_WINDOW;
    if start > since {
      WindowInOrder(cursor);
      LastIsLowest(since, start);
    } else {
      assert LastCursor(since, cursor) == cursor;
    }
  }

  /** The windows so far and one more, which is empty if its bounds are in the wrong order. */
  lemma JoinWindow(db: nat -> Snapshot, from: nat, t: nat, to: nat, q: Query, start: int, low: int,
                   rows: seq<Stored>, w: seq<Stored>, done: bool)
    requires from <= t <= to && q.since <= low <= q.before
    requires start <= low ==> q.since <= start
    requires start > low ==> q.since == low
    requires Sound(db, from, t, q.(since := low), rows) && Complete(db, from, t, q.(since := low), rows)
    requires Sound(db, t, to, Query(start, low, q.agent), w) && Gapless(db, t, to, Query(start, low, q.agent), w)
    requires done ==> Complete(db, t, to, Query(start, low, q.agent), w)
    ensures var lower := if start <= low then start else low;
      && Sound(db, from, to, q.(since := lower), rows + w)
      && (done ==> Complete(db, from, to, q.(since := lower), rows + w))
    ensures Sound(db, from, to, q, rows + w) && Gapless(db, from, to, q, rows + w)
  {
    hide Sound, Gapless, Complete;
    SoundMatches(db, from, t, q.(since := low), rows);
    SoundMatches(db, t, to, Query(start, low, q.agent), w);
    if start <= low {
      WindowSound(db, from, t, to, q.(since := start), low, rows, w);
      Widen(db, from, to, q, start, rows + w);
      WindowGapless(db, from, t, to, q, start, low, rows, w);
      if done {
        WindowComplete(db, from, t, to, q.(since := start), low, rows, w);
      }
    } else {
      NothingMatches(Query(start, low, q.agent), w);
      assert rows + w == rows;
      LaterSound(db, from, t, to, q, rows);
      LaterComplete(db, from, t, to, q, rows);
      CompleteIsGapless(db, from, to, q, rows);
    }
  }

  lemma SoundMatches(db: nat -> Snapshot, from: nat, to: nat, q: Query, rows: seq<Stored>)
    requires Sound(db, from, to, q, rows)
    ensures AllMatch(q, rows) && Sorted(rows)
  {
  }
}
