/** Raw rows behind rollups: the streamed read, the loaded read, and that they agree. */
module CompactedStream {
  import opened ChartAggregation
  import opened ChartRows
  import opened Common
  import opened ChartStream
  import opened PagedStream
  import opened StoredTime

  // ----- Tables that do not change

  lemma SameLast(a: seq<Stored>, b: seq<Stored>)
    requires Sorted(a) && Sorted(b) && a != [] && b != []
    requires a[|a| - 1] in b && b[|b| - 1] in a
    ensures a[|a| - 1] == b[|b| - 1]
  {
    var i: nat :| i < |b| && b[i] == a[|a| - 1];
    var j: nat :| j < |a| && a[j] == b[|b| - 1];
    if i < |b| - 1 {
      SortedPair(b, i, |b| - 1);
      if j < |a| - 1 {
        SortedPair(a, j, |a| - 1);
      }
    }
  }

  predicate Contained(a: seq<Stored>, b: seq<Stored>) {
    forall r :: r in a ==> r in b
  }

  lemma FrontContained(a: seq<Stored>, b: seq<Stored>)
    requires Sorted(a) && a != [] && b != [] && a[|a| - 1] == b[|b| - 1] && Contained(a, b)
    ensures Contained(a[..|a| - 1], b[..|b| - 1])
  {
    var front := a[..|a| - 1];
    forall r | r in front ensures r in b[..|b| - 1] {
      var i: nat :| i < |front| && front[i] == r;
      SortedPair(a, i, |a| - 1);
      assert r in b;
      var j: nat :| j < |b| && b[j] == r;
      assert b[..|b| - 1][j] == r;
    }
  }

  /** In strict order, the same rows are the same sequence. */
  lemma {:induction false} SortedUnique(a: seq<Stored>, b: seq<Stored>)
    requires Sorted(a) && Sorted(b) && Contained(a, b) && Contained(b, a)
    ensures a == b
  {
    assert a != [] ==> a[|a| - 1] in a;
    assert b != [] ==> b[|b| - 1] in b;
    if a != [] {
      SameLast(a, b);
      FrontContained(a, b);
      FrontContained(b, a);
      SortedUnique(a[..|a| - 1], b[..|b| - 1]);
      assert a == a[..|a| - 1] + [a[|a| - 1]] && b == b[..|b| - 1] + [b[|b| - 1]];
    }
  }

  ghost predicate Still(db: nat -> Snapshot, rows: seq<Stored>, from: nat, to: nat) {
    forall t :: from <= t < to ==> db(t) == Table(rows)
  }

  /** What a complete stream delivers from an unchanging table is exactly the plain query. */
  lemma StillIsSelect(db: nat -> Snapshot, table: seq<Stored>, from: nat, to: nat, q: Query, rows: seq<Stored>)
    requires Still(db, table, from, to) && Sorted(table)
    requires Sound(db, from, to, q, rows) && Complete(db, from, to, q, rows)
    ensures rows == Select(table, q)
  {
    var all := Select(table, q);
    FoundSorted(table, q, None);
    hide Sorted;
    forall r | r in rows ensures r in all {
      var i: nat :| i < |rows| && rows[i] == r;
      assert SeenBy(db, from, to, rows[i]);
      assert r in table;
      var j: nat :| j < |table| && table[j] == r;
      var k := FoundAt(table, q, None, j);
    }
    forall r | r in all ensures r in rows {
      var i: nat :| i < |all| && all[i] == r;
      var j := FoundFrom(table, q, None, i);
      assert Throughout(db, from, to, r);
    }
    SortedUnique(rows, all);
  }

  /** Written out: it delivers the rows with texts in range, of the agent, newest text and then largest id first. */
  lemma StillReadsAll(db: nat -> Snapshot, table: seq<Stored>, from: nat, to: nat, q: Query, rows: seq<Stored>)
    requires Still(db, table, from, to) && Sorted(table)
    requires Sound(db, from, to, q, rows) && Complete(db, from, to, q, rows)
    ensures forall r :: r in rows <==>
      r in table && q.since <= r.text < q.before && (q.agent == EMPTY_TEXT || r.row.key.agent == q.agent)
    ensures forall i, j :: 0 <= i < j < |rows| ==>
      rows[i].text > rows[j].text || (rows[i].text == rows[j].text && rows[i].id > rows[j].id)
  {
    hide Sound, Complete, Sorted, Found;
    StillIsSelect(db, table, from, to, q, rows);
    FoundSorted(table, q, None);
    forall r {
      SelectMembers(table, q, r);
    }
    forall i, j | 0 <= i < j < |rows|
      ensures rows[i].text > rows[j].text || (rows[i].text == rows[j].text && rows[i].id > rows[j].id)
    {
      SortedPair(rows, i, j);
    }
  }

  // ----- Stored times

  /** Each text is that of the row's own time. */
  predicate Written(rows: seq<Stored>) {
    forall i :: 0 <= i < |rows| ==> rows[i].text == TextRank(rows[i].row.checkedAt)
  }

  /** Bucket starts are written in whole seconds. */
  predicate IsWhole(r: Stored) {
    Frac(r.row.checkedAt) == 0 && r.text == TextRank(r.row.checkedAt)
  }

  predicate Whole(rows: seq<Stored>) {
    forall r :: r in rows ==> IsWhole(r)
  }

  ghost predicate WholeTables(db: nat -> Snapshot) {
    forall t :: db(t).Table? ==> Whole(db(t).rows)
  }

  lemma WholeIsSecond(r: Stored)
    requires IsWhole(r)
    ensures r.text == TextRank(Sec(r.row.checkedAt) * NANOS) && r.row.checkedAt == Sec(r.row.checkedAt) * NANOS
  {
    Parts(r.row.checkedAt);
    hide TextRank;
  }

  // ----- The compacted stream

  /** The range of a stream from since up to before. */
  function Range(since: int, before: int, agent: Text): Query {
    Query(Floor(since, before), TextRank(before), agent)
  }

  function RawQuery(since: int, rawCutoff: int, agent: Text, now: int): Query {
    if since >= rawCutoff then Range(since, now, agent) else Range(rawCutoff, now + 1, agent)
  }

  function RollupQuery(since: int, rawCutoff: int, agent: Text): Query {
    Range(since, rawCutoff, agent)
  }

  /** Plain queries on both tables, one after the other. */
  function CompactedRead(
    raw: seq<Stored>, rollups: seq<Stored>, since: int, rawCutoff: int, agent: Text, now: int): seq<Stored>
  {
    Select(raw, RawQuery(since, rawCutoff, agent, now)) + Select(rollups, RollupQuery(since, rawCutoff, agent))
  }

  /** Any rollup wanted comes after any raw row wanted. */
  lemma RollupAfterRaw(r: Stored, rollup: Stored, since: int, rawCutoff: int, agent: Text, now: int)
    requires Matches(RawQuery(since, rawCutoff, agent, now), r)
    requires Matches(RollupQuery(since, rawCutoff, agent), rollup) && IsWhole(rollup)
    ensures since < rawCutoff && r.text > rollup.text
  {
    hide TextRank;
    if since < rawCutoff {
      WholeIsSecond(rollup);
      if rawCutoff < now + 1 {
        WholeBelowFloor(Sec(rollup.row.checkedAt), rawCutoff, now + 1);
      }
    }
  }

  /** All raw rows wanted come before all rollups wanted. */
  lemma RawBeforeRollups(raw: seq<Stored>, rollups: seq<Stored>, since: int, rawCutoff: int, agent: Text, now: int)
    requires Sorted(raw) && AllMatch(RawQuery(since, rawCutoff, agent, now), raw)
    requires Sorted(rollups) && AllMatch(RollupQuery(since, rawCutoff, agent), rollups) && Whole(rollups)
    ensures Sorted(raw + rollups)
  {
    hide Sorted, RawQuery, RollupQuery, IsWhole;
    if raw != [] && rollups != [] {
      assert rollups[0] in rollups;
      RollupAfterRaw(raw[|raw| - 1], rollups[0], since, rawCutoff, agent, now);
    }
    SortedConcat(raw, rollups);
  }

  lemma SeenWhole(db: nat -> Snapshot, from: nat, to: nat, q: Query, rows: seq<Stored>)
    requires WholeTables(db) && Sound(db, from, to, q, rows)
    ensures Whole(rows)
  {
    hide IsWhole;
    forall r | r in rows ensures IsWhole(r) {
      var i: nat :| i < |rows| && rows[i] == r;
      assert SeenBy(db, from, to, rows[i]);
    }
  }

  /**
   * The first n rows came from the raw table, the rest later from the rollups; each part in strict order, in range,
   * and with no row passed over that was there all along; both complete when all went well.
   */
  ghost predicate Delivered(
    rawDb: nat -> Snapshot, rollupDb: nat -> Snapshot, since: int, rawCutoff: int, agent: Text, now: int,
    tick: nat, mid: nat, next: nat, emitted: seq<Stored>, n: nat, ok: bool)
    requires n <= |emitted|
  {
    var a, b := RawQuery(since, rawCutoff, agent, now), RollupQuery(since, rawCutoff, agent);
    && Sound(rawDb, tick, mid, a, emitted[..n]) && Gapless(rawDb, tick, mid, a, emitted[..n])
    && Sound(rollupDb, mid, next, b, emitted[n..]) && Gapless(rollupDb, mid, next, b, emitted[n..])
    && (n < |emitted| || ok ==> Complete(rawDb, tick, mid, a, emitted[..n]))
    && (ok ==> Complete(rollupDb, mid, next, b, emitted[n..]))
  }

  lemma NoRollups(since: int, rawCutoff: int, agent: Text)
    requires since >= rawCutoff
    ensures var q := RollupQuery(since, rawCutoff, agent); q.before <= q.since
  {
  }

  /** Raw rows from the raw cutoff on, then rollups before it; only raw rows when since is not before it. */
  method StreamResultsSinceCompacted(
    rawDb: nat -> Snapshot, rollupDb: nat -> Snapshot, fails: Stored -> bool,
    since: int, rawCutoff: int, agent: Text, now: int, tick: nat)
    returns (emitted: seq<Stored>, ok: bool, next: nat)
    requires Indexed(rawDb) && Indexed(rollupDb) && WholeTables(rollupDb)
    ensures tick <= next && Sorted(emitted)
    ensures !ok ==> Trouble(rawDb, fails, tick, next) || Trouble(rollupDb, fails, tick, next)
    ensures exists mid, n | tick <= mid <= next && 0 <= n <= |emitted| ::
      Delivered(rawDb, rollupDb, since, rawCutoff, agent, now, tick, mid, next, emitted, n, ok)
  {
    hide Sound, Gapless, Complete, Trouble, Indexed, Sorted, Floor, TextRank, WholeTables, Whole;
    ghost var rollupQuery := RollupQuery(since, rawCutoff, agent);
    if since >= rawCutoff {
      emitted, ok, next := StreamWindowed(rawDb, fails, since, now, agent, tick);
      SoundMatches(rawDb, tick, next, RawQuery(since, rawCutoff, agent, now), emitted);
      NoRollups(since, rawCutoff, agent);
      EmptyRange(rollupDb, next, rollupQuery);
      CompleteIsGapless(rollupDb, next, next, rollupQuery, []);
      assert emitted[..|emitted|] == emitted && emitted[|emitted|..] == [];
      assert Delivered(rawDb, rollupDb, since, rawCutoff, agent, now, tick, next, next, emitted, |emitted|, ok);
      return;
    }
    var raw, rawOk, mid := StreamWindowed(rawDb, fails, rawCutoff, now + 1, agent, tick);
    SoundMatches(rawDb, tick, mid, RawQuery(since, rawCutoff, agent, now), raw);
    if !rawOk {
      StreamStart(rollupDb, mid, rollupQuery);
      assert raw[..|raw|] == raw && raw[|raw|..] == [];
      assert Delivered(rawDb, rollupDb, since, rawCutoff, agent, now, tick, mid, mid, raw, |raw|, false);
      return raw, false, mid;
    }
    var rollups;
    rollups, ok, next := StreamWindowed(rollupDb, fails, since, rawCutoff, agent, mid);
    SoundMatches(rollupDb, mid, next, rollupQuery, rollups);
    SeenWhole(rollupDb, mid, next, rollupQuery, rollups);
    RawBeforeRollups(raw, rollups, since, rawCutoff, agent, now);
    emitted := raw + rollups;
    assert emitted[..|raw|] == raw && emitted[|raw|..] == rollups;
    assert Delivered(rawDb, rollupDb, since, rawCutoff, agent, now, tick, mid, next, emitted, |raw|, ok);
    if !ok {
      TroubleLater(rollupDb, fails, tick, mid, next);
    }
  }

  /** So with tables that do not change meanwhile, the stream is the two plain queries. */
  lemma StillIsCompactedRead(
    rawDb: nat -> Snapshot, rollupDb: nat -> Snapshot, raw: seq<Stored>, rollups: seq<Stored>,
    since: int, rawCutoff: int, agent: Text, now: int, tick: nat, mid: nat, next: nat, emitted: seq<Stored>, n: nat)
    requires Sorted(raw) && Sorted(rollups) && tick <= mid <= next && n <= |emitted|
    requires Still(rawDb, raw, tick, next) && Still(rollupDb, rollups, tick, next)
    requires Delivered(rawDb, rollupDb, since, rawCutoff, agent, now, tick, mid, next, emitted, n, true)
    ensures emitted == CompactedRead(raw, rollups, since, rawCutoff, agent, now)
  {
    hide Sorted, Sound, Complete, Gapless;
    StillIsSelect(rawDb, raw, tick, mid, RawQuery(since, rawCutoff, agent, now), emitted[..n]);
    StillIsSelect(rollupDb, rollups, mid, next, RollupQuery(since, rawCutoff, agent), emitted[n..]);
    assert emitted == emitted[..n] + emitted[n..];
  }

  // ----- The loaded read

  function RowsOf(stored: seq<Stored>): seq<Row> {
    seq(|stored|, i requires 0 <= i < |stored| => stored[i].row)
  }

  /** mergeResultsDesc: the newer head first, the second list's on a tie. */
  function MergeDesc(a: seq<Row>, b: seq<Row>): seq<Row> {
    if a == [] then b
    else if b == [] then a
    else if a[0].checkedAt > b[0].checkedAt then [a[0]] + MergeDesc(a[1..], b)
    else [b[0]] + MergeDesc(a, b[1..])
  }

  lemma MergeHead(a: seq<Row>, b: seq<Row>, i: nat, j: nat)
    requires i <= |a| && j <= |b|
    ensures i < |a| && j < |b| && a[i].checkedAt > b[j].checkedAt ==>
      MergeDesc(a[i..], b[j..]) == [a[i]] + MergeDesc(a[i + 1..], b[j..])
    ensures i < |a| && j < |b| && a[i].checkedAt <= b[j].checkedAt ==>
      MergeDesc(a[i..], b[j..]) == [b[j]] + MergeDesc(a[i..], b[j + 1..])
    ensures i == |a| || j == |b| ==> MergeDesc(a[i..], b[j..]) == a[i..] + b[j..]
  {
    if i < |a| {
      assert a[i..][1..] == a[i + 1..];
    }
    if j < |b| {
      assert b[j..][1..] == b[j + 1..];
    }
  }

  method MergeResultsDesc(a: seq<Row>, b: seq<Row>) returns (result: seq<Row>)
    ensures result == MergeDesc(a, b)
  {
    hide MergeDesc;
    result := [];
    var i, j := 0, 0;
    assert a[0..] == a && b[0..] == b;
    while i < |a| && j < |b|
      invariant 0 <= i <= |a| && 0 <= j <= |b|
      invariant result + MergeDesc(a[i..], b[j..]) == MergeDesc(a, b)
      decreases |a| - i + |b| - j
    {
      MergeHead(a, b, i, j);
      if a[i].checkedAt > b[j].checkedAt {
        result := result + [a[i]];
        i := i + 1;
      } else {
        result := result + [b[j]];
        j := j + 1;
      }
    }
    MergeHead(a, b, i, j);
    result := result + a[i..];
    result := result + b[j..];
  }

  lemma {:induction false} MergeKeepsRows(a: seq<Row>, b: seq<Row>)
    ensures multiset(MergeDesc(a, b)) == multiset(a) + multiset(b)
    decreases |a| + |b|
  {
    if a == [] || b == [] {
    } else if a[0].checkedAt > b[0].checkedAt {
      MergeKeepsRows(a[1..], b);
      Cons(a);
      ConsRows(a[0], MergeDesc(a[1..], b));
    } else {
      MergeKeepsRows(a, b[1..]);
      Cons(b);
      ConsRows(b[0], MergeDesc(a, b[1..]));
    }
  }

  lemma Cons(rows: seq<Row>)
    requires rows != []
    ensures multiset(rows) == multiset{rows[0]} + multiset(rows[1..])
  {
    assert rows == [rows[0]] + rows[1..];
  }

  lemma ConsRows(r: Row, rows: seq<Row>)
    ensures multiset([r] + rows) == multiset{r} + multiset(rows)
  {
  }

  predicate NoneNewer(rows: seq<Row>, time: int) {
    forall i :: 0 <= i < |rows| ==> rows[i].checkedAt <= time
  }

  lemma ConsDescending(r: Row, rows: seq<Row>)
    requires Descending(rows) && NoneNewer(rows, r.checkedAt)
    ensures Descending([r] + rows)
  {
  }

  lemma {:induction false} MergeDescends(a: seq<Row>, b: seq<Row>, time: int)
    requires Descending(a) && Descending(b) && NoneNewer(a, time) && NoneNewer(b, time)
    ensures Descending(MergeDesc(a, b)) && NoneNewer(MergeDesc(a, b), time)
    decreases |a| + |b|
  {
    if a == [] || b == [] {
    } else if a[0].checkedAt > b[0].checkedAt {
      MergeDescends(a[1..], b, a[0].checkedAt);
      ConsDescending(a[0], MergeDesc(a[1..], b));
    } else {
      MergeDescends(a, b[1..], b[0].checkedAt);
      ConsDescending(b[0], MergeDesc(a, b[1..]));
    }
  }

  /** Of one instant, rows of the second list come before those of the first, each in their own order. */
  lemma {:induction false} MergeTies(a: seq<Row>, b: seq<Row>, time: int)
    requires Descending(a) && Descending(b)
    ensures AtTime(MergeDesc(a, b), time) == AtTime(b, time) + AtTime(a, time)
    decreases |a| + |b|
  {
    hide AtTime;
    if a == [] || b == [] {
      NoneAtTime([], time);
    } else if a[0].checkedAt > b[0].checkedAt {
      MergeTies(a[1..], b, time);
      HeadAtTime(a, time);
      AtTimeConcat([a[0]], MergeDesc(a[1..], b), time);
      if a[0].checkedAt == time {
        NoneAtTime(b, time);
      } else {
        NoneAtTime([a[0]], time);
      }
    } else {
      MergeTies(a, b[1..], time);
      HeadAtTime(b, time);
      AtTimeConcat([b[0]], MergeDesc(a, b[1..]), time);
    }
  }

  lemma HeadAtTime(rows: seq<Row>, time: int)
    requires rows != []
    ensures AtTime(rows, time) == AtTime([rows[0]], time) + AtTime(rows[1..], time)
  {
    assert rows == [rows[0]] + rows[1..];
    AtTimeConcat([rows[0]], rows[1..], time);
  }

  /** Lists that do not overlap in time are joined end to end. */
  lemma {:induction false} MergeApart(a: seq<Row>, b: seq<Row>)
    requires forall i, j :: 0 <= i < |a| && 0 <= j < |b| ==> a[i].checkedAt > b[j].checkedAt
    ensures MergeDesc(a, b) == a + b
  {
    if a != [] && b != [] {
      MergeApart(a[1..], b);
      assert a + b == [a[0]] + (a[1..] + b);
    }
  }

  /** checked_at >= since as texts, with no upper end. */
  predicate IsSince(r: Stored, since: int, agent: Text) {
    r.text >= TextRank(since) && (agent == EMPTY_TEXT || r.row.key.agent == agent)
  }

  /** Rows of one time in the order of the index. */
  function Since(rows: seq<Stored>, since: int, agent: Text): seq<Stored> {
    if rows == [] then []
    else
      var front, last := Since(rows[..|rows| - 1], since, agent), rows[|rows| - 1];
      if IsSince(last, since, agent) then front + [last] else front
  }

  /** bucket_start >= since AND bucket_start < before, without windows. */
  function RollupsSince(rows: seq<Stored>, since: int, before: int, agent: Text): seq<Stored> {
    Select(rows, Query(TextRank(since), TextRank(before), agent))
  }

  function ResultsSinceCompacted(
    raw: seq<Stored>, rollups: seq<Stored>, since: int, rawCutoff: int, agent: Text): seq<Row>
  {
    if since >= rawCutoff then RowsOf(Since(raw, since, agent))
    else MergeDesc(RowsOf(Since(raw, rawCutoff, agent)), RowsOf(RollupsSince(rollups, since, rawCutoff, agent)))
  }

  lemma {:induction false} SinceMembers(rows: seq<Stored>, since: int, agent: Text, r: Stored)
    ensures r in Since(rows, since, agent) <==> r in rows && IsSince(r, since, agent)
  {
    hide IsSince;
    if rows != [] {
      SinceMembers(rows[..|rows| - 1], since, agent, r);
      assert rows == rows[..|rows| - 1] + [rows[|rows| - 1]];
    }
  }

  lemma {:induction false} SelectMembers(rows: seq<Stored>, q: Query, r: Stored)
    ensures r in Select(rows, q) <==> r in rows && Matches(q, r)
  {
    hide Matches;
    if rows != [] {
      SelectMembers(rows[..|rows| - 1], q, r);
      assert rows == rows[..|rows| - 1] + [rows[|rows| - 1]];
    }
  }

  lemma {:induction false} SameSelection(rows: seq<Stored>, q: Query, since: int)
    requires forall r :: r in rows ==> (Matches(q, r) <==> IsSince(r, since, q.agent))
    ensures Select(rows, q) == Since(rows, since, q.agent)
  {
    hide Matches, IsSince;
    if rows != [] {
      assert rows == rows[..|rows| - 1] + [rows[|rows| - 1]];
      SameSelection(rows[..|rows| - 1], q, since);
    }
  }

  lemma SelectIsSinceIff(rows: seq<Stored>, q: Query, since: int)
    ensures Select(rows, q) == Since(rows, since, q.agent)
       <==> forall r :: r in rows ==> (Matches(q, r) <==> IsSince(r, since, q.agent))
  {
    hide Matches, IsSince, Select, Since;
    if Select(rows, q) == Since(rows, since, q.agent) {
      forall r | r in rows ensures Matches(q, r) <==> IsSince(r, since, q.agent) {
        SelectMembers(rows, q, r);
        SinceMembers(rows, since, q.agent, r);
      }
    }
    if forall r :: r in rows ==> (Matches(q, r) <==> IsSince(r, since, q.agent)) {
      SameSelection(rows, q, since);
    }
  }

  lemma {:induction false} SameRows(rows: seq<Stored>, a: Query, b: Query)
    requires forall r :: r in rows ==> (Matches(a, r) <==> Matches(b, r))
    ensures Select(rows, a) == Select(rows, b)
  {
    hide Matches;
    if rows != [] {
      assert rows == rows[..|rows| - 1] + [rows[|rows| - 1]];
      SameRows(rows[..|rows| - 1], a, b);
    }
  }

  lemma SameSelectionIff(rows: seq<Stored>, a: Query, b: Query)
    ensures Select(rows, a) == Select(rows, b) <==> forall r :: r in rows ==> (Matches(a, r) <==> Matches(b, r))
  {
    hide Matches, Select;
    if Select(rows, a) == Select(rows, b) {
      forall r | r in rows ensures Matches(a, r) <==> Matches(b, r) {
        SelectMembers(rows, a, r);
        SelectMembers(rows, b, r);
      }
    }
    if forall r :: r in rows ==> (Matches(a, r) <==> Matches(b, r)) {
      SameRows(rows, a, b);
    }
  }

  /** The text of the row lies before that of since, but not before that of the last cursor. */
  predicate BelowSince(r: Stored, since: int, before: int, agent: Text)
    requires since < before
  {
    && TextRank(LastCursor(since, before)) <= r.text < TextRank(since)
    && r.text < TextRank(before)
    && (agent == EMPTY_TEXT || r.row.key.agent == agent)
  }

  /** Streaming in windows finds what the plain range query finds exactly when no row lies there. */
  lemma WindowsAreRangeIff(rows: seq<Stored>, since: int, before: int, agent: Text)
    requires since < before
    ensures Select(rows, Range(since, before, agent)) == Select(rows, Query(TextRank(since), TextRank(before), agent))
       <==> forall r :: r in rows ==> !BelowSince(r, since, before, agent)
  {
    hide TextRank, LastCursor;
    var a, b := Range(since, before, agent), Query(TextRank(since), TextRank(before), agent);
    SameSelectionIff(rows, a, b);
    forall r ensures (Matches(a, r) <==> Matches(b, r)) <==> !BelowSince(r, since, before, agent) {
    }
  }

  /** From 0.12 to 0.123 s six hours later, the window above 0.123 s finds 0.124 s, which sorts before 0.12 s. */
  lemma WindowReachesBelowSince(r: Stored)
    requires r.row.checkedAt == 124_000_000 && r.text == TextRank(124_000_000)
    ensures BelowSince(r, 120_000_000, STREAM_QUERY_WINDOW + 123_000_000, EMPTY_TEXT)
  {
    var since, before := 120_000_000, STREAM_QUERY_WINDOW + 123_000_000;
    assert LastCursor(since, before) == LastCursor(since, 123_000_000) == 123_000_000;
    BetweenAsTexts();
    TextRankOrders(124_000_000, since);
    TextRankOrders(124_000_000, 123_000_000);
    hide TextRank, TextBefore;
    WindowInOrder(before);
  }

  /** As texts, 0.123, 0.124, 0.12. */
  lemma BetweenAsTexts()
    ensures TextBefore(124_000_000, 120_000_000) && !TextBefore(124_000_000, 123_000_000)
    ensures TextRank(120_000_000) < TextRank(STREAM_QUERY_WINDOW + 123_000_000)
  {
    assert FractionBefore(4_000_000, 0, 1_000_000);
    assert FractionBefore(24_000_000, 20_000_000, 10_000_000);
    assert !FractionBefore(4_000_000, 3_000_000, 1_000_000);
    assert !FractionBefore(24_000_000, 23_000_000, 10_000_000);
    TextRankOrders(120_000_000, STREAM_QUERY_WINDOW + 123_000_000);
    hide TextRank;
  }

  /** Bucket starts are whole seconds, so the windows find the same rollups. */
  lemma RollupsFoundAlike(rollups: seq<Stored>, since: int, rawCutoff: int, agent: Text)
    requires Whole(rollups) && since < rawCutoff
    ensures Select(rollups, RollupQuery(since, rawCutoff, agent)) == RollupsSince(rollups, since, rawCutoff, agent)
  {
    var a, b := RollupQuery(since, rawCutoff, agent), Query(TextRank(since), TextRank(rawCutoff), agent);
    FloorIsSinceIff(since, rawCutoff);
    hide TextRank, Floor, IsWhole;
    forall r | r in rollups ensures Matches(a, r) <==> Matches(b, r) {
      WholeIsSecond(r);
      if r.text < TextRank(since) {
        WholeBelowFloor(Sec(r.row.checkedAt), since, rawCutoff);
      }
    }
    SameRows(rollups, a, b);
  }

  /** A raw row from the cutoff on is later than any rollup before it, in time too. */
  lemma LaterThanRollup(r: Stored, rollup: Stored, rawCutoff: int)
    requires r.text == TextRank(r.row.checkedAt) && r.text >= TextRank(rawCutoff)
    requires IsWhole(rollup) && rollup.text < TextRank(rawCutoff)
    ensures r.row.checkedAt > rollup.row.checkedAt
  {
    var second := Sec(rollup.row.checkedAt);
    WholeIsSecond(rollup);
    TextRankOrders(second * NANOS, rawCutoff);
    TextRankOrders(r.row.checkedAt, rawCutoff);
    WholeSecondBefore(second, rawCutoff);
    hide TextRank;
    assert Sec(r.row.checkedAt) >= Sec(rawCutoff);
    Parts(r.row.checkedAt);
  }

  /** What the loaded read consists of. */
  function LoadedRead(
    raw: seq<Stored>, rollups: seq<Stored>, since: int, rawCutoff: int, agent: Text): seq<Stored>
  {
    if since >= rawCutoff then Since(raw, since, agent)
    else Since(raw, rawCutoff, agent) + RollupsSince(rollups, since, rawCutoff, agent)
  }

  /** The merge only ever joins the rollups to the end of the raw rows. */
  lemma LoadedInTurn(raw: seq<Stored>, rollups: seq<Stored>, since: int, rawCutoff: int, agent: Text)
    requires Written(raw) && Whole(rollups)
    ensures ResultsSinceCompacted(raw, rollups, since, rawCutoff, agent)
         == RowsOf(LoadedRead(raw, rollups, since, rawCutoff, agent))
  {
    hide TextRank, IsWhole;
    if since < rawCutoff {
      var a, b := Since(raw, rawCutoff, agent), RollupsSince(rollups, since, rawCutoff, agent);
      forall i, j | 0 <= i < |a| && 0 <= j < |b| ensures a[i].row.checkedAt > b[j].row.checkedAt {
        SinceMembers(raw, rawCutoff, agent, a[i]);
        SelectMembers(rollups, Query(TextRank(since), TextRank(rawCutoff), agent), b[j]);
        LaterThanRollup(a[i], b[j], rawCutoff);
      }
      MergeApart(RowsOf(a), RowsOf(b));
      RowsOfConcat(a, b);
    }
  }

  lemma RowsOfConcat(a: seq<Stored>, b: seq<Stored>)
    ensures RowsOf(a + b) == RowsOf(a) + RowsOf(b)
  {
  }

  /** Streaming a range in windows finds what the open query finds, unless a row is below since or past the end. */
  lemma RangeIsSinceIff(rows: seq<Stored>, since: int, before: int, agent: Text)
    ensures since < before ==>
      (Select(rows, Range(since, before, agent)) == Since(rows, since, agent) <==>
       forall r :: r in rows ==> !BelowSince(r, since, before, agent) && !IsPast(r, since, before, agent))
    ensures since >= before ==>
      (Select(rows, Range(since, before, agent)) == Since(rows, since, agent) <==>
       forall r :: r in rows ==> !IsSince(r, since, agent))
  {
    hide TextRank, LastCursor, Select, Since;
    var q := Range(since, before, agent);
    SelectIsSinceIff(rows, q, since);
    if since < before {
      forall r ensures (Matches(q, r) <==> IsSince(r, since, agent))
                  <==> !BelowSince(r, since, before, agent) && !IsPast(r, since, before, agent) {
      }
    } else {
      assert forall r :: !Matches(q, r);
    }
  }

  /** Wanted by the open query, but at or after the end of the range as a text. */
  predicate IsPast(r: Stored, since: int, before: int, agent: Text) {
    IsSince(r, since, agent) && r.text >= TextRank(before)
  }

  /** Where both reads of the raw rows start, and where the streamed one ends. */
  function RawStart(since: int, rawCutoff: int): int {
    if since >= rawCutoff then since else rawCutoff
  }

  function RawEnd(since: int, rawCutoff: int, now: int): int {
    if since >= rawCutoff then now else now + 1
  }

  /** No raw row has a time from the end on, and none lies between the two lower ends as texts. */
  predicate ReadAlike(raw: seq<Stored>, start: int, end: int, agent: Text) {
    if start < end then forall r :: r in raw ==> !BelowSince(r, start, end, agent) && !IsPast(r, start, end, agent)
    else forall r :: r in raw ==> !IsSince(r, start, agent)
  }

  /** The streamed and the loaded read have the same rows in the same order exactly then. */
  lemma CompactedReadsAgreeIff(
    raw: seq<Stored>, rollups: seq<Stored>, since: int, rawCutoff: int, agent: Text, now: int)
    requires Whole(rollups)
    ensures CompactedRead(raw, rollups, since, rawCutoff, agent, now)
         == LoadedRead(raw, rollups, since, rawCutoff, agent)
       <==> ReadAlike(raw, RawStart(since, rawCutoff), RawEnd(since, rawCutoff, now), agent)
  {
    hide TextRank, IsSince, BelowSince, IsPast, Floor, Since, Found, Whole;
    var start, end := RawStart(since, rawCutoff), RawEnd(since, rawCutoff, now);
    var q, found := RawQuery(since, rawCutoff, agent, now), Select(rollups, RollupQuery(since, rawCutoff, agent));
    RangeIsSinceIff(raw, start, end, agent);
    if since >= rawCutoff {
      NoneFound(rollups, since, rawCutoff, agent);
      assert Since(raw, start, agent) + [] == Since(raw, start, agent);
    } else {
      RollupsFoundAlike(rollups, since, rawCutoff, agent);
    }
    SameFront(Select(raw, q), Since(raw, start, agent), found);
  }

  /** A row that an agent whose clock is fast has stored a second ahead of now is loaded, but not streamed. */
  lemma FutureRowIsNotStreamed(r: Stored, rawCutoff: int)
    requires r.row.checkedAt == 3 * NANOS && r.text == TextRank(3 * NANOS) && rawCutoff <= 1 * NANOS
    ensures CompactedRead([r], [], 1 * NANOS, rawCutoff, EMPTY_TEXT, 2 * NANOS) == []
    ensures LoadedRead([r], [], 1 * NANOS, rawCutoff, EMPTY_TEXT) == [r]
  {
    TextRankOrders(2 * NANOS, 3 * NANOS);
    TextRankOrders(1 * NANOS, 3 * NANOS);
    hide TextRank, Floor;
    var q := RawQuery(1 * NANOS, rawCutoff, EMPTY_TEXT, 2 * NANOS);
    var one := [r];
    assert one[..|one| - 1] == [] && one[|one| - 1] == r && !Matches(q, r) && IsSince(r, 1 * NANOS, EMPTY_TEXT);
    assert Found([], q, None) == [] && Found(one, q, None) == [];
    assert Select([], RollupQuery(1 * NANOS, rawCutoff, EMPTY_TEXT)) == [];
    assert Since([], 1 * NANOS, EMPTY_TEXT) == [] && Since(one, 1 * NANOS, EMPTY_TEXT) == [] + [r];
  }

  lemma NoneFound(rollups: seq<Stored>, since: int, rawCutoff: int, agent: Text)
    requires since >= rawCutoff
    ensures Select(rollups, RollupQuery(since, rawCutoff, agent)) == []
  {
    NoRollups(since, rawCutoff, agent);
    SelectMatches(rollups, RollupQuery(since, rawCutoff, agent));
    NothingMatches(RollupQuery(since, rawCutoff, agent), Select(rollups, RollupQuery(since, rawCutoff, agent)));
  }

  lemma SameFront(a: seq<Stored>, b: seq<Stored>, c: seq<Stored>)
    ensures a + c == b + c <==> a == b
  {
    if a + c == b + c {
      assert |a| == |b|;
      assert forall i :: 0 <= i < |a| ==> a[i] == (a + c)[i] == b[i];
    }
  }

  // ----- On to the chart

  /** Of two rows in the order of the query the second is newer exactly if the first is written as its beginning. */
  lemma PairIff(rows: seq<Stored>, i: nat, j: nat)
    requires Sorted(rows) && Written(rows) && i < j < |rows|
    ensures rows[i].row.checkedAt < rows[j].row.checkedAt
       <==> IsBeginning(rows[i].row.checkedAt, rows[j].row.checkedAt)
    ensures !IsBeginning(rows[j].row.checkedAt, rows[i].row.checkedAt)
  {
    hide Sorted, TextRank, TextBefore, IsBeginning;
    var a, b := rows[i].row.checkedAt, rows[j].row.checkedAt;
    SortedPair(rows, i, j);
    TextRankOrders(a, b);
    TextRankOrders(b, a);
    TextOrder(a, b);
    ReversedIff(a, b);
    ReversedIff(b, a);
  }

  /** One row's time is written as a beginning of another's, both of one series. */
  predicate SeriesReversed(rows: seq<Stored>, i: nat, j: nat)
    requires i < |rows| && j < |rows|
  {
    && rows[i].row.key == rows[j].row.key
    && IsBeginning(rows[i].row.checkedAt, rows[j].row.checkedAt)
  }

  /** What is streamed is newest first exactly when no row's time is written as a beginning of another's. */
  lemma StreamDescendsIff(rows: seq<Stored>)
    requires Sorted(rows) && Written(rows)
    ensures Descending(RowsOf(rows)) <==>
      forall i: nat, j: nat :: i < |rows| && j < |rows| ==>
        !IsBeginning(rows[i].row.checkedAt, rows[j].row.checkedAt)
  {
    hide Sorted, Written, IsBeginning;
    forall i: nat, j: nat | i < j < |rows|
      ensures RowsOf(rows)[i].checkedAt < RowsOf(rows)[j].checkedAt
         <==> IsBeginning(rows[i].row.checkedAt, rows[j].row.checkedAt)
      ensures !IsBeginning(rows[j].row.checkedAt, rows[i].row.checkedAt)
    {
      PairIff(rows, i, j);
    }
    forall i: nat | i < |rows| ensures !IsBeginning(rows[i].row.checkedAt, rows[i].row.checkedAt) {
      NotItself(rows[i].row.checkedAt);
    }
  }

  lemma NotItself(at: int)
    ensures !IsBeginning(at, at)
  {
    ReversedIff(at, at);
  }

  /** Every series of it is exactly when that holds within the series. */
  lemma SeriesDescendIff(rows: seq<Stored>)
    requires Sorted(rows) && Written(rows)
    ensures SeriesDescend(RowsOf(rows)) <==>
      forall i: nat, j: nat :: i < |rows| && j < |rows| ==> !SeriesReversed(rows, i, j)
  {
    hide Sorted, Written, IsBeginning;
    var out := RowsOf(rows);
    if SeriesDescend(out) {
      forall i: nat, j: nat | i < |rows| && j < |rows| ensures !SeriesReversed(rows, i, j) {
        if i < j {
          PairIff(rows, i, j);
          assert out[i] == rows[i].row && out[j] == rows[j].row;
        } else if j < i {
          PairIff(rows, j, i);
        } else {
          NotItself(rows[i].row.checkedAt);
        }
      }
    }
    if forall i: nat, j: nat :: i < |rows| && j < |rows| ==> !SeriesReversed(rows, i, j) {
      forall i, j | 0 <= i < j < |out| && out[i].key == out[j].key ensures out[i].checkedAt >= out[j].checkedAt {
        PairIff(rows, i, j);
        assert !SeriesReversed(rows, i, j);
      }
    }
  }

  /** Times are never so written when all are whole seconds, nor when all have nine digits. */
  lemma UniformIsNotReversed(rows: seq<Stored>, i: nat, j: nat)
    requires i < |rows| && j < |rows|
    requires (forall k :: 0 <= k < |rows| ==> Frac(rows[k].row.checkedAt) == 0)
          || (forall k :: 0 <= k < |rows| ==> rows[k].row.checkedAt % 10 != 0)
    ensures !IsBeginning(rows[i].row.checkedAt, rows[j].row.checkedAt)
  {
    var a, b := rows[i].row.checkedAt, rows[j].row.checkedAt;
    ReversedIff(a, b);
    TextOrder(b, a);
    Parts(a);
    Parts(b);
  }

  /** A sample of 5 seconds is streamed before one of 5.5 seconds, though it is the older. */
  lemma FractionStreamsLate(a: Stored, b: Stored)
    requires a.row.checkedAt == 5 * NANOS && b.row.checkedAt == 5 * NANOS + 500_000_000
    requires Written([a, b])
    ensures Sorted([a, b]) && !Descending(RowsOf([a, b]))
  {
    assert [a, b][0] == a && [a, b][1] == b && [a, b][..1] == [a];
    TextRankOrders(b.row.checkedAt, a.row.checkedAt);
    BeforeWholeSecond(b.row.checkedAt, 5);
    hide TextRank, TextBefore;
    assert RowsOf([a, b])[0] == a.row && RowsOf([a, b])[1] == b.row;
  }

  /** With one of 10 seconds before them, a pass that allows the series two points loses both. */
  lemma FractionLosesRows(a: Stored, b: Stored, c: Stored, since: int)
    requires a.row.checkedAt == 10 * NANOS && b.row.checkedAt == 5 * NANOS
    requires c.row.checkedAt == 5 * NANOS + 500_000_000
    requires Written([a, b, c]) && a.row.key == b.row.key == c.row.key && since < 10 * NANOS
    ensures Sorted([a, b, c])
    ensures Sum(AggregateRows(RowsOf([a, b, c]), since, 2)) == Sum([a.row])
  {
    hide TextRank, TextBefore, Sum, AggregateRows;
    var rows := [a, b, c];
    assert [a, b][0] == a && [a, b][1] == b && [a, b][..|[a, b]| - 1] == [a];
    assert rows[1] == b && rows[2] == c && rows[..|rows| - 1] == [a, b];
    TextRankOrders(b.row.checkedAt, a.row.checkedAt);
    TextRankOrders(c.row.checkedAt, b.row.checkedAt);
    WholeSecondBefore(5, 10 * NANOS);
    BeforeWholeSecond(c.row.checkedAt, 5);
    assert Sorted([a, b]);
    assert RowsOf(rows) == [a.row, b.row, c.row];
    LateRowsAreLost(a.row, b.row, c.row, since);
  }

  /**
   * From the tables to the response, if within no series a time is written as a beginning of another's: with at most
   * 3000 series and nothing cut every series keeps the totals of its stored rows, and if these stand for probes, only
   * then.
   */
  lemma TablesToChart(raw: seq<Stored>, rollups: seq<Stored>, since: int, rawCutoff: int, agent: Text, now: int)
    requires Sorted(raw) && Sorted(rollups) && Whole(rollups)
    requires var read := CompactedRead(raw, rollups, since, rawCutoff, agent, now);
      Written(read) && forall i: nat, j: nat :: i < |read| && j < |read| ==> !SeriesReversed(read, i, j)
    ensures var rows := RowsOf(CompactedRead(raw, rollups, since, rawCutoff, agent, now));
      && |Response(rows, since)| <= MAX_CHART_POINTS
      && (|KeySet(rows)| <= MAX_CHART_POINTS && NothingCut(rows, since) ==> SameTotals(Response(rows, since), rows))
      && (Counts(rows) && SameTotals(Response(rows, since), rows) ==>
            |KeySet(rows)| <= MAX_CHART_POINTS && NothingCut(rows, since))
  {
    hide *;
    var read := CompactedRead(raw, rollups, since, rawCutoff, agent, now);
    CompactedReadSorted(raw, rollups, since, rawCutoff, agent, now);
    SeriesDescendIff(read);
    InTurnKeepsTotals(RowsOf(read), since);
  }

  lemma CompactedReadSorted(
    raw: seq<Stored>, rollups: seq<Stored>, since: int, rawCutoff: int, agent: Text, now: int)
    requires Sorted(raw) && Sorted(rollups) && Whole(rollups)
    ensures Sorted(CompactedRead(raw, rollups, since, rawCutoff, agent, now))
  {
    hide Sorted, Whole, TextRank, Floor;
    var a := Select(raw, RawQuery(since, rawCutoff, agent, now));
    var b := Select(rollups, RollupQuery(since, rawCutoff, agent));
    FoundSorted(raw, RawQuery(since, rawCutoff, agent, now), None);
    FoundSorted(rollups, RollupQuery(since, rawCutoff, agent), None);
    SelectMatches(raw, RawQuery(since, rawCutoff, agent, now));
    SelectMatches(rollups, RollupQuery(since, rawCutoff, agent));
    SelectWhole(rollups, RollupQuery(since, rawCutoff, agent));
    RawBeforeRollups(a, b, since, rawCutoff, agent, now);
  }

  lemma SelectWhole(rows: seq<Stored>, q: Query)
    requires Whole(rows)
    ensures Whole(Select(rows, q))
  {
    hide IsWhole, Select;
    forall r | r in Select(rows, q) ensures IsWhole(r) {
      SelectMembers(rows, q, r);
    }
  }

  lemma SelectMatches(rows: seq<Stored>, q: Query)
    ensures AllMatch(q, Select(rows, q))
  {
    forall i | 0 <= i < |Select(rows, q)| ensures Matches(q, Select(rows, q)[i]) {
      var j := FoundFrom(rows, q, None, i);
    }
  }
}
