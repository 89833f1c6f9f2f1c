/** The results and result_rollups tables, and the three cleanup statements on them. */
module Retention {
  import opened ChartRows
  import opened Common
  import opened StoredTime

  const PROBLEM_TEXT: Text := 1

  /** The columns of result_series, whose unique constraint makes them stand for the series id. */
  datatype Series = Series(key: SeriesKey, agentIP: Text, labels: Text)

  /** The columns of the unique index on result_rollups. */
  datatype BucketKey = BucketKey(series: Series, start: int, interval: int)

  datatype Rollup = Rollup(
    samples: nat, successes: nat, failures: nat, latency: real, successRate: real, error: Text)

  datatype Store = Store(raw: seq<Row>, rollups: map<BucketKey, Rollup>)

  function KeyOf(r: Row, seconds: int): BucketKey
    requires seconds > 0
  {
    BucketKey(Series(r.key, r.agentIP, r.labels), BucketStart(r.checkedAt, seconds), seconds)
  }

  /** Since 1970: two rows share a group exactly if they are of one series, address and labels and of one interval. */
  lemma SameGroupIff(a: Row, b: Row, seconds: int)
    requires seconds > 0 && a.checkedAt >= 0 && b.checkedAt >= 0
    ensures KeyOf(a, seconds) == KeyOf(b, seconds) <==>
      && a.key == b.key && a.agentIP == b.agentIP && a.labels == b.labels
      && a.checkedAt / NANOS / seconds == b.checkedAt / NANOS / seconds
  {
    var p, q := Sec(a.checkedAt) / seconds, Sec(b.checkedAt) / seconds;
    if p < q {
      Product(p, q, seconds);
    } else if q < p {
      Product(q, p, seconds);
    }
  }

  /** The rows of one group, in order. */
  function Members(rows: seq<Row>, seconds: int, k: BucketKey): seq<Row>
    requires seconds > 0
  {
    if rows == [] then []
    else
      var front, last := Members(rows[..|rows| - 1], seconds, k), rows[|rows| - 1];
      if KeyOf(last, seconds) == k then front + [last] else front
  }

  function BucketsOf(rows: seq<Row>, seconds: int): set<BucketKey>
    requires seconds > 0
  {
    if rows == [] then {} else BucketsOf(rows[..|rows| - 1], seconds) + {KeyOf(rows[|rows| - 1], seconds)}
  }

  /** WHERE checked_at < cutoff, and the rows that it leaves. */
  function Before(rows: seq<Row>, cutoff: int): seq<Row> {
    if rows == [] then []
    else
      var front, last := Before(rows[..|rows| - 1], cutoff), rows[|rows| - 1];
      if TextBefore(last.checkedAt, cutoff) then front + [last] else front
  }

  function NotBefore(rows: seq<Row>, cutoff: int): seq<Row> {
    if rows == [] then []
    else
      var front, last := NotBefore(rows[..|rows| - 1], cutoff), rows[|rows| - 1];
      if TextBefore(last.checkedAt, cutoff) then front else front + [last]
  }

  // ----- What a group is rolled up to

  predicate Flagged(r: Row) {
    r.failures > 0 || r.successRate < 1.0 || r.error != EMPTY_TEXT
  }

  predicate AnyFlagged(rows: seq<Row>) {
    rows != [] && (AnyFlagged(rows[..|rows| - 1]) || Flagged(rows[|rows| - 1]))
  }

  function Summary(rows: seq<Row>): Rollup {
    var successes, failures := Successes(rows), Failures(rows);
    Rollup(
      |rows|, successes, failures,
      if successes > 0 then Weight(rows) / successes as real else 0.0,
      if successes + failures > 0 then successes as real / (successes + failures) as real else 0.0,
      if AnyFlagged(rows) then PROBLEM_TEXT else EMPTY_TEXT)
  }

  /** What must survive: probes, latency counted once per success, and whether anything was wrong. */
  function Worth(rows: seq<Row>): Totals {
    Totals(Successes(rows), Failures(rows), Weight(rows), AnyFlagged(rows))
  }

  function RollupWorth(r: Rollup): Totals {
    Totals(r.successes, r.failures, Times(r.latency, r.successes), r.error != EMPTY_TEXT)
  }

  /** A rollup is worth exactly the samples it replaces. */
  lemma SummaryKeepsWorth(rows: seq<Row>)
    ensures RollupWorth(Summary(rows)) == Worth(rows) && Summary(rows).samples == |rows|
    ensures var r := Summary(rows); r.successRate * (r.successes + r.failures) as real == r.successes as real
  {
    var n := Successes(rows);
    if n > 0 {
      TimesIsProduct(Weight(rows) / n as real, n);
    } else {
      NoSuccessNoWeight(rows);
    }
  }

  /**
   * What it says of them: the latency of an average successful probe, zeroes where nothing was probed or answered, and
   * a problem exactly if one of them had a failure, a rate below one or an error.
   */
  lemma SummarySays(rows: seq<Row>)
    ensures var r := Summary(rows);
      && (r.successes > 0 ==> r.latency * r.successes as real == WeightedLatency(rows))
      && (r.successes == 0 ==> r.latency == 0.0)
      && (r.successes + r.failures == 0 ==> r.successRate == 0.0)
    ensures Summary(rows).error != EMPTY_TEXT <==>
      exists i :: 0 <= i < |rows| && (rows[i].failures > 0 || rows[i].successRate < 1.0 || rows[i].error != EMPTY_TEXT)
  {
    hide Weight, WeightedLatency, Successes, Failures, AnyFlagged;
    AnyFlaggedIff(rows);
    WeightIsLatency(rows);
    MeanTimes(Weight(rows), Successes(rows));
  }

  lemma MeanTimes(total: real, n: nat)
    ensures n > 0 ==> total / n as real * n as real == total
  {
  }

  lemma {:induction false} AnyFlaggedIff(rows: seq<Row>)
    ensures AnyFlagged(rows) <==>
      exists i :: 0 <= i < |rows| && (rows[i].failures > 0 || rows[i].successRate < 1.0 || rows[i].error != EMPTY_TEXT)
  {
    if rows != [] {
      var front, last := rows[..|rows| - 1], rows[|rows| - 1];
      AnyFlaggedIff(front);
      assert forall i :: 0 <= i < |front| ==> front[i] == rows[i];
      assert Flagged(last) <==> last.failures > 0 || last.successRate < 1.0 || last.error != EMPTY_TEXT;
    }
  }

  /** Which rows a cutoff takes, and which it leaves. */
  lemma {:induction false} BeforeIff(rows: seq<Row>, cutoff: int, r: Row)
    ensures r in Before(rows, cutoff) <==> r in rows && TextBefore(r.checkedAt, cutoff)
    ensures r in NotBefore(rows, cutoff) <==> r in rows && !TextBefore(r.checkedAt, cutoff)
  {
    hide TextBefore;
    if rows != [] {
      var front := rows[..|rows| - 1];
      BeforeIff(front, cutoff, r);
      assert rows == front + [rows[|rows| - 1]];
    }
  }

  // ----- The statements

  /** INSERT OR IGNORE ... SELECT ... GROUP BY: one rollup a group, unless the bucket has one already. */
  function Grouped(rows: seq<Row>, seconds: int): map<BucketKey, Rollup>
    requires seconds > 0
  {
    map k | k in BucketsOf(rows, seconds) :: Summary(Members(rows, seconds, k))
  }

  /** An interval below a second divides by zero, which makes every bucket start NULL and every row ignored. */
  function RolledUp(s: Store, cutoff: int, interval: int): Store {
    var c := Truncate(cutoff, interval);
    if interval < NANOS || c == ZERO_TIME then s
    else s.(rollups := Grouped(Before(s.raw, c), interval / NANOS) + s.rollups)
  }

  function RawDeleted(s: Store, cutoff: int): Store {
    s.(raw := NotBefore(s.raw, cutoff))
  }

  function RollupsDeleted(s: Store, cutoff: int): Store {
    s.(rollups := map k | k in s.rollups && !TextBefore(k.start * NANOS, cutoff) :: s.rollups[k])
  }

  /** Exactly the rollups that start before the cutoff's second are deleted; the others keep their values. */
  lemma RollupsDeletedIff(s: Store, cutoff: int, k: BucketKey)
    ensures var left := RollupsDeleted(s, cutoff);
      && left.raw == s.raw
      && (k in left.rollups <==> k in s.rollups && k.start >= Sec(cutoff))
      && (k in left.rollups ==> left.rollups[k] == s.rollups[k])
  {
    WholeSecondBefore(k.start, cutoff);
  }

  /** How far cleanOldData gets before a statement fails. */
  datatype Progress = RollupFails | DeleteFails | DeleteRollupsFails | Complete

  function Cleaned(s: Store, rawCutoff: int, retentionCutoff: int, interval: int, p: Progress): Store {
    match p
    case RollupFails => s
    case DeleteFails => RolledUp(s, rawCutoff, interval)
    case DeleteRollupsFails => RawDeleted(RolledUp(s, rawCutoff, interval), Truncate(rawCutoff, interval))
    case Complete =>
      RollupsDeleted(RawDeleted(RolledUp(s, rawCutoff, interval), Truncate(rawCutoff, interval)), retentionCutoff)
  }

  /** Some statement of a complete cleanup changes its table. */
  predicate Changes(s: Store, rawCutoff: int, retentionCutoff: int, interval: int) {
    var rolled := RolledUp(s, rawCutoff, interval);
    var deleted := RawDeleted(rolled, Truncate(rawCutoff, interval));
    rolled != s || deleted != rolled || RollupsDeleted(deleted, retentionCutoff) != deleted
  }

  /** A complete cleanup changes a table exactly if it finds a row before its cutoff or an old rollup. */
  lemma ChangesIff(s: Store, rawCutoff: int, retentionCutoff: int, interval: int)
    ensures Changes(s, rawCutoff, retentionCutoff, interval) <==>
      || (exists r :: r in s.raw && TextBefore(r.checkedAt, Truncate(rawCutoff, interval)))
      || (exists k :: k in s.rollups && k.start < Sec(retentionCutoff))
  {
    hide TextBefore, Truncate, Sec, Summary;
    var c := Truncate(rawCutoff, interval);
    var rolled := RolledUp(s, rawCutoff, interval);
    var deleted := RawDeleted(rolled, c);
    var after := RollupsDeleted(deleted, retentionCutoff);
    NothingRolledUp(s, rawCutoff, interval);
    RawChangesIff(s.raw, c);
    forall k {
      RollupsDeletedIff(deleted, retentionCutoff, k);
    }
    if exists k :: k in s.rollups && k.start < Sec(retentionCutoff) {
      var k :| k in s.rollups && k.start < Sec(retentionCutoff);
      assert k in deleted.rollups && k !in after.rollups;
    } else if NotBefore(s.raw, c) == s.raw {
      assert rolled == s && deleted == s;
      forall k | k in s.rollups ensures k in after.rollups && after.rollups[k] == s.rollups[k] {
        RollupsDeletedIff(deleted, retentionCutoff, k);
      }
      forall k | k in after.rollups ensures k in s.rollups {
        RollupsDeletedIff(deleted, retentionCutoff, k);
      }
      assert after.rollups == s.rollups;
    }
  }

  lemma NothingRolledUp(s: Store, rawCutoff: int, interval: int)
    ensures RolledUp(s, rawCutoff, interval).raw == s.raw
    ensures forall k :: k in s.rollups ==> k in RolledUp(s, rawCutoff, interval).rollups
    ensures NotBefore(s.raw, Truncate(rawCutoff, interval)) == s.raw ==> RolledUp(s, rawCutoff, interval) == s
  {
    hide TextBefore, Truncate, Summary;
    var c := Truncate(rawCutoff, interval);
    if NotBefore(s.raw, c) == s.raw {
      Partition(s.raw, c);
      assert Before(s.raw, c) == [];
      if interval >= NANOS {
        GroupedNone(interval / NANOS);
      }
    }
  }

  lemma RawChangesIff(rows: seq<Row>, cutoff: int)
    ensures NotBefore(rows, cutoff) != rows <==> exists r :: r in rows && TextBefore(r.checkedAt, cutoff)
  {
    hide TextBefore;
    Partition(rows, cutoff);
    if NotBefore(rows, cutoff) != rows {
      if |Before(rows, cutoff)| == 0 {
        NothingDeleted(rows, cutoff);
      }
      var r := Before(rows, cutoff)[0];
      BeforeIff(rows, cutoff, r);
    }
    if r :| r in rows && TextBefore(r.checkedAt, cutoff) {
      BeforeIff(rows, cutoff, r);
    }
  }

  class SqliteStore {
    var raw: seq<Row>
    var rollups: map<BucketKey, Rollup>

    constructor ()
      ensures Contents() == Store([], map[])
    {
      raw, rollups := [], map[];
    }

    ghost function Contents(): Store
      reads this
    {
      Store(raw, rollups)
    }

    /** One transaction; accepted says whether every statement of it and the commit succeed. */
    method SaveResults(results: seq<Row>, accepted: bool) returns (ok: bool)
      modifies this`raw
      ensures ok <==> results == [] || accepted
      ensures Contents() == if ok then old(Contents()).(raw := old(raw) + results) else old(Contents())
    {
      if |results| == 0 {
        return true;
      }
      var tx := raw;
      var i := 0;
      while i < |results|
        invariant 0 <= i <= |results| && tx == raw + results[..i]
      {
        tx := tx + [results[i]];
        i := i + 1;
      }
      assert results[..i] == results;
      if accepted {
        raw := tx;
      }
      ok := accepted;
    }

    method RollupBefore(cutoff: int, interval: int) returns (rolled: nat)
      modifies this`rollups
      ensures Contents() == RolledUp(old(Contents()), cutoff, interval)
      ensures rolled == |rollups.Keys - old(rollups.Keys)|
      ensures rolled == 0 <==> rollups == old(rollups)
    {
      hide Grouped, Before, Truncate;
      rolled := 0;
      if interval <= 0 {
        return;
      }
      var c := Truncate(cutoff, interval);
      if c == ZERO_TIME {
        return;
      }
      var seconds := interval / NANOS;
      if seconds > 0 {
        var groups := Grouped(Before(raw, c), seconds);
        var added := (groups + rollups).Keys - rollups.Keys;
        rolled := |added|;
        if rolled == 0 {
          assert groups + rollups == rollups by {
            assert added == {};
          }
        } else {
          var k :| k in added;
        }
        rollups := groups + rollups;
      }
    }

    method DeleteBefore(cutoff: int) returns (deleted: nat)
      modifies this`raw
      ensures Contents() == RawDeleted(old(Contents()), cutoff)
      ensures forall r :: r in raw <==> r in old(raw) && !TextBefore(r.checkedAt, cutoff)
      ensures deleted + |raw| == |old(raw)|
    {
      forall r {
        BeforeIff(raw, cutoff, r);
      }
      Partition(raw, cutoff);
      var left := NotBefore(raw, cutoff);
      deleted := |raw| - |left|;
      raw := left;
    }

    method DeleteRollupsBefore(cutoff: int) returns (deleted: nat)
      modifies this`rollups
      ensures Contents() == RollupsDeleted(old(Contents()), cutoff)
      ensures forall k :: k in rollups <==> k in old(rollups) && k.start >= Sec(cutoff)
      ensures forall k :: k in rollups ==> rollups[k] == old(rollups)[k]
      ensures deleted == |old(rollups.Keys) - rollups.Keys|
    {
      forall k {
        RollupsDeletedIff(Contents(), cutoff, k);
      }
      hide TextBefore, Sec;
      var left := map k | k in rollups && !TextBefore(k.start * NANOS, cutoff) :: rollups[k];
      deleted := |rollups.Keys - left.Keys|;
      rollups := left;
    }

    /** progress says which statement, if any, the database refuses; the caches are dropped when cleared. */
    method CleanOldData(rawCutoff: int, retentionCutoff: int, interval: int, progress: Progress)
      returns (cleared: bool)
      modifies this
      ensures Contents() == Cleaned(old(Contents()), rawCutoff, retentionCutoff, interval, progress)
      ensures cleared <==> progress == Complete && Changes(old(Contents()), rawCutoff, retentionCutoff, interval)
    {
      cleared := false;
      if progress == RollupFails {
        return;
      }
      var rolled := RollupBefore(rawCutoff, interval);
      if progress == DeleteFails {
        return;
      }
      var deletedRaw := DeleteBefore(Truncate(rawCutoff, interval));
      if progress == DeleteRollupsFails {
        return;
      }
      label Last:
      var deletedRollups := DeleteRollupsBefore(retentionCutoff);
      if rolled > 0 || deletedRaw > 0 || deletedRollups > 0 {
        cleared := true;
      } else {
        NothingDeleted(old(raw), Truncate(rawCutoff, interval));
        assert old@Last(rollups.Keys) - rollups.Keys == {};
        assert old@Last(rollups) == rollups;
      }
    }
  }

  lemma {:induction false} Partition(rows: seq<Row>, cutoff: int)
    ensures |Before(rows, cutoff)| + |NotBefore(rows, cutoff)| == |rows|
  {
    if rows != [] {
      Partition(rows[..|rows| - 1], cutoff);
    }
  }

  lemma {:induction false} NothingDeleted(rows: seq<Row>, cutoff: int)
    requires |NotBefore(rows, cutoff)| == |rows|
    ensures NotBefore(rows, cutoff) == rows
  {
    if rows != [] {
      Partition(rows[..|rows| - 1], cutoff);
      NothingDeleted(rows[..|rows| - 1], cutoff);
    }
  }

  // ----- Stopping and running again

  lemma {:induction false} NoneLeftBefore(rows: seq<Row>, cutoff: int)
    ensures Before(NotBefore(rows, cutoff), cutoff) == []
    ensures NotBefore(NotBefore(rows, cutoff), cutoff) == NotBefore(rows, cutoff)
  {
    if rows != [] {
      var front, last := NotBefore(rows[..|rows| - 1], cutoff), rows[|rows| - 1];
      NoneLeftBefore(rows[..|rows| - 1], cutoff);
      if !TextBefore(last.checkedAt, cutoff) {
        assert (front + [last])[..|front|] == front;
      }
    }
  }

  /** A cleanup that stopped anywhere, run again with the same cutoffs, ends where an undisturbed one does. */
  lemma RerunCompletes(s: Store, rawCutoff: int, retentionCutoff: int, interval: int, stopped: Progress)
    ensures Cleaned(
      Cleaned(s, rawCutoff, retentionCutoff, interval, stopped), rawCutoff, retentionCutoff, interval, Complete)
         == Cleaned(s, rawCutoff, retentionCutoff, interval, Complete)
  {
    hide TextBefore, Summary, BucketsOf;
    var c := Truncate(rawCutoff, interval);
    NoneLeftBefore(s.raw, c);
    if interval >= NANOS && c != ZERO_TIME {
      GroupedNone(interval / NANOS);
      var groups := Grouped(Before(s.raw, c), interval / NANOS);
      assert groups + (groups + s.rollups) == groups + s.rollups;
    }
  }

  lemma GroupedNone(seconds: int)
    requires seconds > 0
    ensures forall m: map<BucketKey, Rollup> :: Grouped([], seconds) + m == m
  {
    assert Grouped([], seconds) == map[];
  }
}
