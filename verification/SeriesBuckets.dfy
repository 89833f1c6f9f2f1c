/** Cutting one series into equal time buckets, newest first, and merging each bucket into one row. */
module SeriesBuckets {
  import opened ChartRows
  import opened Common

  /** Stands for "aggregated interval contains failures". */
  const AGGREGATE_ERROR: Text := 1

  /** Bucket b holds the instants in (BucketEnd(b + 1), BucketEnd(b)]. */
  function BucketEnd(newest: int, width: int, b: nat): int {
    if b == 0 then newest else BucketEnd(newest, width, b - 1) - width
  }

  lemma {:induction false} BucketEndIs(newest: int, width: int, b: nat)
    ensures BucketEnd(newest, width, b) == newest - b * width
  {
    if b > 0 {
      BucketEndIs(newest, width, b - 1);
      assert b * width == (b - 1) * width + width;
    }
  }

  predicate InBucket(t: int, newest: int, width: int, b: nat) {
    BucketEnd(newest, width, b + 1) < t <= BucketEnd(newest, width, b)
  }

  /** The rows newer than low and no newer than high, in order. */
  function Between(rows: seq<Row>, low: int, high: int): seq<Row> {
    if rows == [] then []
    else
      var front, last := Between(rows[..|rows| - 1], low, high), rows[|rows| - 1];
      if low < last.checkedAt <= high then front + [last] else front
  }

  /** The rows from lo up to hi, one at a time. */
  function Run(rows: seq<Row>, lo: nat, hi: nat): seq<Row>
    requires hi <= |rows|
    decreases hi
  {
    if hi <= lo then [] else Run(rows, lo, hi - 1) + [rows[hi - 1]]
  }

  /** How many rows at the front are newer than the bound. */
  function Leading(rows: seq<Row>, bound: int): (n: nat)
    ensures n <= |rows|
    ensures forall i :: 0 <= i < n ==> rows[i].checkedAt > bound
    ensures n < |rows| ==> rows[n].checkedAt <= bound
  {
    if rows == [] then 0
    else
      var n := Leading(rows[..|rows| - 1], bound);
      if n == |rows| - 1 && rows[n].checkedAt > bound then |rows| else n
  }

  /** What the walk over rows in any order takes into bucket b: it goes on until a row is too old for the bucket. */
  function Bucket(rows: seq<Row>, newest: int, width: int, b: nat): seq<Row> {
    Run(rows, Leading(rows, BucketEnd(newest, width, b)), Leading(rows, BucketEnd(newest, width, b + 1)))
  }

  /** The running value of bucketNewest, for which zero means "not set yet". */
  function NewestMark(rows: seq<Row>): int {
    if rows == [] then 0
    else
      var mark := NewestMark(rows[..|rows| - 1]);
      if mark == 0 then rows[|rows| - 1].checkedAt else mark
  }

  /** The row that stands for a whole bucket. */
  function MergeRows(rows: seq<Row>): Row
    requires rows != []
  {
    MergedRow(rows[0], Sum(rows), NewestMark(rows), rows[|rows| - 1].checkedAt)
  }

  /** Half, without the fraction, of a number of either sign. */
  function Halved(x: int): int {
    if x >= 0 then x / 2 else -(-x / 2)
  }

  function MergedRow(template: Row, sum: Totals, newest: int, oldest: int): Row {
    template.(
      checkedAt := oldest + Halved(newest - oldest),
      successes := sum.successes,
      failures := sum.failures,
      latency := if sum.successes > 0 then sum.weighted / sum.successes as real else 0.0,
      successRate := if sum.successes + sum.failures > 0
                     then sum.successes as real / (sum.successes + sum.failures) as real
                     else template.successRate,
      error := if sum.problem then AGGREGATE_ERROR else EMPTY_TEXT)
  }

  /** One merged row for every non-empty one of the first count buckets. */
  function MergedBuckets(rows: seq<Row>, newest: int, width: int, count: nat): seq<Row> {
    if count == 0 then []
    else MergedBuckets(rows, newest, width, count - 1) + Merged(Bucket(rows, newest, width, count - 1))
  }

  /** An empty bucket adds no point. */
  function Merged(bucket: seq<Row>): seq<Row> {
    if bucket == [] then [] else [MergeRows(bucket)]
  }

  function BucketWidth(newest: int, oldest: int, target: int): int
    requires target >= 1
  {
    (newest - oldest + 1 + target - 1) / target
  }

  function WidthFor(rows: seq<Row>, target: nat): int
    requires target >= 1 && rows != []
  {
    BucketWidth(rows[0].checkedAt, rows[|rows| - 1].checkedAt, target)
  }

  /** The guards: more rows than points, the first newer than since, the last not newer than the first. */
  predicate IsCut(rows: seq<Row>, since: int, target: nat) {
    && |rows| > target
    && rows[0].checkedAt - since >= 1
    && rows[0].checkedAt - rows[|rows| - 1].checkedAt + 1 >= 1
  }

  /** What the rows of a series become when they may use target points. */
  function SingleSeries(rows: seq<Row>, since: int, target: nat): seq<Row>
    requires target >= 1
  {
    if !IsCut(rows, since, target) then rows
    else MergedBuckets(rows, rows[0].checkedAt, WidthFor(rows, target), target)
  }

  /** Where the last bucket ends. */
  function LastEnd(rows: seq<Row>, target: nat): int
    requires target >= 1 && rows != []
  {
    BucketEnd(rows[0].checkedAt, WidthFor(rows, target), target)
  }

  /** No row is too old for the last bucket. */
  predicate IsReached(rows: seq<Row>, since: int, target: nat)
    requires target >= 1
  {
    IsCut(rows, since, target) ==> forall i :: 0 <= i < |rows| ==> rows[i].checkedAt > LastEnd(rows, target)
  }

  // ----- Properties of one bucket

  lemma {:induction false} MarkWithin(rows: seq<Row>, oldest: int, newest: int)
    requires rows != [] && Within(rows, oldest, newest)
    ensures oldest <= NewestMark(rows) <= newest
  {
    if |rows| > 1 {
      MarkWithin(rows[..|rows| - 1], oldest, newest);
    }
  }

  /** Whatever their order, the merged row lies between the samples it stands for. */
  lemma MergeTime(rows: seq<Row>, oldest: int, newest: int)
    requires rows != [] && Within(rows, oldest, newest)
    ensures oldest <= MergeRows(rows).checkedAt <= newest
  {
    MarkWithin(rows, oldest, newest);
    HalfWay(rows[|rows| - 1].checkedAt, NewestMark(rows), oldest, newest);
  }

  lemma HalfWay(a: int, b: int, oldest: int, newest: int)
    requires oldest <= a <= newest && oldest <= b <= newest
    ensures oldest <= a + Halved(b - a) <= newest
  {
  }

  /** Merging keeps every total. */
  lemma MergeKeepsTotals(rows: seq<Row>)
    requires rows != []
    ensures Sum([MergeRows(rows)]) == Sum(rows)
    ensures MergeRows(rows).key == rows[0].key
  {
    var sum, m := Sum(rows), MergeRows(rows);
    SumOne(m);
    if sum.successes > 0 {
      TimesIsProduct(m.latency, m.successes);
      Undivide(sum.weighted, sum.successes as real);
    } else {
      NoSuccessNoWeight(rows);
    }
    if sum.failures > 0 {
      FailuresAreProblems(rows);
    }
  }

  /** Where the sentinel stops: the first row with a time other than zero, or else the last. */
  predicate FirstTimed(rows: seq<Row>, i: nat) {
    && i < |rows|
    && (forall j :: 0 <= j < i ==> rows[j].checkedAt == 0)
    && (rows[i].checkedAt != 0 || i == |rows| - 1)
  }

  lemma {:induction false} MarkIs(rows: seq<Row>, i: nat)
    requires FirstTimed(rows, i)
    ensures NewestMark(rows) == rows[i].checkedAt
  {
    var front := rows[..|rows| - 1];
    if |rows| > 1 {
      MarkIs(front, if i < |front| then i else i - 1);
    } else {
      assert NewestMark(front) == 0;
    }
  }

  /** The merged row stands half way between the first sample and the last, rounded towards the last. */
  lemma MergeMiddle(rows: seq<Row>, i: nat)
    requires FirstTimed(rows, i)
    ensures var m, first, last := MergeRows(rows), rows[i].checkedAt, rows[|rows| - 1].checkedAt;
      && (first >= last ==> 2 * m.checkedAt <= first + last <= 2 * m.checkedAt + 1)
      && (first < last ==> 2 * m.checkedAt - 1 <= first + last <= 2 * m.checkedAt)
  {
    MarkIs(rows, i);
  }

  /**
   * What the merged row says of its samples: the first one's series, address and labels, an error exactly if one of
   * them failed or had an error, and the latency of an average successful probe; its rate is the first one's if there
   * was no probe.
   */
  lemma MergeSays(rows: seq<Row>)
    requires rows != []
    ensures var m := MergeRows(rows);
      && m.key == rows[0].key && m.agentIP == rows[0].agentIP && m.labels == rows[0].labels
      && (m.error != EMPTY_TEXT <==>
            exists i :: 0 <= i < |rows| && (rows[i].failures > 0 || rows[i].error != EMPTY_TEXT))
      && (if m.successes > 0 then m.latency * m.successes as real == WeightedLatency(rows) else m.latency == 0.0)
      && (m.successes + m.failures == 0 ==> m.successRate == rows[0].successRate)
  {
    hide *;
    WeightIsLatency(rows);
    MergeFields(rows);
    var n := Successes(rows);
    if n > 0 {
      Undivide(Weight(rows), n as real);
    }
    ProblemIff(rows);
  }

  lemma MergeFields(rows: seq<Row>)
    requires rows != []
    ensures var m, n := MergeRows(rows), Successes(rows);
      && m.successes == n
      && m.key == rows[0].key && m.agentIP == rows[0].agentIP && m.labels == rows[0].labels
      && m.latency == (if n > 0 then Weight(rows) / n as real else 0.0)
      && (m.error != EMPTY_TEXT <==> HasProblem(rows))
      && (m.successes + m.failures == 0 ==> m.successRate == rows[0].successRate)
  {
    hide Weight, HasProblem, Successes, Failures, NewestMark;
  }

  lemma ProblemIff(rows: seq<Row>)
    ensures HasProblem(rows) <==>
      exists i :: 0 <= i < |rows| && (rows[i].failures > 0 || rows[i].error != EMPTY_TEXT)
  {
    if i :| 0 <= i < |rows| && (rows[i].failures > 0 || rows[i].error != EMPTY_TEXT) {
      assert rows[i] in rows && rows[i].Problem();
    }
    if HasProblem(rows) {
      var r :| r in rows && r.Problem();
      var i :| 0 <= i < |rows| && rows[i] == r;
    }
  }

  /** The merged success rate is that of all the probes together. */
  lemma MergeRate(rows: seq<Row>)
    requires rows != []
    ensures var m := MergeRows(rows); m.successes + m.failures > 0 ==>
      m.successRate * (m.successes + m.failures) as real == m.successes as real
  {
    var m := MergeRows(rows);
    if m.successes + m.failures > 0 {
      Undivide(m.successes as real, (m.successes + m.failures) as real);
    }
  }

  lemma Undivide(x: real, y: real)
    requires y != 0.0
    ensures x / y * y == x
  {
  }

  // ----- Buckets cover the series

  /** target buckets of the rounded-up width reach past the oldest row. */
  lemma CeilingCovers(newest: int, oldest: int, target: int)
    requires target >= 1 && oldest <= newest
    ensures BucketWidth(newest, oldest, target) >= 1
    ensures BucketEnd(newest, BucketWidth(newest, oldest, target), target) < oldest
  {
    var width := BucketWidth(newest, oldest, target);
    RoundedUp(newest - oldest + 1, target);
    BucketEndIs(newest, width, target);
  }

  lemma RoundedUp(span: int, target: int)
    requires target >= 1 && span >= 1
    ensures var width := (span + target - 1) / target;
      && width >= 1
      && span <= target * width <= span + target - 1
  {
    var top := span + target - 1;
    var width := top / target;
    assert top == target * width + top % target;
    if width <= 0 {
      assert false by {
        Monotone(target, width, 0);
      }
    }
  }

  lemma Monotone(n: nat, a: int, b: int)
    requires a <= b
    ensures n * a <= n * b
  {
  }

  /** Every instant the buckets reach lies in exactly one of them. */
  lemma {:induction false} ExactlyOneBucket(t: int, newest: int, width: int, count: nat) returns (b: nat)
    requires width >= 1
    requires BucketEnd(newest, width, count) < t <= newest
    ensures b < count && InBucket(t, newest, width, b)
    ensures forall c: nat :: InBucket(t, newest, width, c) ==> c == b
  {
    if BucketEnd(newest, width, count - 1) >= t {
      b := count - 1;
    } else {
      b := ExactlyOneBucket(t, newest, width, count - 1);
    }
    forall c: nat | InBucket(t, newest, width, c) ensures c == b {
      if c < b {
        EndsDescend(newest, width, c + 1, b);
      } else if b < c {
        EndsDescend(newest, width, b + 1, c);
      }
    }
  }

  lemma {:induction false} EndsDescend(newest: int, width: int, a: nat, b: nat)
    requires width >= 1 && a <= b
    ensures BucketEnd(newest, width, b) <= BucketEnd(newest, width, a) - (b - a)
    decreases b
  {
    if a < b {
      EndsDescend(newest, width, a, b - 1);
    }
  }

  lemma {:induction false} RunOfFront(rows: seq<Row>, lo: nat, hi: nat)
    requires hi < |rows|
    ensures Run(rows[..|rows| - 1], lo, hi) == Run(rows, lo, hi)
    decreases hi
  {
    if lo < hi {
      RunOfFront(rows, lo, hi - 1);
    }
  }

  lemma RunIsAll(rows: seq<Row>)
    ensures Run(rows, 0, |rows|) == rows
  {
    RunIsSlice(rows, 0, |rows|);
    assert rows[0..|rows|] == rows;
  }

  lemma {:induction false} RunSplit(rows: seq<Row>, mid: nat, hi: nat)
    requires mid <= hi <= |rows|
    ensures Run(rows, 0, hi) == Run(rows, 0, mid) + Run(rows, mid, hi)
    decreases hi
  {
    if mid < hi {
      RunSplit(rows, mid, hi - 1);
    }
  }

  /** In a descending series the rows between two bounds are consecutive. */
  lemma {:induction false} BetweenIsRun(rows: seq<Row>, low: int, high: int, lo: nat, hi: nat)
    requires lo <= hi <= |rows|
    requires forall i :: 0 <= i < lo ==> rows[i].checkedAt > high
    requires forall i :: lo <= i < hi ==> low < rows[i].checkedAt <= high
    requires forall i :: hi <= i < |rows| ==> rows[i].checkedAt <= low
    ensures Between(rows, low, high) == Run(rows, lo, hi)
  {
    if rows != [] {
      var n := |rows| - 1;
      if hi <= n {
        BetweenIsRun(rows[..n], low, high, lo, hi);
        RunOfFront(rows, lo, hi);
      } else if lo <= n {
        BetweenIsRun(rows[..n], low, high, lo, n);
        RunOfFront(rows, lo, n);
      } else {
        BetweenIsRun(rows[..n], low, high, n, n);
      }
    }
  }

  lemma {:induction false} RunIsSlice(rows: seq<Row>, lo: nat, hi: nat)
    requires lo <= hi <= |rows|
    ensures Run(rows, lo, hi) == rows[lo..hi]
    decreases hi
  {
    if lo < hi {
      RunIsSlice(rows, lo, hi - 1);
      assert rows[lo..hi] == rows[lo..hi - 1] + [rows[hi - 1]];
    }
  }

  // ----- Buckets of a series in order

  lemma FrontOrdered(rows: seq<Row>)
    requires Ordered(rows)
    ensures Ordered([])
    ensures rows != [] ==> Ordered(rows[..|rows| - 1])
    ensures |rows| > 1 ==> rows[|rows| - 2].checkedAt >= rows[|rows| - 1].checkedAt
  {
  }

  lemma {:induction false} BetweenOrdered(rows: seq<Row>, low: int, high: int)
    requires Ordered(rows)
    ensures var out := Between(rows, low, high);
      && Ordered(out)
      && Within(out, low + 1, high)
      && (out != [] ==> rows != [] && out[|out| - 1].checkedAt >= rows[|rows| - 1].checkedAt)
  {
    hide Ordered;
    FrontOrdered(rows);
    if rows != [] {
      var front, last := rows[..|rows| - 1], rows[|rows| - 1];
      BetweenOrdered(front, low, high);
      if low < last.checkedAt <= high {
        OrderedAppend(Between(front, low, high), last);
      }
    }
  }

  /** In a series that is newest first a bucket takes exactly the rows whose times lie in it. */
  lemma BucketIsBetween(rows: seq<Row>, newest: int, width: int, b: nat)
    requires Descending(rows) && width >= 0
    ensures Bucket(rows, newest, width, b)
         == Between(rows, BucketEnd(newest, width, b + 1), BucketEnd(newest, width, b))
  {
    var low, high := BucketEnd(newest, width, b + 1), BucketEnd(newest, width, b);
    LeadingGrows(rows, low, high);
    BetweenIsRun(rows, low, high, Leading(rows, high), Leading(rows, low));
  }

  lemma LeadingGrows(rows: seq<Row>, low: int, high: int)
    requires low <= high
    ensures Leading(rows, high) <= Leading(rows, low)
  {
  }

  /** Then the merged row lies inside the bucket whose rows it stands for. */
  lemma PointInItsBucket(rows: seq<Row>, newest: int, width: int, b: nat)
    requires Descending(rows) && width >= 0 && Bucket(rows, newest, width, b) != []
    ensures InBucket(MergeRows(Bucket(rows, newest, width, b)).checkedAt, newest, width, b)
  {
    var bucket := Bucket(rows, newest, width, b);
    BucketIsBetween(rows, newest, width, b);
    DescendingIsOrdered(rows);
    BetweenOrdered(rows, BucketEnd(newest, width, b + 1), BucketEnd(newest, width, b));
    OrderedIsDescending(bucket);
    MergeTime(bucket, BucketEnd(newest, width, b + 1) + 1, BucketEnd(newest, width, b));
  }

  /** How many points the first count buckets give. */
  function Points(rows: seq<Row>, newest: int, width: int, count: nat): (n: nat)
    ensures n <= count
  {
    if count == 0 then 0
    else Points(rows, newest, width, count - 1) + if Bucket(rows, newest, width, count - 1) == [] then 0 else 1
  }

  lemma {:induction false} PointsIsLength(rows: seq<Row>, newest: int, width: int, count: nat)
    ensures |MergedBuckets(rows, newest, width, count)| == Points(rows, newest, width, count)
  {
    hide Bucket, MergeRows;
    if count > 0 {
      PointsIsLength(rows, newest, width, count - 1);
    }
  }

  // ----- What the walk over a series keeps

  lemma RunEmptyIff(rows: seq<Row>, lo: nat, hi: nat)
    requires hi <= |rows|
    ensures Run(rows, lo, hi) == [] <==> hi <= lo
  {
  }

  /** A bucket adds a point exactly when it takes a row. */
  lemma PointPerRun(rows: seq<Row>, newest: int, width: int, b: nat)
    ensures Points(rows, newest, width, b + 1) == Points(rows, newest, width, b)
         + if Leading(rows, BucketEnd(newest, width, b)) < Leading(rows, BucketEnd(newest, width, b + 1)) then 1 else 0
  {
    RunEmptyIff(rows, Leading(rows, BucketEnd(newest, width, b)), Leading(rows, BucketEnd(newest, width, b + 1)));
  }

  /** Whatever the order of the rows, the first count buckets have the totals of all rows up to one that is too old. */
  lemma {:induction false} MergedBucketsTotals(rows: seq<Row>, newest: int, width: int, count: nat)
    requires rows != [] && width >= 0 && rows[0].checkedAt <= newest
    ensures Sum(MergedBuckets(rows, newest, width, count))
         == Sum(Run(rows, 0, Leading(rows, BucketEnd(newest, width, count))))
  {
    hide Sum, Run, Merged;
    if count == 0 {
      RunEmptyIff(rows, 0, 0);
    } else {
      MergedBucketsTotals(rows, newest, width, count - 1);
      var low, high := BucketEnd(newest, width, count), BucketEnd(newest, width, count - 1);
      LeadingGrows(rows, low, high);
      FrontThenMerged(rows, Leading(rows, high), Leading(rows, low), MergedBuckets(rows, newest, width, count - 1));
    }
  }

  lemma FrontThenMerged(rows: seq<Row>, lo: nat, hi: nat, front: seq<Row>)
    requires lo <= hi <= |rows|
    requires Sum(front) == Sum(Run(rows, 0, lo))
    ensures Sum(front + Merged(Run(rows, lo, hi))) == Sum(Run(rows, 0, hi))
  {
    var run := Run(rows, lo, hi);
    RunSplit(rows, lo, hi);
    SumConcat(Run(rows, 0, lo), run);
    SumConcat(front, Merged(run));
    if run != [] {
      MergeKeepsTotals(run);
    }
  }

  lemma {:induction false} RunOf(rows: seq<Row>, lo: nat, hi: nat)
    requires hi <= |rows|
    ensures |Run(rows, lo, hi)| == if lo < hi then hi - lo else 0
    ensures forall i :: 0 <= i < |Run(rows, lo, hi)| ==> Run(rows, lo, hi)[i] == rows[lo + i]
    decreases hi
  {
    if lo < hi {
      RunOf(rows, lo, hi - 1);
    }
  }

  lemma {:induction false} MergedBucketsSeries(rows: seq<Row>, newest: int, width: int, count: nat, key: SeriesKey)
    requires OneSeries(rows, key)
    ensures OneSeries(MergedBuckets(rows, newest, width, count), key)
  {
    hide Run, Leading, BucketEnd, MergeRows;
    if count > 0 {
      MergedBucketsSeries(rows, newest, width, count - 1, key);
      RunOf(rows, Leading(rows, BucketEnd(newest, width, count - 1)), Leading(rows, BucketEnd(newest, width, count)));
      MergedKey(Bucket(rows, newest, width, count - 1));
    }
  }

  lemma MergedKey(bucket: seq<Row>)
    ensures bucket != [] ==> MergeRows(bucket).key == bucket[0].key
  {
  }

  lemma {:induction false} MergedBucketsWithin(
    rows: seq<Row>, newest: int, width: int, count: nat, earliest: int, latest: int)
    requires Within(rows, earliest, latest)
    ensures Within(MergedBuckets(rows, newest, width, count), earliest, latest)
  {
    hide Run, Leading, BucketEnd, MergeRows;
    if count > 0 {
      MergedBucketsWithin(rows, newest, width, count - 1, earliest, latest);
      RunOf(rows, Leading(rows, BucketEnd(newest, width, count - 1)), Leading(rows, BucketEnd(newest, width, count)));
      var bucket := Bucket(rows, newest, width, count - 1);
      if bucket != [] {
        MergeTime(bucket, earliest, latest);
      }
    }
  }

  /** Merged rows stand for probes if the rows they stand for do. */
  lemma {:induction false} MergedBucketsCount(rows: seq<Row>, newest: int, width: int, count: nat)
    requires Counts(rows)
    ensures Counts(MergedBuckets(rows, newest, width, count))
  {
    hide Run, Leading, BucketEnd, Merged;
    if count > 0 {
      MergedBucketsCount(rows, newest, width, count - 1);
      RunOf(rows, Leading(rows, BucketEnd(newest, width, count - 1)), Leading(rows, BucketEnd(newest, width, count)));
      MergedCounts(Bucket(rows, newest, width, count - 1));
    }
  }

  lemma MergedCounts(bucket: seq<Row>)
    requires Counts(bucket)
    ensures Counts(Merged(bucket))
  {
    hide Counts;
    if bucket != [] {
      SomeProbes(bucket);
    }
    OnePoint(bucket);
  }

  lemma OnePoint(bucket: seq<Row>)
    requires bucket != [] ==> Probes(bucket) > 0
    ensures Counts(Merged(bucket))
  {
  }

  /** In a series that is newest first: strictly older and older, within the span the buckets took. */
  lemma {:induction false} MergedBucketsTimes(rows: seq<Row>, newest: int, width: int, count: nat)
    requires rows != [] && Descending(rows) && width >= 1 && rows[0].checkedAt <= newest
    ensures Covers(MergedBuckets(rows, newest, width, count), rows, Leading(rows, BucketEnd(newest, width, count)))
  {
    hide Merged, Covers, Descending;
    if count == 0 {
      NothingCovered(rows);
    } else {
      MergedBucketsTimes(rows, newest, width, count - 1);
      var low, high := BucketEnd(newest, width, count), BucketEnd(newest, width, count - 1);
      LeadingGrows(rows, low, high);
      AddRun(rows, Leading(rows, high), Leading(rows, low), high, MergedBuckets(rows, newest, width, count - 1));
    }
  }

  lemma NothingCovered(rows: seq<Row>)
    ensures Covers([], rows, 0)
  {
  }

  /** Each point older than the one before it. */
  predicate Falling(points: seq<Row>) {
    |points| >= 2 ==>
      && points[|points| - 2].checkedAt > points[|points| - 1].checkedAt
      && Falling(points[..|points| - 1])
  }

  lemma {:induction false} FallingIsStrict(points: seq<Row>)
    requires Falling(points)
    ensures StrictlyDescending(points)
  {
    if |points| >= 2 {
      FallingIsStrict(points[..|points| - 1]);
    }
  }

  /** Falling points within the span of the first hi rows. */
  predicate Covers(points: seq<Row>, rows: seq<Row>, hi: nat)
    requires hi <= |rows|
  {
    && Falling(points)
    && (hi == 0 <==> points == [])
    && (hi > 0 ==>
          && points[0].checkedAt <= rows[0].checkedAt
          && rows[hi - 1].checkedAt <= points[|points| - 1].checkedAt)
  }

  lemma AddRun(rows: seq<Row>, lo: nat, hi: nat, bound: int, front: seq<Row>)
    requires Descending(rows) && lo <= hi <= |rows|
    requires lo > 0 ==> rows[lo - 1].checkedAt > bound
    requires lo < |rows| ==> rows[lo].checkedAt <= bound
    requires Covers(front, rows, lo)
    ensures Covers(front + Merged(Run(rows, lo, hi)), rows, hi)
  {
    if lo < hi {
      RunIsSlice(rows, lo, hi);
      var run := rows[lo..hi];
      RunDescending(rows, lo, hi);
      MergeTime(run, rows[hi - 1].checkedAt, rows[lo].checkedAt);
      AddPoint(front, MergeRows(run));
    } else {
      RunEmptyIff(rows, lo, hi);
      assert front + Merged(Run(rows, lo, hi)) == front;
    }
  }

  lemma RunDescending(rows: seq<Row>, lo: nat, hi: nat)
    requires Descending(rows) && lo < hi <= |rows|
    ensures Descending(rows[lo..hi])
    ensures rows[lo..hi][0] == rows[lo] && rows[lo..hi][hi - lo - 1] == rows[hi - 1]
  {
  }

  lemma AddPoint(front: seq<Row>, point: Row)
    requires Falling(front)
    requires front != [] ==> front[|front| - 1].checkedAt > point.checkedAt
    ensures Falling(front + [point])
    ensures front != [] ==> (front + [point])[0] == front[0]
  {
    assert (front + [point])[..|front|] == front;
  }

  lemma {:induction false} MorePoints(rows: seq<Row>, newest: int, width: int, a: nat, b: nat)
    requires a <= b
    ensures Points(rows, newest, width, a) <= Points(rows, newest, width, b)
    decreases b
  {
    hide Bucket;
    if a < b {
      MorePoints(rows, newest, width, a, b - 1);
    }
  }

  // ----- Main results about one series

  /** Rows in any order: the result has the totals of all rows up to the first that is too old for the last bucket. */
  lemma SingleSeriesTotals(rows: seq<Row>, since: int, target: nat)
    requires target >= 1
    ensures IsCut(rows, since, target) ==>
      Sum(SingleSeries(rows, since, target)) == Sum(Run(rows, 0, Leading(rows, LastEnd(rows, target))))
    ensures IsReached(rows, since, target) ==> Sum(SingleSeries(rows, since, target)) == Sum(rows)
  {
    hide Sum, MergedBuckets, Run;
    if IsCut(rows, since, target) {
      CeilingCovers(rows[0].checkedAt, rows[|rows| - 1].checkedAt, target);
      MergedBucketsTotals(rows, rows[0].checkedAt, WidthFor(rows, target), target);
      RunIsAll(rows);
    }
  }

  /** The walk never adds probes, and loses some when it stops before the end of rows that stand for probes. */
  lemma SingleSeriesProbes(rows: seq<Row>, since: int, target: nat)
    requires target >= 1
    ensures Probes(SingleSeries(rows, since, target)) <= Probes(rows)
    ensures Counts(rows) && !IsReached(rows, since, target) ==>
      Probes(SingleSeries(rows, since, target)) < Probes(rows)
  {
    SingleSeriesTotals(rows, since, target);
    if IsCut(rows, since, target) {
      FrontProbes(rows, Leading(rows, LastEnd(rows, target)));
    }
  }

  lemma FrontProbes(rows: seq<Row>, n: nat)
    requires n <= |rows|
    ensures Probes(Run(rows, 0, n)) <= Probes(rows)
    ensures Counts(rows) && n < |rows| ==> Probes(Run(rows, 0, n)) < Probes(rows)
  {
    hide Probes, Run;
    RunIsAll(rows);
    RunSplit(rows, n, |rows|);
    RunOf(rows, n, |rows|);
    var rest := Run(rows, n, |rows|);
    ProbesConcat(Run(rows, 0, n), rest);
    if Counts(rows) && n < |rows| {
      SomeProbes(rest);
    }
  }

  /** So rows in any order that stand for probes keep their totals exactly when none is too old for the last bucket. */
  lemma SingleSeriesKeepsTotalsIff(rows: seq<Row>, since: int, target: nat)
    requires target >= 1 && Counts(rows)
    ensures Sum(SingleSeries(rows, since, target)) == Sum(rows) <==> IsReached(rows, since, target)
  {
    hide SingleSeries, IsReached;
    SingleSeriesTotals(rows, since, target);
    SingleSeriesProbes(rows, since, target);
  }

  /** None is when the last row is the oldest. */
  lemma OldestLastIsReached(rows: seq<Row>, since: int, target: nat)
    requires target >= 1
    requires forall i :: 0 <= i < |rows| ==> rows[i].checkedAt >= rows[|rows| - 1].checkedAt
    ensures IsReached(rows, since, target)
  {
    if IsCut(rows, since, target) {
      CeilingCovers(rows[0].checkedAt, rows[|rows| - 1].checkedAt, target);
    }
  }

  /** Whatever their order, the points of a series are of that series, and there are some if it has rows. */
  lemma SingleSeriesOf(rows: seq<Row>, since: int, target: nat, key: SeriesKey)
    requires target >= 1 && OneSeries(rows, key)
    ensures var out := SingleSeries(rows, since, target); OneSeries(out, key) && (out == [] <==> rows == [])
  {
    hide MergedBuckets;
    if IsCut(rows, since, target) {
      var first, width := rows[0].checkedAt, WidthFor(rows, target);
      MergedBucketsSeries(rows, first, width, target, key);
      CeilingCovers(first, rows[|rows| - 1].checkedAt, target);
      FirstPoint(rows, first, width, target);
    }
  }

  /** And they lie within its time span. */
  lemma SingleSeriesWithin(rows: seq<Row>, since: int, target: nat, oldest: int, newest: int)
    requires target >= 1 && Within(rows, oldest, newest)
    ensures Within(SingleSeries(rows, since, target), oldest, newest)
  {
    if IsCut(rows, since, target) {
      MergedBucketsWithin(rows, rows[0].checkedAt, WidthFor(rows, target), target, oldest, newest);
    }
  }

  /** The first bucket takes the first row. */
  lemma {:induction false} FirstPoint(rows: seq<Row>, newest: int, width: int, count: nat)
    requires rows != [] && newest - width < rows[0].checkedAt <= newest && count >= 1
    ensures MergedBuckets(rows, newest, width, count) != []
  {
    hide Bucket, MergeRows;
    if count == 1 {
      assert BucketEnd(newest, width, 1) == BucketEnd(newest, width, 0) - width;
      PointPerRun(rows, newest, width, 0);
      PointsIsLength(rows, newest, width, 1);
    } else {
      FirstPoint(rows, newest, width, count - 1);
    }
  }

  /** A series that is newest first keeps its totals, and its points strictly descend. */
  lemma SingleSeriesKeepsTotals(rows: seq<Row>, since: int, target: nat, key: SeriesKey)
    requires target >= 1 && Descending(rows)
    requires OneSeries(rows, key)
    ensures var out := SingleSeries(rows, since, target);
      && Sum(out) == Sum(rows)
      && OneSeries(out, key)
      && (rows != [] ==> out != [] && Within(out, rows[|rows| - 1].checkedAt, rows[0].checkedAt))
      && Descending(out)
      && (out != rows ==> StrictlyDescending(out))
  {
    hide Sum, MergedBuckets;
    OldestLastIsReached(rows, since, target);
    SingleSeriesTotals(rows, since, target);
    if rows != [] {
      SingleSeriesOf(rows, since, target, key);
      SingleSeriesWithin(rows, since, target, rows[|rows| - 1].checkedAt, rows[0].checkedAt);
    }
    if IsCut(rows, since, target) {
      var newest, width := rows[0].checkedAt, WidthFor(rows, target);
      CeilingCovers(newest, rows[|rows| - 1].checkedAt, target);
      MergedBucketsTimes(rows, newest, width, target);
      FallingIsStrict(MergedBuckets(rows, newest, width, target));
    }
  }

  /** Rows of 10, 5 and 5.5 seconds in this order, and two points: the second row is too old, and ends the walk. */
  lemma LateRowIsLost(a: Row, b: Row, c: Row, since: int)
    requires a.checkedAt == 10_000_000_000 && b.checkedAt == 5_000_000_000 && c.checkedAt == 5_500_000_000
    requires since < a.checkedAt
    ensures SingleSeries([a, b, c], since, 2) == [MergeRows([a])]
  {
    hide Leading, MergeRows;
    var rows := [a, b, c];
    var newest, width := a.checkedAt, 2_250_000_001;
    assert rows[0] == a && rows[1] == b && WidthFor(rows, 2) == width;
    assert BucketEnd(newest, width, 1) == 7_749_999_999 && BucketEnd(newest, width, 2) == 5_499_999_998;
    assert Leading(rows, newest) == 0 && Leading(rows, 7_749_999_999) == 1 && Leading(rows, 5_499_999_998) == 1;
    RunOf(rows, 0, 1);
    RunEmptyIff(rows, 1, 1);
    assert Bucket(rows, newest, width, 0) == [a];
    assert MergedBuckets(rows, newest, width, 1) == [MergeRows([a])];
  }

  lemma SingleSeriesCounts(rows: seq<Row>, since: int, target: nat)
    requires target >= 1 && Counts(rows)
    ensures Counts(SingleSeries(rows, since, target))
  {
    if IsCut(rows, since, target) {
      MergedBucketsCount(rows, rows[0].checkedAt, WidthFor(rows, target), target);
    }
  }

  /**
   * A series that fits, or whose first row is not newer than since or older than its last, is left as it is. So the
   * point budget is respected exactly when the series fits it already, or its first row is newer than since and not
   * older than its last.
   */
  lemma SingleSeriesFitsBudgetIff(rows: seq<Row>, since: int, target: nat)
    requires target >= 1
    ensures |rows| <= target || rows[0].checkedAt <= since || rows[0].checkedAt < rows[|rows| - 1].checkedAt ==>
      SingleSeries(rows, since, target) == rows
    ensures |SingleSeries(rows, since, target)| <= target
      <==> |rows| <= target || (rows[0].checkedAt > since && rows[0].checkedAt >= rows[|rows| - 1].checkedAt)
  {
    if IsCut(rows, since, target) {
      PointsIsLength(rows, rows[0].checkedAt, WidthFor(rows, target), target);
    }
  }

  /** With room for two points, a series that has two distinct instants is still drawn with at least two. */
  lemma AtLeastTwoPoints(rows: seq<Row>, since: int, target: nat)
    requires target >= 2 && Descending(rows)
    requires rows != [] && rows[0].checkedAt > rows[|rows| - 1].checkedAt
    ensures |SingleSeries(rows, since, target)| >= 2
  {
    if IsCut(rows, since, target) {
      var newest, oldest, width := rows[0].checkedAt, rows[|rows| - 1].checkedAt, WidthFor(rows, target);
      CeilingCovers(newest, oldest, target);
      WidthBelowSpan(newest, oldest, target);
      assert BucketEnd(newest, width, 1) == BucketEnd(newest, width, 0) - width == newest - width;
      PointPerRun(rows, newest, width, 0);
      LastRowAddsPoint(rows, newest, width, target);
      PointsIsLength(rows, newest, width, target);
    }
  }

  // ----- Buckets are as narrow as the budget allows

  lemma WidthIsNarrow(newest: int, oldest: int, target: int)
    requires target >= 1 && oldest <= newest
    ensures (BucketWidth(newest, oldest, target) - 1) * target <= newest - oldest
  {
    var width := BucketWidth(newest, oldest, target);
    RoundedUp(newest - oldest + 1, target);
    assert (width - 1) * target == target * width - target;
  }

  lemma NarrowerStill(d: int, width: int, target: nat)
    requires d <= width - 1
    ensures d * target <= (width - 1) * target
  {
  }

  /** Two rows that are merged into one point are no further apart than the budget makes necessary. */
  lemma MergedRowsAreClose(rows: seq<Row>, since: int, target: nat, b: nat, i: nat, j: nat)
    requires target >= 1 && IsCut(rows, since, target) && i < |rows| && j < |rows|
    requires InBucket(rows[i].checkedAt, rows[0].checkedAt, WidthFor(rows, target), b)
    requires InBucket(rows[j].checkedAt, rows[0].checkedAt, WidthFor(rows, target), b)
    ensures (rows[i].checkedAt - rows[j].checkedAt) * target <= rows[0].checkedAt - rows[|rows| - 1].checkedAt
  {
    var newest, width := rows[0].checkedAt, WidthFor(rows, target);
    assert BucketEnd(newest, width, b + 1) == BucketEnd(newest, width, b) - width;
    WidthIsNarrow(newest, rows[|rows| - 1].checkedAt, target);
    NarrowerStill(rows[i].checkedAt - rows[j].checkedAt, width, target);
  }

  /** Places of rows, each further from the one before than rows merged into one point ever are. */
  predicate FarApart(rows: seq<Row>, target: nat, places: seq<nat>)
    requires rows != []
  {
    places != [] ==>
      && places[|places| - 1] < |rows|
      && FarApart(rows, target, places[..|places| - 1])
      && (|places| > 1 ==>
            && places[|places| - 2] < places[|places| - 1]
            && (rows[places[|places| - 2]].checkedAt - rows[places[|places| - 1]].checkedAt) * target
               > rows[0].checkedAt - rows[|rows| - 1].checkedAt)
  }

  /** A bucket that has a row's time in it takes that row, if the series is newest first. */
  lemma TakesItsRow(rows: seq<Row>, newest: int, width: int, b: nat, i: nat)
    requires Descending(rows) && i < |rows| && InBucket(rows[i].checkedAt, newest, width, b)
    ensures Points(rows, newest, width, b + 1) == Points(rows, newest, width, b) + 1
  {
    PointPerRun(rows, newest, width, b);
    var lo, hi := Leading(rows, BucketEnd(newest, width, b)), Leading(rows, BucketEnd(newest, width, b + 1));
    assert lo <= i;
    assert hi > i;
    hide Points, Leading, BucketEnd;
  }

  /** The buckets up to that of the last of them give a point for each. */
  lemma {:induction false} PointForEach(rows: seq<Row>, since: int, target: nat, places: seq<nat>) returns (b: nat)
    requires target >= 1 && Descending(rows) && IsCut(rows, since, target)
    requires places != [] && FarApart(rows, target, places)
    ensures b < target
    ensures InBucket(rows[places[|places| - 1]].checkedAt, rows[0].checkedAt, WidthFor(rows, target), b)
    ensures Points(rows, rows[0].checkedAt, WidthFor(rows, target), b + 1) >= |places|
    decreases |places|
  {
    hide Points, BucketEnd, InBucket;
    var newest, width, last := rows[0].checkedAt, WidthFor(rows, target), places[|places| - 1];
    CeilingCovers(newest, rows[|rows| - 1].checkedAt, target);
    b := ExactlyOneBucket(rows[last].checkedAt, newest, width, target);
    TakesItsRow(rows, newest, width, b, last);
    if |places| > 1 {
      var c := PointForEach(rows, since, target, places[..|places| - 1]);
      LaterBucket(rows, since, target, places[|places| - 2], last, c, b);
      MorePoints(rows, newest, width, c + 1, b);
    }
  }

  lemma LaterBucket(rows: seq<Row>, since: int, target: nat, i: nat, j: nat, c: nat, b: nat)
    requires target >= 1 && Descending(rows) && IsCut(rows, since, target) && i < j < |rows|
    requires (rows[i].checkedAt - rows[j].checkedAt) * target > rows[0].checkedAt - rows[|rows| - 1].checkedAt
    requires InBucket(rows[i].checkedAt, rows[0].checkedAt, WidthFor(rows, target), c)
    requires InBucket(rows[j].checkedAt, rows[0].checkedAt, WidthFor(rows, target), b)
    ensures c < b
  {
    var newest, width := rows[0].checkedAt, WidthFor(rows, target);
    CeilingCovers(newest, rows[|rows| - 1].checkedAt, target);
    if b == c {
      MergedRowsAreClose(rows, since, target, b, i, j);
    } else if b < c {
      EndsDescend(newest, width, b + 1, c);
    }
  }

  /** So as many rows of a series that are pairwise further apart are drawn as as many points at least. */
  lemma FarApartDrawnApart(rows: seq<Row>, since: int, target: nat, places: seq<nat>)
    requires target >= 1 && Descending(rows) && rows != [] && FarApart(rows, target, places)
    ensures |SingleSeries(rows, since, target)| >= |places|
  {
    hide Points, MergedBuckets;
    if IsCut(rows, since, target) {
      var newest, width := rows[0].checkedAt, WidthFor(rows, target);
      PointsIsLength(rows, newest, width, target);
      if places != [] {
        var b := PointForEach(rows, since, target, places);
        MorePoints(rows, newest, width, b + 1, target);
      }
    } else {
      PlacesRise(rows, target, places);
    }
  }

  lemma {:induction false} PlacesRise(rows: seq<Row>, target: nat, places: seq<nat>)
    requires rows != [] && FarApart(rows, target, places)
    ensures places != [] ==> places[|places| - 1] + 1 >= |places|
    ensures |places| <= |rows|
  {
    if places != [] {
      PlacesRise(rows, target, places[..|places| - 1]);
    }
  }

  /** The bucket of the oldest row adds a point to those of the newer buckets. */
  lemma LastRowAddsPoint(rows: seq<Row>, newest: int, width: int, target: nat)
    requires rows != [] && Descending(rows) && width >= 1 && rows[0].checkedAt <= newest
    requires BucketEnd(newest, width, target) < rows[|rows| - 1].checkedAt <= BucketEnd(newest, width, 1)
    ensures Points(rows, newest, width, target) > Points(rows, newest, width, 1)
  {
    hide Points, Leading, BucketEnd;
    var b := ExactlyOneBucket(rows[|rows| - 1].checkedAt, newest, width, target);
    assert b >= 1;
    PointPerRun(rows, newest, width, b);
    MorePoints(rows, newest, width, 1, b);
    MorePoints(rows, newest, width, b + 1, target);
  }

  lemma WidthBelowSpan(newest: int, oldest: int, target: int)
    requires target >= 2 && oldest < newest
    ensures BucketWidth(newest, oldest, target) <= newest - oldest
  {
    var span, width := newest - oldest + 1, BucketWidth(newest, oldest, target);
    RoundedUp(span, target);
    if width >= span {
      assert false by {
        Monotone(target, span, width);
        assert target * span == (target - 1) * span + span;
        Monotone(target - 1, 2, span);
      }
    }
  }

  // ----- The loop

  /** The inner loop: one bucket's running sums, and the row they make. */
  method ScanBucket(rows: seq<Row>, startIdx: nat, bucketStart: int) returns (bucketIdx: nat, merged: seq<Row>)
    requires rows != [] && startIdx <= |rows|
    ensures startIdx <= bucketIdx <= |rows|
    ensures forall i :: startIdx <= i < bucketIdx ==> rows[i].checkedAt >= bucketStart
    ensures bucketIdx < |rows| ==> rows[bucketIdx].checkedAt < bucketStart
    ensures merged == Merged(Run(rows, startIdx, bucketIdx))
  {
    var weightedLatency := 0.0;
    var successCount: nat, failureCount: nat, sampleCount: nat := 0, 0, 0;
    var problem := false;
    var template := rows[0];
    var bucketNewest, bucketOldest := 0, 0;
    bucketIdx := startIdx;
    while bucketIdx < |rows| && rows[bucketIdx].checkedAt >= bucketStart
      invariant startIdx <= bucketIdx <= |rows|
      invariant forall i :: startIdx <= i < bucketIdx ==> rows[i].checkedAt >= bucketStart
      invariant sampleCount == bucketIdx - startIdx
      invariant Sum(Run(rows, startIdx, bucketIdx)) == Totals(successCount, failureCount, weightedLatency, problem)
      invariant bucketNewest == NewestMark(Run(rows, startIdx, bucketIdx))
      invariant sampleCount > 0 ==> template == rows[startIdx] && bucketOldest == rows[bucketIdx - 1].checkedAt
    {
      var row := rows[bucketIdx];
      ScanOne(rows, startIdx, bucketIdx);
      if sampleCount == 0 {
        template := row;
      }
      weightedLatency := AddWeight(weightedLatency, row);
      successCount := successCount + row.successes;
      failureCount := failureCount + row.failures;
      problem := problem || row.failures > 0 || row.error != EMPTY_TEXT;
      sampleCount := sampleCount + 1;
      if bucketNewest == 0 {
        bucketNewest := row.checkedAt;
      }
      bucketOldest := row.checkedAt;
      bucketIdx := bucketIdx + 1;
    }
    // A fallback row is set exactly when sampleCount > 0, so the branch that would add one instead never runs.
    merged := [];
    if sampleCount > 0 {
      var sum := Totals(successCount, failureCount, weightedLatency, problem);
      merged := [MergedRow(template, sum, bucketNewest, bucketOldest)];
    }
    RunEnds(rows, startIdx, bucketIdx);
  }

  /** Adds a row's latency once for every successful probe. */
  method AddWeight(weightedLatency: real, row: Row) returns (r: real)
    ensures r == weightedLatency + row.Weight()
  {
    TimesIsProduct(row.latency, row.successes);
    r := weightedLatency + row.latency * row.successes as real;
  }

  lemma RunEnds(rows: seq<Row>, lo: nat, hi: nat)
    requires lo <= hi <= |rows|
    ensures lo == hi <==> Run(rows, lo, hi) == []
    ensures lo < hi ==>
      var run := Run(rows, lo, hi);
      MergeRows(run) == MergedRow(rows[lo], Sum(run), NewestMark(run), rows[hi - 1].checkedAt)
  {
    RunIsSlice(rows, lo, hi);
  }

  lemma ScanOne(rows: seq<Row>, lo: nat, hi: nat)
    requires lo <= hi < |rows|
    ensures var seen, row := Run(rows, lo, hi), rows[hi];
      && Sum(Run(rows, lo, hi + 1))
         == Add(Sum(seen), Totals(row.successes, row.failures, row.Weight(), row.Problem()))
      && NewestMark(Run(rows, lo, hi + 1)) == if NewestMark(seen) == 0 then row.checkedAt else NewestMark(seen)
  {
    var seen, row := Run(rows, lo, hi), rows[hi];
    SumConcat(seen, [row]);
    SumOne(row);
    assert (seen + [row])[..|seen|] == seen;
  }

  /** Moves past rows newer than the bucket. */
  method SkipNewer(rows: seq<Row>, from: nat, bucketEnd: int) returns (idx: nat)
    requires from <= |rows|
    ensures from <= idx <= |rows|
    ensures forall i :: from <= i < idx ==> rows[i].checkedAt > bucketEnd
    ensures idx < |rows| ==> rows[idx].checkedAt <= bucketEnd
  {
    idx := from;
    while idx < |rows| && rows[idx].checkedAt > bucketEnd
      invariant from <= idx <= |rows|
      invariant forall i :: from <= i < idx ==> rows[i].checkedAt > bucketEnd
    {
      idx := idx + 1;
    }
  }

  /** The outer loop: takes the run of rows that falls in each bucket. The rows may be in any order. */
  method WalkBuckets(rows: seq<Row>, newestTime: int, bucketNanos: int, targetCount: nat) returns (result: seq<Row>)
    requires rows != [] && bucketNanos >= 1 && rows[0].checkedAt == newestTime
    ensures result == MergedBuckets(rows, newestTime, bucketNanos, targetCount)
  {
    hide Leading, Run, Merged, Bucket;
    var n := |rows|;
    result := [];
    var bucketEnd := newestTime;
    var startIdx, b := 0, 0;
    while b < targetCount
      invariant 0 <= b <= targetCount
      invariant bucketEnd == BucketEnd(newestTime, bucketNanos, b)
      invariant startIdx == Leading(rows, bucketEnd)
      invariant result == MergedBuckets(rows, newestTime, bucketNanos, b)
    {
      var bucketStart := bucketEnd - bucketNanos + 1;
      // No bucket stops before a row newer than the next one's end, so this never moves.
      startIdx := SkipNewer(rows, startIdx, bucketEnd);
      var bucketIdx, merged := ScanBucket(rows, startIdx, bucketStart);
      TookRun(rows, newestTime, bucketNanos, b, startIdx, bucketIdx);
      result := result + merged;
      startIdx := bucketIdx;
      bucketEnd := bucketStart - 1;
      b := b + 1;
      if startIdx >= n {
        break;
      }
    }
    NothingLeft(rows, newestTime, bucketNanos, b, targetCount);
  }

  /** Bucket b takes the rows from where the one before it stopped up to the first that is too old. */
  lemma TookRun(rows: seq<Row>, newest: int, width: int, b: nat, lo: nat, hi: nat)
    requires width >= 1 && lo == Leading(rows, BucketEnd(newest, width, b)) && lo <= hi <= |rows|
    requires forall i :: lo <= i < hi ==> rows[i].checkedAt > BucketEnd(newest, width, b) - width
    requires hi < |rows| ==> rows[hi].checkedAt <= BucketEnd(newest, width, b) - width
    ensures hi == Leading(rows, BucketEnd(newest, width, b + 1))
    ensures Bucket(rows, newest, width, b) == Run(rows, lo, hi)
  {
    hide Leading, Run;
    assert BucketEnd(newest, width, b + 1) == BucketEnd(newest, width, b) - width;
  }

  /** Once every row is taken, the remaining buckets are empty. */
  lemma {:induction false} NothingLeft(rows: seq<Row>, newest: int, width: int, b: nat, count: nat)
    requires width >= 0 && b <= count
    requires b == count || Leading(rows, BucketEnd(newest, width, b)) == |rows|
    ensures MergedBuckets(rows, newest, width, b) == MergedBuckets(rows, newest, width, count)
    decreases count - b
  {
    if b < count {
      LeadingGrows(rows, BucketEnd(newest, width, b + 1), BucketEnd(newest, width, b));
      RunEmptyIff(rows, |rows|, |rows|);
      NothingLeft(rows, newest, width, b + 1, count);
    }
  }

  /** One series, cut into equal buckets over the time span from its first row to its last. */
  method AggregateSingleSeries(rows: seq<Row>, since: int, targetCount: nat) returns (result: seq<Row>)
    requires targetCount >= 1
    ensures result == SingleSeries(rows, since, targetCount)
  {
    var n := |rows|;
    if n <= targetCount {
      return rows;
    }
    var newestTime := rows[0].checkedAt;
    var requestedSpan := newestTime - since;
    if requestedSpan < 1 {
      return rows;
    }
    var oldestTime := rows[n - 1].checkedAt;
    var span := newestTime - oldestTime + 1;
    if span < 1 {
      return rows;
    }
    // With a span of at least 1 bucketNanos is at least 1 too, so the guard against smaller ones never fires.
    var bucketNanos := (span + targetCount - 1) / targetCount;
    CeilingCovers(newestTime, oldestTime, targetCount);
    result := WalkBuckets(rows, newestTime, bucketNanos, targetCount);
  }
}
