/** Chart rows, the totals they stand for, and time order. */
module ChartRows {
  import opened Common

  /** The parts joined by NUL bytes into a series key; kept apart here. */
  datatype SeriesKey = SeriesKey(agent: Text, target: Text, address: Text, port: int)

  /** One probe result, or an aggregate of several, on its way to the chart. Times are nanoseconds. */
  datatype Row = Row(
    checkedAt: int, key: SeriesKey, agentIP: Text, labels: Text,
    successes: nat, failures: nat, latency: real, successRate: real, error: Text)
  {
    predicate Problem() {
      failures > 0 || error != EMPTY_TEXT
    }

    /** The latency, counted once for every successful probe. */
    function Weight(): real {
      Times(latency, successes)
    }
  }

  /** x added up n times. */
  function Times(x: real, n: nat): real {
    if n == 0 then 0.0 else x + Times(x, n - 1)
  }

  lemma {:induction false} TimesIsProduct(x: real, n: nat)
    ensures Times(x, n) == x * n as real
  {
    if n > 0 {
      TimesIsProduct(x, n - 1);
      assert x * n as real == x * (n - 1) as real + x;
    }
  }

  /** What aggregation must not change about a series. */
  datatype Totals = Totals(successes: nat, failures: nat, weighted: real, problem: bool)

  const NOTHING: Totals := Totals(0, 0, 0.0, false)

  function Add(a: Totals, b: Totals): Totals {
    Totals(a.successes + b.successes, a.failures + b.failures, a.weighted + b.weighted, a.problem || b.problem)
  }

  function Successes(rows: seq<Row>): nat {
    if rows == [] then 0 else Successes(rows[..|rows| - 1]) + rows[|rows| - 1].successes
  }

  function Failures(rows: seq<Row>): nat {
    if rows == [] then 0 else Failures(rows[..|rows| - 1]) + rows[|rows| - 1].failures
  }

  function Weight(rows: seq<Row>): real {
    if rows == [] then 0.0 else Weight(rows[..|rows| - 1]) + rows[|rows| - 1].Weight()
  }

  predicate HasProblem(rows: seq<Row>) {
    exists r :: r in rows && r.Problem()
  }

  function Sum(rows: seq<Row>): Totals {
    Totals(Successes(rows), Failures(rows), Weight(rows), HasProblem(rows))
  }

  /** The rows of one series, in order. */
  function Only(rows: seq<Row>, key: SeriesKey): seq<Row> {
    if rows == [] then []
    else
      var front, last := Only(rows[..|rows| - 1], key), rows[|rows| - 1];
      if last.key == key then front + [last] else front
  }

  lemma {:induction false} OnlyMembers(rows: seq<Row>, key: SeriesKey)
    ensures |Only(rows, key)| <= |rows|
    ensures forall x :: x in Only(rows, key) <==> x in rows && x.key == key
  {
    if rows != [] {
      var front := rows[..|rows| - 1];
      assert rows == front + [rows[|rows| - 1]];
      OnlyMembers(front, key);
    }
  }

  predicate Descending(rows: seq<Row>) {
    forall i, j :: 0 <= i < j < |rows| ==> rows[i].checkedAt >= rows[j].checkedAt
  }

  /** No row newer than one of its own series before it. */
  predicate SeriesDescend(rows: seq<Row>) {
    forall i, j :: 0 <= i < j < |rows| && rows[i].key == rows[j].key ==> rows[i].checkedAt >= rows[j].checkedAt
  }

  predicate StrictlyDescending(rows: seq<Row>) {
    forall i, j :: 0 <= i < j < |rows| ==> rows[i].checkedAt > rows[j].checkedAt
  }

  predicate Within(rows: seq<Row>, oldest: int, newest: int) {
    forall i :: 0 <= i < |rows| ==> oldest <= rows[i].checkedAt <= newest
  }

  /** The same for the rows of one series. */
  predicate SeriesWithin(rows: seq<Row>, key: SeriesKey, oldest: int, newest: int) {
    forall i :: 0 <= i < |rows| && rows[i].key == key ==> oldest <= rows[i].checkedAt <= newest
  }

  predicate NotOlder(rows: seq<Row>, key: SeriesKey, oldest: int) {
    forall i :: 0 <= i < |rows| && rows[i].key == key ==> oldest <= rows[i].checkedAt
  }

  /** The rows of one instant, in order. */
  function AtTime(rows: seq<Row>, time: int): seq<Row> {
    if rows == [] then []
    else
      var front, last := AtTime(rows[..|rows| - 1], time), rows[|rows| - 1];
      if last.checkedAt == time then front + [last] else front
  }

  lemma AtTimeAppend(front: seq<Row>, last: Row, time: int)
    ensures AtTime(front + [last], time)
         == if last.checkedAt == time then AtTime(front, time) + [last] else AtTime(front, time)
  {
    assert (front + [last])[..|front|] == front;
  }

  lemma {:induction false} AtTimeConcat(a: seq<Row>, b: seq<Row>, time: int)
    ensures AtTime(a + b, time) == AtTime(a, time) + AtTime(b, time)
  {
    if b == [] {
      assert a + b == a;
    } else {
      assert (a + b)[..|a + b| - 1] == a + b[..|b| - 1];
      AtTimeConcat(a, b[..|b| - 1], time);
    }
  }

  lemma {:induction false} NoneAtTime(rows: seq<Row>, time: int)
    requires forall i :: 0 <= i < |rows| ==> rows[i].checkedAt != time
    ensures AtTime(rows, time) == []
  {
    if rows != [] {
      NoneAtTime(rows[..|rows| - 1], time);
    }
  }

  /** No row newer than the one before it, said one row at a time. */
  predicate Ordered(rows: seq<Row>) {
    |rows| >= 2 ==>
      && rows[|rows| - 2].checkedAt >= rows[|rows| - 1].checkedAt
      && Ordered(rows[..|rows| - 1])
  }

  lemma {:induction false} OrderedIsDescending(rows: seq<Row>)
    requires Ordered(rows)
    ensures Descending(rows)
  {
    if |rows| >= 2 {
      OrderedIsDescending(rows[..|rows| - 1]);
    }
  }

  lemma {:induction false} DescendingIsOrdered(rows: seq<Row>)
    requires Descending(rows)
    ensures Ordered(rows)
  {
    if |rows| >= 2 {
      DescendingIsOrdered(rows[..|rows| - 1]);
    }
  }

  lemma OrderedAppend(front: seq<Row>, last: Row)
    requires Ordered(front)
    requires front != [] ==> front[|front| - 1].checkedAt >= last.checkedAt
    ensures Ordered(front + [last])
  {
    var all, n := front + [last], |front|;
    assert all[..n] == front && all[n] == last && |all| == n + 1;
    assert n > 0 ==> all[n - 1] == front[n - 1];
  }

  predicate OneSeries(rows: seq<Row>, key: SeriesKey) {
    forall i :: 0 <= i < |rows| ==> rows[i].key == key
  }

  lemma SumConcat(a: seq<Row>, b: seq<Row>)
    ensures Sum(a + b) == Add(Sum(a), Sum(b))
  {
    CountsConcat(a, b);
    assert HasProblem(a + b) == (HasProblem(a) || HasProblem(b));
  }

  lemma {:induction false} CountsConcat(a: seq<Row>, b: seq<Row>)
    ensures Successes(a + b) == Successes(a) + Successes(b)
    ensures Failures(a + b) == Failures(a) + Failures(b)
    ensures Weight(a + b) == Weight(a) + Weight(b)
  {
    if b == [] {
      assert a + b == a;
    } else {
      var front, last := b[..|b| - 1], b[|b| - 1];
      assert (a + b)[..|a + b| - 1] == a + front && (a + b)[|a + b| - 1] == last;
      CountsConcat(a, front);
    }
  }

  lemma SumOne(r: Row)
    ensures Sum([r]) == Totals(r.successes, r.failures, r.Weight(), r.Problem())
  {
    var one := [r];
    assert one[..0] == [] && r in one;
    assert Successes(one) == Successes(one[..0]) + r.successes;
    assert Failures(one) == Failures(one[..0]) + r.failures;
    assert Weight(one) == Weight(one[..0]) + r.Weight();
  }

  /** The latencies added up, each once for every successful probe. */
  function WeightedLatency(rows: seq<Row>): real {
    if rows == [] then 0.0
    else WeightedLatency(rows[..|rows| - 1]) + rows[|rows| - 1].latency * rows[|rows| - 1].successes as real
  }

  lemma {:induction false} WeightIsLatency(rows: seq<Row>)
    ensures Weight(rows) == WeightedLatency(rows)
  {
    if rows != [] {
      var last := rows[|rows| - 1];
      WeightIsLatency(rows[..|rows| - 1]);
      TimesIsProduct(last.latency, last.successes);
    }
  }

  lemma {:induction false} NoSuccessNoWeight(rows: seq<Row>)
    requires Successes(rows) == 0
    ensures Weight(rows) == 0.0
  {
    if rows != [] {
      NoSuccessNoWeight(rows[..|rows| - 1]);
    }
  }

  lemma {:induction false} FailuresAreProblems(rows: seq<Row>)
    requires Failures(rows) > 0
    ensures HasProblem(rows)
  {
    var last := rows[|rows| - 1];
    if last.failures > 0 {
      assert last.Problem();
    } else {
      FailuresAreProblems(rows[..|rows| - 1]);
    }
  }

  lemma {:induction false} OnlyConcat(a: seq<Row>, b: seq<Row>, key: SeriesKey)
    ensures Only(a + b, key) == Only(a, key) + Only(b, key)
  {
    if b == [] {
      assert a + b == a;
    } else {
      assert (a + b)[..|a + b| - 1] == a + b[..|b| - 1];
      OnlyConcat(a, b[..|b| - 1], key);
    }
  }

  /** Rows of a single series are all kept, or all dropped. */
  lemma {:induction false} OnlyOfOneSeries(rows: seq<Row>, own: SeriesKey, key: SeriesKey)
    requires OneSeries(rows, own)
    ensures Only(rows, key) == if key == own then rows else []
  {
    if rows != [] {
      var front := rows[..|rows| - 1];
      assert rows == front + [rows[|rows| - 1]];
      OnlyOfOneSeries(front, own, key);
    }
  }

  /** The series that occur. */
  function KeySet(rows: seq<Row>): set<SeriesKey> {
    if rows == [] then {} else KeySet(rows[..|rows| - 1]) + {rows[|rows| - 1].key}
  }

  lemma {:induction false} KeySetIff(rows: seq<Row>, key: SeriesKey)
    ensures key in KeySet(rows) <==> Only(rows, key) != []
  {
    if rows != [] {
      KeySetIff(rows[..|rows| - 1], key);
    }
  }

  lemma {:induction false} KeySetSize(rows: seq<Row>)
    ensures |KeySet(rows)| <= |rows|
  {
    if rows != [] {
      KeySetSize(rows[..|rows| - 1]);
    }
  }

  lemma {:induction false} OnlyDescending(rows: seq<Row>, key: SeriesKey)
    requires SeriesDescend(rows)
    ensures Descending(Only(rows, key))
  {
    if rows != [] {
      var front, last := rows[..|rows| - 1], rows[|rows| - 1];
      OnlyDescending(front, key);
      if last.key == key && Only(front, key) != [] {
        var i := LastInSeries(front, key);
        assert rows[i].key == last.key;
        DescendingAppend(Only(front, key), last);
      }
    }
  }

  /** Where the last row of a series stands. */
  lemma {:induction false} LastInSeries(rows: seq<Row>, key: SeriesKey) returns (i: nat)
    requires Only(rows, key) != []
    ensures i < |rows| && rows[i].key == key && rows[i] == Only(rows, key)[|Only(rows, key)| - 1]
  {
    i := |rows| - 1;
    if rows[i].key != key {
      i := LastInSeries(rows[..i], key);
    }
  }

  lemma DescendingAppend(front: seq<Row>, last: Row)
    requires Descending(front) && front != [] && front[|front| - 1].checkedAt >= last.checkedAt
    ensures Descending(front + [last])
  {
  }

  lemma {:induction false} OnlyIsOneSeries(rows: seq<Row>, key: SeriesKey)
    ensures OneSeries(Only(rows, key), key)
  {
    if rows != [] {
      OnlyIsOneSeries(rows[..|rows| - 1], key);
    }
  }

  lemma {:induction false} OnlyWithin(rows: seq<Row>, key: SeriesKey, oldest: int, newest: int)
    requires SeriesWithin(rows, key, oldest, newest)
    ensures Within(Only(rows, key), oldest, newest)
  {
    if rows != [] {
      OnlyWithin(rows[..|rows| - 1], key, oldest, newest);
    }
  }

  lemma {:induction false} SomeNewest(rows: seq<Row>, key: SeriesKey, oldest: int) returns (newest: int)
    requires NotOlder(rows, key, oldest)
    ensures SeriesWithin(rows, key, oldest, newest)
  {
    newest := oldest;
    if rows != [] {
      var last := rows[|rows| - 1];
      newest := SomeNewest(rows[..|rows| - 1], key, oldest);
      if newest < last.checkedAt {
        newest := last.checkedAt;
      }
    }
  }

  // ----- Probes, series by series

  /** How many probes the rows stand for. */
  function Probes(rows: seq<Row>): nat {
    Successes(rows) + Failures(rows)
  }

  /** Every row stands for some probe, as the supervisor demands of every report. */
  predicate Counts(rows: seq<Row>) {
    forall i :: 0 <= i < |rows| ==> rows[i].successes + rows[i].failures > 0
  }

  lemma {:induction false} SomeProbes(rows: seq<Row>)
    requires Counts(rows) && rows != []
    ensures Probes(rows) > 0
  {
    if |rows| > 1 {
      SomeProbes(rows[..|rows| - 1]);
    }
  }

  lemma ProbesConcat(a: seq<Row>, b: seq<Row>)
    ensures Probes(a + b) == Probes(a) + Probes(b)
  {
    CountsConcat(a, b);
  }

  function Without(rows: seq<Row>, key: SeriesKey): seq<Row> {
    if rows == [] then []
    else
      var front, last := Without(rows[..|rows| - 1], key), rows[|rows| - 1];
      if last.key == key then front else front + [last]
  }

  lemma ProbesAppend(front: seq<Row>, last: Row)
    ensures Probes(front + [last]) == Probes(front) + last.successes + last.failures
  {
    assert (front + [last])[..|front|] == front;
  }

  /** A series and the rest make up the whole. */
  lemma {:induction false} OnlyAndWithout(rows: seq<Row>, key: SeriesKey)
    ensures Probes(rows) == Probes(Only(rows, key)) + Probes(Without(rows, key))
    ensures |Only(rows, key)| + |Without(rows, key)| == |rows|
  {
    if rows != [] {
      var front, last := rows[..|rows| - 1], rows[|rows| - 1];
      OnlyAndWithout(front, key);
      assert rows == front + [last];
      ProbesAppend(front, last);
      ProbesAppend(Only(front, key), last);
      ProbesAppend(Without(front, key), last);
    }
  }

  lemma {:induction false} OnlyOfWithout(rows: seq<Row>, key: SeriesKey, other: SeriesKey)
    ensures Only(Without(rows, key), other) == if other == key then [] else Only(rows, other)
  {
    if rows != [] {
      var front, last := rows[..|rows| - 1], rows[|rows| - 1];
      OnlyOfWithout(front, key, other);
      assert (Without(front, key) + [last])[..|Without(front, key)|] == Without(front, key);
    }
  }

  /** Fewer probes or as many in every series, fewer or as many in all. */
  lemma {:induction false} ProbesByKey(a: seq<Row>, b: seq<Row>)
    requires forall key :: Probes(Only(a, key)) <= Probes(Only(b, key))
    ensures Probes(a) <= Probes(b)
    decreases |a|
  {
    hide Only, Without, Probes;
    if a == [] {
      NoProbes();
    } else {
      var key := a[|a| - 1].key;
      OnlyAndWithout(a, key);
      OnlyAndWithout(b, key);
      LastIsOnly(a);
      forall other ensures Probes(Only(Without(a, key), other)) <= Probes(Only(Without(b, key), other)) {
        OnlyOfWithout(a, key, other);
        OnlyOfWithout(b, key, other);
      }
      ProbesByKey(Without(a, key), Without(b, key));
    }
  }

  /** Fewer in one of them, fewer in all. */
  lemma ProbesByKeyLess(a: seq<Row>, b: seq<Row>, key: SeriesKey)
    requires forall other :: Probes(Only(a, other)) <= Probes(Only(b, other))
    requires Probes(Only(a, key)) < Probes(Only(b, key))
    ensures Probes(a) < Probes(b)
  {
    hide *;
    OnlyAndWithout(a, key);
    OnlyAndWithout(b, key);
    WithoutByKey(a, b, key);
  }

  lemma WithoutByKey(a: seq<Row>, b: seq<Row>, key: SeriesKey)
    requires forall other :: Probes(Only(a, other)) <= Probes(Only(b, other))
    ensures Probes(Without(a, key)) <= Probes(Without(b, key))
  {
    hide *;
    forall other ensures Probes(Only(Without(a, key), other)) <= Probes(Only(Without(b, key), other)) {
      OnlyOfWithout(a, key, other);
      OnlyOfWithout(b, key, other);
    }
    ProbesByKey(Without(a, key), Without(b, key));
  }

  lemma NoProbes()
    ensures Probes([]) == 0
  {
  }

  lemma LastIsOnly(rows: seq<Row>)
    requires rows != []
    ensures Only(rows, rows[|rows| - 1].key) != []
  {
  }
}
