/** Folding a result stream of any length into a bounded chart response. */
module ChartStream {
  import opened ChartAggregation
  import opened ChartRows
  import opened PointBudgets
  import opened SeriesBuckets

  const MAX_CHART_POINTS := 3000

  // ----- One pass, as loops

  method GroupRows(rows: seq<Row>) returns (seriesList: seq<seq<Row>>)
    ensures seriesList == Groups(rows, Keys(rows))
  {
    hide KeySet, Keys, Only;
    NoGroups();
    var seriesByKey: map<SeriesKey, nat> := map[];
    seriesList := [];
    var t := 0;
    assert rows[..0] == [];
    while t < |rows|
      invariant 0 <= t <= |rows|
      invariant seriesByKey.Keys == KeySet(rows[..t])
      invariant forall k :: k in seriesByKey ==> seriesByKey[k] == IndexOf(rows[..t], k)
      invariant seriesList == Groups(rows[..t], Keys(rows[..t]))
    {
      var key := rows[t].key;
      GroupOneMore(rows, t);
      ghost var before, known := seriesList, key in seriesByKey;
      if key !in seriesByKey {
        seriesByKey := seriesByKey[key := |seriesList|];
        seriesList := seriesList + [[]];
      }
      var index := seriesByKey[key];
      seriesList := seriesList[index := seriesList[index] + [rows[t]]];
      if !known {
        assert index == |before| && seriesList[index] == [rows[t]];
        assert seriesList == before + [[rows[t]]];
      }
      t := t + 1;
    }
    assert rows[..|rows|] == rows;
  }

  lemma NoGroups()
    ensures KeySet([]) == {} && Keys([]) == []
  {
  }

  /** One more row joins its own group, or starts one. */
  lemma GroupOneMore(rows: seq<Row>, t: nat)
    requires t < |rows|
    ensures var front, next, key := rows[..t], rows[..t + 1], rows[t].key;
      && KeySet(next) == KeySet(front) + {key}
      && (forall k :: k in KeySet(front) ==> IndexOf(next, k) == IndexOf(front, k))
      && (key !in KeySet(front) ==> IndexOf(next, key) == |Keys(front)|)
    ensures var front, next, key := rows[..t], rows[..t + 1], rows[t].key;
      var before, after := Groups(front, Keys(front)), Groups(next, Keys(next));
      && (key in KeySet(front) ==>
            var i := IndexOf(front, key); after == before[i := before[i] + [rows[t]]])
      && (key !in KeySet(front) ==> after == before + [[rows[t]]])
  {
    var front, next, key := rows[..t], rows[..t + 1], rows[t].key;
    assert next[..t] == front && next[t] == rows[t] && |next| == t + 1;
    OwnGroups(front, rows[t]);
    assert next == front + [rows[t]];
  }

  lemma OwnGroups(front: seq<Row>, row: Row)
    ensures var next := front + [row];
      var before, after := Groups(front, Keys(front)), Groups(next, Keys(next));
      && (row.key in KeySet(front) ==>
            var i := IndexOf(front, row.key); after == before[i := before[i] + [row]])
      && (row.key !in KeySet(front) ==> after == before + [[row]])
  {
    var next := front + [row];
    assert next[..|front|] == front;
    if row.key in KeySet(front) {
      KnownGroup(front, row);
    } else {
      NewGroup(front, row);
    }
  }

  lemma KnownGroup(front: seq<Row>, row: Row)
    requires row.key in KeySet(front)
    ensures var before, i := Groups(front, Keys(front)), IndexOf(front, row.key);
      Groups(front + [row], Keys(front)) == before[i := before[i] + [row]]
  {
    var keys := Keys(front);
    forall j | 0 <= j < |keys|
      ensures Only(front + [row], keys[j])
           == if j == IndexOf(front, row.key) then Only(front, keys[j]) + [row] else Only(front, keys[j])
    {
      OwnPlace(front, row.key, j);
      OnlyAppend(front, row, keys[j]);
    }
  }

  lemma OwnPlace(rows: seq<Row>, key: SeriesKey, i: nat)
    requires i < |Keys(rows)|
    ensures Keys(rows)[i] == key <==> i == Place(rows, key)
  {
    KeysMatchOnce(rows, key);
  }

  lemma NewGroup(front: seq<Row>, row: Row)
    requires row.key !in KeySet(front)
    ensures Groups(front + [row], Keys(front) + [row.key]) == Groups(front, Keys(front)) + [[row]]
  {
    var keys := Keys(front);
    KeySetIff(front, row.key);
    OnlyAppend(front, row, row.key);
    var longer := keys + [row.key];
    forall j | 0 <= j < |longer|
      ensures Groups(front + [row], longer)[j] == (Groups(front, keys) + [[row]])[j]
    {
      if j < |keys| {
        OwnPlace(front, row.key, j);
        OnlyAppend(front, row, keys[j]);
      }
    }
  }

  /** Groups rows by series, shares out the points, aggregates each series, and sorts the result. */
  method AggregateRowsByTime(rows: seq<Row>, since: int, targetCount: nat) returns (result: seq<Row>)
    ensures result == AggregateRows(rows, since, targetCount)
  {
    if |rows| <= targetCount || targetCount < 1 {
      return rows;
    }
    var seriesList := GroupRows(rows);
    var budgets := ShareOut(Lens(seriesList), targetCount);
    result := AggregateEach(seriesList, since, budgets);
    result := SortNewestFirst(result);
    if |result| > targetCount {
      result := result[..targetCount];
    }
  }

  /** Aggregates each series that has any points, one after the other. */
  method AggregateEach(seriesList: seq<seq<Row>>, since: int, budgets: seq<nat>) returns (result: seq<Row>)
    requires |budgets| == |seriesList|
    ensures result == Joined(Pieces(seriesList, since, budgets), |seriesList|)
  {
    hide Piece;
    ghost var pieces := Pieces(seriesList, since, budgets);
    result := [];
    var i := 0;
    while i < |seriesList|
      invariant 0 <= i <= |seriesList|
      invariant result == Joined(pieces, i)
    {
      var piece := AggregatePiece(seriesList[i], since, budgets[i]);
      result := result + piece;
      i := i + 1;
    }
  }

  /** A series without points is skipped. */
  method AggregatePiece(series: seq<Row>, since: int, budget: nat) returns (piece: seq<Row>)
    ensures piece == Piece(series, since, budget)
  {
    if budget == 0 {
      return [];
    }
    piece := AggregateSingleSeries(series, since, budget);
  }

  // ----- The stream

  /** The buffer after one more row: re-aggregated when it reaches twice the response size. */
  function Push(buffer: seq<Row>, row: Row, since: int): seq<Row> {
    var rows := buffer + [row];
    if |rows| >= MAX_CHART_POINTS * 2 then AggregateRows(rows, since, MAX_CHART_POINTS) else rows
  }

  /** The buffer after the first n rows of the stream. */
  function Buffer(stream: seq<Row>, since: int, n: nat): seq<Row>
    requires n <= |stream|
  {
    if n == 0 then [] else Push(Buffer(stream, since, n - 1), stream[n - 1], since)
  }

  function Response(stream: seq<Row>, since: int): seq<Row> {
    AggregateRows(Buffer(stream, since, |stream|), since, MAX_CHART_POINTS)
  }

  /** Whatever the stream, the buffer has fewer than 6000 rows after every row. */
  lemma {:induction false} BufferBounded(stream: seq<Row>, since: int, n: nat)
    requires n <= |stream|
    ensures |Buffer(stream, since, n)| < MAX_CHART_POINTS * 2
  {
    hide Push;
    if n > 0 {
      BufferBounded(stream, since, n - 1);
      PushBounded(Buffer(stream, since, n - 1), stream[n - 1], since);
    }
  }

  lemma PushBounded(buffer: seq<Row>, row: Row, since: int)
    requires |buffer| < MAX_CHART_POINTS * 2
    ensures |Push(buffer, row, since)| < MAX_CHART_POINTS * 2
  {
    hide AggregateRows;
    var rows := buffer + [row];
    if |rows| >= MAX_CHART_POINTS * 2 {
      PassIsBounded(rows, since, MAX_CHART_POINTS);
    }
  }

  /** The buffer is newest first and has nothing older than the last row pushed. */
  ghost predicate InOrder(buffer: seq<Row>, oldest: int) {
    Ordered(buffer) && forall key :: NotOlder(buffer, key, oldest)
  }

  lemma PushInOrder(buffer: seq<Row>, oldest: int, row: Row, since: int)
    requires InOrder(buffer, oldest) && row.checkedAt <= oldest
    ensures InOrder(Push(buffer, row, since), row.checkedAt)
  {
    hide AggregateRows;
    var rows := buffer + [row];
    assert buffer != [] ==> NotOlder(buffer, buffer[|buffer| - 1].key, oldest);
    OrderedAppend(buffer, row);
    forall key ensures NotOlder(Push(buffer, row, since), key, row.checkedAt) {
      assert NotOlder(buffer, key, oldest);
      PassNotOlder(rows, since, MAX_CHART_POINTS, key, row.checkedAt);
    }
    if |rows| >= MAX_CHART_POINTS * 2 {
      PassIsBounded(rows, since, MAX_CHART_POINTS);
    }
  }

  /** While a stream comes newest first, so does the buffer, whatever the number of series. */
  lemma {:induction false} BufferInOrder(stream: seq<Row>, since: int, n: nat)
    requires Descending(stream) && 0 < n <= |stream|
    ensures InOrder(Buffer(stream, since, n), stream[n - 1].checkedAt)
  {
    hide Push, InOrder;
    if n == 1 {
      NothingInOrder(stream[0].checkedAt);
      assert Buffer(stream, since, 0) == [];
      PushInOrder([], stream[0].checkedAt, stream[0], since);
    } else {
      BufferInOrder(stream, since, n - 1);
      PushInOrder(Buffer(stream, since, n - 1), stream[n - 2].checkedAt, stream[n - 1], since);
    }
  }

  lemma NothingInOrder(oldest: int)
    ensures InOrder([], oldest)
  {
  }

  /** When this row is pushed, the pass, if there is one, has nothing to cut. */
  predicate PushFits(buffer: seq<Row>, row: Row, since: int) {
    |buffer + [row]| >= MAX_CHART_POINTS * 2 ==> Fits(buffer + [row], since, MAX_CHART_POINTS)
  }

  /** No pass over the first n rows of the stream has anything to cut. */
  predicate NeverCut(stream: seq<Row>, since: int, n: nat)
    requires n <= |stream|
  {
    n == 0 || (NeverCut(stream, since, n - 1) && PushFits(Buffer(stream, since, n - 1), stream[n - 1], since))
  }

  /** Nor has the last one, over the whole stream. */
  predicate NothingCut(stream: seq<Row>, since: int) {
    var buffer := Buffer(stream, since, |stream|);
    && NeverCut(stream, since, |stream|)
    && (|buffer| > MAX_CHART_POINTS ==> Fits(buffer, since, MAX_CHART_POINTS))
  }

  /** And it reaches every row. */
  predicate PushLossless(buffer: seq<Row>, row: Row, since: int) {
    |buffer + [row]| >= MAX_CHART_POINTS * 2 ==> Lossless(buffer + [row], since, MAX_CHART_POINTS)
  }

  predicate NeverLost(stream: seq<Row>, since: int, n: nat)
    requires n <= |stream|
  {
    n == 0 || (NeverLost(stream, since, n - 1) && PushLossless(Buffer(stream, since, n - 1), stream[n - 1], since))
  }

  /** No pass leaves out a row, be it at the end of a walk over a series or by the final cut. */
  predicate NothingLost(stream: seq<Row>, since: int) {
    var buffer := Buffer(stream, since, |stream|);
    && NeverLost(stream, since, |stream|)
    && (|buffer| > MAX_CHART_POINTS ==> Lossless(buffer, since, MAX_CHART_POINTS))
  }

  /** One push keeps what the buffer stands for, series by series. */
  lemma PushKeepsTotals(buffer: seq<Row>, row: Row, since: int, key: SeriesKey)
    requires |KeySet(buffer + [row])| <= MAX_CHART_POINTS
    ensures PushFits(buffer, row, since) ==>
      (key in KeySet(Push(buffer, row, since)) <==> key in KeySet(buffer + [row]))
    ensures PushLossless(buffer, row, since) ==>
      Sum(Only(Push(buffer, row, since), key)) == Sum(Only(buffer + [row], key))
  {
    hide AggregateRows, Fits, EachReached, KeySet, Only, Sum;
    var rows := buffer + [row];
    if |rows| >= MAX_CHART_POINTS * 2 {
      if Fits(rows, since, MAX_CHART_POINTS) {
        PassKeepsSeries(rows, since, MAX_CHART_POINTS, key);
      }
      if Lossless(rows, since, MAX_CHART_POINTS) {
        PassKeepsTotals(rows, since, MAX_CHART_POINTS, key);
      }
    }
  }

  lemma SumOnlyAppend(a: seq<Row>, b: seq<Row>, row: Row, key: SeriesKey)
    requires Sum(Only(a, key)) == Sum(Only(b, key))
    ensures Sum(Only(a + [row], key)) == Sum(Only(b + [row], key))
  {
    OnlyConcat(a, [row], key);
    OnlyConcat(b, [row], key);
    SumConcat(Only(a, key), Only([row], key));
    SumConcat(Only(b, key), Only([row], key));
  }

  lemma KeySetAppend(rows: seq<Row>, row: Row)
    ensures KeySet(rows + [row]) == KeySet(rows) + {row.key}
  {
    assert (rows + [row])[..|rows|] == rows;
  }

  lemma {:induction false} KeySetGrows(stream: seq<Row>, n: nat)
    requires n <= |stream|
    ensures KeySet(stream[..n]) <= KeySet(stream)
    decreases |stream|
  {
    if n == |stream| {
      assert stream[..n] == stream;
    } else {
      var front := stream[..|stream| - 1];
      assert front[..n] == stream[..n];
      KeySetGrows(front, n);
    }
  }

  lemma KeySetOfPrefix(stream: seq<Row>, n: nat)
    requires n < |stream|
    ensures KeySet(stream[..n + 1]) == KeySet(stream[..n]) + {stream[n].key}
    ensures |KeySet(stream[..n + 1])| <= |KeySet(stream)|
  {
    assert stream[..n + 1] == stream[..n] + [stream[n]];
    KeySetAppend(stream[..n], stream[n]);
    KeySetGrows(stream, n + 1);
    SubsetSize(KeySet(stream[..n + 1]), KeySet(stream));
  }

  /** Through any number of passes that cut nothing the buffer has exactly the series streamed so far. */
  lemma {:induction false} BufferKeepsSeries(stream: seq<Row>, since: int, n: nat)
    requires n <= |stream| && NeverCut(stream, since, n)
    requires |KeySet(stream)| <= MAX_CHART_POINTS
    ensures KeySet(Buffer(stream, since, n)) == KeySet(stream[..n])
  {
    hide Push, PushFits, PushLossless, KeySet;
    if n == 0 {
      assert stream[..0] == [];
    } else {
      var buffer, row := Buffer(stream, since, n - 1), stream[n - 1];
      BufferKeepsSeries(stream, since, n - 1);
      KeySetOfPrefix(stream, n - 1);
      KeySetAppend(buffer, row);
      forall key ensures key in KeySet(Push(buffer, row, since)) <==> key in KeySet(buffer + [row]) {
        PushKeepsTotals(buffer, row, since, key);
      }
    }
  }

  /** Same series, and the same totals for each. */
  ghost predicate StandsFor(buffer: seq<Row>, rows: seq<Row>) {
    KeySet(buffer) == KeySet(rows) && SameTotals(buffer, rows)
  }

  /** If the passes leave out no row, the buffer stands for exactly the rows streamed so far, in whatever order. */
  lemma {:induction false} BufferKeepsTotals(stream: seq<Row>, since: int, n: nat)
    requires n <= |stream| && NeverLost(stream, since, n)
    requires |KeySet(stream)| <= MAX_CHART_POINTS
    ensures StandsFor(Buffer(stream, since, n), stream[..n])
  {
    hide Push, PushFits, PushLossless, SameTotals, KeySet;
    LosslessNeverCut(stream, since, n);
    BufferKeepsSeries(stream, since, n);
    if n == 0 {
      assert stream[..0] == [];
      NoTotals();
    } else {
      var buffer, row := Buffer(stream, since, n - 1), stream[n - 1];
      BufferKeepsTotals(stream, since, n - 1);
      KeySetOfPrefix(stream, n - 1);
      KeySetAppend(buffer, row);
      assert stream[..n] == stream[..n - 1] + [row];
      PushStandsFor(buffer, stream[..n - 1], row, since);
    }
  }

  lemma NoTotals()
    ensures SameTotals([], [])
  {
  }

  lemma PushStandsFor(buffer: seq<Row>, rows: seq<Row>, row: Row, since: int)
    requires SameTotals(buffer, rows) && PushLossless(buffer, row, since)
    requires |KeySet(buffer + [row])| <= MAX_CHART_POINTS
    ensures SameTotals(Push(buffer, row, since), rows + [row])
  {
    hide Push, PushLossless, KeySet, Sum, Only;
    forall key ensures Sum(Only(Push(buffer, row, since), key)) == Sum(Only(rows + [row], key)) {
      assert Sum(Only(buffer, key)) == Sum(Only(rows, key));
      SumOnlyAppend(buffer, rows, row, key);
      PushKeepsTotals(buffer, row, since, key);
    }
  }

  lemma {:induction false} LosslessNeverCut(stream: seq<Row>, since: int, n: nat)
    requires n <= |stream| && NeverLost(stream, since, n)
    ensures NeverCut(stream, since, n)
  {
    hide Push, Fits, EachReached;
    if n > 0 {
      LosslessNeverCut(stream, since, n - 1);
    }
  }

  /** The response is bounded whatever the stream, and newest first if the stream is or a pass has sorted it. */
  lemma ResponseBounded(stream: seq<Row>, since: int)
    ensures |Response(stream, since)| <= MAX_CHART_POINTS
    ensures Descending(stream) || |Buffer(stream, since, |stream|)| > MAX_CHART_POINTS ==>
      Ordered(Response(stream, since))
  {
    hide Buffer;
    var buffer := Buffer(stream, since, |stream|);
    if |buffer| > MAX_CHART_POINTS {
      PassIsBounded(buffer, since, MAX_CHART_POINTS);
    } else if Descending(stream) {
      BufferOrdered(stream, since);
    }
  }

  lemma BufferOrdered(stream: seq<Row>, since: int)
    requires Descending(stream)
    ensures Ordered(Buffer(stream, since, |stream|))
  {
    if stream != [] {
      BufferInOrder(stream, since, |stream|);
    }
  }

  lemma ResponseKeepsSeries(stream: seq<Row>, since: int, key: SeriesKey)
    requires NothingCut(stream, since) && |KeySet(stream)| <= MAX_CHART_POINTS
    ensures key in KeySet(Response(stream, since)) <==> key in KeySet(stream)
  {
    hide Buffer, Fits, AggregateRows, KeySet, NeverCut;
    AggregateFew(Buffer(stream, since, |stream|), since);
    BufferKeepsSeries(stream, since, |stream|);
    assert stream[..|stream|] == stream;
    if |Buffer(stream, since, |stream|)| > MAX_CHART_POINTS {
      PassKeepsSeries(Buffer(stream, since, |stream|), since, MAX_CHART_POINTS, key);
    }
  }

  /** Nothing is aggregated before there are 6000 rows. */
  lemma {:induction false} BufferIsPrefix(stream: seq<Row>, since: int, n: nat)
    requires n <= |stream| && n < MAX_CHART_POINTS * 2
    ensures Buffer(stream, since, n) == stream[..n]
  {
    hide AggregateRows;
    if n > 0 {
      BufferIsPrefix(stream, since, n - 1);
      assert stream[..n] == stream[..n - 1] + [stream[n - 1]];
    }
  }

  /** A stream of at most 3000 rows is the response, one of fewer than 6000 is aggregated once. */
  lemma ShortStream(stream: seq<Row>, since: int)
    requires |stream| < MAX_CHART_POINTS * 2
    ensures Response(stream, since) == AggregateRows(stream, since, MAX_CHART_POINTS)
    ensures |stream| <= MAX_CHART_POINTS ==> Response(stream, since) == stream
  {
    hide Buffer;
    BufferIsPrefix(stream, since, |stream|);
    assert stream[..|stream|] == stream;
    PassIsBounded(stream, since, MAX_CHART_POINTS);
  }

  lemma AggregateFew(rows: seq<Row>, since: int)
    ensures |rows| <= MAX_CHART_POINTS ==> AggregateRows(rows, since, MAX_CHART_POINTS) == rows
  {
  }

  /** Any stream: with at most 3000 series and no row left out, the response keeps every series' totals exactly. */
  lemma ResponseKeepsTotals(stream: seq<Row>, since: int, key: SeriesKey)
    requires NothingLost(stream, since) && |KeySet(stream)| <= MAX_CHART_POINTS
    ensures Sum(Only(Response(stream, since), key)) == Sum(Only(stream, key))
    ensures key in KeySet(Response(stream, since)) <==> key in KeySet(stream)
  {
    hide Buffer, Lossless, AggregateRows, KeySet, NeverLost, Sum, Only;
    AggregateFew(Buffer(stream, since, |stream|), since);
    BufferKeepsTotals(stream, since, |stream|);
    assert stream[..|stream|] == stream;
    assert Sum(Only(Buffer(stream, since, |stream|), key)) == Sum(Only(stream, key));
    if |Buffer(stream, since, |stream|)| > MAX_CHART_POINTS {
      PassKeepsTotals(Buffer(stream, since, |stream|), since, MAX_CHART_POINTS, key);
    }
  }

  /** When nothing is cut, every series is in the response exactly when there are at most 3000 of them. */
  lemma ResponseKeepsEverySeriesIff(stream: seq<Row>, since: int)
    requires NothingCut(stream, since)
    ensures KeySet(stream) <= KeySet(Response(stream, since)) <==> |KeySet(stream)| <= MAX_CHART_POINTS
  {
    hide Response, NothingCut, KeySet;
    if |KeySet(stream)| <= MAX_CHART_POINTS {
      forall key | key in KeySet(stream) ensures key in KeySet(Response(stream, since)) {
        ResponseKeepsSeries(stream, since, key);
      }
    } else if KeySet(stream) <= KeySet(Response(stream, since)) {
      ResponseBounded(stream, since);
      KeySetSize(Response(stream, since));
      SubsetSize(KeySet(stream), KeySet(Response(stream, since)));
    }
  }

  // ----- Exactly when the response keeps all totals

  /** A push never adds probes beyond the row's own, and loses some if its pass leaves out a row. */
  lemma PushProbes(buffer: seq<Row>, row: Row, since: int)
    requires Counts(buffer) && row.successes + row.failures > 0
    ensures var pushed := Push(buffer, row, since);
      && Counts(pushed) && Probes(pushed) <= Probes(buffer) + row.successes + row.failures
      && (!PushLossless(buffer, row, since) ==> Probes(pushed) < Probes(buffer) + row.successes + row.failures)
  {
    hide Probes, Lossless, AggregateRows;
    ProbesAppend(buffer, row);
    if |buffer + [row]| >= MAX_CHART_POINTS * 2 {
      PassProbes(buffer + [row], since, MAX_CHART_POINTS);
    }
  }

  /** The buffer never stands for more probes than were streamed, and for fewer once any row was left out. */
  lemma {:induction false} BufferProbes(stream: seq<Row>, since: int, n: nat)
    requires Counts(stream) && n <= |stream|
    ensures var buffer := Buffer(stream, since, n);
      && Counts(buffer) && Probes(buffer) <= Probes(stream[..n])
      && (!NeverLost(stream, since, n) ==> Probes(buffer) < Probes(stream[..n]))
  {
    hide Push, PushLossless, Probes;
    if n == 0 {
      NoProbes();
      assert stream[..0] == [];
    } else {
      BufferProbes(stream, since, n - 1);
      PushProbes(Buffer(stream, since, n - 1), stream[n - 1], since);
      assert stream[..n] == stream[..n - 1] + [stream[n - 1]];
      ProbesAppend(stream[..n - 1], stream[n - 1]);
    }
  }

  lemma ResponseProbes(stream: seq<Row>, since: int)
    requires Counts(stream)
    ensures Probes(Response(stream, since)) <= Probes(stream)
    ensures !NothingLost(stream, since) ==> Probes(Response(stream, since)) < Probes(stream)
  {
    hide Probes, Lossless, NeverLost, Buffer, AggregateRows;
    AggregateFew(Buffer(stream, since, |stream|), since);
    BufferProbes(stream, since, |stream|);
    assert stream[..|stream|] == stream;
    if |Buffer(stream, since, |stream|)| > MAX_CHART_POINTS {
      PassProbes(Buffer(stream, since, |stream|), since, MAX_CHART_POINTS);
    }
  }

  /**
   * Main result, for every stream of rows that stand for probes, whatever its order: the response keeps the totals of
   * every series exactly when there are at most 3000 series and no pass on the way leaves out a row.
   */
  lemma ResponseKeepsAllTotalsIff(stream: seq<Row>, since: int)
    requires Counts(stream)
    ensures SameTotals(Response(stream, since), stream)
       <==> |KeySet(stream)| <= MAX_CHART_POINTS && NothingLost(stream, since)
  {
    hide Response, NothingLost, KeySet, Counts, Sum, Only, Probes;
    var out := Response(stream, since);
    ResponseProbes(stream, since);
    if |KeySet(stream)| <= MAX_CHART_POINTS && NothingLost(stream, since) {
      forall key ensures Sum(Only(out, key)) == Sum(Only(stream, key)) {
        ResponseKeepsTotals(stream, since, key);
      }
    } else if SameTotals(out, stream) {
      SameTotalsSameProbes(out, stream);
      SameTotalsSameSeries(out, stream);
      ResponseBounded(stream, since);
      KeySetSize(out);
      SubsetSize(KeySet(stream), KeySet(out));
    }
  }

  // ----- Streams in which every series is newest first

  /** Such a buffer, and the rest of the stream to come has nothing newer for any series. */
  predicate InTurn(buffer: seq<Row>, stream: seq<Row>, n: nat) {
    SeriesDescend(buffer) && forall j :: n <= j < |stream| ==> NotOlder(buffer, stream[j].key, stream[j].checkedAt)
  }

  lemma AppendInTurn(buffer: seq<Row>, stream: seq<Row>, n: nat)
    requires SeriesDescend(stream) && n < |stream| && InTurn(buffer, stream, n)
    ensures InTurn(buffer + [stream[n]], stream, n + 1)
  {
    assert NotOlder(buffer, stream[n].key, stream[n].checkedAt);
  }

  lemma PushInTurn(buffer: seq<Row>, stream: seq<Row>, since: int, n: nat)
    requires SeriesDescend(stream) && n < |stream| && InTurn(buffer, stream, n)
    ensures InTurn(Push(buffer, stream[n], since), stream, n + 1)
  {
    hide AggregateRows, NotOlder, SeriesDescend, Ordered;
    AppendInTurn(buffer, stream, n);
    var rows := buffer + [stream[n]];
    if |rows| >= MAX_CHART_POINTS * 2 {
      PassIsBounded(rows, since, MAX_CHART_POINTS);
      OrderedInSeries(AggregateRows(rows, since, MAX_CHART_POINTS));
      forall j | n + 1 <= j < |stream|
        ensures NotOlder(AggregateRows(rows, since, MAX_CHART_POINTS), stream[j].key, stream[j].checkedAt)
      {
        PassNotOlder(rows, since, MAX_CHART_POINTS, stream[j].key, stream[j].checkedAt);
      }
    }
  }

  lemma OrderedInSeries(rows: seq<Row>)
    requires Ordered(rows)
    ensures SeriesDescend(rows)
  {
    OrderedIsDescending(rows);
  }

  lemma {:induction false} BufferInTurn(stream: seq<Row>, since: int, n: nat)
    requires SeriesDescend(stream) && n <= |stream|
    ensures InTurn(Buffer(stream, since, n), stream, n)
  {
    hide Push, SeriesDescend;
    if n == 0 {
      NothingInTurn(stream);
    } else {
      BufferInTurn(stream, since, n - 1);
      PushInTurn(Buffer(stream, since, n - 1), stream, since, n - 1);
    }
  }

  lemma NothingInTurn(stream: seq<Row>)
    ensures InTurn([], stream, 0)
  {
  }

  lemma {:induction false} NeverLostIff(stream: seq<Row>, since: int, n: nat)
    requires SeriesDescend(stream) && n <= |stream|
    ensures NeverLost(stream, since, n) <==> NeverCut(stream, since, n)
  {
    hide Push, SeriesDescend, Fits, EachReached;
    if n > 0 {
      NeverLostIff(stream, since, n - 1);
      BufferInTurn(stream, since, n - 1);
      AppendInTurn(Buffer(stream, since, n - 1), stream, n - 1);
      InOrderIsReached(Buffer(stream, since, n - 1) + [stream[n - 1]], since, MAX_CHART_POINTS);
    }
  }

  /** Only the final cut can lose rows then: every walk reaches all rows of its series. */
  lemma NothingLostIff(stream: seq<Row>, since: int)
    requires SeriesDescend(stream)
    ensures NothingLost(stream, since) <==> NothingCut(stream, since)
  {
    hide SeriesDescend, Fits, EachReached, Buffer, NeverCut, NeverLost;
    NeverLostIff(stream, since, |stream|);
    BufferInTurn(stream, since, |stream|);
    InOrderIsReached(Buffer(stream, since, |stream|), since, MAX_CHART_POINTS);
  }

  /**
   * So if in a stream every series is newest first, all totals are kept with at most 3000 series and nothing cut, and
   * only then if the rows stand for probes.
   */
  lemma InTurnKeepsTotals(stream: seq<Row>, since: int)
    requires SeriesDescend(stream)
    ensures |Response(stream, since)| <= MAX_CHART_POINTS
    ensures |KeySet(stream)| <= MAX_CHART_POINTS && NothingCut(stream, since) ==>
      SameTotals(Response(stream, since), stream)
    ensures Counts(stream) && SameTotals(Response(stream, since), stream) ==>
      |KeySet(stream)| <= MAX_CHART_POINTS && NothingCut(stream, since)
  {
    hide Response, KeySet, Only, Sum, NothingCut, NothingLost, SeriesDescend, Counts;
    NothingLostIff(stream, since);
    ResponseBounded(stream, since);
    if Counts(stream) {
      ResponseKeepsAllTotalsIff(stream, since);
    }
    if |KeySet(stream)| <= MAX_CHART_POINTS && NothingCut(stream, since) {
      forall key ensures Sum(Only(Response(stream, since), key)) == Sum(Only(stream, key)) {
        ResponseKeepsTotals(stream, since, key);
      }
    }
  }

  lemma {:induction false} BufferNotOlder(stream: seq<Row>, since: int, n: nat, key: SeriesKey, oldest: int)
    requires NotOlder(stream, key, oldest) && n <= |stream|
    ensures NotOlder(Buffer(stream, since, n), key, oldest)
  {
    hide AggregateRows;
    if n > 0 {
      BufferNotOlder(stream, since, n - 1, key, oldest);
      var rows := Buffer(stream, since, n - 1) + [stream[n - 1]];
      PassNotOlder(rows, since, MAX_CHART_POINTS, key, oldest);
    }
  }

  predicate AllNewer(rows: seq<Row>, since: int) {
    forall i :: 0 <= i < |rows| ==> rows[i].checkedAt > since
  }

  lemma BufferNewer(stream: seq<Row>, since: int, n: nat)
    requires AllNewer(stream, since) && n <= |stream|
    ensures AllNewer(Buffer(stream, since, n), since)
  {
    hide Buffer;
    var buffer := Buffer(stream, since, n);
    forall i | 0 <= i < |buffer| ensures buffer[i].checkedAt > since {
      BufferNotOlder(stream, since, n, buffer[i].key, since + 1);
    }
  }

  lemma {:induction false} NewerNeverCut(stream: seq<Row>, since: int, n: nat)
    requires SeriesDescend(stream) && AllNewer(stream, since) && n <= |stream|
    ensures NeverCut(stream, since, n)
  {
    hide Push, SeriesDescend, Fits;
    if n > 0 {
      var rows := Buffer(stream, since, n - 1) + [stream[n - 1]];
      NewerNeverCut(stream, since, n - 1);
      BufferInTurn(stream, since, n - 1);
      AppendInTurn(Buffer(stream, since, n - 1), stream, n - 1);
      BufferNewer(stream, since, n - 1);
      if |rows| >= MAX_CHART_POINTS * 2 {
        NewerFits(rows, since, MAX_CHART_POINTS);
      }
    }
  }

  /** Nothing is lost of a stream of rows newer than since, however many series it has, if each is newest first. */
  lemma NewerNothingLost(stream: seq<Row>, since: int)
    requires SeriesDescend(stream) && AllNewer(stream, since)
    ensures NothingLost(stream, since)
  {
    hide Buffer, Fits, SeriesDescend, NeverCut, NothingLost;
    NewerNeverCut(stream, since, |stream|);
    BufferInTurn(stream, since, |stream|);
    BufferNewer(stream, since, |stream|);
    if |Buffer(stream, since, |stream|)| > MAX_CHART_POINTS {
      NewerFits(Buffer(stream, since, |stream|), since, MAX_CHART_POINTS);
    }
    NothingLostIff(stream, since);
  }

  // ----- The stream, as a loop

  datatype StreamResult = Rows(rows: seq<Row>) | StreamFailed

  /** Consumes the stream row by row; a failing stream yields no rows at all. */
  method DashboardResultsData(stream: seq<Row>, streamFails: bool, since: int) returns (response: StreamResult)
    ensures streamFails ==> response == StreamFailed
    ensures !streamFails ==> response == Rows(Response(stream, since))
  {
    hide Push, AggregateRows;
    var rows: seq<Row> := [];
    var n := 0;
    while n < |stream|
      invariant 0 <= n <= |stream|
      invariant rows == Buffer(stream, since, n)
    {
      rows := PushRow(rows, stream[n], since);
      n := n + 1;
    }
    if streamFails {
      return StreamFailed;
    }
    rows := AggregateRowsByTime(rows, since, MAX_CHART_POINTS);
    response := Rows(rows);
  }

  /** The callback: appends one row, and re-aggregates when the buffer is full. */
  method PushRow(buffer: seq<Row>, row: Row, since: int) returns (rows: seq<Row>)
    ensures rows == Push(buffer, row, since)
    ensures |buffer| < MAX_CHART_POINTS * 2 ==> |rows| < MAX_CHART_POINTS * 2
  {
    hide AggregateRows;
    rows := buffer + [row];
    if |rows| >= MAX_CHART_POINTS * 2 {
      PassIsBounded(rows, since, MAX_CHART_POINTS);
      rows := AggregateRowsByTime(rows, since, MAX_CHART_POINTS);
    }
  }
}
