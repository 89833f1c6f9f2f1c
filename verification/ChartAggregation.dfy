/** Aggregating the rows of many series to a bounded number of points. */
module ChartAggregation {
  import opened ChartRows
  import opened PointBudgets
  import opened SeriesBuckets

  // ----- Grouping by series

  /** The series in the order they are first seen. */
  function Keys(rows: seq<Row>): seq<SeriesKey> {
    if rows == [] then []
    else
      var front, key := rows[..|rows| - 1], rows[|rows| - 1].key;
      if key in KeySet(front) then Keys(front) else Keys(front) + [key]
  }

  /** Where a series stands in that order. */
  function IndexOf(rows: seq<Row>, key: SeriesKey): (i: nat)
    requires key in KeySet(rows)
    ensures i < |Keys(rows)| && Keys(rows)[i] == key
  {
    var front := rows[..|rows| - 1];
    if key in KeySet(front) then IndexOf(front, key) else |Keys(front)|
  }

  lemma {:induction false} KeysInSet(rows: seq<Row>, i: nat)
    requires i < |Keys(rows)|
    ensures Keys(rows)[i] in KeySet(rows) && IndexOf(rows, Keys(rows)[i]) == i
  {
    var front := rows[..|rows| - 1];
    if i < |Keys(front)| {
      KeysInSet(front, i);
    }
  }

  /** Each series is first seen before any row of those after it. */
  lemma {:induction false} KeysByAppearance(rows: seq<Row>, i: nat, j: nat) returns (p: nat)
    requires i < j < |Keys(rows)|
    ensures p < |rows| && rows[p].key == Keys(rows)[i]
    ensures forall q :: 0 <= q <= p ==> rows[q].key != Keys(rows)[j]
  {
    var front, key := rows[..|rows| - 1], rows[|rows| - 1].key;
    if j < |Keys(front)| {
      p := KeysByAppearance(front, i, j);
    } else {
      KeysInSet(front, i);
      p := SomePlace(front, Keys(front)[i]);
      assert forall q :: 0 <= q < |front| ==> front[q] == rows[q];
      forall q | 0 <= q < |front| ensures front[q].key != key {
        InKeySet(front, q);
      }
    }
  }

  lemma {:induction false} SomePlace(rows: seq<Row>, key: SeriesKey) returns (p: nat)
    requires key in KeySet(rows)
    ensures p < |rows| && rows[p].key == key
  {
    p := |rows| - 1;
    if rows[p].key != key {
      p := SomePlace(rows[..p], key);
    }
  }

  lemma {:induction false} InKeySet(rows: seq<Row>, i: nat)
    requires i < |rows|
    ensures rows[i].key in KeySet(rows)
  {
    if i < |rows| - 1 {
      InKeySet(rows[..|rows| - 1], i);
    }
  }

  lemma {:induction false} KeyCount(rows: seq<Row>)
    ensures |Keys(rows)| == |KeySet(rows)|
  {
    if rows != [] {
      var front, key := rows[..|rows| - 1], rows[|rows| - 1].key;
      KeyCount(front);
      assert key in KeySet(front) ==> KeySet(front) + {key} == KeySet(front);
    }
  }

  /** The rows of each series, in the order the series are first seen. */
  function Groups(rows: seq<Row>, keys: seq<SeriesKey>): (g: seq<seq<Row>>)
    ensures |g| == |keys|
    ensures forall i :: 0 <= i < |keys| ==> g[i] == Only(rows, keys[i])
  {
    seq(|keys|, i requires 0 <= i < |keys| => Only(rows, keys[i]))
  }

  function Lens(groups: seq<seq<Row>>): (lens: seq<nat>)
    ensures |lens| == |groups|
    ensures forall i :: 0 <= i < |groups| ==> lens[i] == |groups[i]|
  {
    seq(|groups|, i requires 0 <= i < |groups| => |groups[i]|)
  }

  // ----- Stable sort, newest first (the library's sort.SliceStable)

  /** Puts a row behind every row that is not older than it. */
  function Insert(sorted: seq<Row>, row: Row): seq<Row> {
    if sorted == [] || sorted[|sorted| - 1].checkedAt >= row.checkedAt then sorted + [row]
    else Insert(sorted[..|sorted| - 1], row) + [sorted[|sorted| - 1]]
  }

  function SortNewestFirst(rows: seq<Row>): seq<Row> {
    if rows == [] then [] else Insert(SortNewestFirst(rows[..|rows| - 1]), rows[|rows| - 1])
  }

  lemma {:induction false} InsertOrdered(sorted: seq<Row>, row: Row)
    requires Ordered(sorted)
    ensures Ordered(Insert(sorted, row)) && |Insert(sorted, row)| == |sorted| + 1
    ensures var last := Insert(sorted, row)[|sorted|];
      last == row || (sorted != [] && last == sorted[|sorted| - 1])
  {
    if sorted == [] || sorted[|sorted| - 1].checkedAt >= row.checkedAt {
      OrderedAppend(sorted, row);
    } else {
      InsertOrdered(sorted[..|sorted| - 1], row);
      OrderedAppend(Insert(sorted[..|sorted| - 1], row), sorted[|sorted| - 1]);
    }
  }

  lemma {:induction false} InsertWithin(sorted: seq<Row>, row: Row, key: SeriesKey, oldest: int, newest: int)
    requires SeriesWithin(sorted + [row], key, oldest, newest)
    ensures SeriesWithin(Insert(sorted, row), key, oldest, newest)
  {
    assert (sorted + [row])[|sorted|] == row && (sorted + [row])[..|sorted|] == sorted;
    WithinFront(sorted + [row], key, oldest, newest);
    if !(sorted == [] || sorted[|sorted| - 1].checkedAt >= row.checkedAt) {
      var front, last := sorted[..|sorted| - 1], sorted[|sorted| - 1];
      WithinFront(sorted, key, oldest, newest);
      WithinAppend(front, row, key, oldest, newest);
      InsertWithin(front, row, key, oldest, newest);
      WithinAppend(Insert(front, row), last, key, oldest, newest);
    }
  }

  lemma WithinFront(rows: seq<Row>, key: SeriesKey, oldest: int, newest: int)
    requires rows != [] && SeriesWithin(rows, key, oldest, newest)
    ensures SeriesWithin(rows[..|rows| - 1], key, oldest, newest)
    ensures rows[|rows| - 1].key == key ==> oldest <= rows[|rows| - 1].checkedAt <= newest
  {
  }

  lemma WithinAppend(front: seq<Row>, last: Row, key: SeriesKey, oldest: int, newest: int)
    requires SeriesWithin(front, key, oldest, newest) && (last.key == key ==> oldest <= last.checkedAt <= newest)
    ensures SeriesWithin(front + [last], key, oldest, newest)
  {
  }

  lemma {:induction false} SortIsOrdered(rows: seq<Row>)
    ensures Ordered(SortNewestFirst(rows)) && |SortNewestFirst(rows)| == |rows|
  {
    if rows != [] {
      SortIsOrdered(rows[..|rows| - 1]);
      InsertOrdered(SortNewestFirst(rows[..|rows| - 1]), rows[|rows| - 1]);
    }
  }

  lemma {:induction false} SortWithin(rows: seq<Row>, key: SeriesKey, oldest: int, newest: int)
    requires SeriesWithin(rows, key, oldest, newest)
    ensures SeriesWithin(SortNewestFirst(rows), key, oldest, newest)
  {
    hide SeriesWithin, Insert;
    if rows != [] {
      var front, last := rows[..|rows| - 1], rows[|rows| - 1];
      WithinFront(rows, key, oldest, newest);
      SortWithin(front, key, oldest, newest);
      WithinAppend(SortNewestFirst(front), last, key, oldest, newest);
      InsertWithin(SortNewestFirst(front), last, key, oldest, newest);
    }
  }

  /** Sorting moves rows about: whatever their order, every series keeps its number of rows and its totals. */
  lemma {:induction false} SortKeepsTotals(rows: seq<Row>, key: SeriesKey)
    ensures |Only(SortNewestFirst(rows), key)| == |Only(rows, key)|
    ensures Sum(Only(SortNewestFirst(rows), key)) == Sum(Only(rows, key))
  {
    hide Only, Sum, Insert;
    if rows != [] {
      var front, last := rows[..|rows| - 1], rows[|rows| - 1];
      SortKeepsTotals(front, key);
      InsertKeepsTotals(SortNewestFirst(front), last, key);
      OnlyAddsUp(front, last, key);
      assert rows == front + [last];
    }
  }

  lemma {:induction false} InsertKeepsTotals(sorted: seq<Row>, row: Row, key: SeriesKey)
    ensures |Only(Insert(sorted, row), key)| == |Only(sorted, key)| + if row.key == key then 1 else 0
    ensures Sum(Only(Insert(sorted, row), key))
         == if row.key == key then Add(Sum(Only(sorted, key)), Sum([row])) else Sum(Only(sorted, key))
  {
    hide Only, Sum;
    if sorted == [] || sorted[|sorted| - 1].checkedAt >= row.checkedAt {
      OnlyAddsUp(sorted, row, key);
    } else {
      var front, last := sorted[..|sorted| - 1], sorted[|sorted| - 1];
      InsertKeepsTotals(front, row, key);
      OnlyAddsUp(front, last, key);
      OnlyAddsUp(Insert(front, row), last, key);
      assert sorted == front + [last];
    }
  }

  lemma OnlyAddsUp(front: seq<Row>, last: Row, key: SeriesKey)
    ensures |Only(front + [last], key)| == |Only(front, key)| + if last.key == key then 1 else 0
    ensures Sum(Only(front + [last], key))
         == if last.key == key then Add(Sum(Only(front, key)), Sum([last])) else Sum(Only(front, key))
  {
    hide Sum, Only;
    OnlyAppend(front, last, key);
    SumConcat(Only(front, key), [last]);
  }

  /** Sorting is stable: the rows of each instant are the same, and in the same order. */
  lemma {:induction false} SortIsStable(rows: seq<Row>, time: int)
    ensures AtTime(SortNewestFirst(rows), time) == AtTime(rows, time)
  {
    hide AtTime, Insert;
    if rows == [] {
    } else {
      var front, last := rows[..|rows| - 1], rows[|rows| - 1];
      SortIsStable(front, time);
      InsertIsStable(SortNewestFirst(front), last, time);
      AtTimeAppend(front, last, time);
      assert rows == front + [last];
    }
  }

  lemma {:induction false} InsertIsStable(sorted: seq<Row>, row: Row, time: int)
    ensures AtTime(Insert(sorted, row), time)
         == if row.checkedAt == time then AtTime(sorted, time) + [row] else AtTime(sorted, time)
  {
    hide AtTime;
    if sorted == [] || sorted[|sorted| - 1].checkedAt >= row.checkedAt {
      AtTimeAppend(sorted, row, time);
    } else {
      var front, last := sorted[..|sorted| - 1], sorted[|sorted| - 1];
      InsertIsStable(front, row, time);
      AtTimeAppend(front, last, time);
      AtTimeAppend(Insert(front, row), last, time);
      assert sorted == front + [last];
    }
  }

  /** Stability: a series that is already newest first keeps its rows and their order. */
  lemma {:induction false} SortKeepsSeries(rows: seq<Row>, key: SeriesKey)
    requires Ordered(Only(rows, key))
    ensures Only(SortNewestFirst(rows), key) == Only(rows, key)
  {
    if rows != [] {
      var front, last := rows[..|rows| - 1], rows[|rows| - 1];
      if last.key == key {
        OrderedFront(Only(front, key), last);
      }
      SortKeepsSeries(front, key);
      InsertKeepsSeries(SortNewestFirst(front), last, key);
    }
  }

  lemma OrderedFront(front: seq<Row>, last: Row)
    requires Ordered(front + [last])
    ensures Ordered(front)
    ensures NoneOlder(front, last)
  {
    var all := front + [last];
    assert all[..|front|] == front;
    OrderedIsDescending(all);
    forall i | 0 <= i < |front| ensures front[i].checkedAt >= last.checkedAt {
      assert all[i].checkedAt >= all[|front|].checkedAt;
    }
  }

  predicate NoneOlder(rows: seq<Row>, row: Row) {
    forall i :: 0 <= i < |rows| ==> rows[i].checkedAt >= row.checkedAt
  }

  lemma {:induction false} InsertKeepsSeries(sorted: seq<Row>, row: Row, key: SeriesKey)
    requires row.key == key ==> NoneOlder(Only(sorted, key), row)
    ensures Only(Insert(sorted, row), key) == if row.key == key then Only(sorted, key) + [row] else Only(sorted, key)
  {
    if sorted == [] || sorted[|sorted| - 1].checkedAt >= row.checkedAt {
      OnlyAppend(sorted, row, key);
    } else {
      var front, last := sorted[..|sorted| - 1], sorted[|sorted| - 1];
      if row.key == key {
        LastOfSeries(sorted, row, key);
      }
      InsertKeepsSeries(front, row, key);
      OnlyAppend(Insert(front, row), last, key);
    }
  }

  lemma LastOfSeries(sorted: seq<Row>, row: Row, key: SeriesKey)
    requires sorted != [] && sorted[|sorted| - 1].checkedAt < row.checkedAt
    requires NoneOlder(Only(sorted, key), row)
    ensures sorted[|sorted| - 1].key != key
  {
    if sorted[|sorted| - 1].key == key {
      OnlyEndsWith(sorted, key);
    }
  }

  lemma OnlyEndsWith(rows: seq<Row>, key: SeriesKey)
    requires rows != [] && rows[|rows| - 1].key == key
    ensures var own := Only(rows, key); own != [] && own[|own| - 1] == rows[|rows| - 1]
  {
  }

  lemma OnlyAppend(front: seq<Row>, last: Row, key: SeriesKey)
    ensures Only(front + [last], key) == if last.key == key then Only(front, key) + [last] else Only(front, key)
  {
    assert (front + [last])[..|front|] == front;
  }

  // ----- One pass

  function Piece(group: seq<Row>, since: int, budget: nat): seq<Row> {
    if budget == 0 then [] else SingleSeries(group, since, budget)
  }

  /** The points of each series. */
  function Pieces(groups: seq<seq<Row>>, since: int, budgets: seq<nat>): (r: seq<seq<Row>>)
    requires |groups| == |budgets|
    ensures |r| == |groups|
    ensures forall i :: 0 <= i < |r| ==> r[i] == Piece(groups[i], since, budgets[i])
  {
    seq(|groups|, i requires 0 <= i < |groups| => Piece(groups[i], since, budgets[i]))
  }

  /** The first n pieces, one after the other. */
  function Joined(pieces: seq<seq<Row>>, n: nat): seq<Row>
    requires n <= |pieces|
  {
    if n == 0 then [] else Joined(pieces, n - 1) + pieces[n - 1]
  }

  function Cut(rows: seq<Row>, target: nat): seq<Row> {
    if |rows| > target then rows[..target] else rows
  }

  function BudgetsFor(rows: seq<Row>, target: nat): (r: seq<nat>)
    ensures |r| == |Keys(rows)|
  {
    Budgets(Lens(Groups(rows, Keys(rows))), target)
  }

  function PiecesFor(rows: seq<Row>, since: int, target: nat): (r: seq<seq<Row>>)
    ensures |r| == |Keys(rows)|
  {
    Pieces(Groups(rows, Keys(rows)), since, BudgetsFor(rows, target))
  }

  function AllPieces(rows: seq<Row>, since: int, target: nat): seq<Row> {
    Joined(PiecesFor(rows, since, target), |Keys(rows)|)
  }

  /** What the rows of many series become when they may use target points in all. */
  function AggregateRows(rows: seq<Row>, since: int, target: nat): seq<Row> {
    if |rows| <= target || target < 1 then rows
    else Cut(SortNewestFirst(AllPieces(rows, since, target)), target)
  }

  // ----- Every row is in exactly one group

  function CountIn(rows: seq<Row>, keys: seq<SeriesKey>, n: nat): nat
    requires n <= |keys|
  {
    if n == 0 then 0 else CountIn(rows, keys, n - 1) + |Only(rows, keys[n - 1])|
  }

  lemma {:induction false} LensAreCounts(rows: seq<Row>, keys: seq<SeriesKey>, n: nat)
    requires n <= |keys|
    ensures SumTo(Lens(Groups(rows, keys)), n) == CountIn(rows, keys, n)
  {
    if n > 0 {
      LensAreCounts(rows, keys, n - 1);
    }
  }

  lemma {:induction false} CountOneMore(rows: seq<Row>, keys: seq<SeriesKey>, p: nat, n: nat)
    requires rows != [] && n <= |keys| && p <= |keys|
    requires forall i :: 0 <= i < |keys| ==> (keys[i] == rows[|rows| - 1].key <==> i == p)
    ensures CountIn(rows, keys, n) == CountIn(rows[..|rows| - 1], keys, n) + if p < n then 1 else 0
  {
    if n > 0 {
      CountOneMore(rows, keys, p, n - 1);
    }
  }

  lemma {:induction false} CountSameKeys(rows: seq<Row>, keys: seq<SeriesKey>, more: SeriesKey, n: nat)
    requires n <= |keys|
    ensures CountIn(rows, keys + [more], n) == CountIn(rows, keys, n)
  {
    if n > 0 {
      CountSameKeys(rows, keys, more, n - 1);
    }
  }

  lemma {:induction false} GroupsHoldAllRows(rows: seq<Row>)
    ensures CountIn(rows, Keys(rows), |Keys(rows)|) == |rows|
  {
    if rows != [] {
      var front, key := rows[..|rows| - 1], rows[|rows| - 1].key;
      var keys := Keys(front);
      GroupsHoldAllRows(front);
      KeysMatchOnce(front, key);
      if key in KeySet(front) {
        CountOneMore(rows, keys, IndexOf(front, key), |keys|);
      } else {
        CountOneMore(rows, keys, |keys|, |keys|);
        CountSameKeys(rows, keys, key, |keys|);
        KeySetIff(front, key);
        assert (keys + [key])[|keys|] == key;
      }
    }
  }

  lemma KeysMatchOnce(rows: seq<Row>, key: SeriesKey)
    ensures var p := if key in KeySet(rows) then IndexOf(rows, key) else |Keys(rows)|;
      forall i :: 0 <= i < |Keys(rows)| ==> (Keys(rows)[i] == key <==> i == p)
  {
    forall i | 0 <= i < |Keys(rows)|
      ensures Keys(rows)[i] == key ==> key in KeySet(rows) && i == IndexOf(rows, key)
    {
      KeysInSet(rows, i);
    }
  }

  lemma GroupTotal(rows: seq<Row>)
    ensures Total(Lens(Groups(rows, Keys(rows)))) == |rows|
  {
    LensAreCounts(rows, Keys(rows), |Keys(rows)|);
    GroupsHoldAllRows(rows);
  }

  // ----- What one series becomes

  /** A series' piece: of that series, and not empty if the series has rows and points. */
  lemma PieceOfSeries(rows: seq<Row>, key: SeriesKey, since: int, budget: nat)
    ensures OneSeries(Piece(Only(rows, key), since, budget), key)
    ensures budget > 0 ==> (Piece(Only(rows, key), since, budget) == [] <==> Only(rows, key) == [])
  {
    hide SingleSeries;
    OnlyIsOneSeries(rows, key);
    if budget > 0 {
      SingleSeriesOf(Only(rows, key), since, budget, key);
    }
  }

  lemma PieceWithin(rows: seq<Row>, key: SeriesKey, since: int, budget: nat, oldest: int, newest: int)
    requires SeriesWithin(rows, key, oldest, newest)
    ensures Within(Piece(Only(rows, key), since, budget), oldest, newest)
  {
    OnlyWithin(rows, key, oldest, newest);
    if budget > 0 {
      SingleSeriesWithin(Only(rows, key), since, budget, oldest, newest);
    }
  }

  lemma PieceOrdered(rows: seq<Row>, key: SeriesKey, since: int, budget: nat)
    requires Descending(Only(rows, key))
    ensures Ordered(Piece(Only(rows, key), since, budget))
  {
    hide SingleSeries;
    if budget > 0 {
      OnlyIsOneSeries(rows, key);
      SingleSeriesKeepsTotals(Only(rows, key), since, budget, key);
      DescendingIsOrdered(SingleSeries(Only(rows, key), since, budget));
    }
  }

  /** Where the key stands in the order of series, or past the end. */
  function Place(rows: seq<Row>, key: SeriesKey): nat {
    if key in KeySet(rows) then IndexOf(rows, key) else |Keys(rows)|
  }

  lemma {:induction false} JoinedOfSeries(
    pieces: seq<seq<Row>>, keys: seq<SeriesKey>, key: SeriesKey, place: nat, n: nat)
    requires n <= |pieces| == |keys|
    requires forall i :: 0 <= i < |keys| ==> OneSeries(pieces[i], keys[i]) && (keys[i] == key <==> i == place)
    ensures Only(Joined(pieces, n), key) == if place < n then pieces[place] else []
  {
    hide OneSeries, Only;
    if n == 0 {
      NothingOf(key);
    } else {
      JoinedOfSeries(pieces, keys, key, place, n - 1);
      AppendPiece(Joined(pieces, n - 1), pieces[n - 1], keys[n - 1], key);
    }
  }

  lemma NothingOf(key: SeriesKey)
    ensures Only([], key) == []
  {
  }

  lemma AppendPiece(front: seq<Row>, piece: seq<Row>, own: SeriesKey, key: SeriesKey)
    requires OneSeries(piece, own)
    ensures own != key ==> Only(front + piece, key) == Only(front, key)
    ensures own == key && Only(front, key) == [] ==> Only(front + piece, key) == piece
  {
    OnlyConcat(front, piece, key);
    OnlyOfOneSeries(piece, own, key);
  }

  lemma {:induction false} JoinedFits(pieces: seq<seq<Row>>, budgets: seq<nat>, n: nat)
    requires n <= |pieces| == |budgets|
    requires forall i :: 0 <= i < n ==> |pieces[i]| <= budgets[i]
    ensures |Joined(pieces, n)| <= SumTo(budgets, n)
  {
    if n > 0 {
      JoinedFits(pieces, budgets, n - 1);
    }
  }

  lemma {:induction false} JoinedWithin(pieces: seq<seq<Row>>, n: nat, key: SeriesKey, oldest: int, newest: int)
    requires n <= |pieces|
    requires forall i :: 0 <= i < n ==> SeriesWithin(pieces[i], key, oldest, newest)
    ensures SeriesWithin(Joined(pieces, n), key, oldest, newest)
  {
    if n > 0 {
      JoinedWithin(pieces, n - 1, key, oldest, newest);
    }
  }

  /** In the joined pieces each series has exactly its own piece. */
  lemma AllPiecesOfSeries(rows: seq<Row>, since: int, target: nat, key: SeriesKey)
    ensures Only(AllPieces(rows, since, target), key)
         == if key in KeySet(rows) then PiecesFor(rows, since, target)[IndexOf(rows, key)] else []
  {
    hide Only, Keys, KeySet, IndexOf, BudgetsFor, Piece;
    var keys, pieces := Keys(rows), PiecesFor(rows, since, target);
    KeysMatchOnce(rows, key);
    forall i | 0 <= i < |keys| ensures OneSeries(pieces[i], keys[i]) {
      PieceOfSeries(rows, keys[i], since, BudgetsFor(rows, target)[i]);
    }
    JoinedOfSeries(pieces, keys, key, Place(rows, key), |keys|);
  }

  /** The pieces do not have to be cut: the guard on the final cut does not fire. */
  predicate Fits(rows: seq<Row>, since: int, target: nat) {
    |AllPieces(rows, since, target)| <= target
  }

  /** Each series fits its budget, or its first row is newer than since and not older than its last. */
  predicate EachFits(rows: seq<Row>, since: int, target: nat) {
    forall i :: 0 <= i < |Keys(rows)| ==> FitsBudget(Only(rows, Keys(rows)[i]), since, BudgetsFor(rows, target)[i])
  }

  predicate FitsBudget(own: seq<Row>, since: int, budget: nat) {
    |own| <= budget || (own[0].checkedAt > since && own[0].checkedAt >= own[|own| - 1].checkedAt)
  }

  /** Then the pieces fit together. */
  lemma EachFitsIsEnough(rows: seq<Row>, since: int, target: nat)
    requires target < |rows| && EachFits(rows, since, target)
    ensures Fits(rows, since, target)
  {
    hide FitsBudget, Piece, BudgetsFor, Keys, Only;
    var keys, budgets, pieces := Keys(rows), BudgetsFor(rows, target), PiecesFor(rows, since, target);
    forall i | 0 <= i < |keys| ensures |pieces[i]| <= budgets[i] {
      PieceFits(Only(rows, keys[i]), since, budgets[i]);
    }
    JoinedFits(pieces, budgets, |keys|);
    GroupTotal(rows);
    BudgetsTotal(rows, target);
  }

  lemma BudgetsTotal(rows: seq<Row>, target: nat)
    requires target < |rows|
    ensures SumTo(BudgetsFor(rows, target), |Keys(rows)|) == target
  {
    GroupTotal(rows);
    BudgetsAreFair(Lens(Groups(rows, Keys(rows))), target);
  }

  lemma PieceFits(own: seq<Row>, since: int, budget: nat)
    requires FitsBudget(own, since, budget)
    ensures |Piece(own, since, budget)| <= budget
  {
    if budget > 0 {
      SingleSeriesFitsBudgetIff(own, since, budget);
    }
  }

  /** So they do when every series is newest first, and every row newer than since. */
  lemma NewerFits(rows: seq<Row>, since: int, target: nat)
    requires SeriesDescend(rows) && target < |rows|
    requires forall i :: 0 <= i < |rows| ==> rows[i].checkedAt > since
    ensures Fits(rows, since, target)
  {
    hide SeriesDescend;
    forall i | 0 <= i < |Keys(rows)|
      ensures FitsBudget(Only(rows, Keys(rows)[i]), since, BudgetsFor(rows, target)[i])
    {
      var key := Keys(rows)[i];
      KeysInSet(rows, i);
      KeySetIff(rows, key);
      OnlyDescending(rows, key);
      var newest := SomeNewest(rows, key, since + 1);
      OnlyWithin(rows, key, since + 1, newest);
    }
    hide Keys, BudgetsFor, Only, FitsBudget;
    EachFitsIsEnough(rows, since, target);
  }

  /** No row of a series is too old for the last of its buckets. */
  predicate EachReached(rows: seq<Row>, since: int, target: nat) {
    forall i :: 0 <= i < |Keys(rows)| ==> PieceReached(Only(rows, Keys(rows)[i]), since, BudgetsFor(rows, target)[i])
  }

  predicate PieceReached(own: seq<Row>, since: int, budget: nat) {
    budget > 0 ==> IsReached(own, since, budget)
  }

  /** No row is left out by a walk over its series or by the final cut. */
  predicate Lossless(rows: seq<Row>, since: int, target: nat) {
    EachReached(rows, since, target) && Fits(rows, since, target)
  }

  /** Every row is reached when every series is newest first. */
  lemma InOrderIsReached(rows: seq<Row>, since: int, target: nat)
    requires SeriesDescend(rows)
    ensures EachReached(rows, since, target)
  {
    hide IsReached, SeriesDescend, Keys, BudgetsFor;
    forall i | 0 <= i < |Keys(rows)|
      ensures PieceReached(Only(rows, Keys(rows)[i]), since, BudgetsFor(rows, target)[i])
    {
      OnlyDescending(rows, Keys(rows)[i]);
      if BudgetsFor(rows, target)[i] > 0 {
        OldestLastIsReached(Only(rows, Keys(rows)[i]), since, BudgetsFor(rows, target)[i]);
      }
    }
  }

  lemma AllPiecesWithin(rows: seq<Row>, since: int, target: nat, key: SeriesKey, oldest: int, newest: int)
    requires SeriesWithin(rows, key, oldest, newest)
    ensures SeriesWithin(AllPieces(rows, since, target), key, oldest, newest)
  {
    hide Keys, BudgetsFor, Only, Piece;
    var keys, pieces := Keys(rows), PiecesFor(rows, since, target);
    forall i | 0 <= i < |keys| ensures SeriesWithin(pieces[i], key, oldest, newest) {
      PieceOfSeries(rows, keys[i], since, BudgetsFor(rows, target)[i]);
      if keys[i] == key {
        PieceWithin(rows, key, since, BudgetsFor(rows, target)[i], oldest, newest);
      }
    }
    JoinedWithin(pieces, |keys|, key, oldest, newest);
  }

  // ----- Main results about one pass

  /** Whatever the rows and their order: as they are if they fit, else at most target points, newest first. */
  lemma PassIsBounded(rows: seq<Row>, since: int, target: nat)
    requires 1 <= target
    ensures |rows| <= target ==> AggregateRows(rows, since, target) == rows
    ensures |rows| > target ==>
      |AggregateRows(rows, since, target)| <= target && Ordered(AggregateRows(rows, since, target))
  {
    hide AllPieces;
    SortIsOrdered(AllPieces(rows, since, target));
    CutOrdered(SortNewestFirst(AllPieces(rows, since, target)), target);
  }

  /** And each series within the time span of its rows. */
  lemma PassWithin(rows: seq<Row>, since: int, target: nat, key: SeriesKey, oldest: int, newest: int)
    requires SeriesWithin(rows, key, oldest, newest)
    ensures SeriesWithin(AggregateRows(rows, since, target), key, oldest, newest)
  {
    hide AllPieces;
    AllPiecesWithin(rows, since, target, key, oldest, newest);
    SortWithin(AllPieces(rows, since, target), key, oldest, newest);
  }

  lemma PassNotOlder(rows: seq<Row>, since: int, target: nat, key: SeriesKey, oldest: int)
    requires NotOlder(rows, key, oldest)
    ensures NotOlder(AggregateRows(rows, since, target), key, oldest)
  {
    hide AggregateRows;
    var newest := SomeNewest(rows, key, oldest);
    PassWithin(rows, since, target, key, oldest, newest);
  }

  lemma CutOrdered(rows: seq<Row>, target: nat)
    requires Ordered(rows)
    ensures Ordered(Cut(rows, target))
  {
    OrderedIsDescending(rows);
    DescendingIsOrdered(Cut(rows, target));
  }

  /** When nothing is cut, a series that is newest first is replaced by its own aggregation with its fair budget. */
  lemma PassBySeries(rows: seq<Row>, since: int, target: nat, key: SeriesKey)
    requires 1 <= target < |rows| && Fits(rows, since, target)
    requires key in KeySet(rows) && Descending(Only(rows, key))
    ensures Only(AggregateRows(rows, since, target), key)
         == Piece(Only(rows, key), since, BudgetsFor(rows, target)[IndexOf(rows, key)])
  {
    hide Only, Keys, KeySet, IndexOf, BudgetsFor, Piece, AllPieces;
    AllPiecesOfSeries(rows, since, target, key);
    PieceOrdered(rows, key, since, BudgetsFor(rows, target)[IndexOf(rows, key)]);
    SortIsOrdered(AllPieces(rows, since, target));
    SortKeepsSeries(AllPieces(rows, since, target), key);
  }

  /** When nothing is cut, each series has the number and the totals of its piece. */
  lemma PassByTotals(rows: seq<Row>, since: int, target: nat, key: SeriesKey)
    requires 1 <= target < |rows| && Fits(rows, since, target)
    ensures var piece := if key in KeySet(rows) then PiecesFor(rows, since, target)[IndexOf(rows, key)] else [];
      var own := Only(AggregateRows(rows, since, target), key); |own| == |piece| && Sum(own) == Sum(piece)
  {
    hide Only, Keys, KeySet, IndexOf, PiecesFor, AllPieces, Sum;
    AllPiecesOfSeries(rows, since, target, key);
    SortIsOrdered(AllPieces(rows, since, target));
    SortKeepsTotals(AllPieces(rows, since, target), key);
  }

  /** Rows in any order: with no more series than points and nothing cut, a pass has the series it was given. */
  lemma PassKeepsSeries(rows: seq<Row>, since: int, target: nat, key: SeriesKey)
    requires 1 <= target < |rows| && Fits(rows, since, target)
    requires |KeySet(rows)| <= target
    ensures key in KeySet(AggregateRows(rows, since, target)) <==> key in KeySet(rows)
  {
    hide Only, Keys, KeySet, IndexOf, BudgetsFor, Fits, AggregateRows, Piece;
    KeySetIff(AggregateRows(rows, since, target), key);
    KeySetIff(rows, key);
    PassByTotals(rows, since, target, key);
    if key in KeySet(rows) {
      PointForEverySeries(rows, target, key);
      PieceOfSeries(rows, key, since, BudgetsFor(rows, target)[IndexOf(rows, key)]);
    }
  }

  /** Rows in any order: with no more series than points and no row left out, a pass keeps every series' totals. */
  lemma PassKeepsTotals(rows: seq<Row>, since: int, target: nat, key: SeriesKey)
    requires 1 <= target < |rows| && Lossless(rows, since, target)
    requires |KeySet(rows)| <= target
    ensures Sum(Only(AggregateRows(rows, since, target), key)) == Sum(Only(rows, key))
    ensures key in KeySet(AggregateRows(rows, since, target)) <==> key in KeySet(rows)
  {
    hide Only, Keys, KeySet, IndexOf, BudgetsFor, Fits, AggregateRows, IsReached, Sum;
    PassKeepsSeries(rows, since, target, key);
    KeySetIff(rows, key);
    PassByTotals(rows, since, target, key);
    if key in KeySet(rows) {
      PointForEverySeries(rows, target, key);
      SingleSeriesTotals(Only(rows, key), since, BudgetsFor(rows, target)[IndexOf(rows, key)]);
    }
  }

  /** With room for two points each, every series of two or more instants is still drawn with two at least. */
  lemma PassDrawsTwo(rows: seq<Row>, since: int, target: nat, key: SeriesKey)
    requires 1 <= target < |rows| && Fits(rows, since, target) && 2 * |KeySet(rows)| <= target
    requires var own := Only(rows, key);
      own != [] && Descending(own) && own[0].checkedAt > own[|own| - 1].checkedAt
    ensures |Only(AggregateRows(rows, since, target), key)| >= 2
  {
    hide Only, Keys, KeySet, IndexOf, BudgetsFor, Fits, AggregateRows, SingleSeries;
    KeySetIff(rows, key);
    PassByTotals(rows, since, target, key);
    TwoForEverySeries(rows, target, key);
    assert |Only(rows, key)| >= 2;
    AtLeastTwoPoints(Only(rows, key), since, BudgetsFor(rows, target)[IndexOf(rows, key)]);
  }

  lemma TwoForEverySeries(rows: seq<Row>, target: nat, key: SeriesKey)
    requires target < |rows| && 2 * |KeySet(rows)| <= target && key in KeySet(rows)
    ensures var budget := BudgetsFor(rows, target)[IndexOf(rows, key)]; budget >= 2 || budget == |Only(rows, key)|
  {
    KeyCount(rows);
    GroupTotal(rows);
    TwoPointsForEveryone(Lens(Groups(rows, Keys(rows))), target);
  }

  lemma PointForEverySeries(rows: seq<Row>, target: nat, key: SeriesKey)
    requires target < |rows| && |KeySet(rows)| <= target
    requires key in KeySet(rows)
    ensures BudgetsFor(rows, target)[IndexOf(rows, key)] >= 1
  {
    var keys := Keys(rows);
    var lens := Lens(Groups(rows, keys));
    forall i | 0 <= i < |keys| ensures lens[i] >= 1 {
      KeysInSet(rows, i);
      KeySetIff(rows, keys[i]);
    }
    KeyCount(rows);
    GroupTotal(rows);
    EveryoneGetsAPointIff(lens, target);
  }

  /** When nothing is cut, every series survives a pass exactly when there are no more series than points. */
  lemma PassKeepsEverySeriesIff(rows: seq<Row>, since: int, target: nat)
    requires 1 <= target < |rows| && Fits(rows, since, target)
    ensures KeySet(rows) <= KeySet(AggregateRows(rows, since, target)) <==> |KeySet(rows)| <= target
  {
    hide KeySet, Fits, AggregateRows;
    var out := AggregateRows(rows, since, target);
    if |KeySet(rows)| <= target {
      forall key | key in KeySet(rows) ensures key in KeySet(out) {
        PassKeepsSeries(rows, since, target, key);
      }
    } else if KeySet(rows) <= KeySet(out) {
      PassIsBounded(rows, since, target);
      KeySetSize(out);
      SubsetSize(KeySet(rows), KeySet(out));
    }
  }

  lemma {:induction false} SubsetSize(a: set<SeriesKey>, b: set<SeriesKey>)
    requires a <= b
    ensures |a| <= |b|
  {
    if a != {} {
      var x :| x in a;
      SubsetSize(a - {x}, b - {x});
    }
  }

  // ----- Exactly when a pass keeps all totals

  lemma {:induction false} InsertProbes(sorted: seq<Row>, row: Row)
    ensures Probes(Insert(sorted, row)) == Probes(sorted) + row.successes + row.failures
    ensures Counts(sorted) && row.successes + row.failures > 0 ==> Counts(Insert(sorted, row))
  {
    hide Probes;
    if sorted == [] || sorted[|sorted| - 1].checkedAt >= row.checkedAt {
      ProbesAppend(sorted, row);
    } else {
      var front, last := sorted[..|sorted| - 1], sorted[|sorted| - 1];
      InsertProbes(front, row);
      assert sorted == front + [last];
      ProbesAppend(front, last);
      ProbesAppend(Insert(front, row), last);
    }
  }

  lemma {:induction false} SortProbes(rows: seq<Row>)
    requires Counts(rows)
    ensures Probes(SortNewestFirst(rows)) == Probes(rows) && Counts(SortNewestFirst(rows))
  {
    hide Probes, Insert;
    if rows == [] {
    } else {
      var front, last := rows[..|rows| - 1], rows[|rows| - 1];
      SortProbes(front);
      assert rows == front + [last];
      ProbesAppend(front, last);
      InsertProbes(SortNewestFirst(front), last);
    }
  }

  /** Cutting what does not fit loses probes. */
  lemma CutProbes(rows: seq<Row>, target: nat)
    requires Counts(rows)
    ensures Counts(Cut(rows, target)) && Probes(Cut(rows, target)) <= Probes(rows)
    ensures |rows| > target ==> Probes(Cut(rows, target)) < Probes(rows)
  {
    if |rows| > target {
      var kept, dropped := rows[..target], rows[target..];
      assert rows == kept + dropped;
      assert Counts(dropped);
      CountsConcat(kept, dropped);
      SomeProbes(dropped);
    }
  }

  lemma {:induction false} JoinedCounts(pieces: seq<seq<Row>>, n: nat)
    requires n <= |pieces|
    requires forall i :: 0 <= i < n ==> Counts(pieces[i])
    ensures Counts(Joined(pieces, n))
  {
    if n > 0 {
      JoinedCounts(pieces, n - 1);
    }
  }

  lemma {:induction false} OnlyCounts(rows: seq<Row>, key: SeriesKey)
    requires Counts(rows)
    ensures Counts(Only(rows, key))
  {
    if rows != [] {
      OnlyCounts(rows[..|rows| - 1], key);
    }
  }

  lemma AllPiecesCount(rows: seq<Row>, since: int, target: nat)
    requires Counts(rows)
    ensures Counts(AllPieces(rows, since, target))
  {
    hide Counts;
    var keys, pieces := Keys(rows), PiecesFor(rows, since, target);
    forall i | 0 <= i < |keys| ensures Counts(pieces[i]) {
      OnlyCounts(rows, keys[i]);
      PieceCounts(Only(rows, keys[i]), since, BudgetsFor(rows, target)[i]);
    }
    JoinedCounts(pieces, |keys|);
  }

  lemma PieceCounts(group: seq<Row>, since: int, budget: nat)
    requires Counts(group)
    ensures Counts(Piece(group, since, budget))
  {
    if budget > 0 {
      SingleSeriesCounts(group, since, budget);
    }
  }

  /** The pieces stand for no more probes than the rows, and for fewer when some row is not reached. */
  lemma AllPiecesProbes(rows: seq<Row>, since: int, target: nat)
    ensures Probes(AllPieces(rows, since, target)) <= Probes(rows)
    ensures Counts(rows) && !EachReached(rows, since, target) ==> Probes(AllPieces(rows, since, target)) < Probes(rows)
  {
    hide *;
    forall key ensures Probes(Only(AllPieces(rows, since, target), key)) <= Probes(Only(rows, key)) {
      SeriesProbes(rows, since, target, key);
    }
    ProbesByKey(AllPieces(rows, since, target), rows);
    if Counts(rows) && !EachReached(rows, since, target) {
      var key := NotReached(rows, since, target);
      ProbesByKeyLess(AllPieces(rows, since, target), rows, key);
    }
  }

  lemma SeriesProbes(rows: seq<Row>, since: int, target: nat, key: SeriesKey)
    ensures Probes(Only(AllPieces(rows, since, target), key)) <= Probes(Only(rows, key))
  {
    hide Only, Keys, KeySet, IndexOf, BudgetsFor, AllPieces, Probes, Piece;
    AllPiecesOfSeries(rows, since, target, key);
    if key in KeySet(rows) {
      PieceProbes(Only(rows, key), since, BudgetsFor(rows, target)[IndexOf(rows, key)]);
    } else {
      NoProbes();
    }
  }

  lemma PieceProbes(own: seq<Row>, since: int, budget: nat)
    ensures Probes(Piece(own, since, budget)) <= Probes(own)
    ensures Counts(own) && !PieceReached(own, since, budget) ==> Probes(Piece(own, since, budget)) < Probes(own)
  {
    hide Probes, IsReached;
    NoProbes();
    if budget > 0 {
      SingleSeriesProbes(own, since, budget);
    }
  }

  /** A series with a row that is not reached stands for fewer probes afterwards. */
  lemma NotReached(rows: seq<Row>, since: int, target: nat) returns (key: SeriesKey)
    requires Counts(rows) && !EachReached(rows, since, target)
    ensures Probes(Only(AllPieces(rows, since, target), key)) < Probes(Only(rows, key))
  {
    hide Only, Keys, KeySet, IndexOf, BudgetsFor, AllPieces, Probes, Piece, PieceReached, Counts;
    var i: nat :| i < |Keys(rows)| && !PieceReached(Only(rows, Keys(rows)[i]), since, BudgetsFor(rows, target)[i]);
    key := Keys(rows)[i];
    KeysInSet(rows, i);
    AllPiecesOfSeries(rows, since, target, key);
    OnlyCounts(rows, key);
    PieceProbes(Only(rows, key), since, BudgetsFor(rows, target)[i]);
  }

  /** A pass never adds probes, and loses some if it leaves out any row. */
  lemma PassProbes(rows: seq<Row>, since: int, target: nat)
    requires 1 <= target < |rows| && Counts(rows)
    ensures var out := AggregateRows(rows, since, target);
      && Counts(out) && Probes(out) <= Probes(rows)
      && (!Lossless(rows, since, target) ==> Probes(out) < Probes(rows))
  {
    hide Counts, Probes, AllPieces, SortNewestFirst, Cut, EachReached;
    var pieces := AllPieces(rows, since, target);
    AllPiecesCount(rows, since, target);
    AllPiecesProbes(rows, since, target);
    SortProbes(pieces);
    SortIsOrdered(pieces);
    CutProbes(SortNewestFirst(pieces), target);
  }

  /** The same totals in every series. */
  ghost predicate SameTotals(a: seq<Row>, b: seq<Row>) {
    forall key :: Sum(Only(a, key)) == Sum(Only(b, key))
  }

  lemma SameTotalsSameProbes(a: seq<Row>, b: seq<Row>)
    requires SameTotals(a, b)
    ensures Probes(a) == Probes(b)
  {
    hide Only;
    forall key ensures Probes(Only(a, key)) == Probes(Only(b, key)) {
      assert Sum(Only(a, key)) == Sum(Only(b, key));
    }
    ProbesByKey(a, b);
    ProbesByKey(b, a);
  }

  /** With the same totals no series is missing. */
  lemma SameTotalsSameSeries(out: seq<Row>, rows: seq<Row>)
    requires SameTotals(out, rows) && Counts(rows)
    ensures KeySet(rows) <= KeySet(out)
  {
    forall key | key in KeySet(rows) ensures key in KeySet(out) {
      KeySetIff(rows, key);
      KeySetIff(out, key);
      OnlyCounts(rows, key);
      SomeProbes(Only(rows, key));
      assert Sum(Only(out, key)) == Sum(Only(rows, key));
      NoProbes();
    }
  }

  /**
   * A pass over rows in any order that stand for probes keeps the totals of every series exactly when there are no more
   * series than points, no row is too old for the last bucket of its series, and the pieces do not have to be cut.
   */
  lemma PassKeepsAllTotalsIff(rows: seq<Row>, since: int, target: nat)
    requires 1 <= target < |rows| && Counts(rows)
    ensures SameTotals(AggregateRows(rows, since, target), rows)
       <==> |KeySet(rows)| <= target && Lossless(rows, since, target)
  {
    hide AggregateRows, Lossless, KeySet, Counts, Sum, Only, Probes;
    var out := AggregateRows(rows, since, target);
    PassProbes(rows, since, target);
    if |KeySet(rows)| <= target && Lossless(rows, since, target) {
      forall key ensures Sum(Only(out, key)) == Sum(Only(rows, key)) {
        PassKeepsTotals(rows, since, target, key);
      }
    } else if SameTotals(out, rows) {
      SameTotalsSameProbes(out, rows);
      SameTotalsSameSeries(out, rows);
      PassIsBounded(rows, since, target);
      KeySetSize(out);
      SubsetSize(KeySet(rows), KeySet(out));
    }
  }

  // ----- Rows exactly at since

  lemma {:induction false} SortOfOrdered(rows: seq<Row>)
    requires Ordered(rows)
    ensures SortNewestFirst(rows) == rows
  {
    if rows != [] {
      var front := rows[..|rows| - 1];
      SortOfOrdered(front);
      assert rows == front + [rows[|rows| - 1]];
    }
  }

  lemma {:induction false} OneKey(rows: seq<Row>, key: SeriesKey)
    requires rows != [] && OneSeries(rows, key)
    ensures Keys(rows) == [key] && KeySet(rows) == {key} && IndexOf(rows, key) == 0
  {
    if |rows| > 1 {
      OneKey(rows[..|rows| - 1], key);
    }
  }

  /** A series whose rows are all exactly at since is not aggregated: the pass cuts it and loses the rest. */
  lemma RowsAtSinceAreCut(rows: seq<Row>, since: int, target: nat, key: SeriesKey)
    requires OneSeries(rows, key) && Within(rows, since, since) && 1 <= target < |rows|
    ensures AggregateRows(rows, since, target) == rows[..target]
    ensures Sum(rows) == Add(Sum(AggregateRows(rows, since, target)), Sum(rows[target..]))
  {
    hide Sum, SortNewestFirst, AllPieces;
    PiecesAtSince(rows, since, target, key);
    DescendingIsOrdered(rows);
    SortOfOrdered(rows);
    assert rows == rows[..target] + rows[target..];
    SumConcat(rows[..target], rows[target..]);
  }

  lemma PiecesAtSince(rows: seq<Row>, since: int, target: nat, key: SeriesKey)
    requires OneSeries(rows, key) && Within(rows, since, since) && 1 <= target < |rows|
    ensures AllPieces(rows, since, target) == rows
  {
    hide MergedBuckets, AllPieces;
    PiecesOfOne(rows, since, target, key);
  }

  /** A single series may use all points. */
  lemma PiecesOfOne(rows: seq<Row>, since: int, target: nat, key: SeriesKey)
    requires OneSeries(rows, key) && 1 <= target < |rows|
    ensures AllPieces(rows, since, target) == SingleSeries(rows, since, target)
  {
    hide BudgetsFor, SingleSeries, Keys, IndexOf, Only;
    OneKey(rows, key);
    OnlyOfOneSeries(rows, key, key);
    BudgetsTotal(rows, target);
    var budgets, pieces := BudgetsFor(rows, target), PiecesFor(rows, since, target);
    assert SumTo(budgets, 1) == SumTo(budgets, 0) + budgets[0] && SumTo(budgets, 0) == 0;
    assert pieces[0] == SingleSeries(rows, since, target);
    assert Joined(pieces, 1) == Joined(pieces, 0) + pieces[0] && Joined(pieces, 0) == [];
  }

  // ----- Rows of a series out of order

  /** Of rows of 10, 5 and 5.5 seconds, in this order, a pass that allows two points keeps only the first. */
  lemma LateRowsAreLost(a: Row, b: Row, c: Row, since: int)
    requires a.checkedAt == 10_000_000_000 && b.checkedAt == 5_000_000_000 && c.checkedAt == 5_500_000_000
    requires a.key == b.key == c.key && since < a.checkedAt
    ensures AggregateRows([a, b, c], since, 2) == [MergeRows([a])]
    ensures Sum(AggregateRows([a, b, c], since, 2)) == Sum([a])
  {
    hide AllPieces, SingleSeries, MergeRows, Sum;
    LateRowIsLost(a, b, c, since);
    PiecesOfOne([a, b, c], since, 2, a.key);
    var one := [MergeRows([a])];
    SortOfOrdered(one);
    MergeKeepsTotals([a]);
  }
}
