# PingMon, verified

PingMon's agents probe TCP targets and report the results; its supervisor stores them, rolls old ones up, and draws
bounded charts of them. This project models the parts of PingMon where losing, duplicating or distorting results would
go unnoticed, and proves what they promise:

| files | part of the system |
|---|---|
| `Common` | what several modules share |
| `ChartRows`, `SeriesBuckets`, `PointBudgets`, `ChartAggregation`, `ChartStream` | the stream of results folded into at most 3000 chart points |
| `PagedStream`, `CompactedStream` | reading a time range backwards in windows and pages; raw rows followed by rollups |
| `StoredTime`, `Retention`, `RetentionRuns` | rolling up and deleting old results, over any run of saves and cleanups |
| `WorkerPool`, `RetryQueue` | the agent's probe workers, and its queue of results not yet acknowledged |
| `ResultsCache`, `Connectivity`, `WebsocketHub` | the supervisor's shared state |
| `Spline`, `Downsample` | the two numeric routines of the dashboard |
| `Migration` | the move of denormalised tables to series |

`dafny verify dfyconfig.toml` checks everything.

Code that runs step by step is a method with loops, or a class whose methods change its fields, proved equal to a
specification function; the results below are proved about those functions for all inputs. Concurrent code
(`WorkerPool`, `WebsocketHub`, the sections of `ResultsCache`, the steps of `RetentionRuns`) is a transition system, and
its results hold after every run of every interleaving.

## How the model reads the code

- Instants are integers in nanoseconds since 1970. Latencies, rates, scores and pixel coordinates are reals: floating
  point rounding is not modelled, so a tie of two scores or areas that rounding creates or breaks is not either. Counts
  are unbounded integers; no sum in the code comes near 2^63.
- Names, labels, addresses and messages are only copied and compared, so numbers stand for them. A series key is the
  tuple of its parts, which is the joined string as long as no part contains a NUL byte.
- The database is a set of tables on which each SQL statement is one atomic step. `INSERT OR IGNORE` against a unique
  index is a map in which existing keys win. `unixepoch()` is rounded down to the second. A failing statement changes
  nothing.
- Stored times are texts. `StoredTime` defines how the database orders them, for UTC times with years of four digits
  written as Go's RFC3339Nano format does, without trailing zeros of the fraction; `TextRank` numbers the texts in that
  order. `Retention` and `PagedStream` compare texts wherever the queries do. RFC 3339 (section 5.1) promises that
  string order is time order only for equally many fractional digits.
- Streams and buffers of chart rows may come in any order; results that hold only for rows that are newest first, all of
  them or each series for itself, say so.
- Cutoffs, query results, upload answers, probe results and the clock are inputs. Probe and upload calls return.
- `bucketNewest == 0` doubles as "not set" in the code. The model keeps that sentinel; the merged time stays between the
  samples merged all the same, and inside its bucket if the series is newest first, for samples at and before 1970 too
  (`SeriesBuckets.MergeTime`, `SeriesBuckets.PointInItsBucket`).
- Go maps are iterated in an arbitrary order, chosen anew at each step; goroutines interleave at locks and channel
  operations.

## Where the code does not do what it looks like

For each of these a lemma gives an input at which it happens, and another the exact condition.

- **Fractions of a second lose samples.** Texts such as `…:00.5Z` sort before `…:00Z`, so a sample stored within the
  second of the cutoff counts as older than the cutoff. It is rolled up into the bucket that starts at the cutoff and
  deleted; the rest of that bucket finds a rollup in place at the next cleanup, is ignored and deleted.
  `RetentionRuns.FractionLosesSamples` runs two hourly cleanups to that end. A cleanup keeps what the two tables hold of
  a bucket exactly if it takes no row of a bucket that has a rollup already (`PassConservesIff`), two of them exactly if
  the second takes nothing the first has left of a bucket it rolled up (`TwoPassesConserveIff`), and an aligned cutoff
  leaves part of a bucket exactly through rows with a fraction in its own second (`AlignedCutoffSplitsIff`). Over any run
  of saves and complete cleanups the tables hold everything saved into a bucket, each sample once, exactly if no cleanup
  takes a row of it once it has a rollup (`RunConservesIff`). PingMon's own README.md (line 133) promises that raw
  results are aggregated before they are deleted.
- **Intervals that do not divide 719162 days.** Go truncates cutoffs from year 1, SQL rounds buckets from 1970. For
  intervals that do not divide the days in between, such as seven minutes, cutoffs fall inside buckets
  (`StoredTime.TruncationsAgreeIff`, `RetentionRuns.MisalignedCutoffSplits`).
- **A cleanup in the middle of a read delivers samples twice.** A compacted read queries the raw rows first and the
  rollups afterwards. A sample is read both ways exactly when its bucket starts before the read's cutoff and has ended
  by a cutoff used before the rollups are queried (`RetentionRuns.ReadTwiceIff`, with the run
  `CleanupBetweenReadsTwice`); so never while no later cutoff than the read's own is used (`NoDoubleDelivery`).
- **Fractions of a second disturb the order.** `5Z` is streamed before `5.5Z`, newest first
  (`CompactedStream.FractionStreamsLate`). What is streamed is newest first exactly when no stored time is written as a
  beginning of another, as 5 is of 5.5 and 5.1 of 5.12 (`StreamDescendsIff`, and `SeriesDescendIff` for each series).
  The chart then loses samples of a series: the walk over its buckets spans the times from its first row to its last
  and stops for good at a row too old for the last bucket, so that of rows at 10, 5 and 5.5 seconds and two points only
  the first is drawn (`FractionLosesRows`). Rows in any order keep their totals exactly when none is at or before the end
  of the last bucket (`SeriesBuckets.SingleSeriesKeepsTotalsIff`).
- **The last window of a stream may be empty**, because the texts of its bounds are in the wrong order. The stream then
  reaches back to the last cursor instead of to since, exactly when since is written as a beginning of that cursor
  (`PagedStream.FloorIsSinceIff`). It finds other rows than the plain range query exactly when some lie in between
  (`CompactedStream.WindowsAreRangeIff`, `WindowReachesBelowSince`).
- **Rows from the future.** Agents whose clocks are up to ten minutes fast are accepted. A row of theirs whose time is
  still to come is in the loaded read and not in the streamed one (`CompactedStream.FutureRowIsNotStreamed`). The two
  reads agree exactly when no raw row has a time at or after the end of the streamed range, and none lies between the
  two lower ends as texts (`CompactedReadsAgreeIff`).
- **Rows at `since`, and more than 3000 series.** A series whose newest row is not newer than `since` is returned
  unaggregated, and a final cut drops what does not fit (`ChartAggregation.RowsAtSinceAreCut`). For any stream of rows
  that stand for probes, in whatever order, the response keeps the totals of every series exactly when there are at most
  3000 series and no pass on the way leaves out a row, by that cut or at the end of a walk
  (`ChartStream.ResponseKeepsAllTotalsIff`). Nothing is left out when every series is newest first and every row newer
  than `since` (`NewerNothingLost`), and nothing is cut in a pass when each series fits its budget or starts with a row
  newer than `since` and not older than its last (`ChartAggregation.EachFitsIsEnough`).
- **Gaps in what a websocket client is sent.** Between finding a client's queue full and removing the client, another
  broadcast may find room in it (`WebsocketHub.GapWhileBeingRemoved`). What is queued to a registered client has a gap
  exactly while some broadcaster is at that point (`WebsocketHub.ClientSafety`).
- **Refused cache entries.** A `set` of data beyond the byte limit leaves the previous entry to be hit
  (`ResultsCache.OversizedSetLeavesOldEntry`). A hit is what was set last exactly when that set was accepted
  (`ResultsCache.HitIsLatestSetIff`).
- **Old rollups without `agent_ip`, and rows without a name.** The migration adds the missing column to `results` only;
  for `result_rollups` it fails and is rolled back (`Migration.OldRollupsAreRefused`; `RefusedIff` lists every reason to
  refuse). Rows whose agent, target, address or port is NULL are left behind without an error
  (`NamelessRowIsLeftBehind`, `AllRowsReadIff`).

## Model

| member | source | states |
|---|---|---|
| SeriesBuckets.CeilingCovers | cmd/supervisor/dashboard_stream.go:167-178 | the rounded-up width is at least one nanosecond and that many buckets reach past the oldest row |
| SeriesBuckets.ExactlyOneBucket | cmd/supervisor/dashboard_stream.go:181-186 | every instant the buckets reach lies in exactly one of them |
| SeriesBuckets.BucketIsBetween | cmd/supervisor/dashboard_stream.go:187-221 | of a series that is newest first each bucket takes exactly the rows whose times lie in it |
| SeriesBuckets.MergeTime | cmd/supervisor/dashboard_stream.go:216-225 | whatever the order of the rows, the merged time lies within the time span of the samples merged |
| SeriesBuckets.MergeMiddle | cmd/supervisor/dashboard_stream.go:216-225 | it lies half way between the first and the last sample, rounded towards the last; samples at the very beginning of 1970 do not count as first |
| SeriesBuckets.MergeSays | cmd/supervisor/dashboard_stream.go:203-247 | the merged row has the series, address and labels of its first sample, the latency of an average successful probe, and an error exactly if a sample failed or had one |
| SeriesBuckets.PointInItsBucket | cmd/supervisor/dashboard_stream.go:185-225 | of a series that is newest first every point lies inside the bucket it stands for |
| SeriesBuckets.MergeKeepsTotals | cmd/supervisor/dashboard_stream.go:203-241 | one merged row has the successes, failures, success-weighted latency and problem flag of its bucket |
| SeriesBuckets.MergeRate | cmd/supervisor/dashboard_stream.go:233-236 | its success rate is that of all the bucket's probes together |
| SeriesBuckets.MergedBucketsTotals | cmd/supervisor/dashboard_stream.go:184-255 | rows in any order: the first so many buckets have the totals of all rows up to the first that is too old for them |
| SeriesBuckets.SingleSeriesKeepsTotals | cmd/supervisor/dashboard_stream.go:155-257 | aggregating a series that is newest first keeps its totals and time range, and points strictly descend in time |
| SeriesBuckets.SingleSeriesKeepsTotalsIff | cmd/supervisor/dashboard_stream.go:155-257 | rows in any order that stand for probes keep their totals exactly when none is at or before the end of the last bucket, or the series is not cut into buckets |
| SeriesBuckets.SingleSeriesTotals | cmd/supervisor/dashboard_stream.go:180-256 | rows in any order: what is drawn has the totals of the rows up to the first that is too old |
| SeriesBuckets.OldestLastIsReached | cmd/supervisor/dashboard_stream.go:166-182 | every row is taken when none is older than the last |
| SeriesBuckets.SingleSeriesWithin | cmd/supervisor/dashboard_stream.go:155-257 | rows in any order: what is drawn lies within their time span |
| SeriesBuckets.SingleSeriesFitsBudgetIff | cmd/supervisor/dashboard_stream.go:156-170 | rows in any order: a series that fits, or whose first row is not newer than since or older than its last, is left as it is; so the budget is kept exactly when it fits or neither of these is so |
| SeriesBuckets.AtLeastTwoPoints | cmd/supervisor/dashboard_stream.go:104-111 | with two points allowed, a series of two or more instants that is newest first is drawn with two at least |
| SeriesBuckets.MergedRowsAreClose | cmd/supervisor/dashboard_stream.go:172-186 | two rows merged into one point are no further apart than the span of the series over the budget |
| SeriesBuckets.FarApartDrawnApart | cmd/supervisor/dashboard_stream.go:155-257 | as many rows of a series that is newest first as are pairwise further apart than that are drawn as at least as many points |
| SeriesBuckets.ScanBucket | cmd/supervisor/dashboard_stream.go:191-250 | the running sums over one bucket yield its merged row and stop at the first row of the next |
| SeriesBuckets.WalkBuckets | cmd/supervisor/dashboard_stream.go:180-256 | for rows in any order the loop over buckets, with its early exit, gives one merged row for each bucket that takes rows |
| SeriesBuckets.AggregateSingleSeries | cmd/supervisor/dashboard_stream.go:155-257 | for rows in any order the whole routine equals the specification the lemmas are about |
| PointBudgets.BudgetsAreFair | cmd/supervisor/dashboard_stream.go:104-139 | budgets add up to the target, never exceed a series, and are fair point for point |
| PointBudgets.NoFairerBudgets | cmd/supervisor/dashboard_stream.go:122-139 | exchange argument: any other division of the points leaves some series with a score at least as bad |
| PointBudgets.EveryoneGetsAPointIff | cmd/supervisor/dashboard_stream.go:107-121 | every series gets a point exactly when there are no more series than points |
| PointBudgets.TwoPointsForEveryone | cmd/supervisor/dashboard_stream.go:107-121 | when two points for each series fit, each has two at least or all its rows |
| PointBudgets.FirstComeFirstServed | cmd/supervisor/dashboard_stream.go:112-121 | with more series than points the first have one point each and the others none |
| PointBudgets.FairShares | cmd/supervisor/dashboard_stream.go:122-139 | fairness in whole numbers: rows per point of a series still short of points do not exceed those another had at its last granted point |
| PointBudgets.GrantSpendsAll | cmd/supervisor/dashboard_stream.go:122-139 | the greedy loop never stops early while rows are left over |
| PointBudgets.ReservePoints | cmd/supervisor/dashboard_stream.go:107-121 | the reserve loop leaves the reserve and the rest the specification names |
| PointBudgets.FindBest | cmd/supervisor/dashboard_stream.go:123-133 | the scan finds the first series with the highest score that can use a point |
| PointBudgets.BestIsFirst | cmd/supervisor/dashboard_stream.go:123-133 | of equal scores the first counts |
| PointBudgets.ShareOut | cmd/supervisor/dashboard_stream.go:104-139 | both loops give the budgets the lemmas are about |
| ChartAggregation.GroupsHoldAllRows | cmd/supervisor/dashboard_stream.go:91-102 | every row is in exactly one group |
| ChartAggregation.KeysByAppearance | cmd/supervisor/dashboard_stream.go:91-102 | series come in the order in which they are first seen |
| ChartAggregation.SortKeepsSeries | cmd/supervisor/dashboard_stream.go:148 | the stable sort leaves each series that is in order as it is |
| ChartAggregation.SortKeepsTotals | cmd/supervisor/dashboard_stream.go:148 | it keeps the length and the totals of every series, whatever the order |
| ChartAggregation.SortIsStable | cmd/supervisor/dashboard_stream.go:148 | sorting keeps the rows of each instant and their order, across series |
| ChartAggregation.PassIsBounded | cmd/supervisor/dashboard_stream.go:78-153 | a pass leaves rows that fit as they are, and of any others makes at most target rows, newest first |
| ChartAggregation.PassWithin | cmd/supervisor/dashboard_stream.go:78-153 | and each series within the time span it had |
| ChartAggregation.PassBySeries | cmd/supervisor/dashboard_stream.go:141-152 | when nothing is cut each series that is newest first is replaced by its own aggregation within its own budget |
| ChartAggregation.PassKeepsTotals | cmd/supervisor/dashboard_stream.go:78-153 | rows in any order: with no more series than points and no row left out every series keeps its totals |
| ChartAggregation.PassKeepsEverySeriesIff | cmd/supervisor/dashboard_stream.go:84-121 | rows in any order: when nothing is cut no series vanishes exactly when there are no more series than points |
| ChartAggregation.PassDrawsTwo | cmd/supervisor/dashboard_stream.go:104-152 | with room for two points each, a series of two or more instants that is newest first still has two points after a pass that cuts nothing |
| ChartAggregation.PassKeepsAllTotalsIff | cmd/supervisor/dashboard_stream.go:78-153 | for any rows that stand for probes, in any order: all totals are kept exactly when series do not outnumber points, no row is too old for the last bucket of its series, and the final cut does not fire |
| ChartAggregation.PassProbes | cmd/supervisor/dashboard_stream.go:141-152 | a pass adds no probes, and loses some whenever it leaves out a row |
| ChartAggregation.EachFitsIsEnough | cmd/supervisor/dashboard_stream.go:149-170 | the final cut does not fire when each series fits its budget or starts with a row newer than since and not older than its last |
| ChartAggregation.NewerFits | cmd/supervisor/dashboard_stream.go:149-170 | it does not fire when every series is newest first and every row newer than since |
| ChartAggregation.RowsAtSinceAreCut | cmd/supervisor/dashboard_stream.go:149-165 | what a pass over rows exactly at since loses: all but the first target rows |
| ChartAggregation.LateRowsAreLost | cmd/supervisor/dashboard_stream.go:166-256 | a pass over three rows of one series, out of order, that loses two of them |
| ChartAggregation.InOrderIsReached | cmd/supervisor/dashboard_stream.go:166-182 | no row is too old for the last bucket of its series when every series is newest first |
| ChartStream.GroupRows | cmd/supervisor/dashboard_stream.go:91-102 | the index map and list build the groups in order of first appearance |
| ChartStream.AggregateRowsByTime | cmd/supervisor/dashboard_stream.go:78-153 | one pass over any rows equals its specification |
| ChartStream.BufferBounded | cmd/supervisor/dashboard_stream.go:46-60 | after any prefix of any stream the buffer has fewer than 6000 rows |
| ChartStream.BufferIsPrefix | cmd/supervisor/dashboard_stream.go:52-55 | nothing is aggregated before there are 6000 rows |
| ChartStream.BufferInOrder | cmd/supervisor/dashboard_stream.go:46-60 | while a stream comes newest first so does the buffer, with nothing older than the last row pushed |
| ChartStream.BufferKeepsTotals | cmd/supervisor/dashboard_stream.go:47-57 | any stream: through any number of re-aggregations that leave out no row the buffer has the series and totals of the rows streamed so far |
| ChartStream.ResponseBounded | cmd/supervisor/dashboard_stream.go:45-62 | the response has at most 3000 rows for any stream, newest first if the stream is or a last pass sorts it |
| ChartStream.ShortStream | cmd/supervisor/dashboard_stream.go:45-62 | a stream of at most 3000 rows is the response itself; one of fewer than 6000 is aggregated once |
| ChartStream.ResponseKeepsTotals | cmd/supervisor/dashboard_stream.go:45-62 | any stream: with at most 3000 series and no row left out every series has exactly the totals of the stream in the response |
| ChartStream.ResponseKeepsAllTotalsIff | cmd/supervisor/dashboard_stream.go:45-62 | for any stream, in any order, of rows that stand for probes: the response keeps all totals exactly when there are at most 3000 series and no pass leaves out a row |
| ChartStream.NothingLostIff | cmd/supervisor/dashboard_stream.go:45-62 | of a stream in which every series is newest first rows are left out exactly by final cuts |
| ChartStream.InTurnKeepsTotals | cmd/supervisor/dashboard_stream.go:45-62 | so of such a stream all totals are kept with at most 3000 series and nothing cut, and only then if the rows stand for probes |
| ChartStream.NewerNothingLost | cmd/supervisor/dashboard_stream.go:45-62 | no pass leaves out a row of a stream in which every series is newest first and every row newer than since |
| ChartStream.ResponseKeepsEverySeriesIff | cmd/supervisor/dashboard_stream.go:45-62 | any stream: when nothing is cut every series is in the response exactly when there are at most 3000 |
| ChartStream.PushRow | cmd/supervisor/dashboard_stream.go:47-57 | the callback appends, re-aggregates at 6000 rows, and keeps the buffer below that |
| ChartStream.DashboardResultsData | cmd/supervisor/dashboard_stream.go:45-62 | any stream that ends gives the response, one that fails gives none |
| PagedStream.PageContinues | internal/storage/stream.go:65-94 | n rows of the next page continue a stream soundly and without a gap, whatever was inserted between pages |
| PagedStream.PageEnds | internal/storage/stream.go:91-93 | after a page that is not full the window is complete |
| PagedStream.StreamWithCursor | internal/storage/stream.go:159-175 | rows are handed on until one fails; the cursor is the last row delivered |
| PagedStream.StreamWindow | internal/storage/stream.go:53-96 | by the texts of times and ids: the paging loop ends, emits in strict order, emits only rows seen in range, skips none present throughout |
| PagedStream.StreamWindowed | internal/storage/stream.go:31-51 | the same over all six-hour windows down to the floor of the range, complete when no query or callback fails |
| PagedStream.FloorIsSinceIff | internal/storage/stream.go:40-49 | the stream reaches back to since as a text exactly when since is not written as a beginning of the last cursor; never less far |
| PagedStream.WholeBelowFloor | internal/storage/stream.go:40-49 | no whole second lies between since and where the stream reaches back to |
| PagedStream.WindowSound | internal/storage/stream.go:40-49 | a window continues the newer windows in strict order |
| CompactedStream.StillIsSelect | internal/storage/stream.go:31-96 | over an unchanging table a complete stream is exactly the plain filter-and-sort query |
| CompactedStream.StillReadsAll | internal/storage/stream.go:65-94 | written out: exactly the rows with a text in range and of the agent asked for, newest text and then largest id first |
| CompactedStream.WindowsAreRangeIff | internal/storage/stream.go:31-51 | windowed streaming finds the rows of the plain range query exactly when none lies, as a text, from the last cursor up to since |
| CompactedStream.WindowReachesBelowSince | internal/storage/stream.go:31-51 | a range and a row for which it finds one more |
| CompactedStream.StreamResultsSinceCompacted | internal/storage/stream.go:21-29 | raw rows then rollups, in strict order as a whole, each part sound and gapless, complete on success |
| CompactedStream.StillIsCompactedRead | internal/storage/stream.go:21-29 | over unchanging tables it equals the two plain queries end to end |
| CompactedStream.MergeResultsDesc | internal/storage/storage.go:360-375 | the index loop equals the merge that prefers the second list on ties |
| CompactedStream.MergeKeepsRows | internal/storage/storage.go:360-375 | merging loses and invents no row |
| CompactedStream.MergeDescends | internal/storage/storage.go:360-375 | merging two descending lists gives a descending one |
| CompactedStream.MergeTies | internal/storage/storage.go:360-375 | of one instant the rows of the second list come first, each list in its own order |
| CompactedStream.CompactedReadsAgreeIff | internal/storage/storage.go:330-343 | streamed and loaded compacted reads agree in content and order exactly when no raw row is stored at or after the end of the streamed range, and none between the two lower ends as texts; with an empty range, when no raw row is wanted |
| CompactedStream.FutureRowIsNotStreamed | internal/storage/stream.go:17-19 | a row after now that is loaded and not streamed |
| CompactedStream.LoadedInTurn | internal/storage/storage.go:330-343 | the merge joins the rollups to the end of the raw rows, since none of them is newer |
| CompactedStream.RollupsFoundAlike | internal/storage/stream.go:98-112 | windowed streaming finds the rollups of the plain range query, whatever the texts of the bounds |
| CompactedStream.StreamDescendsIff | internal/storage/stream.go:77-78 | what is streamed descends in time exactly when no stored time is written as a beginning of another |
| CompactedStream.SeriesDescendIff | internal/storage/stream.go:77-78 | each series of it descends exactly when none is within the series |
| CompactedStream.UniformIsNotReversed | internal/storage/stream.go:77-78 | none is when all times are whole seconds, and when all have nine digits |
| CompactedStream.FractionStreamsLate | internal/storage/stream.go:77-78 | two samples of one second that are streamed in the wrong order |
| CompactedStream.FractionLosesRows | cmd/supervisor/dashboard_stream.go:166-256 | three samples of one series in the order of the query, of which a pass with two points draws the first alone |
| CompactedStream.TablesToChart | cmd/supervisor/dashboard_stream.go:45-62 | from stored rows to response, when no time is written as a beginning of another of its series: every series keeps its totals with at most 3000 series and nothing cut, and only then if the rows stand for probes |
| StoredTime.TextOrder | internal/storage/storage.go:446-448 | comparing stored texts is a strict total order, and time order for texts of full length |
| StoredTime.TextRankOrders | internal/storage/stream.go:71-78 | the number given to each text grows exactly as the database orders the texts |
| StoredTime.TextIsLexical | internal/storage/stream.go:77-78 | the order of texts within a second is that of their characters, digit by digit, with the point before the digits and the Z after them |
| StoredTime.ReversedIff | internal/storage/stream.go:77-78 | texts are in the reverse order of their times exactly when the earlier is written as a beginning of the later |
| StoredTime.TextOrderIsTimeOrderIff | internal/storage/storage.go:457-458 | comparing with whole-second cutoffs is comparing instants exactly for times without a fraction |
| StoredTime.TruncationsAgreeIff | internal/storage/storage.go:407-411 | Go's Truncate and SQL's rounding agree since 1970 exactly when the interval divides 719162 days |
| StoredTime.AlignedCutoff | internal/storage/storage.go:548-550 | such cutoffs are whole multiples of the interval, the last before the given instant |
| StoredTime.BucketEndsBefore | internal/storage/storage.go:436-446 | a bucket ends by an aligned cutoff exactly when its samples' seconds come before it |
| Retention.SummaryKeepsWorth | internal/storage/storage.go:413-434 | a rollup is worth exactly its samples: counts, weighted latency, success rate, problem flag |
| Retention.SummarySays | internal/storage/storage.go:413-434 | its latency is that of an average successful probe, and it is flagged exactly if a sample had a failure, a rate below one or an error |
| Retention.SameGroupIff | internal/storage/storage.go:436-448 | two rows share a rollup exactly if they are of one series, address and labels and fall in one interval |
| Retention.BeforeIff | internal/storage/storage.go:446 | a cutoff takes the rows whose text is before it and leaves the others |
| Retention.RollupsDeletedIff | internal/storage/storage.go:466-473 | of the rollups exactly those that start before the second of the cutoff are deleted |
| Retention.ChangesIff | cmd/supervisor/main.go:1124-1141 | a complete cleanup changes a table exactly if it finds a raw row before its cutoff or an old rollup before the other |
| Retention.SqliteStore.SaveResults | internal/storage/storage.go:247-302 | appends all rows if the transaction is accepted and none otherwise; an empty batch succeeds without one |
| Retention.SqliteStore.RollupBefore | internal/storage/storage.go:403-455 | adds one rollup to each bucket without one, for rows whose text is before the truncated cutoff; counts the new ones |
| Retention.SqliteStore.DeleteBefore | internal/storage/storage.go:457-464 | keeps a row exactly if its text is not before the cutoff, and counts the others |
| Retention.SqliteStore.DeleteRollupsBefore | internal/storage/storage.go:466-473 | keeps a rollup exactly if it does not start before the second of the cutoff, unchanged, and counts the others |
| Retention.SqliteStore.CleanOldData | cmd/supervisor/main.go:1117-1145 | the three statements in order, stopped at the first failure; caches are cleared exactly when a complete cleanup changed some table |
| Retention.RerunCompletes | cmd/supervisor/main.go:1117-1145 | a cleanup stopped anywhere and run again ends as an undisturbed one: nothing is counted twice |
| RetentionRuns.StepKeepsInv | internal/storage/storage.go:403-473 | each save, rollup, deletion and abort that spares a bucket keeps its raw rows and its rollup in step with its history |
| RetentionRuns.RolledUpIff | internal/storage/storage.go:403-455 | a bucket has a rollup afterwards exactly if it had one or a row of it is before the cutoff; old ones are unchanged, new ones sum up the rows taken |
| RetentionRuns.OldRollupsAreGone | internal/storage/storage.go:466-473 | once a cleanup has deleted rollups none is left that starts before its cutoff |
| RetentionRuns.RunConserves | internal/storage/storage.go:403-473 | over any run that spares a bucket, however others fare: it has all its raw rows or a rollup of them all, and when what was rolled up is deleted both tables together hold every sample once |
| RetentionRuns.AlignedTakesWhole | internal/storage/storage.go:436-448 | an aligned cutoff that no row of a bucket straddles takes all its rows if it has ended, else none |
| RetentionRuns.CleanupIsSteps | cmd/supervisor/main.go:1117-1145 | the steps of a run are the statements of the cleanup method |
| RetentionRuns.NoDoubleDelivery | internal/storage/stream.go:25-28 | no sample is read raw and later inside a rollup while no cutoff beyond the reader's has been used, whatever runs in between |
| RetentionRuns.ReadTwiceIff | internal/storage/stream.go:25-28 | with any steps between the two queries: a raw row is read again inside a rollup exactly when its bucket starts in range and has ended by a used cutoff |
| RetentionRuns.CleanupBetweenReadsTwice | internal/storage/stream.go:25-28 | a run in which a rollup between the two queries makes a sample arrive twice |
| RetentionRuns.PassedIsCleaned | cmd/supervisor/main.go:1124-1131 | rollup and deletion use one cutoff, so what is deleted is what was rolled up |
| RetentionRuns.PassConservesIff | cmd/supervisor/main.go:1124-1131 | for any tables, interval and cutoff the rollup and raw rows of a bucket together keep their worth exactly if no row is taken from a bucket that has a rollup |
| RetentionRuns.TwoPassesConserveIff | cmd/supervisor/main.go:1124-1131 | two passes over a bucket without a rollup lose samples exactly when the first takes some of its rows and the second some it left |
| RetentionRuns.RunConservesIff | cmd/supervisor/main.go:1117-1145 | over any run of saves and complete cleanups, for any interval and cutoffs, as long as its rollup is kept: the tables hold all that was saved into a bucket, each sample once, exactly if no cleanup takes a row of it once it has a rollup |
| RetentionRuns.AlignedCutoffSplitsIff | internal/storage/storage.go:436-448 | an aligned cutoff splits a bucket exactly through rows stored with a fraction in its own second |
| RetentionRuns.MisalignedCutoffSplits | internal/storage/storage.go:407-448 | every other interval has a cutoff that splits a bucket between whole seconds |
| RetentionRuns.FractionLosesSamples | internal/storage/storage.go:403-464 | two complete hourly cleanups after which one of two samples of a bucket is in neither table |
| WorkerPool.PoolSize | cmd/agent/main.go:153-162 | as many workers as configured, or 20 if that is not positive, but never more than tasks |
| WorkerPool.StepKeepsInv | cmd/agent/main.go:163-200 | every step of producer, workers and collector keeps each task in exactly one place |
| WorkerPool.SendNeverBlocks | cmd/agent/main.go:164-179 | a worker with a result always finds the results channel open and with room |
| WorkerPool.RunIsSafe | cmd/agent/main.go:152-200 | at no point of any run are more probes active than workers, or is a send blocked or late |
| WorkerPool.ReturnedBatch | cmd/agent/main.go:195-199 | no task has two results in the batch; in a run without a cancellation each has exactly one |
| WorkerPool.BatchIsProbed | cmd/agent/main.go:171-199 | the batch holds results in the order sent, each with an outcome that a probe of its task has ended with |
| WorkerPool.NoDeadlock | cmd/agent/main.go:163-200 | until the call returns some step other than a cancellation can be taken |
| WorkerPool.StepUsesWork | cmd/agent/main.go:163-200 | every step uses up work |
| WorkerPool.AlwaysReturns | cmd/agent/main.go:152-200 | every run is finite and can only end by returning, cancelled or not |
| RetryQueue.AppendPendingResults | cmd/agent/main.go:118-124 | keeps all results, or of more than the limit exactly that many of the newest |
| RetryQueue.UploadPendingResults | cmd/agent/main.go:93-105 | sends batches from the front until one fails or nothing is left |
| RetryQueue.MainLoop | cmd/agent/main.go:58-91 | over any cycles, the queue, the log and the count of consecutive failures are as specified |
| RetryQueue.FailedAtEndIsLongest | cmd/agent/main.go:58-82 | the count of consecutive failures is the length of the longest ending of cycles in which collecting failed or uploads of 200 did not cover the queue |
| RetryQueue.SentThenLeft | cmd/agent/main.go:93-105 | batches sent, in order, followed by what is left are what was pending |
| RetryQueue.LeftLength | cmd/agent/main.go:94-104 | how much is left after so many accepted batches of 200 |
| RetryQueue.NothingLost | cmd/agent/main.go:60-77 | what left the queue, in order, followed by what is pending is everything collected; batches hold 1 to 200; the limit holds |
| RetryQueue.DropsOnlyOnOverflow | cmd/agent/main.go:118-124 | results are dropped exactly in runs in which some cycle overflows the queue |
| ResultsCache.ResultsCache.Find | cmd/supervisor/main.go:1241-1257 | the read section hits up to and including the expiry, and asks for removal only of what it found expired |
| ResultsCache.ResultsCache.RemoveExpired | cmd/supervisor/main.go:1246-1253 | the second section removes the entry only if what is there by now is expired, and accounts for its bytes |
| ResultsCache.ResultsCache.Purge | cmd/supervisor/main.go:1269-1274 | removes exactly the expired entries, in any order |
| ResultsCache.ResultsCache.Oldest | cmd/supervisor/main.go:1280-1286 | finds an entry that expires first, in any order of iteration |
| ResultsCache.ResultsCache.Evict | cmd/supervisor/main.go:1279-1289 | ends with room, having evicted the oldest entries and no more than needed |
| ResultsCache.ResultsCache.Set | cmd/supervisor/main.go:1260-1296 | keeps bytes and limits; the new entry, and what the eviction leaves of the live ones |
| ResultsCache.ResultsCache.Clear | cmd/supervisor/main.go:1298-1306 | empties the cache |
| ResultsCache.AlwaysConsistent | cmd/supervisor/main.go:1237-1306 | in every interleaving bytes is the sum of the lengths, both limits hold, and entries are their keys' latest sets |
| ResultsCache.HitIsLatest | cmd/supervisor/main.go:1237-1258 | a hit is the latest accepted set of its key since the last clear, at most ttl after it |
| ResultsCache.SetIsHit | cmd/supervisor/main.go:1260-1296 | data within the limit is hit up to and including ttl after its set, and not later; other data changes nothing |
| ResultsCache.SetLeavesLive | cmd/supervisor/main.go:1269-1289 | a set leaves no other entry that has expired by then and changes none |
| ResultsCache.SetWithRoomKeepsLive | cmd/supervisor/main.go:1269-1289 | while there is room within both limits it leaves all entries that have not expired |
| ResultsCache.RemovedIff | cmd/supervisor/main.go:1246-1253 | the second section of get removes its own entry exactly if that has expired, and no other |
| ResultsCache.HitIsLatestSetIff | cmd/supervisor/main.go:1260-1266 | a hit is what was set last, of whatever size, exactly when that set was accepted |
| ResultsCache.OversizedSetLeavesOldEntry | cmd/supervisor/main.go:1264-1266 | two sets, the second too large, after which the first is hit |
| ResultsCache.EvictsOldestFirst | cmd/supervisor/main.go:1279-1289 | what is evicted for room was set no later than anything left |
| ResultsCache.LateRemovalSparesRenewed | cmd/supervisor/main.go:1245-1253 | a get that comes back late does not remove an entry renewed meanwhile |
| Connectivity.Server.UpdateAgentConnectivity | cmd/supervisor/main.go:523-568 | counting and updating, in any order of agents, gives the specified states |
| Connectivity.CountRounds | cmd/supervisor/main.go:525-533 | per agent, the sizes of the set of its results and of the set of those without a success |
| Connectivity.RoundFailedIff | cmd/supervisor/main.go:525-545 | a round has failed exactly if the results without a success are more than half of the agent's results |
| Connectivity.AnsweredIsOk | cmd/supervisor/main.go:558-567 | an agent all of whose results had a success is well afterwards |
| Connectivity.SilentFails | cmd/supervisor/main.go:545-557 | an agent without any success has one failed round more, and has failed exactly from the threshold on |
| Connectivity.Moved | cmd/supervisor/main.go:543-567 | one agent's transition for any threshold |
| Connectivity.StateReflectsHistory | cmd/supervisor/main.go:523-568 | after any batches: count is the longest failed ending, status and both times follow from it and the threshold |
| Connectivity.StreakIsLongest | cmd/supervisor/main.go:546 | the streak is the longest ending of rounds that went the same way |
| Connectivity.OrderDoesNotMatter | cmd/supervisor/main.go:526-533 | only which results a batch holds matters, not their order |
| Connectivity.AgentsAreIndependent | cmd/supervisor/main.go:526-533 | other agents' results in a batch make no difference |
| WebsocketHub.StepKeepsInv | cmd/supervisor/main.go:863-942 | every step of every interleaving keeps the hub's invariant |
| WebsocketHub.ClientSafety | cmd/supervisor/main.go:863-942 | every client ever added is registered, about to be closed, or closed exactly once; "connected" is first; the queue is bounded; a registered client has a gap exactly while a broadcaster is about to remove it |
| WebsocketHub.GapWhileBeingRemoved | cmd/supervisor/main.go:934-940 | a run with such a gap |
| WebsocketHub.AtMostOnce | cmd/supervisor/main.go:927-942 | no message is queued to a client twice |
| WebsocketHub.BroadcastReaches | cmd/supervisor/main.go:927-942 | a finished broadcast has been queued to every client it copied that is still registered, and to all others neither closed nor found full |
| WebsocketHub.BroadcastReachesAll | cmd/supervisor/main.go:927-942 | whoever is registered when a broadcast starts and still is when it is over has been queued its message |
| WebsocketHub.RemovedForGood | cmd/supervisor/main.go:874-884 | whom remove was called for is off the map for good |
| WebsocketHub.FoundFullOnlyIf | cmd/supervisor/main.go:934-940 | a client is found full only while 16 messages wait and it is not closed |
| WebsocketHub.NeverBlocks | cmd/supervisor/main.go:934-941 | until a broadcast is done it has a step of its own to take, and the step brings it nearer the end |
| Spline.ClampTangents | cmd/supervisor/dashboard.js:328-334 | the loop in place equals the fold the lemmas are about |
| Spline.SegmentVertexData | cmd/supervisor/dashboard.js:304-346 | slopes, tangents and curves as specified, with the short and unsmoothed cases |
| Spline.ClampSegment | cmd/supervisor/dashboard.js:329-333 | one iteration brings its segment's ratios into the disc of radius 3 and shrinks the tangents it touches |
| Spline.ClampExactly | cmd/supervisor/dashboard.js:329-333 | ratios in the disc are left alone, longer ones are scaled in their direction onto the circle of radius 3 |
| Spline.ClampedGentle | cmd/supervisor/dashboard.js:328-334 | later iterations that rewrite a tangent leave the segments before them in the disc |
| Spline.RateNotNegative | cmd/supervisor/dashboard.js:328-334 | inside the disc the cubic never turns back |
| Spline.NeverOvershoots | cmd/supervisor/dashboard.js:304-346 | for any points control heights and the whole curve stay between the ends, rising or falling all the way |
| Spline.EvenPace | cmd/supervisor/dashboard.js:337-341 | across, the curve moves evenly, so it is the graph of a function of x |
| Spline.JoinsSmoothly | cmd/supervisor/dashboard.js:335-344 | neighbouring segments share the tangent at their common point |
| Spline.LeavesAtMean | cmd/supervisor/dashboard.js:324-344 | where nothing has to be clamped the curve leaves each inner point at the mean of the slopes on both sides, and the ends at the end slopes |
| Spline.LevelAtTurns | cmd/supervisor/dashboard.js:324-344 | clamped or not, the curve is level where the slopes on both sides do not agree in sign |
| Spline.UnsmoothedIsStraight | cmd/supervisor/dashboard.js:304-312 | fewer than three points, and points not to be smoothed, are joined by straight lines |
| Spline.LinesStayLines | cmd/supervisor/dashboard.js:315-345 | points on a line are joined by that line |
| Downsample.BucketsPartition | cmd/supervisor/dashboard.js:566-572 | buckets are non-empty and follow on one another from the second point to the last but one |
| Downsample.BucketsAreEven | cmd/supervisor/dashboard.js:566-572 | no bucket has two points more than another |
| Downsample.BucketOf | cmd/supervisor/dashboard.js:568-570 | every point strictly between the ends belongs to exactly one bucket |
| Downsample.Pick | cmd/supervisor/dashboard.js:573-587 | the index picked for a bucket lies in that bucket |
| Downsample.KeptInOrder | cmd/supervisor/dashboard.js:560-591 | source indices strictly increase |
| Downsample.KeptRises | cmd/supervisor/dashboard.js:563-566 | first and last point are kept, and one point of every bucket |
| Downsample.KeptEvenly | cmd/supervisor/dashboard.js:566-587 | the point at each place lies within the size of a bucket of an even spacing of the places over the line |
| Downsample.KeepsLargestTriangles | cmd/supervisor/dashboard.js:579-586 | with heights everywhere each pick is the first that spans the largest triangle |
| Downsample.KeepsLargestOrMiddle | cmd/supervisor/dashboard.js:573-588 | with heights missing: the first largest where there is anything to compare, else the middle point of the bucket |
| Downsample.AnchorIsLast | cmd/supervisor/dashboard.js:570-573 | the anchor is the last point with a height up to the first after the next bucket, or the bucket's own start |
| Downsample.AreaIsShoelace | cmd/supervisor/dashboard.js:584 | the quantity compared is twice the triangle's area, null heights being zero |
| Downsample.Lttb | cmd/supervisor/dashboard.js:560-591 | short lines and targets below three are left as they are; otherwise every place of the result is filled with the point specified |
| Downsample.PickFrom | cmd/supervisor/dashboard.js:569-588 | one turn of the loop picks the point specified |
| Migration.Connection.MigrateSQLiteDB | internal/storage/migrate.go:25-186 | nothing to do, refused with the database unchanged, or committed as specified; with the exact conditions |
| Migration.MigrationKeepsReadings | internal/storage/migrate.go:74-162 | joined with the series, both tables read as before: same rows, ids and series |
| Migration.MigratedByColumns | internal/storage/migrate.go:74-162 | column by column: an old table reads afterwards, in order, exactly as its rows that have an agent, target, address and port, each once with its id, these columns, its payload, and agent_ip and labels with the empty text for NULL |
| Migration.RefusedIff | internal/storage/migrate.go:25-186 | every reason to refuse written out: incomplete rows, old rollups without agent_ip, no sqlite_sequence |
| Migration.MigratesOnce | internal/storage/migrate.go:26-40 | a second migration finds nothing to do |
| Migration.WithSeriesExtends | internal/storage/migrate.go:75-80 | inserting series keeps ids and keys unique and unchanged and covers every row that names a series |
| Migration.NoOtherSeries | internal/storage/migrate.go:75-80 | every series afterwards was there before or is named by a row |
| Migration.MovedReadsSame | internal/storage/migrate.go:95-108 | each old row that names a series is copied once, under that series |
| Migration.MovedIff | internal/storage/migrate.go:82-108 | the copy succeeds exactly when every such row has its required columns |
| Migration.AllRowsReadIff | internal/storage/migrate.go:99-106 | no row is left behind exactly when all have an agent, target, address and port |
| Migration.NamelessRowIsLeftBehind | internal/storage/migrate.go:94-108 | a database whose only row names no series: it is migrated to an empty table |
| Migration.OldRollupsAreRefused | internal/storage/migrate.go:49-123 | old rollups without agent_ip are refused, which old results without it, or old rollups with it, are not |

## Left out

- RetentionRuns.RunConserves: the interval is fixed and aligned, cutoffs lie after 1970, no row of the bucket is saved from behind a used cutoff or has a fraction in the second of one; RunConservesIff is the exact condition for any interval and rows, over saves and complete cleanups.
- PagedStream.StreamWindow: the copy of the code that streams rollups is the same method on the other table.
- Retention.SqliteStore.SaveResults: series ids and the heartbeats written in the same transaction are not part of the model.
- Downsample.Lttb: bucket sizes are exact fractions, and heights are null or finite, as the API delivers them.
- Spline.NeverOvershoots: `Math.hypot` is a parameter with the defining property of the length, since the reals of the model have no square root.
- Connectivity.StateReflectsHistory: the threshold is fixed, and no batch arrives at the zero time, which the code uses for "not failing".
- WorkerPool.ReturnedBatch: is about one task or more; without tasks the code returns before it starts anything.
- ResultsCache.HitIsLatest: says nothing about the database; a slow reader may set old data after a report has cleared the cache.
- Migration.Connection.MigrateSQLiteDB: the series are numbered in table order, where `SELECT DISTINCT` leaves the order open; the unique index that start-up creates on rollups afterwards is not modelled, so two old rollups that differ only in NULL against empty columns are not caught.
- Samples between the last cleanup's cutoff and the current raw cutoff are in neither half of a compacted read until the next cleanup; no coverage is claimed for them.
- SQLite itself: locking, WAL, query plans, its rounding of sub-millisecond fractions in `unixepoch()`, and the agreement of the in-memory series cache with `result_series` after a rollback.
- The order of equal timestamps in loaded reads: the model takes the index order.
- WebsocketHub.ClientSafety: closing a client's `done` is a step of its own for whoever took it off the map, broadcasters included.
- `sort.SliceStable` and Go's map iteration are specified, not implemented.
- Removal of agents, heartbeats, HTTP handlers, login, cookies, compression, JSON encoding, configuration parsing, back-off delays, dialling, DNS, drawing and touch handling: plumbing, or easy members only.
