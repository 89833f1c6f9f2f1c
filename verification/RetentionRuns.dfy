/** Saves and cleanups in any order, stopped anywhere: what the two tables still record. */
module RetentionRuns {
  import opened ChartRows
  import opened Common
  import opened Retention
  import opened StoredTime

  // ----- Groups of rows

  lemma {:induction false} MembersConcat(a: seq<Row>, b: seq<Row>, seconds: int, k: BucketKey)
    requires seconds > 0
    ensures Members(a + b, seconds, k) == Members(a, seconds, k) + Members(b, seconds, k)
  {
    hide KeyOf;
    if b == [] {
      assert a + b == a;
    } else {
      assert (a + b)[..|a + b| - 1] == a + b[..|b| - 1];
      MembersConcat(a, b[..|b| - 1], seconds, k);
    }
  }

  lemma {:induction false} MembersIff(rows: seq<Row>, seconds: int, k: BucketKey)
    requires seconds > 0
    ensures Members(rows, seconds, k) != [] <==> exists i :: 0 <= i < |rows| && KeyOf(rows[i], seconds) == k
    ensures k in BucketsOf(rows, seconds) <==> Members(rows, seconds, k) != []
  {
    hide KeyOf;
    if rows != [] {
      MembersIff(rows[..|rows| - 1], seconds, k);
    }
  }

  /** When the cutoff does not split a group, its rows are all before or all left. */
  lemma {:induction false} WholeGroupBefore(rows: seq<Row>, seconds: int, k: BucketKey, cutoff: int)
    requires seconds > 0
    requires forall i :: 0 <= i < |rows| && KeyOf(rows[i], seconds) == k ==> TextBefore(rows[i].checkedAt, cutoff)
    ensures Members(Before(rows, cutoff), seconds, k) == Members(rows, seconds, k)
    ensures Members(NotBefore(rows, cutoff), seconds, k) == []
  {
    hide KeyOf, TextBefore;
    if rows != [] {
      var last := rows[|rows| - 1];
      WholeGroupBefore(rows[..|rows| - 1], seconds, k, cutoff);
      MembersConcat(Before(rows[..|rows| - 1], cutoff), [last], seconds, k);
      MembersConcat(NotBefore(rows[..|rows| - 1], cutoff), [last], seconds, k);
      MembersOne(last, seconds, k);
    }
  }

  lemma {:induction false} WholeGroupLeft(rows: seq<Row>, seconds: int, k: BucketKey, cutoff: int)
    requires seconds > 0
    requires forall i :: 0 <= i < |rows| && KeyOf(rows[i], seconds) == k ==> !TextBefore(rows[i].checkedAt, cutoff)
    ensures Members(NotBefore(rows, cutoff), seconds, k) == Members(rows, seconds, k)
    ensures Members(Before(rows, cutoff), seconds, k) == []
  {
    hide KeyOf, TextBefore;
    if rows != [] {
      var last := rows[|rows| - 1];
      WholeGroupLeft(rows[..|rows| - 1], seconds, k, cutoff);
      MembersConcat(Before(rows[..|rows| - 1], cutoff), [last], seconds, k);
      MembersConcat(NotBefore(rows[..|rows| - 1], cutoff), [last], seconds, k);
      MembersOne(last, seconds, k);
    }
  }

  lemma MembersOne(r: Row, seconds: int, k: BucketKey)
    requires seconds > 0
    ensures Members([r], seconds, k) == if KeyOf(r, seconds) == k then [r] else []
  {
    assert [r][..0] == [];
    assert Members([], seconds, k) == [];
  }

  // ----- Runs

  /** The one cleaner goroutine: between cleanups, or after its first or second statement. */
  datatype Cleaner = Resting | HasRolledUp(cutoff: int, retentionCutoff: int) | HasDeleted(retentionCutoff: int)

  /**
   * history: every row ever saved. mark, gone: the latest seconds before which rows were rolled up and deleted.
   * kept: the latest second before which rollups were deleted.
   */
  datatype State = State(store: Store, cleaner: Cleaner, history: seq<Row>, mark: int, gone: int, kept: int)

  datatype Step =
    | Save(results: seq<Row>)
    | RollUp(rawCutoff: int, retentionCutoff: int)
    | DeleteRaw
    | DeleteRollups
    | Abort

  const START: State := State(Store([], map[]), Resting, [], -OFFSET, -OFFSET, -OFFSET)

  function Max(a: int, b: int): int {
    if a < b then b else a
  }

  /** The statements of one cleanup come in order; cutoffs lie after 1970. */
  predicate Enabled(m: State, seconds: int, step: Step) {
    match step
    case Save(_) => true
    case RollUp(rawCutoff, _) => m.cleaner.Resting? && CutoffSecond(rawCutoff, seconds) > 0
    case DeleteRaw => m.cleaner.HasRolledUp?
    case DeleteRollups => m.cleaner.HasDeleted?
    case Abort => true
  }

  function Apply(m: State, seconds: int, step: Step): State
    requires seconds > 0 && Enabled(m, seconds, step)
  {
    match step
    case Save(results) =>
      m.(store := m.store.(raw := m.store.raw + results), history := m.history + results)
    case RollUp(rawCutoff, retentionCutoff) =>
      m.(store := RolledUp(m.store, rawCutoff, seconds * NANOS), cleaner := HasRolledUp(rawCutoff, retentionCutoff),
         mark := Max(m.mark, CutoffSecond(rawCutoff, seconds)))
    case DeleteRaw =>
      m.(store := RawDeleted(m.store, Truncate(m.cleaner.cutoff, seconds * NANOS)),
         cleaner := HasDeleted(m.cleaner.retentionCutoff), gone := Max(m.gone, CutoffSecond(m.cleaner.cutoff, seconds)))
    case DeleteRollups =>
      m.(store := RollupsDeleted(m.store, m.cleaner.retentionCutoff), cleaner := Resting,
         kept := Max(m.kept, Sec(m.cleaner.retentionCutoff)))
    case Abort => m.(cleaner := Resting)
  }

  predicate IsRun(m: State, seconds: int, run: seq<Step>)
    requires seconds > 0
    decreases run
  {
    run == [] || (Enabled(m, seconds, run[0]) && IsRun(Apply(m, seconds, run[0]), seconds, run[1..]))
  }

  function End(m: State, seconds: int, run: seq<Step>): State
    requires seconds > 0 && IsRun(m, seconds, run)
    decreases run
  {
    if run == [] then m else End(Apply(m, seconds, run[0]), seconds, run[1..])
  }

  // ----- Steps that treat one bucket as they should

  /** A row stored with a fraction in the very second of the cutoff. */
  predicate Straddles(r: Row, second: int) {
    Sec(r.checkedAt) == second && Frac(r.checkedAt) > 0
  }

  /** No row of the bucket is saved from behind a used cutoff, and none that is stored straddles a new one. */
  predicate Spares(m: State, seconds: int, step: Step, k: BucketKey)
    requires seconds > 0
  {
    match step
    case Save(results) =>
      forall i :: 0 <= i < |results| && KeyOf(results[i], seconds) == k ==>
        !TextBefore(results[i].checkedAt, m.mark * NANOS)
    case RollUp(rawCutoff, _) =>
      forall i :: 0 <= i < |m.store.raw| && KeyOf(m.store.raw[i], seconds) == k ==>
        !Straddles(m.store.raw[i], CutoffSecond(rawCutoff, seconds))
    case _ => true
  }

  /** Every step of the run spares the bucket; other buckets may fare as they like. */
  predicate RunSpares(m: State, seconds: int, run: seq<Step>, k: BucketKey)
    requires seconds > 0 && IsRun(m, seconds, run)
    decreases run
  {
    run == []
    || (Spares(m, seconds, run[0], k) && RunSpares(Apply(m, seconds, run[0]), seconds, run[1..], k))
  }

  // ----- The invariant of one bucket

  predicate Ended(k: BucketKey, seconds: int, second: int) {
    k.start + seconds <= second
  }

  /** The cutoff takes the stored rows of the bucket if it has ended by then, and none of them otherwise. */
  predicate TakesWhole(rows: seq<Row>, seconds: int, k: BucketKey, second: int)
    requires seconds > 0
  {
    forall i :: 0 <= i < |rows| && KeyOf(rows[i], seconds) == k ==>
      (TextBefore(rows[i].checkedAt, second * NANOS) <==> Ended(k, seconds, second))
  }

  /** The bucket has a rollup exactly when it ended by the mark and had rows, and then of all its rows. */
  predicate Matches(m: State, seconds: int, k: BucketKey)
    requires seconds > 0
  {
    var members := Members(m.history, seconds, k);
    && (k in m.store.rollups <==> Ended(k, seconds, m.mark) && members != [])
    && (k in m.store.rollups ==> m.store.rollups[k] == Summary(members))
  }

  /** Its raw rows are all there until it has ended by a cutoff of a deletion, and then all gone. */
  predicate RawMatches(m: State, seconds: int, k: BucketKey)
    requires seconds > 0
  {
    Members(m.store.raw, seconds, k) == if Ended(k, seconds, m.gone) then [] else Members(m.history, seconds, k)
  }

  predicate Pending(m: State, seconds: int, k: BucketKey)
    requires seconds > 0
  {
    m.cleaner.HasRolledUp? ==>
      var c := CutoffSecond(m.cleaner.cutoff, seconds);
      c <= m.mark && TakesWhole(m.store.raw, seconds, k, c)
  }

  /** Only of kept rollups is it known that they are there. */
  predicate Inv(m: State, seconds: int, k: BucketKey)
    requires seconds > 0
  {
    && m.gone <= m.mark
    && RawMatches(m, seconds, k)
    && Pending(m, seconds, k)
    && (k in m.store.rollups ==> Ended(k, seconds, m.mark))
    && (k.start >= m.kept ==> Matches(m, seconds, k))
  }

  lemma BeforeEither(r: Row, a: int, b: int)
    ensures TextBefore(r.checkedAt, Max(a, b) * NANOS)
       <==> TextBefore(r.checkedAt, a * NANOS) || TextBefore(r.checkedAt, b * NANOS)
  {
    BeforeWholeSecond(r.checkedAt, a);
    BeforeWholeSecond(r.checkedAt, b);
    BeforeWholeSecond(r.checkedAt, Max(a, b));
  }

  /** A row from behind no used cutoff lies in a bucket that has not ended. */
  lemma TimelyIsOpen(at: int, seconds: int, mark: int)
    requires seconds > 0 && !TextBefore(at, mark * NANOS)
    ensures BucketStart(at, seconds) + seconds > mark
  {
    BeforeWholeSecond(at, mark);
    BucketRange(at, seconds);
  }

  lemma SaveKeepsInv(m: State, seconds: int, results: seq<Row>, k: BucketKey)
    requires seconds > 0 && Inv(m, seconds, k) && Spares(m, seconds, Save(results), k)
    ensures Inv(Apply(m, seconds, Save(results)), seconds, k)
  {
    hide Summary, TextBefore;
    MembersConcat(m.history, results, seconds, k);
    MembersConcat(m.store.raw, results, seconds, k);
    MembersIff(results, seconds, k);
    forall i | 0 <= i < |results| && KeyOf(results[i], seconds) == k
      ensures !Ended(k, seconds, m.mark)
    {
      TimelyIsOpen(results[i].checkedAt, seconds, m.mark);
    }
    if Members(results, seconds, k) == [] {
      AddNothing(Members(m.history, seconds, k));
      AddNothing(Members(m.store.raw, seconds, k));
    }
    SaveKeepsPending(m, seconds, results, k);
  }

  lemma AddNothing(rows: seq<Row>)
    ensures rows + [] == rows
  {
  }

  lemma SaveKeepsPending(m: State, seconds: int, results: seq<Row>, k: BucketKey)
    requires seconds > 0 && Pending(m, seconds, k) && Spares(m, seconds, Save(results), k)
    ensures Pending(Apply(m, seconds, Save(results)), seconds, k)
  {
    if m.cleaner.HasRolledUp? {
      var c := CutoffSecond(m.cleaner.cutoff, seconds);
      hide CutoffSecond, TextBefore;
      var raw := m.store.raw + results;
      forall i | 0 <= i < |raw| && KeyOf(raw[i], seconds) == k
        ensures TextBefore(raw[i].checkedAt, c * NANOS) <==> Ended(k, seconds, c)
      {
        if i >= |m.store.raw| {
          assert raw[i] == results[i - |m.store.raw|];
          BeforeEither(raw[i], c, m.mark);
          TimelyIsOpen(raw[i].checkedAt, seconds, m.mark);
        }
      }
    }
  }

  /** An aligned cutoff that no row of the bucket straddles takes the bucket whole. */
  lemma AlignedTakesWhole(rows: seq<Row>, seconds: int, k: BucketKey, c: int, q: int)
    requires seconds > 0 && c == q * seconds > 0
    requires forall i :: 0 <= i < |rows| && KeyOf(rows[i], seconds) == k ==> !Straddles(rows[i], c)
    ensures TakesWhole(rows, seconds, k, c)
  {
    forall i | 0 <= i < |rows| && KeyOf(rows[i], seconds) == k
      ensures TextBefore(rows[i].checkedAt, c * NANOS) <==> Ended(k, seconds, c)
    {
      BeforeWholeSecond(rows[i].checkedAt, c);
      BucketEndsBefore(rows[i].checkedAt, seconds, q);
    }
  }

  lemma TakenWhole(rows: seq<Row>, seconds: int, k: BucketKey, c: int)
    requires seconds > 0 && TakesWhole(rows, seconds, k, c)
    ensures Members(Before(rows, c * NANOS), seconds, k)
         == if Ended(k, seconds, c) then Members(rows, seconds, k) else []
    ensures Members(NotBefore(rows, c * NANOS), seconds, k)
         == if Ended(k, seconds, c) then [] else Members(rows, seconds, k)
  {
    hide TextBefore, KeyOf;
    if Ended(k, seconds, c) {
      WholeGroupBefore(rows, seconds, k, c * NANOS);
    } else {
      WholeGroupLeft(rows, seconds, k, c * NANOS);
    }
  }

  /** Rolling up at second c, said without the rounding. */
  lemma RolledUpAt(s: Store, seconds: int, rawCutoff: int)
    requires seconds > 0 && CutoffSecond(rawCutoff, seconds) > 0
    ensures var c := CutoffSecond(rawCutoff, seconds);
      && Truncate(rawCutoff, seconds * NANOS) == c * NANOS
      && RolledUp(s, rawCutoff, seconds * NANOS)
         == s.(rollups := Grouped(Before(s.raw, c * NANOS), seconds) + s.rollups)
  {
    var q := TruncatedToSecond(rawCutoff, seconds);
    assert seconds * NANOS >= NANOS && seconds * NANOS / NANOS == seconds;
  }

  lemma RollUpKeepsInv(m: State, seconds: int, rawCutoff: int, retentionCutoff: int, k: BucketKey)
    requires seconds > 0 && Aligned(seconds) && Inv(m, seconds, k)
    requires Enabled(m, seconds, RollUp(rawCutoff, retentionCutoff))
    requires Spares(m, seconds, RollUp(rawCutoff, retentionCutoff), k)
    ensures Inv(Apply(m, seconds, RollUp(rawCutoff, retentionCutoff)), seconds, k)
  {
    var q := AlignedCutoff(rawCutoff, seconds);
    var c := CutoffSecond(rawCutoff, seconds);
    RolledUpAt(m.store, seconds, rawCutoff);
    AlignedTakesWhole(m.store.raw, seconds, k, c, q);
    TakenWhole(m.store.raw, seconds, k, c);
    MembersIff(Before(m.store.raw, c * NANOS), seconds, k);
    hide Truncate, CutoffSecond, RolledUp, TextBefore, Summary, Members, Before, BucketsOf, KeyOf, TakesWhole;
  }

  lemma DeleteRawKeepsInv(m: State, seconds: int, k: BucketKey)
    requires seconds > 0 && Inv(m, seconds, k) && Enabled(m, seconds, DeleteRaw)
    ensures Inv(Apply(m, seconds, DeleteRaw), seconds, k)
  {
    var c := CutoffSecond(m.cleaner.cutoff, seconds);
    var q := TruncatedToSecond(m.cleaner.cutoff, seconds);
    TakenWhole(m.store.raw, seconds, k, c);
    hide Truncate, CutoffSecond, TextBefore, Summary, Members, NotBefore, TakesWhole;
  }

  lemma DeleteRollupsKeepsInv(m: State, seconds: int, k: BucketKey)
    requires seconds > 0 && Inv(m, seconds, k) && Enabled(m, seconds, DeleteRollups)
    ensures Inv(Apply(m, seconds, DeleteRollups), seconds, k)
  {
    WholeSecondBefore(k.start, m.cleaner.retentionCutoff);
    hide TextBefore, Summary, Members;
  }

  /** A step that spares the bucket keeps its raw rows and its rollup in step with its history. */
  lemma StepKeepsInv(m: State, seconds: int, step: Step, k: BucketKey)
    requires seconds > 0 && Aligned(seconds) && Inv(m, seconds, k)
    requires Enabled(m, seconds, step) && Spares(m, seconds, step, k)
    ensures Inv(Apply(m, seconds, step), seconds, k)
  {
    match step
    case Save(results) => SaveKeepsInv(m, seconds, results, k);
    case RollUp(rawCutoff, retentionCutoff) => RollUpKeepsInv(m, seconds, rawCutoff, retentionCutoff, k);
    case DeleteRaw => DeleteRawKeepsInv(m, seconds, k);
    case DeleteRollups => DeleteRollupsKeepsInv(m, seconds, k);
    case Abort =>
  }

  lemma {:induction false} RunKeepsInv(m: State, seconds: int, run: seq<Step>, k: BucketKey)
    requires seconds > 0 && Aligned(seconds) && Inv(m, seconds, k)
    requires IsRun(m, seconds, run) && RunSpares(m, seconds, run, k)
    ensures Inv(End(m, seconds, run), seconds, k)
    decreases run
  {
    hide Inv, Apply, Enabled, Spares;
    if run != [] {
      StepKeepsInv(m, seconds, run[0], k);
      RunKeepsInv(Apply(m, seconds, run[0]), seconds, run[1..], k);
    }
  }

  lemma StartInv(seconds: int, k: BucketKey)
    requires seconds > 0
    ensures Inv(START, seconds, k)
  {
  }

  // ----- What the tables hold of a bucket

  /** The rollup and the raw rows together. */
  function Stored(s: Store, seconds: int, k: BucketKey): Totals
    requires seconds > 0
  {
    Add(if k in s.rollups then RollupWorth(s.rollups[k]) else NOTHING, Worth(Members(s.raw, seconds, k)))
  }

  lemma StoredOne(s: Store, seconds: int, k: BucketKey)
    requires seconds > 0
    ensures k !in s.rollups ==> Stored(s, seconds, k) == Worth(Members(s.raw, seconds, k))
    ensures k in s.rollups && Members(s.raw, seconds, k) == [] ==> Stored(s, seconds, k) == RollupWorth(s.rollups[k])
  {
  }

  /**
   * Over any run of saves and cleanups, stopped anywhere and started again, a bucket that is kept and that every
   * step spares has either all its raw rows or a rollup of them all; and whenever what was rolled up has been
   * deleted, the two tables together hold exactly the samples ever saved into it, each once.
   */
  lemma RunConserves(seconds: int, run: seq<Step>, k: BucketKey)
    requires seconds > 0 && Aligned(seconds) && IsRun(START, seconds, run) && RunSpares(START, seconds, run, k)
    ensures var m := End(START, seconds, run); var members := Members(m.history, seconds, k);
      k.start >= m.kept ==>
        && (k !in m.store.rollups ==> Members(m.store.raw, seconds, k) == members)
        && (k in m.store.rollups ==> RollupWorth(m.store.rollups[k]) == Worth(members))
        && (m.gone == m.mark ==> Stored(m.store, seconds, k) == Worth(members))
        && (m.gone == m.mark && k in m.store.rollups ==> Members(m.store.raw, seconds, k) == [])
  {
    hide Worth, RollupWorth, Members, Summary, Stored;
    StartInv(seconds, k);
    RunKeepsInv(START, seconds, run, k);
    var m := End(START, seconds, run);
    SummaryKeepsWorth(Members(m.history, seconds, k));
    StoredOne(m.store, seconds, k);
  }

  /** The steps of the run are the method's: a cleanup that got so far leaves what so many steps leave. */
  lemma CleanupIsSteps(m: State, seconds: int, rawCutoff: int, retentionCutoff: int)
    requires seconds > 0 && Enabled(m, seconds, RollUp(rawCutoff, retentionCutoff))
    ensures var interval := seconds * NANOS;
      var one := Apply(m, seconds, RollUp(rawCutoff, retentionCutoff));
      var two := Apply(one, seconds, DeleteRaw);
      && Enabled(one, seconds, Abort) && Enabled(two, seconds, Abort)
      && one.store == Cleaned(m.store, rawCutoff, retentionCutoff, interval, DeleteFails)
      && two.store == Cleaned(m.store, rawCutoff, retentionCutoff, interval, DeleteRollupsFails)
      && Apply(two, seconds, DeleteRollups).store == Cleaned(m.store, rawCutoff, retentionCutoff, interval, Complete)
  {
    hide RolledUp, RawDeleted, RollupsDeleted;
  }

  /** Once rollups have been deleted, none is left that starts before that cutoff's second. */
  lemma OldRollupsAreGone(m: State, seconds: int, k: BucketKey)
    requires seconds > 0 && Enabled(m, seconds, DeleteRollups)
    ensures var after := Apply(m, seconds, DeleteRollups).store;
      && (k in after.rollups <==> k in m.store.rollups && k.start >= Sec(m.cleaner.retentionCutoff))
      && (k in after.rollups ==> after.rollups[k] == m.store.rollups[k])
      && after.raw == m.store.raw
  {
    RollupsDeletedIff(m.store, m.cleaner.retentionCutoff, k);
    hide RollupsDeleted, Sec;
  }

  /** A rollup is there afterwards exactly if it was before, or some row of its bucket is before the cutoff. */
  lemma RolledUpIff(s: Store, seconds: int, rawCutoff: int, k: BucketKey)
    requires seconds > 0 && CutoffSecond(rawCutoff, seconds) > 0
    ensures var after := RolledUp(s, rawCutoff, seconds * NANOS);
      var cutoff := CutoffSecond(rawCutoff, seconds) * NANOS;
      && after.raw == s.raw
      && (k in after.rollups <==>
            k in s.rollups || exists r :: r in s.raw && KeyOf(r, seconds) == k && TextBefore(r.checkedAt, cutoff))
      && (k in s.rollups ==> after.rollups[k] == s.rollups[k])
      && (k in after.rollups && k !in s.rollups ==> after.rollups[k] == Summary(Taken(s.raw, seconds, k, cutoff)))
  {
    hide CutoffSecond, RolledUp, TextBefore, KeyOf, Summary, Before, Members, BucketsOf;
    var cutoff := CutoffSecond(rawCutoff, seconds) * NANOS;
    RolledUpAt(s, seconds, rawCutoff);
    MembersIff(Before(s.raw, cutoff), seconds, k);
    TakesSomeIff(s.raw, seconds, k, cutoff);
  }

  lemma TakesSomeIff(rows: seq<Row>, seconds: int, k: BucketKey, cutoff: int)
    requires seconds > 0
    ensures Taken(rows, seconds, k, cutoff) != [] <==>
      exists r :: r in rows && KeyOf(r, seconds) == k && TextBefore(r.checkedAt, cutoff)
  {
    hide TextBefore, KeyOf, Before, Members;
    var taken := Before(rows, cutoff);
    MembersIff(taken, seconds, k);
    if i :| 0 <= i < |taken| && KeyOf(taken[i], seconds) == k {
      BeforeIff(rows, cutoff, taken[i]);
    }
    if r :| r in rows && KeyOf(r, seconds) == k && TextBefore(r.checkedAt, cutoff) {
      BeforeIff(rows, cutoff, r);
      var i :| 0 <= i < |taken| && taken[i] == r;
    }
  }

  // ----- Reading while the cleaner works

  lemma {:induction false} HistoryGrows(m: State, seconds: int, run: seq<Step>, k: BucketKey)
    requires seconds > 0 && IsRun(m, seconds, run) && Members(m.history, seconds, k) != []
    ensures Members(End(m, seconds, run).history, seconds, k) != []
    decreases run
  {
    if run != [] {
      if run[0].Save? {
        MembersConcat(m.history, run[0].results, seconds, k);
      }
      hide Members;
      HistoryGrows(Apply(m, seconds, run[0]), seconds, run[1..], k);
    }
  }

  /** Raw row i is read, and the rollup of its bucket as well, from the tables as they are by then. */
  predicate ReadTwice(raw: Store, rollups: Store, seconds: int, since: int, rawCutoff: int, i: nat)
    requires seconds > 0 && i < |raw.raw|
  {
    var k := KeyOf(raw.raw[i], seconds);
    && !TextBefore(raw.raw[i].checkedAt, rawCutoff)
    && k in rollups.rollups
    && !TextBefore(k.start * NANOS, since)
    && TextBefore(k.start * NANOS, rawCutoff)
  }

  /**
   * The raw rows are read first, after one run, and the rollups later, after more steps. A row that is read raw is
   * read again inside a rollup exactly when its bucket starts within the range of the rollups and has ended by a
   * cutoff that was used before they were read.
   */
  lemma ReadTwiceIff(seconds: int, before: seq<Step>, between: seq<Step>, since: int, rawCutoff: int, i: nat)
    requires seconds > 0 && Aligned(seconds) && IsRun(START, seconds, before)
    requires IsRun(End(START, seconds, before), seconds, between)
    requires var m := End(START, seconds, before);
      && i < |m.store.raw| && !TextBefore(m.store.raw[i].checkedAt, rawCutoff)
      && RunSpares(START, seconds, before, KeyOf(m.store.raw[i], seconds))
      && RunSpares(m, seconds, between, KeyOf(m.store.raw[i], seconds))
      && KeyOf(m.store.raw[i], seconds).start >= End(m, seconds, between).kept
    ensures var m := End(START, seconds, before); var n := End(m, seconds, between);
      var k := KeyOf(m.store.raw[i], seconds);
      ReadTwice(m.store, n.store, seconds, since, rawCutoff, i)
      <==> Sec(since) <= k.start < Sec(rawCutoff) && k.start + seconds <= n.mark
  {
    var m := End(START, seconds, before);
    var n := End(m, seconds, between);
    var k := KeyOf(m.store.raw[i], seconds);
    hide Apply, Enabled, Spares, Summary, TextBefore, KeyOf;
    StartInv(seconds, k);
    RunKeepsInv(START, seconds, before, k);
    RunKeepsInv(m, seconds, between, k);
    MembersIff(m.store.raw, seconds, k);
    HistoryGrows(m, seconds, between, k);
    WholeSecondBefore(k.start, since);
    WholeSecondBefore(k.start, rawCutoff);
  }

  /** So never, while no cutoff beyond the reader's own has been used by then. */
  lemma NoDoubleDelivery(seconds: int, before: seq<Step>, between: seq<Step>, since: int, rawCutoff: int, i: nat)
    requires seconds > 0 && Aligned(seconds) && IsRun(START, seconds, before)
    requires IsRun(End(START, seconds, before), seconds, between)
    requires var m := End(START, seconds, before);
      && i < |m.store.raw|
      && RunSpares(START, seconds, before, KeyOf(m.store.raw[i], seconds))
      && RunSpares(m, seconds, between, KeyOf(m.store.raw[i], seconds))
      && End(m, seconds, between).mark <= Sec(rawCutoff)
    ensures var m := End(START, seconds, before);
      !ReadTwice(m.store, End(m, seconds, between).store, seconds, since, rawCutoff, i)
  {
    hide Apply, Enabled, Spares, Matches, RawMatches, Pending;
    var m := End(START, seconds, before);
    var n := End(m, seconds, between);
    var k := KeyOf(m.store.raw[i], seconds);
    StartInv(seconds, k);
    RunKeepsInv(START, seconds, before, k);
    RunKeepsInv(m, seconds, between, k);
    WholeSecondBefore(k.start, rawCutoff);
    BucketRange(m.store.raw[i].checkedAt, seconds);
  }

  /** A cleanup between the two statements of an hourly read: the row of 01:59:59 comes raw and inside a rollup. */
  lemma CleanupBetweenReadsTwice(series: SeriesKey)
    ensures var row := Row(7199 * NANOS, series, 0, 0, 1, 0, 10.0, 1.0, EMPTY_TEXT);
      var before, between := [Save([row])], [RollUp(7200 * NANOS, 0)];
      && IsRun(START, 3600, before) && IsRun(End(START, 3600, before), 3600, between)
      && var m := End(START, 3600, before);
         |m.store.raw| == 1
         && ReadTwice(m.store, End(m, 3600, between).store, 3600, 0, 7198 * NANOS + 500_000_000, 0)
  {
    var row := Row(7199 * NANOS, series, 0, 0, 1, 0, 10.0, 1.0, EMPTY_TEXT);
    var before, between := [Save([row])], [RollUp(7200 * NANOS, 0)];
    var k := KeyOf(row, 3600);
    assert k.start == 3600;
    BeforeWholeSecond(row.checkedAt, -OFFSET);
    OneStep(START, 3600, Save([row]), k);
    var m := Apply(START, 3600, Save([row]));
    assert m.store.raw == [row];
    assert CutoffSecond(7200 * NANOS, 3600) == 7200;
    OneStep(m, 3600, RollUp(7200 * NANOS, 0), k);
    ReadTwiceIff(3600, before, between, 0, 7198 * NANOS + 500_000_000, 0);
  }

  lemma OneStep(m: State, seconds: int, step: Step, k: BucketKey)
    requires seconds > 0 && Enabled(m, seconds, step)
    ensures IsRun(m, seconds, [step]) && End(m, seconds, [step]) == Apply(m, seconds, step)
    ensures Spares(m, seconds, step, k) ==> RunSpares(m, seconds, [step], k)
  {
    hide Apply, Enabled, Spares;
    var run := [step];
    assert run[1..] == [];
    assert IsRun(Apply(m, seconds, step), seconds, []);
    assert End(Apply(m, seconds, step), seconds, []) == Apply(m, seconds, step);
  }

  // ----- Exactly when a cleanup loses samples

  /** Rolled up and deleted behind one cutoff, whether or not buckets are split by it. */
  function Passed(s: Store, seconds: int, cutoff: int): Store
    requires seconds > 0
  {
    Store(NotBefore(s.raw, cutoff), Grouped(Before(s.raw, cutoff), seconds) + s.rollups)
  }

  lemma PassedIsCleaned(s: Store, seconds: int, rawCutoff: int, retentionCutoff: int)
    requires seconds > 0 && CutoffSecond(rawCutoff, seconds) > 0
    ensures Cleaned(s, rawCutoff, retentionCutoff, seconds * NANOS, DeleteRollupsFails)
         == Passed(s, seconds, CutoffSecond(rawCutoff, seconds) * NANOS)
  {
    RolledUpAt(s, seconds, rawCutoff);
  }

  lemma {:induction false} FlaggedConcat(a: seq<Row>, b: seq<Row>)
    ensures AnyFlagged(a + b) <==> AnyFlagged(a) || AnyFlagged(b)
  {
    hide Flagged;
    if b == [] {
      AddNothing(a);
    } else {
      assert (a + b)[..|a + b| - 1] == a + b[..|b| - 1];
      FlaggedConcat(a, b[..|b| - 1]);
    }
  }

  lemma WorthConcat(a: seq<Row>, b: seq<Row>)
    ensures Worth(a + b) == Add(Worth(a), Worth(b))
  {
    CountsConcat(a, b);
    FlaggedConcat(a, b);
  }

  function Taken(rows: seq<Row>, seconds: int, k: BucketKey, cutoff: int): seq<Row>
    requires seconds > 0
  {
    Members(Before(rows, cutoff), seconds, k)
  }

  function Left(rows: seq<Row>, seconds: int, k: BucketKey, cutoff: int): seq<Row>
    requires seconds > 0
  {
    Members(NotBefore(rows, cutoff), seconds, k)
  }

  lemma MembersLast(front: seq<Row>, last: Row, seconds: int, k: BucketKey)
    requires seconds > 0
    ensures Members(front + [last], seconds, k)
         == if KeyOf(last, seconds) == k then Members(front, seconds, k) + [last] else Members(front, seconds, k)
  {
    hide KeyOf;
    assert (front + [last])[..|front|] == front;
  }

  /** The last row joins what is taken of its bucket, or what is left. */
  lemma SplitLast(front: seq<Row>, last: Row, seconds: int, k: BucketKey, cutoff: int)
    requires seconds > 0
    ensures Taken(front + [last], seconds, k, cutoff)
         == if KeyOf(last, seconds) == k && TextBefore(last.checkedAt, cutoff)
            then Taken(front, seconds, k, cutoff) + [last]
            else Taken(front, seconds, k, cutoff)
    ensures Left(front + [last], seconds, k, cutoff)
         == if KeyOf(last, seconds) == k && !TextBefore(last.checkedAt, cutoff)
            then Left(front, seconds, k, cutoff) + [last]
            else Left(front, seconds, k, cutoff)
  {
    hide KeyOf, TextBefore, Members;
    assert (front + [last])[..|front|] == front;
    if TextBefore(last.checkedAt, cutoff) {
      MembersLast(Before(front, cutoff), last, seconds, k);
    } else {
      MembersLast(NotBefore(front, cutoff), last, seconds, k);
    }
  }

  lemma Shuffle(a: Totals, b: Totals, c: Totals)
    ensures Add(Add(a, b), c) == Add(Add(a, c), b) == Add(a, Add(b, c))
  {
  }

  /** The two parts are worth the whole, and the first counts for something unless it is empty. */
  predicate Parts(all: seq<Row>, taken: seq<Row>, left: seq<Row>) {
    && Worth(all) == Add(Worth(taken), Worth(left))
    && (taken != [] ==> Probes(taken) > 0)
  }

  /** What a cutoff takes of a bucket and what it leaves are worth the bucket. */
  lemma {:induction false} SplitWorth(rows: seq<Row>, seconds: int, k: BucketKey, cutoff: int)
    requires seconds > 0 && Counts(rows)
    ensures Parts(Members(rows, seconds, k), Taken(rows, seconds, k, cutoff), Left(rows, seconds, k, cutoff))
  {
    hide *;
    NoParts(seconds, k, cutoff);
    if rows != [] {
      var front, last := rows[..|rows| - 1], rows[|rows| - 1];
      FrontCounts(rows);
      SplitWorth(front, seconds, k, cutoff);
      assert rows == front + [last];
      MembersLast(front, last, seconds, k);
      SplitLast(front, last, seconds, k, cutoff);
      GrowParts(Members(front, seconds, k), Taken(front, seconds, k, cutoff), Left(front, seconds, k, cutoff), last);
    }
  }

  lemma FrontCounts(rows: seq<Row>)
    requires Counts(rows) && rows != []
    ensures Counts(rows[..|rows| - 1]) && rows[|rows| - 1].successes + rows[|rows| - 1].failures > 0
  {
  }

  lemma NoParts(seconds: int, k: BucketKey, cutoff: int)
    requires seconds > 0
    ensures Parts(Members([], seconds, k), Taken([], seconds, k, cutoff), Left([], seconds, k, cutoff))
  {
    WorthOfNone();
    Shuffle(NOTHING, NOTHING, NOTHING);
  }

  lemma GrowParts(all: seq<Row>, taken: seq<Row>, left: seq<Row>, last: Row)
    requires Parts(all, taken, left) && last.successes + last.failures > 0
    ensures Parts(all + [last], taken + [last], left)
    ensures Parts(all + [last], taken, left + [last])
  {
    hide Worth, Add, Probes;
    WorthConcat(all, [last]);
    WorthConcat(taken, [last]);
    WorthConcat(left, [last]);
    Shuffle(Worth(taken), Worth(left), Worth([last]));
    AddedProbes(taken, last);
  }

  lemma AddedProbes(rows: seq<Row>, last: Row)
    requires last.successes + last.failures > 0
    ensures Probes(rows + [last]) > 0
  {
    CountsConcat(rows, [last]);
    SumOne(last);
  }

  /** The cutoff takes a row of a bucket that has a rollup already: the row is ignored, and then deleted. */
  predicate TakesUncounted(s: Store, seconds: int, cutoff: int, k: BucketKey)
    requires seconds > 0
  {
    k in s.rollups && Taken(s.raw, seconds, k, cutoff) != []
  }

  /** One pass over any tables, for any interval and cutoff, keeps what they hold of a bucket exactly if it does not. */
  lemma PassConservesIff(s: Store, seconds: int, cutoff: int, k: BucketKey)
    requires seconds > 0 && Counts(s.raw)
    ensures Stored(Passed(s, seconds, cutoff), seconds, k) == Stored(s, seconds, k)
       <==> !TakesUncounted(s, seconds, cutoff, k)
  {
    var t, l := Taken(s.raw, seconds, k, cutoff), Left(s.raw, seconds, k, cutoff);
    PassedHolds(s, seconds, cutoff, k);
    SplitWorth(s.raw, seconds, k, cutoff);
    hide Members, Taken, Left, Add, Worth, RollupWorth, Passed, Probes;
    WorthOfNone();
    LessWithout(if k in s.rollups then RollupWorth(s.rollups[k]) else NOTHING, t, l);
  }

  /** What a pass leaves of a bucket: its old rollup if it had one, else one of the rows taken. */
  lemma PassedHolds(s: Store, seconds: int, cutoff: int, k: BucketKey)
    requires seconds > 0
    ensures var t, l := Taken(s.raw, seconds, k, cutoff), Left(s.raw, seconds, k, cutoff);
      Stored(Passed(s, seconds, cutoff), seconds, k)
      == Add(if k in s.rollups then RollupWorth(s.rollups[k]) else if t != [] then Worth(t) else NOTHING, Worth(l))
  {
    MembersIff(Before(s.raw, cutoff), seconds, k);
    SummaryKeepsWorth(Taken(s.raw, seconds, k, cutoff));
    hide Members, Before, NotBefore, Summary, Worth, RollupWorth, BucketsOf;
  }

  lemma WorthOfNone()
    ensures Worth([]) == NOTHING
  {
  }

  lemma LessWithout(a: Totals, t: seq<Row>, l: seq<Row>)
    ensures Probes(t) > 0 ==> Add(a, Worth(l)) != Add(a, Add(Worth(t), Worth(l)))
    ensures Add(NOTHING, Add(Worth(t), Worth(l))) == Add(Worth(t), Worth(l))
    ensures Add(NOTHING, Worth(l)) == Worth(l)
  {
  }

  /**
   * Two passes over a bucket without a rollup lose samples exactly when the first takes some of its rows and the
   * second takes some of those the first has left.
   */
  lemma TwoPassesConserveIff(s: Store, seconds: int, first: int, second: int, k: BucketKey)
    requires seconds > 0 && Counts(s.raw) && k !in s.rollups
    ensures Stored(Passed(Passed(s, seconds, first), seconds, second), seconds, k) == Stored(s, seconds, k)
       <==> Taken(s.raw, seconds, k, first) == [] || Taken(NotBefore(s.raw, first), seconds, k, second) == []
  {
    var once := Passed(s, seconds, first);
    PassConservesIff(s, seconds, first, k);
    LeftCounts(s.raw, first);
    PassConservesIff(once, seconds, second, k);
    MembersIff(Before(s.raw, first), seconds, k);
    hide Members, Before, NotBefore, Summary, Stored, BucketsOf;
  }

  lemma {:induction false} LeftCounts(rows: seq<Row>, cutoff: int)
    requires Counts(rows)
    ensures Counts(NotBefore(rows, cutoff))
  {
    hide TextBefore;
    if rows != [] {
      assert forall i :: 0 <= i < |rows| - 1 ==> rows[..|rows| - 1][i] == rows[i];
      LeftCounts(rows[..|rows| - 1], cutoff);
    }
  }

  // ----- Any number of passes, with saves in between

  datatype Event = Saves(results: seq<Row>) | Cleans(rawCutoff: int, retentionCutoff: int)

  /** Whatever is saved stands for probes, cutoffs lie after 1970, and none takes the bucket's own rollup. */
  predicate KeepsRollup(events: seq<Event>, seconds: int, k: BucketKey) {
    forall i :: 0 <= i < |events| ==>
      match events[i]
      case Saves(results) => Counts(results)
      case Cleans(rawCutoff, retentionCutoff) =>
        CutoffSecond(rawCutoff, seconds) > 0 && Sec(retentionCutoff) <= k.start
  }

  function Happened(s: Store, seconds: int, event: Event): Store {
    match event
    case Saves(results) => s.(raw := s.raw + results)
    case Cleans(rawCutoff, retentionCutoff) => Cleaned(s, rawCutoff, retentionCutoff, seconds * NANOS, Complete)
  }

  function After(events: seq<Event>, seconds: int): Store {
    if events == [] then Store([], map[])
    else Happened(After(events[..|events| - 1], seconds), seconds, events[|events| - 1])
  }

  function SavedBy(events: seq<Event>): seq<Row> {
    if events == [] then []
    else
      var front := SavedBy(events[..|events| - 1]);
      match events[|events| - 1]
      case Saves(results) => front + results
      case Cleans(_, _) => front
  }

  /** No cleanup finds rows of the bucket to take once it has a rollup. */
  predicate NoneUncounted(events: seq<Event>, seconds: int, k: BucketKey)
    requires seconds > 0
  {
    events == [] ||
    var front := events[..|events| - 1];
    && NoneUncounted(front, seconds, k)
    && (events[|events| - 1].Cleans? ==>
          var cutoff := CutoffSecond(events[|events| - 1].rawCutoff, seconds) * NANOS;
          !TakesUncounted(After(front, seconds), seconds, cutoff, k))
  }

  function ProbesIn(t: Totals): nat {
    t.successes + t.failures
  }

  /**
   * Over any run of saves and complete cleanups, for any interval and cutoffs: as long as its rollup is kept, the two
   * tables hold exactly what was ever saved into a bucket, each sample once, if and only if no cleanup takes a row of
   * it once it has a rollup.
   */
  lemma RunConservesIff(events: seq<Event>, seconds: int, k: BucketKey)
    requires seconds > 0 && KeepsRollup(events, seconds, k)
    ensures Stored(After(events, seconds), seconds, k) == Worth(Members(SavedBy(events), seconds, k))
       <==> NoneUncounted(events, seconds, k)
  {
    hide *;
    RunHolds(events, seconds, k);
  }

  /** Probes only ever get fewer: what one cleanup loses, no later event makes up for. */
  lemma {:induction false} RunHolds(events: seq<Event>, seconds: int, k: BucketKey)
    requires seconds > 0 && KeepsRollup(events, seconds, k)
    ensures Counts(After(events, seconds).raw)
    ensures var held, saved := Stored(After(events, seconds), seconds, k), Worth(Members(SavedBy(events), seconds, k));
      if NoneUncounted(events, seconds, k) then held == saved else ProbesIn(held) < ProbesIn(saved)
  {
    hide Stored, Worth, Members, TakesUncounted, Counts, ProbesIn, CutoffSecond, Add, Cleaned;
    if events == [] {
      NothingHeld(seconds, k);
    } else {
      var front, last := events[..|events| - 1], events[|events| - 1];
      assert forall i :: 0 <= i < |front| ==> front[i] == events[i];
      RunHolds(front, seconds, k);
      assert last == events[|events| - 1];
      match last
      case Saves(results) =>
        SaveHolds(After(front, seconds), seconds, results, SavedBy(front), k);
        ProbesAdd(Stored(After(front, seconds), seconds, k), Worth(Members(results, seconds, k)));
        ProbesAdd(Worth(Members(SavedBy(front), seconds, k)), Worth(Members(results, seconds, k)));
      case Cleans(rawCutoff, retentionCutoff) =>
        CleanHolds(After(front, seconds), seconds, rawCutoff, retentionCutoff, k);
    }
  }

  lemma NothingHeld(seconds: int, k: BucketKey)
    requires seconds > 0
    ensures Stored(Store([], map[]), seconds, k) == Worth(Members([], seconds, k)) && Counts([])
  {
  }

  lemma SaveHolds(s: Store, seconds: int, results: seq<Row>, saved: seq<Row>, k: BucketKey)
    requires seconds > 0 && Counts(s.raw) && Counts(results)
    ensures Counts(s.raw + results)
    ensures var more := Worth(Members(results, seconds, k));
      && Stored(Happened(s, seconds, Saves(results)), seconds, k) == Add(Stored(s, seconds, k), more)
      && Worth(Members(saved + results, seconds, k)) == Add(Worth(Members(saved, seconds, k)), more)
  {
    hide Members, Worth, RollupWorth, Add;
    MembersConcat(s.raw, results, seconds, k);
    MembersConcat(saved, results, seconds, k);
    WorthConcat(Members(s.raw, seconds, k), Members(results, seconds, k));
    WorthConcat(Members(saved, seconds, k), Members(results, seconds, k));
    var rolled := if k in s.rollups then RollupWorth(s.rollups[k]) else NOTHING;
    Shuffle(rolled, Worth(Members(s.raw, seconds, k)), Worth(Members(results, seconds, k)));
  }

  lemma ProbesAdd(a: Totals, b: Totals)
    ensures ProbesIn(Add(a, b)) == ProbesIn(a) + ProbesIn(b)
  {
  }

  lemma CleanHolds(s: Store, seconds: int, rawCutoff: int, retentionCutoff: int, k: BucketKey)
    requires seconds > 0 && Counts(s.raw)
    requires CutoffSecond(rawCutoff, seconds) > 0 && Sec(retentionCutoff) <= k.start
    ensures var cutoff := CutoffSecond(rawCutoff, seconds) * NANOS;
      var held := Stored(Happened(s, seconds, Cleans(rawCutoff, retentionCutoff)), seconds, k);
      if TakesUncounted(s, seconds, cutoff, k) then ProbesIn(held) < ProbesIn(Stored(s, seconds, k))
      else held == Stored(s, seconds, k)
    ensures Counts(Happened(s, seconds, Cleans(rawCutoff, retentionCutoff)).raw)
  {
    hide Stored, TakesUncounted, ProbesIn, CutoffSecond, Passed;
    var cutoff := CutoffSecond(rawCutoff, seconds) * NANOS;
    CleanedHolds(s, seconds, rawCutoff, retentionCutoff, k);
    PassHolds(s, seconds, cutoff, k);
  }

  /** A complete cleanup leaves of the bucket what its pass leaves. */
  lemma CleanedHolds(s: Store, seconds: int, rawCutoff: int, retentionCutoff: int, k: BucketKey)
    requires seconds > 0
    requires CutoffSecond(rawCutoff, seconds) > 0 && Sec(retentionCutoff) <= k.start
    ensures var passed := Passed(s, seconds, CutoffSecond(rawCutoff, seconds) * NANOS);
      var cleaned := Happened(s, seconds, Cleans(rawCutoff, retentionCutoff));
      Stored(cleaned, seconds, k) == Stored(passed, seconds, k) && cleaned.raw == passed.raw
  {
    PassedIsCleaned(s, seconds, rawCutoff, retentionCutoff);
    WholeSecondBefore(k.start, retentionCutoff);
    hide CutoffSecond, Passed, RolledUp, RawDeleted, TextBefore, Members, Worth, RollupWorth;
  }

  lemma PassHolds(s: Store, seconds: int, cutoff: int, k: BucketKey)
    requires seconds > 0 && Counts(s.raw)
    ensures var held := Stored(Passed(s, seconds, cutoff), seconds, k);
      if TakesUncounted(s, seconds, cutoff, k) then ProbesIn(held) < ProbesIn(Stored(s, seconds, k))
      else held == Stored(s, seconds, k)
    ensures Counts(Passed(s, seconds, cutoff).raw)
  {
    PassConservesIff(s, seconds, cutoff, k);
    PassedHolds(s, seconds, cutoff, k);
    SplitWorth(s.raw, seconds, k, cutoff);
    LeftCounts(s.raw, cutoff);
    hide Members, Taken, Left, RollupWorth, NotBefore, Before, Grouped;
  }

  /**
   * At an aligned cutoff, a row taken shares a bucket with one left in the interval after the cutoff exactly
   * when it was stored with a fraction in the cutoff's own second.
   */
  lemma AlignedCutoffSplitsIff(taken: Row, left: Row, seconds: int, cutoff: int)
    requires seconds > 0 && Aligned(seconds) && CutoffSecond(cutoff, seconds) > 0
    requires var c := CutoffSecond(cutoff, seconds);
      !TextBefore(left.checkedAt, c * NANOS) && Sec(left.checkedAt) < c + seconds
    ensures var c := CutoffSecond(cutoff, seconds);
      TextBefore(taken.checkedAt, c * NANOS)
      && BucketStart(taken.checkedAt, seconds) == BucketStart(left.checkedAt, seconds)
      <==> Straddles(taken, c)
  {
    var q := AlignedCutoff(cutoff, seconds);
    var c := CutoffSecond(cutoff, seconds);
    BeforeWholeSecond(taken.checkedAt, c);
    BeforeWholeSecond(left.checkedAt, c);
    BucketEndsBefore(taken.checkedAt, seconds, q);
    BucketEndsBefore(left.checkedAt, seconds, q);
    BucketRange(left.checkedAt, seconds);
    SameMultiple(Sec(left.checkedAt), c, q, seconds);
    if Sec(taken.checkedAt) == c {
      SameMultiple(Sec(taken.checkedAt), c, q, seconds);
    }
  }

  /** Every other interval has cutoffs that split a bucket between two whole seconds. */
  lemma MisalignedCutoffSplits(seconds: int) returns (cutoff: int, taken: int, left: int)
    requires seconds > 0 && !Aligned(seconds)
    ensures var c := CutoffSecond(cutoff, seconds);
      && c > 0 && taken == (c - 1) * NANOS && left == c * NANOS
      && TextBefore(taken, c * NANOS) && !TextBefore(left, c * NANOS)
      && BucketStart(taken, seconds) == BucketStart(left, seconds)
  {
    cutoff := seconds * NANOS;
    var c := MisalignedCutoff(seconds);
    taken, left := (c - 1) * NANOS, c * NANOS;
    BeforeWholeSecond(taken, c);
    BeforeWholeSecond(left, c);
    assert Sec(taken) == c - 1 && Sec(left) == c;
    FirstBucket(taken, seconds);
    FirstBucket(left, seconds);
  }

  lemma MisalignedCutoff(seconds: int) returns (c: int)
    requires seconds > 0 && !Aligned(seconds)
    ensures c == CutoffSecond(seconds * NANOS, seconds) && 0 < c < seconds
  {
    var q := TruncatedToSecond(seconds * NANOS, seconds);
    c := CutoffSecond(seconds * NANOS, seconds);
    assert Sec(seconds * NANOS) == seconds;
    SumOfMultiples(q, 1, seconds);
    ModOfMultiple(q - 1, seconds);
    assert c == seconds ==> OFFSET == (q - 1) * seconds;
  }

  lemma FirstBucket(at: int, seconds: int)
    requires seconds > 0 && 0 <= Sec(at) < seconds
    ensures BucketStart(at, seconds) == 0
  {
    SameMultiple(Sec(at), 0, 0, seconds);
  }

  /** A complete cleanup is a pass, as long as every rollup it leaves is still kept. */
  lemma CompleteIsPassed(s: Store, seconds: int, rawCutoff: int, retentionCutoff: int)
    requires seconds > 0 && CutoffSecond(rawCutoff, seconds) > 0
    requires forall k :: k in Passed(s, seconds, CutoffSecond(rawCutoff, seconds) * NANOS).rollups ==>
      k.start >= Sec(retentionCutoff)
    ensures Cleaned(s, rawCutoff, retentionCutoff, seconds * NANOS, Complete)
         == Passed(s, seconds, CutoffSecond(rawCutoff, seconds) * NANOS)
  {
    var passed := Passed(s, seconds, CutoffSecond(rawCutoff, seconds) * NANOS);
    PassedIsCleaned(s, seconds, rawCutoff, retentionCutoff);
    forall k | k in passed.rollups ensures !TextBefore(k.start * NANOS, retentionCutoff) {
      WholeSecondBefore(k.start, retentionCutoff);
    }
    hide Passed, RolledUp, RawDeleted, TextBefore;
    assert RollupsDeleted(passed, retentionCutoff).rollups == passed.rollups;
  }

  lemma OneRow(r: Row, k: BucketKey, cutoff: int)
    requires KeyOf(r, 3600) == k
    ensures Members([r], 3600, k) == [r] && BucketsOf([r], 3600) == {k}
    ensures Before([r], cutoff) == (if TextBefore(r.checkedAt, cutoff) then [r] else [])
    ensures NotBefore([r], cutoff) == (if TextBefore(r.checkedAt, cutoff) then [] else [r])
    ensures Grouped([r], 3600) == map[k := Summary([r])]
  {
    hide KeyOf, TextBefore, Summary;
    assert [r][..0] == [];
    assert Members([], 3600, k) == [] && BucketsOf([], 3600) == {};
  }

  /** A sample of 01:00:00.5, and one of 01:00:30. */
  function HalfPast(series: SeriesKey): Row {
    Row(3600 * NANOS + 500_000_000, series, 0, 0, 1, 0, 10.0, 1.0, EMPTY_TEXT)
  }

  function Later(series: SeriesKey): Row {
    Row(3630 * NANOS, series, 0, 0, 1, 0, 20.0, 1.0, EMPTY_TEXT)
  }

  lemma SameHour(series: SeriesKey)
    ensures var a, b, k := HalfPast(series), Later(series), BucketKey(Series(series, 0, 0), 3600, 3600);
      && KeyOf(a, 3600) == k && KeyOf(b, 3600) == k
      && TextBefore(a.checkedAt, 3600 * NANOS)
      && !TextBefore(b.checkedAt, 3600 * NANOS) && TextBefore(b.checkedAt, 7200 * NANOS)
    ensures CutoffSecond(3660 * NANOS, 3600) == 3600 && CutoffSecond(7260 * NANOS, 3600) == 7200
  {
    var a, b := HalfPast(series), Later(series);
    BeforeWholeSecond(a.checkedAt, 3600);
    BeforeWholeSecond(b.checkedAt, 3600);
    BeforeWholeSecond(b.checkedAt, 7200);
  }

  /** An hourly cleanup at 01:00:00 and the next one lose what came later in that hour to a sample of 01:00:00.5. */
  lemma FractionLosesSamples(series: SeriesKey)
    ensures var a, b := HalfPast(series), Later(series);
      var s, k := Store([a, b], map[]), BucketKey(Series(series, 0, 0), 3600, 3600);
      var once := Cleaned(s, 3660 * NANOS, 0, 3600 * NANOS, Complete);
      var twice := Cleaned(once, 7260 * NANOS, 0, 3600 * NANOS, Complete);
      && once == Store([b], map[k := Summary([a])])
      && twice == Store([], map[k := Summary([a])])
      && Stored(s, 3600, k) == Worth([a, b]) && Stored(twice, 3600, k) == Worth([a])
  {
    var a, b := HalfPast(series), Later(series);
    var s, k := Store([a, b], map[]), BucketKey(Series(series, 0, 0), 3600, 3600);
    var once, twice := Store([b], map[k := Summary([a])]), Store([], map[k := Summary([a])]);
    SameHour(series);
    hide HalfPast, Later, KeyOf, TextBefore, CutoffSecond, Cleaned, Passed;
    hide Worth, RollupWorth, Summary, Stored, Members;
    FirstPass(a, b, k);
    SecondPass(a, b, k);
    CompleteIsPassed(s, 3600, 3660 * NANOS, 0);
    CompleteIsPassed(once, 3600, 7260 * NANOS, 0);
    SummaryKeepsWorth([a]);
    StoredOne(s, 3600, k);
    StoredOne(twice, 3600, k);
    NoRows(k);
  }

  lemma NoRows(k: BucketKey)
    ensures Members([], 3600, k) == []
  {
  }

  lemma FirstPass(a: Row, b: Row, k: BucketKey)
    requires KeyOf(a, 3600) == k && KeyOf(b, 3600) == k
    requires TextBefore(a.checkedAt, 3600 * NANOS) && !TextBefore(b.checkedAt, 3600 * NANOS)
    ensures Passed(Store([a, b], map[]), 3600, 3600 * NANOS) == Store([b], map[k := Summary([a])])
    ensures Members([a, b], 3600, k) == [a, b]
  {
    OneRow(a, k, 3600 * NANOS);
    hide TextBefore, KeyOf, Summary, Grouped;
    assert [a, b][..1] == [a];
    assert Grouped([a], 3600) + map[] == Grouped([a], 3600);
  }

  lemma SecondPass(a: Row, b: Row, k: BucketKey)
    requires KeyOf(b, 3600) == k && TextBefore(b.checkedAt, 7200 * NANOS)
    ensures Passed(Store([b], map[k := Summary([a])]), 3600, 7200 * NANOS) == Store([], map[k := Summary([a])])
  {
    OneRow(b, k, 7200 * NANOS);
    hide TextBefore, KeyOf, Summary, Grouped;
    assert map[k := Summary([b])] + map[k := Summary([a])] == map[k := Summary([a])];
  }
}
