/** The agent's queue of results not yet acknowledged, over any number of cycles. */
module RetryQueue {

  const UPLOAD_BATCH_SIZE := 200

  /** Only the order of results matters here, so a number stands for each. */
  type Result = int

  /** What became of a stretch of results that left the queue. */
  datatype Chunk = Acked(results: seq<Result>) | Dropped(results: seq<Result>)

  datatype Agent = Agent(pending: seq<Result>, log: seq<Chunk>)

  /** One turn of the main loop; accepted says how many uploads succeed before one fails. */
  datatype Cycle = CollectFails | Collected(batch: seq<Result>, accepted: nat)

  function Excess(length: nat, maximum: int): nat {
    if maximum > 0 && length > maximum then length - maximum else 0
  }

  function BatchLength(length: nat): nat {
    if UPLOAD_BATCH_SIZE > length then length else UPLOAD_BATCH_SIZE
  }

  /** Batches acknowledged, in order. */
  function Sent(pending: seq<Result>, accepted: nat): seq<Chunk>
    decreases accepted
  {
    if pending == [] || accepted == 0 then []
    else
      var n := BatchLength(|pending|);
      [Acked(pending[..n])] + Sent(pending[n..], accepted - 1)
  }

  function Left(pending: seq<Result>, accepted: nat): seq<Result>
    decreases accepted
  {
    if pending == [] || accepted == 0 then pending else Left(pending[BatchLength(|pending|)..], accepted - 1)
  }

  function DroppedFirst(all: seq<Result>, maximum: int): seq<Chunk> {
    var n := Excess(|all|, maximum);
    if n > 0 then [Dropped(all[..n])] else []
  }

  function Queued(a: Agent, batch: seq<Result>, maximum: int): seq<Result> {
    var all := a.pending + batch;
    all[Excess(|all|, maximum)..]
  }

  function Next(a: Agent, cycle: Cycle, maximum: int): Agent {
    match cycle
    case CollectFails => a
    case Collected(batch, accepted) =>
      var queued := Queued(a, batch, maximum);
      Agent(Left(queued, accepted), a.log + DroppedFirst(a.pending + batch, maximum) + Sent(queued, accepted))
  }

  function After(cycles: seq<Cycle>, maximum: int): Agent {
    if cycles == [] then Agent([], []) else Next(After(cycles[..|cycles| - 1], maximum), cycles[|cycles| - 1], maximum)
  }

  // ----- The code

  method AppendPendingResults(pending: seq<Result>, batch: seq<Result>, maximum: int) returns (kept: seq<Result>)
    ensures kept == (pending + batch)[Excess(|pending + batch|, maximum)..]
    ensures |kept| == if 0 < maximum < |pending + batch| then maximum else |pending + batch|
    ensures kept == (pending + batch)[|pending + batch| - |kept|..]
  {
    kept := pending + batch;
    if maximum > 0 && |kept| > maximum {
      kept := kept[|kept| - maximum..];
    }
  }

  method UploadPendingResults(pending: seq<Result>, accepted: nat)
    returns (left: seq<Result>, sent: seq<Chunk>, ok: bool)
    ensures left == Left(pending, accepted) && sent == Sent(pending, accepted)
    ensures ok <==> left == []
  {
    left, sent := pending, [];
    var answers := accepted;
    while |left| > 0
      invariant Left(left, answers) == Left(pending, accepted)
      invariant sent + Sent(left, answers) == Sent(pending, accepted)
    {
      var n := UPLOAD_BATCH_SIZE;
      if n > |left| {
        n := |left|;
      }
      if answers == 0 {
        return left, sent, false;
      }
      answers := answers - 1;
      sent := sent + [Acked(left[..n])];
      left := left[n..];
    }
    ok := true;
  }

  /** How many cycles at the end failed: nothing collected, or something left pending. */
  function FailedAtEnd(cycles: seq<Cycle>, maximum: int): nat {
    if cycles == [] || (cycles[|cycles| - 1].Collected? && After(cycles, maximum).pending == []) then 0
    else 1 + FailedAtEnd(cycles[..|cycles| - 1], maximum)
  }

  /** The main loop over the cycles given. */
  method MainLoop(cycles: seq<Cycle>, maximum: int) returns (agent: Agent, consecutiveFailures: nat)
    ensures agent == After(cycles, maximum)
    ensures consecutiveFailures == FailedAtEnd(cycles, maximum)
  {
    var pending, log := [], [];
    consecutiveFailures := 0;
    var t := 0;
    while t < |cycles|
      invariant 0 <= t <= |cycles|
      invariant Agent(pending, log) == After(cycles[..t], maximum)
      invariant consecutiveFailures == FailedAtEnd(cycles[..t], maximum)
    {
      var ok := cycles[t].Collected?;
      assert cycles[..t + 1][..t] == cycles[..t];
      if ok {
        log := log + DroppedFirst(pending + cycles[t].batch, maximum);
        pending := AppendPendingResults(pending, cycles[t].batch, maximum);
        if |pending| > 0 {
          var sent;
          pending, sent, ok := UploadPendingResults(pending, cycles[t].accepted);
          log := log + sent;
        }
      }
      if !ok {
        consecutiveFailures := consecutiveFailures + 1;
      } else {
        consecutiveFailures := 0;
      }
      t := t + 1;
    }
    assert cycles[..t] == cycles;
    agent := Agent(pending, log);
  }

  /** Cycle i fails: nothing is collected, or uploads of 200 fail before all that is queued by then is acknowledged. */
  predicate CycleFails(cycles: seq<Cycle>, maximum: int, i: nat)
    requires i < |cycles|
  {
    match cycles[i]
    case CollectFails => true
    case Collected(batch, accepted) =>
      var length := |After(cycles[..i], maximum).pending| + |batch|;
      UPLOAD_BATCH_SIZE * accepted < if 0 < maximum < length then maximum else length
  }

  /** The count is that of the longest ending of the run in which every cycle fails. */
  lemma {:induction false} FailedAtEndIsLongest(cycles: seq<Cycle>, maximum: int)
    ensures var n, count := |cycles|, FailedAtEnd(cycles, maximum);
      && count <= n
      && (forall i :: n - count <= i < n ==> CycleFails(cycles, maximum, i))
      && (count < n ==> !CycleFails(cycles, maximum, n - count - 1))
  {
    hide CycleFails;
    if cycles != [] {
      var front, n := cycles[..|cycles| - 1], |cycles|;
      FailedAtEndIsLongest(front, maximum);
      LastFailsIff(cycles, maximum);
      var count := FailedAtEnd(front, maximum);
      forall i | 0 <= i < n - 1 ensures CycleFails(front, maximum, i) == CycleFails(cycles, maximum, i) {
        SameCycle(front, cycles, maximum, i);
      }
    }
  }

  lemma SameCycle(front: seq<Cycle>, cycles: seq<Cycle>, maximum: int, i: nat)
    requires cycles != [] && front == cycles[..|cycles| - 1] && i < |front|
    ensures CycleFails(front, maximum, i) == CycleFails(cycles, maximum, i)
  {
    assert front[..i] == cycles[..i];
  }

  lemma LastFailsIff(cycles: seq<Cycle>, maximum: int)
    requires cycles != []
    ensures CycleFails(cycles, maximum, |cycles| - 1)
       <==> !(cycles[|cycles| - 1].Collected? && After(cycles, maximum).pending == [])
  {
    var front, last := cycles[..|cycles| - 1], cycles[|cycles| - 1];
    if last.Collected? {
      LeftLength(Queued(After(front, maximum), last.batch, maximum), last.accepted);
    }
  }

  // ----- Nothing is lost, duplicated or reordered

  function Flatten(log: seq<Chunk>): seq<Result> {
    if log == [] then [] else Flatten(log[..|log| - 1]) + log[|log| - 1].results
  }

  function History(cycles: seq<Cycle>): seq<Result> {
    if cycles == [] then []
    else
      var front, last := History(cycles[..|cycles| - 1]), cycles[|cycles| - 1];
      match last
      case CollectFails => front
      case Collected(batch, _) => front + batch
  }

  lemma {:induction false} FlattenConcat(a: seq<Chunk>, b: seq<Chunk>)
    ensures Flatten(a + b) == Flatten(a) + Flatten(b)
  {
    if b == [] {
      assert a + b == a;
    } else {
      assert (a + b)[..|a + b| - 1] == a + b[..|b| - 1];
      FlattenConcat(a, b[..|b| - 1]);
    }
  }

  lemma FlattenOne(c: Chunk)
    ensures Flatten([c]) == c.results
  {
    assert [c][..0] == [];
    assert Flatten([]) == [];
  }

  lemma {:induction false} SentThenLeft(pending: seq<Result>, accepted: nat)
    ensures Flatten(Sent(pending, accepted)) + Left(pending, accepted) == pending
    decreases accepted
  {
    hide Flatten, Sent, Left;
    Unfold(pending, accepted);
    if pending == [] || accepted == 0 {
      NothingYet();
      assert [] + pending == pending;
    } else {
      var n := BatchLength(|pending|);
      var first, rest := pending[..n], pending[n..];
      SentThenLeft(rest, accepted - 1);
      FlattenConcat([Acked(first)], Sent(rest, accepted - 1));
      FlattenOne(Acked(first));
      Regroup(first, Flatten(Sent(rest, accepted - 1)), Left(rest, accepted - 1));
    }
  }

  /** One upload more, or none. */
  lemma Unfold(pending: seq<Result>, accepted: nat)
    ensures pending == [] || accepted == 0 ==> Sent(pending, accepted) == [] && Left(pending, accepted) == pending
    ensures pending != [] && accepted > 0 ==>
      var n := BatchLength(|pending|);
      && 0 < n <= |pending| && n <= UPLOAD_BATCH_SIZE
      && Sent(pending, accepted) == [Acked(pending[..n])] + Sent(pending[n..], accepted - 1)
      && Left(pending, accepted) == Left(pending[n..], accepted - 1)
  {
  }

  /** Acknowledged batches hold between one and 200 results. */
  predicate WellSized(log: seq<Chunk>) {
    forall i :: 0 <= i < |log| ==> |log[i].results| > 0 && (log[i].Acked? ==> |log[i].results| <= UPLOAD_BATCH_SIZE)
  }

  lemma {:induction false} SentWellSized(pending: seq<Result>, accepted: nat)
    ensures WellSized(Sent(pending, accepted))
    ensures forall i :: 0 <= i < |Sent(pending, accepted)| ==> Sent(pending, accepted)[i].Acked?
    decreases accepted
  {
    hide Sent, BatchLength;
    Unfold(pending, accepted);
    if pending != [] && accepted > 0 {
      SentWellSized(pending[BatchLength(|pending|)..], accepted - 1);
    }
  }

  /** Uploads that succeed empty the queue exactly when there are enough of them. */
  lemma {:induction false} LeftLength(pending: seq<Result>, accepted: nat)
    ensures |Left(pending, accepted)|
         == if UPLOAD_BATCH_SIZE * accepted >= |pending| then 0 else |pending| - UPLOAD_BATCH_SIZE * accepted
    decreases accepted
  {
    if pending != [] && accepted > 0 {
      LeftLength(pending[BatchLength(|pending|)..], accepted - 1);
    }
  }

  lemma CycleKeepsHistory(a: Agent, cycle: Cycle, maximum: int)
    ensures var b := Next(a, cycle, maximum);
      Flatten(b.log) + b.pending
      == Flatten(a.log) + a.pending + (if cycle.Collected? then cycle.batch else [])
  {
    hide Flatten, Sent, Left, DroppedFirst;
    if cycle.Collected? {
      var all := a.pending + cycle.batch;
      var queued := Queued(a, cycle.batch, maximum);
      var dropped, sent := DroppedFirst(all, maximum), Sent(queued, cycle.accepted);
      SentThenLeft(queued, cycle.accepted);
      FlattenConcat(a.log + dropped, sent);
      FlattenConcat(a.log, dropped);
      DroppedThenQueued(a, cycle.batch, maximum);
      Regroup(Flatten(a.log) + Flatten(dropped), Flatten(sent), Left(queued, cycle.accepted));
      Regroup(Flatten(a.log), Flatten(dropped), queued);
      Regroup(Flatten(a.log), a.pending, cycle.batch);
    } else {
      assert Flatten(a.log) + a.pending + [] == Flatten(a.log) + a.pending;
    }
  }

  lemma Regroup(a: seq<Result>, b: seq<Result>, c: seq<Result>)
    ensures a + b + c == a + (b + c)
  {
  }

  lemma DroppedThenQueued(a: Agent, batch: seq<Result>, maximum: int)
    ensures Flatten(DroppedFirst(a.pending + batch, maximum)) + Queued(a, batch, maximum) == a.pending + batch
    ensures WellSized(DroppedFirst(a.pending + batch, maximum))
    ensures maximum > 0 ==> |Queued(a, batch, maximum)| <= maximum
  {
    var all := a.pending + batch;
    FlattenOne(Dropped(all[..Excess(|all|, maximum)]));
    assert Flatten([]) == [];
  }

  /**
   * After any cycles: what left the queue, in order, followed by what is pending, is exactly everything collected;
   * the queue is within its limit.
   */
  lemma {:induction false} NothingLost(cycles: seq<Cycle>, maximum: int)
    ensures var a := After(cycles, maximum);
      && Flatten(a.log) + a.pending == History(cycles)
      && WellSized(a.log)
      && (maximum > 0 ==> |a.pending| <= maximum)
  {
    hide Flatten, Sent, Left, DroppedFirst, Queued, WellSized;
    if cycles == [] {
      NothingYet();
    } else {
      var front, last := cycles[..|cycles| - 1], cycles[|cycles| - 1];
      var a := After(front, maximum);
      NothingLost(front, maximum);
      CycleKeepsHistory(a, last, maximum);
      if last.Collected? {
        var queued := Queued(a, last.batch, maximum);
        DroppedThenQueued(a, last.batch, maximum);
        SentWellSized(queued, last.accepted);
        WellSizedConcat(a.log, DroppedFirst(a.pending + last.batch, maximum));
        WellSizedConcat(a.log + DroppedFirst(a.pending + last.batch, maximum), Sent(queued, last.accepted));
        LeftNoLonger(queued, last.accepted);
      } else {
        assert Flatten(a.log) + a.pending + [] == Flatten(a.log) + a.pending;
      }
    }
  }

  lemma NothingYet()
    ensures Flatten([]) + [] == [] && WellSized([])
  {
  }

  lemma WellSizedConcat(a: seq<Chunk>, b: seq<Chunk>)
    requires WellSized(a) && WellSized(b)
    ensures WellSized(a + b)
  {
  }

  lemma {:induction false} LeftNoLonger(pending: seq<Result>, accepted: nat)
    ensures |Left(pending, accepted)| <= |pending|
    decreases accepted
  {
    if pending != [] && accepted > 0 {
      LeftNoLonger(pending[BatchLength(|pending|)..], accepted - 1);
    }
  }

  predicate AnyDropped(log: seq<Chunk>) {
    exists i :: 0 <= i < |log| && log[i].Dropped?
  }

  /** Some cycle collected more than the queue had room for. */
  predicate Overflows(cycles: seq<Cycle>, maximum: int) {
    cycles != []
    && (Overflows(cycles[..|cycles| - 1], maximum)
        || var last := cycles[|cycles| - 1];
           last.Collected?
           && 0 < maximum < |After(cycles[..|cycles| - 1], maximum).pending| + |last.batch|)
  }

  /** Results are dropped exactly when the queue overflows; otherwise all of them are acknowledged or pending. */
  lemma {:induction false} DropsOnlyOnOverflow(cycles: seq<Cycle>, maximum: int)
    ensures AnyDropped(After(cycles, maximum).log) <==> Overflows(cycles, maximum)
  {
    if cycles != [] {
      var front, last := cycles[..|cycles| - 1], cycles[|cycles| - 1];
      DropsOnlyOnOverflow(front, maximum);
      if last.Collected? {
        var a := After(front, maximum);
        var queued := Queued(a, last.batch, maximum);
        SentWellSized(queued, last.accepted);
        DroppedConcat(a.log, DroppedFirst(a.pending + last.batch, maximum));
        DroppedConcat(a.log + DroppedFirst(a.pending + last.batch, maximum), Sent(queued, last.accepted));
        if Excess(|a.pending + last.batch|, maximum) > 0 {
          assert DroppedFirst(a.pending + last.batch, maximum)[0].Dropped?;
        }
      }
    }
  }

  lemma DroppedConcat(a: seq<Chunk>, b: seq<Chunk>)
    ensures AnyDropped(a + b) <==> AnyDropped(a) || AnyDropped(b)
  {
    if i :| 0 <= i < |b| && b[i].Dropped? {
      assert (a + b)[|a| + i].Dropped?;
    }
    if i :| 0 <= i < |a| && a[i].Dropped? {
      assert (a + b)[i].Dropped?;
    }
  }
}
