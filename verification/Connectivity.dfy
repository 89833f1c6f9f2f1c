/** The connectivity state of each agent, kept up to date batch by batch. */
module Connectivity {
  import opened StoredTime

  /** Names of agents. */
  type Name = int

  /** What an update looks at in a result. */
  datatype Result = Result(agent: Name, successes: nat)

  datatype Status = Unknown | Ok | Checking | Failed

  /** For times, Go's zero time stands for none. */
  datatype Connectivity = Connectivity(status: Status, failures: nat, firstFailedAt: int, lastChangedAt: int)

  const NEW: Connectivity := Connectivity(Unknown, 0, ZERO_TIME, ZERO_TIME)

  // ----- One batch

  function Total(results: seq<Result>, agent: Name): nat {
    if results == [] then 0
    else Total(results[..|results| - 1], agent) + if results[|results| - 1].agent == agent then 1 else 0
  }

  function Silent(results: seq<Result>, agent: Name): nat {
    if results == [] then 0
    else
      var last := results[|results| - 1];
      Silent(results[..|results| - 1], agent) + if last.agent == agent && last.successes == 0 then 1 else 0
  }

  /** More than half of the agent's results had no success. */
  predicate RoundFailed(results: seq<Result>, agent: Name) {
    Silent(results, agent) * 2 > Total(results, agent)
  }

  function Agents(results: seq<Result>): set<Name> {
    if results == [] then {} else Agents(results[..|results| - 1]) + {results[|results| - 1].agent}
  }

  function AtLeastOne(threshold: int): int {
    if threshold < 1 then 1 else threshold
  }

  function StatusChanged(c: Connectivity, status: Status, now: int): Connectivity {
    if c.status != status then c.(status := status, lastChangedAt := now) else c
  }

  function Next(c: Connectivity, failed: bool, threshold: int, now: int): Connectivity {
    if failed then
      var d := c.(
        failures := c.failures + 1,
        firstFailedAt := if c.firstFailedAt == ZERO_TIME then now else c.firstFailedAt);
      StatusChanged(d, if d.failures >= AtLeastOne(threshold) then Failed else Checking, now)
    else
      StatusChanged(c, Ok, now).(failures := 0, firstFailedAt := ZERO_TIME)
  }

  function Get(m: map<Name, Connectivity>, agent: Name): Connectivity {
    if agent in m then m[agent] else NEW
  }

  /** Of the agents of the batch, those in done have been moved on. */
  function UpdatedFor(m: map<Name, Connectivity>, done: set<Name>, results: seq<Result>, threshold: int, now: int)
    : map<Name, Connectivity>
  {
    map a | a in m.Keys + done ::
      if a in done then Next(Get(m, a), RoundFailed(results, a), threshold, now) else m[a]
  }

  function Updated(
    m: map<Name, Connectivity>, results: seq<Result>, threshold: int, now: int): map<Name, Connectivity>
  {
    UpdatedFor(m, Agents(results), results, threshold, now)
  }

  lemma OneMoved(
    m: map<Name, Connectivity>, done: set<Name>, agent: Name, results: seq<Result>, threshold: int, now: int)
    requires agent !in done
    ensures var before := UpdatedFor(m, done, results, threshold, now);
      && Get(before, agent) == Get(m, agent)
      && UpdatedFor(m, done + {agent}, results, threshold, now)
         == before[agent := Next(Get(m, agent), RoundFailed(results, agent), threshold, now)]
  {
    hide Next, RoundFailed;
  }

  lemma NoneMoved(m: map<Name, Connectivity>, results: seq<Result>, threshold: int, now: int)
    ensures UpdatedFor(m, {}, results, threshold, now) == m
  {
  }

  datatype Round = Round(total: nat, failed: nat)

  class Server {
    var connectivity: map<Name, Connectivity>

    constructor ()
      ensures connectivity == map[]
    {
      connectivity := map[];
    }

    /** Counts a round per agent, then moves each agent on, in whatever order the map yields them. */
    method UpdateAgentConnectivity(results: seq<Result>, failureThreshold: int, now: int)
      modifies this
      ensures connectivity == Updated(old(connectivity), results, failureThreshold, now)
    {
      hide *;
      var rounds := CountRounds(results);
      var threshold := failureThreshold;
      if threshold < 1 {
        threshold := 1;
      }
      AtLeastOneIs(failureThreshold);
      ghost var before, done := connectivity, {};
      NoneMoved(before, results, failureThreshold, now);
      var left := rounds.Keys;
      while left != {}
        invariant left <= rounds.Keys && done == rounds.Keys - left
        invariant connectivity == UpdatedFor(before, done, results, failureThreshold, now)
        decreases |left|
      {
        SomeLeft(left);
        var agent :| agent in left;
        OneMoved(before, done, agent, results, failureThreshold, now);
        left, done := left - {agent}, done + {agent};
        var state := Get(connectivity, agent);
        var failed := rounds[agent].failed * 2 > rounds[agent].total;
        MajorityIs(results, agent, rounds[agent]);
        state := Moved(state, failed, threshold, now);
        connectivity := connectivity[agent := state];
      }
      AllMoved(before, results, failureThreshold, now);
      assert done == Agents(results);
    }
  }

  lemma SomeLeft(left: set<Name>)
    requires left != {}
    ensures exists agent :: agent in left
  {
    assert (forall agent :: agent !in left) ==> left == {};
  }

  lemma AllMoved(m: map<Name, Connectivity>, results: seq<Result>, threshold: int, now: int)
    ensures UpdatedFor(m, Agents(results), results, threshold, now) == Updated(m, results, threshold, now)
  {
  }

  lemma AtLeastOneIs(threshold: int)
    ensures AtLeastOne(threshold) == if threshold < 1 then 1 else threshold
  {
  }

  lemma MajorityIs(results: seq<Result>, agent: Name, r: Round)
    requires r == Round(Total(results, agent), Silent(results, agent))
    ensures RoundFailed(results, agent) == (r.failed * 2 > r.total)
  {
  }

  method CountRounds(results: seq<Result>) returns (rounds: map<Name, Round>)
    ensures rounds.Keys == Agents(results)
    ensures forall a :: a in rounds ==> rounds[a] == Round(Total(results, a), Silent(results, a))
    ensures forall a :: a in rounds ==> rounds[a] == Round(|Places(results, a)|, |SilentPlaces(results, a)|)
  {
    hide Places, SilentPlaces;
    rounds := map[];
    var i := 0;
    while i < |results|
      invariant 0 <= i <= |results|
      invariant rounds.Keys == Agents(results[..i])
      invariant forall a :: a in rounds ==> rounds[a] == Round(Total(results[..i], a), Silent(results[..i], a))
    {
      var result := results[i];
      NotYet(results[..i], result.agent);
      assert results[..i + 1][..i] == results[..i];
      var r := if result.agent in rounds then rounds[result.agent] else Round(0, 0);
      r := r.(total := r.total + 1);
      if result.successes == 0 {
        r := r.(failed := r.failed + 1);
      }
      rounds := rounds[result.agent := r];
      i := i + 1;
    }
    assert results[..i] == results;
    forall a | a in rounds {
      CountsAreSizes(results, a);
    }
  }

  lemma {:induction false} NotYet(results: seq<Result>, agent: Name)
    ensures agent in Agents(results) <==> Total(results, agent) > 0
    ensures Silent(results, agent) <= Total(results, agent)
  {
    if results != [] {
      NotYet(results[..|results| - 1], agent);
    }
  }

  // ----- What counts as a failed round

  /** The places of the agent's results in a batch, and of those without a success. */
  function Places(results: seq<Result>, agent: Name): set<nat> {
    set i: nat | i < |results| && results[i].agent == agent
  }

  function SilentPlaces(results: seq<Result>, agent: Name): set<nat> {
    set i: nat | i < |results| && results[i].agent == agent && results[i].successes == 0
  }

  lemma {:induction false} CountsAreSizes(results: seq<Result>, agent: Name)
    ensures Total(results, agent) == |Places(results, agent)|
    ensures Silent(results, agent) == |SilentPlaces(results, agent)|
  {
    if results == [] {
    } else {
      var front, n := results[..|results| - 1], |results| - 1;
      CountsAreSizes(front, agent);
      OnePlaceMore(results, agent);
      assert n !in Places(front, agent) && n !in SilentPlaces(front, agent);
    }
  }

  lemma OnePlaceMore(results: seq<Result>, agent: Name)
    requires results != []
    ensures var front, n := results[..|results| - 1], |results| - 1;
      && Places(results, agent) == Places(front, agent) + (if results[n].agent == agent then {n} else {})
      && SilentPlaces(results, agent)
         == SilentPlaces(front, agent) + (if results[n].agent == agent && results[n].successes == 0 then {n} else {})
  {
    var front, n := results[..|results| - 1], |results| - 1;
    assert forall i :: 0 <= i < n ==> front[i] == results[i];
  }

  /** A round has failed exactly if more than half of the agent's results in it had no success. */
  lemma RoundFailedIff(results: seq<Result>, agent: Name)
    ensures RoundFailed(results, agent) <==>
      2 * |SilentPlaces(results, agent)| > |Places(results, agent)|
  {
    hide Places, SilentPlaces, Total, Silent;
    CountsAreSizes(results, agent);
  }

  /** An agent all of whose results had a success is well afterwards, whatever it was before. */
  lemma AnsweredIsOk(m: map<Name, Connectivity>, results: seq<Result>, agent: Name, threshold: int, now: int, i: nat)
    requires i < |results| && results[i].agent == agent
    requires forall j :: 0 <= j < |results| && results[j].agent == agent ==> results[j].successes > 0
    ensures var c := Get(Updated(m, results, threshold, now), agent);
      c.status == Ok && c.failures == 0 && c.firstFailedAt == ZERO_TIME
  {
    RoundFailedIff(results, agent);
    NotYet(results, agent);
    CountsAreSizes(results, agent);
    assert SilentPlaces(results, agent) == {};
    assert i in Places(results, agent);
    hide Silent, Total;
  }

  /** An agent without any success is one failed round further. */
  lemma SilentFails(m: map<Name, Connectivity>, results: seq<Result>, agent: Name, threshold: int, now: int, i: nat)
    requires i < |results| && results[i].agent == agent
    requires forall j :: 0 <= j < |results| && results[j].agent == agent ==> results[j].successes == 0
    ensures var before, c := Get(m, agent), Get(Updated(m, results, threshold, now), agent);
      && c.failures == before.failures + 1
      && (c.status == Failed <==> c.failures >= threshold)
      && (c.status != Failed ==> c.status == Checking)
  {
    RoundFailedIff(results, agent);
    NotYet(results, agent);
    CountsAreSizes(results, agent);
    assert SilentPlaces(results, agent) == Places(results, agent);
    assert i in Places(results, agent);
    hide Silent, Total;
  }

  /** One agent's turn. */
  method Moved(c: Connectivity, failed: bool, threshold: int, now: int) returns (state: Connectivity)
    requires threshold >= 1
    ensures forall t :: AtLeastOne(t) == threshold ==> state == Next(c, failed, t, now)
  {
    state := c;
    if failed {
      state := state.(failures := state.failures + 1);
      if state.firstFailedAt == ZERO_TIME {
        state := state.(firstFailedAt := now);
      }
      if state.failures >= threshold {
        if state.status != Failed {
          state := state.(status := Failed, lastChangedAt := now);
        }
      } else if state.status != Checking {
        state := state.(status := Checking, lastChangedAt := now);
      }
    } else {
      if state.status != Ok {
        state := state.(lastChangedAt := now);
      }
      state := state.(status := Ok, failures := 0, firstFailedAt := ZERO_TIME);
    }
  }

  // ----- Over a history of batches

  datatype Batch = Batch(results: seq<Result>, now: int)

  function After(batches: seq<Batch>, threshold: int): map<Name, Connectivity> {
    if batches == [] then map[]
    else
      var last := batches[|batches| - 1];
      Updated(After(batches[..|batches| - 1], threshold), last.results, threshold, last.now)
  }

  /** How one agent fared in each batch that mentions it. */
  datatype Fare = Fare(failed: bool, at: int)

  function Fares(batches: seq<Batch>, agent: Name): seq<Fare> {
    if batches == [] then []
    else
      var front, last := Fares(batches[..|batches| - 1], agent), batches[|batches| - 1];
      if agent in Agents(last.results) then front + [Fare(RoundFailed(last.results, agent), last.now)] else front
  }

  /** How many rounds at the end ended alike. */
  function Streak(fares: seq<Fare>, failed: bool): nat {
    if fares == [] || fares[|fares| - 1].failed != failed then 0 else 1 + Streak(fares[..|fares| - 1], failed)
  }

  /** It is the longest such ending. */
  lemma {:induction false} StreakIsLongest(fares: seq<Fare>, failed: bool)
    ensures var s := Streak(fares, failed);
      && s <= |fares|
      && (forall i :: |fares| - s <= i < |fares| ==> fares[i].failed == failed)
      && (s < |fares| ==> fares[|fares| - s - 1].failed != failed)
  {
    if fares != [] && fares[|fares| - 1].failed == failed {
      StreakIsLongest(fares[..|fares| - 1], failed);
    }
  }

  /** What the history of one agent says. */
  ghost predicate Reflects(c: Connectivity, fares: seq<Fare>, threshold: int)
    requires fares != []
  {
    StreakIsLongest(fares, true);
    StreakIsLongest(fares, false);
    var n, s, g, t := |fares|, Streak(fares, true), Streak(fares, false), if threshold < 1 then 1 else threshold;
    && c.failures == s
    && c.status == (if s >= t then Failed else if s > 0 then Checking else Ok)
    && c.firstFailedAt == (if s > 0 then fares[n - s].at else ZERO_TIME)
    && c.lastChangedAt
       == (if s >= t then fares[n - s + t - 1].at else if s > 0 then fares[n - s].at else fares[n - g].at)
  }

  lemma FirstFare(failed: bool, threshold: int, now: int)
    ensures Reflects(Next(NEW, failed, threshold, now), [Fare(failed, now)], threshold)
  {
    var one := [Fare(failed, now)];
    assert one[..0] == [];
    assert Streak(one, failed) == 1 + Streak([], failed);
  }

  lemma NextFare(c: Connectivity, fares: seq<Fare>, failed: bool, threshold: int, now: int)
    requires fares != [] && Reflects(c, fares, threshold)
    requires forall i :: 0 <= i < |fares| ==> fares[i].at != ZERO_TIME
    ensures Reflects(Next(c, failed, threshold, now), fares + [Fare(failed, now)], threshold)
  {
    var next := fares + [Fare(failed, now)];
    assert next[..|fares|] == fares;
    StreakIsLongest(fares, true);
    StreakIsLongest(fares, false);
    assert Streak(next, failed) == 1 + Streak(fares, failed) && Streak(next, !failed) == 0;
    assert Streak(fares, true) == 0 <==> Streak(fares, false) > 0;
  }

  /** Main result: whatever the batches, each agent's state is what its own rounds say. */
  lemma {:induction false} StateReflectsHistory(batches: seq<Batch>, threshold: int, agent: Name)
    requires forall i :: 0 <= i < |batches| ==> batches[i].now != ZERO_TIME
    ensures agent in After(batches, threshold) <==> Fares(batches, agent) != []
    ensures agent in After(batches, threshold) ==>
      Reflects(After(batches, threshold)[agent], Fares(batches, agent), threshold)
    ensures forall i :: 0 <= i < |Fares(batches, agent)| ==> Fares(batches, agent)[i].at != ZERO_TIME
  {
    hide Next, Reflects;
    if batches != [] {
      var front, last := batches[..|batches| - 1], batches[|batches| - 1];
      StateReflectsHistory(front, threshold, agent);
      if agent in Agents(last.results) {
        var failed := RoundFailed(last.results, agent);
        if Fares(front, agent) == [] {
          FirstFare(failed, threshold, last.now);
          assert Fares(batches, agent) == [Fare(failed, last.now)];
        } else {
          NextFare(After(front, threshold)[agent], Fares(front, agent), failed, threshold, last.now);
        }
      }
    }
  }

  // ----- Order within a batch

  lemma {:induction false} CountsConcat(a: seq<Result>, b: seq<Result>, agent: Name)
    ensures Total(a + b, agent) == Total(a, agent) + Total(b, agent)
    ensures Silent(a + b, agent) == Silent(a, agent) + Silent(b, agent)
  {
    if b == [] {
      assert a + b == a;
    } else {
      assert (a + b)[..|a + b| - 1] == a + b[..|b| - 1];
      CountsConcat(a, b[..|b| - 1], agent);
    }
  }

  lemma {:induction false} SameCounts(a: seq<Result>, b: seq<Result>, agent: Name)
    requires multiset(a) == multiset(b)
    ensures Total(a, agent) == Total(b, agent) && Silent(a, agent) == Silent(b, agent)
    decreases |a|
  {
    hide Total, Silent;
    if a == [] {
      assert |multiset(b)| == 0;
    } else {
      var x, last, y := WithoutLast(a, b);
      SameCounts(a[..|a| - 1], x + y, agent);
      assert a == a[..|a| - 1] + [last];
      CountsConcat(a[..|a| - 1], [last], agent);
      CountsConcat(x + [last], y, agent);
      CountsConcat(x, [last], agent);
      CountsConcat(x, y, agent);
    }
  }

  lemma WithoutLast(a: seq<Result>, b: seq<Result>) returns (x: seq<Result>, last: Result, y: seq<Result>)
    requires a != [] && multiset(a) == multiset(b)
    ensures last == a[|a| - 1] && b == x + [last] + y
    ensures multiset(a[..|a| - 1]) == multiset(x + y)
  {
    last := a[|a| - 1];
    assert a == a[..|a| - 1] + [last];
    assert last in multiset(b);
    var i: nat :| i < |b| && b[i] == last;
    x, y := b[..i], b[i + 1..];
    assert b == x + [last] + y;
    assert multiset(x + y) == multiset(b) - multiset{last};
    assert multiset(a[..|a| - 1]) == multiset(a) - multiset{last};
  }

  /** Only which results a batch holds matters, not their order or how agents are mixed. */
  lemma OrderDoesNotMatter(m: map<Name, Connectivity>, a: seq<Result>, b: seq<Result>, threshold: int, now: int)
    requires multiset(a) == multiset(b)
    ensures Updated(m, a, threshold, now) == Updated(m, b, threshold, now)
  {
    hide Next;
    forall agent ensures RoundFailed(a, agent) == RoundFailed(b, agent) {
      SameCounts(a, b, agent);
    }
    forall agent ensures agent in Agents(a) <==> agent in Agents(b) {
      SameCounts(a, b, agent);
      NotYet(a, agent);
      NotYet(b, agent);
    }
    assert Agents(a) == Agents(b);
  }

  /** A state after a batch depends on nothing but the agent's own results in it. */
  lemma AgentsAreIndependent(
    m: map<Name, Connectivity>, own: seq<Result>, others: seq<Result>, agent: Name, threshold: int, now: int)
    requires forall i :: 0 <= i < |others| ==> others[i].agent != agent
    ensures Get(Updated(m, own + others, threshold, now), agent) == Get(Updated(m, own, threshold, now), agent)
  {
    hide Next;
    CountsConcat(own, others, agent);
    NoneOf(others, agent);
    NotYet(own, agent);
    NotYet(own + others, agent);
  }

  lemma {:induction false} NoneOf(results: seq<Result>, agent: Name)
    requires forall i :: 0 <= i < |results| ==> results[i].agent != agent
    ensures Total(results, agent) == 0 && Silent(results, agent) == 0
  {
    if results != [] {
      NoneOf(results[..|results| - 1], agent);
    }
  }
}
