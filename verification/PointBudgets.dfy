/** Sharing out a fixed number of chart points among series: a small reserve each, the rest greedily. */
module PointBudgets {

  function Min(a: nat, b: nat): nat {
    if a < b then a else b
  }

  function SumTo(s: seq<nat>, n: nat): nat
    requires n <= |s|
  {
    if n == 0 then 0 else SumTo(s, n - 1) + s[n - 1]
  }

  function Total(s: seq<nat>): nat {
    SumTo(s, |s|)
  }

  function Zeros(n: nat): (s: seq<nat>)
    ensures |s| == n && forall i :: 0 <= i < n ==> s[i] == 0
  {
    seq(n, _ => 0)
  }

  /** Two points for every series if that many fit, otherwise one. */
  function Minimum(count: nat, target: nat): nat {
    if count * 2 <= target then 2 else 1
  }

  /** The points set aside for the first n series before the rest are shared out. */
  function ReservedBefore(lens: seq<nat>, minimum: nat, target: nat, n: nat): (r: nat)
    requires n <= |lens|
    ensures r <= target
  {
    if n == 0 then 0
    else
      var before := ReservedBefore(lens, minimum, target, n - 1);
      before + Capped(minimum, lens[n - 1], target - before)
  }

  /** The minimum, unless the series has fewer rows or fewer points are left. */
  function Capped(minimum: nat, len: nat, left: nat): nat {
    Min(Min(minimum, len), left)
  }

  function ReserveAt(lens: seq<nat>, minimum: nat, target: nat, i: nat): nat
    requires i < |lens|
  {
    Capped(minimum, lens[i], target - ReservedBefore(lens, minimum, target, i))
  }

  /** Rows per point if the series were given one point more. */
  function Score(len: nat, budget: nat): real {
    len as real / (budget + 1) as real
  }

  /** The first of the first n series with the highest score among those that can use another point, or -1. */
  function Best(lens: seq<nat>, budgets: seq<nat>, n: nat): (best: int)
    requires |budgets| == |lens| && n <= |lens|
    ensures -1 <= best < n
    ensures best >= 0 ==> budgets[best] < lens[best]
  {
    if n == 0 then -1
    else
      var best := Best(lens, budgets, n - 1);
      if budgets[n - 1] >= lens[n - 1] then best
      else if best < 0 || Score(lens[n - 1], budgets[n - 1]) > Score(lens[best], budgets[best]) then n - 1
      else best
  }

  function Grant(lens: seq<nat>, budgets: seq<nat>, remaining: nat): (r: seq<nat>)
    requires |budgets| == |lens|
    ensures |r| == |lens|
    decreases remaining
  {
    if remaining == 0 then budgets
    else
      var best := Best(lens, budgets, |lens|);
      if best < 0 then budgets
      else Grant(lens, budgets[best := budgets[best] + 1], remaining - 1)
  }

  /** How many points each series may use. */
  function Budgets(lens: seq<nat>, target: nat): (r: seq<nat>)
    ensures |r| == |lens|
  {
    Grant(lens, ReserveFor(lens, target), LeftOver(lens, target))
  }

  function ReserveFor(lens: seq<nat>, target: nat): (r: seq<nat>)
    ensures |r| == |lens|
    ensures forall i :: 0 <= i < |r| ==> r[i] == ReserveAt(lens, Minimum(|lens|, target), target, i)
  {
    seq(|lens|, i requires 0 <= i < |lens| => ReserveAt(lens, Minimum(|lens|, target), target, i))
  }

  // ----- Sums

  lemma {:induction false} SumUpdate(s: seq<nat>, k: nat, x: nat, n: nat)
    requires k < |s| && n <= |s|
    ensures SumTo(s[k := x], n) == SumTo(s, n) + if k < n then x - s[k] else 0
  {
    if n > 0 {
      SumUpdate(s, k, x, n - 1);
    }
  }

  lemma {:induction false} SumMonotone(a: seq<nat>, b: seq<nat>, n: nat)
    requires n <= |a| && n <= |b| && forall i :: 0 <= i < n ==> a[i] <= b[i]
    ensures SumTo(a, n) <= SumTo(b, n)
    ensures SumTo(a, n) == SumTo(b, n) ==> forall i :: 0 <= i < n ==> a[i] == b[i]
  {
    if n > 0 {
      SumMonotone(a, b, n - 1);
    }
  }

  lemma {:induction false} SumAtLeastOnes(s: seq<nat>, n: nat)
    requires n <= |s| && forall i :: 0 <= i < n ==> s[i] >= 1
    ensures SumTo(s, n) >= n
  {
    if n > 0 {
      SumAtLeastOnes(s, n - 1);
    }
  }

  lemma {:induction false} ReserveTotal(lens: seq<nat>, target: nat, n: nat)
    requires n <= |lens|
    ensures SumTo(ReserveFor(lens, target), n) == ReservedBefore(lens, Minimum(|lens|, target), target, n)
  {
    if n > 0 {
      ReserveTotal(lens, target, n - 1);
    }
  }

  // ----- What the greedy loop keeps

  /** No unsaturated series has a higher score than the last point given to another series had. */
  ghost predicate Fair(lens: seq<nat>, reserve: seq<nat>, budgets: seq<nat>)
    requires |lens| == |reserve| == |budgets|
  {
    forall i, j :: 0 <= i < |lens| && 0 <= j < |lens| ==> FairPair(lens, reserve, budgets, i, j)
  }

  ghost predicate FairPair(lens: seq<nat>, reserve: seq<nat>, budgets: seq<nat>, i: nat, j: nat)
    requires |lens| == |reserve| == |budgets| && i < |lens| && j < |lens|
  {
    budgets[j] > reserve[j] && budgets[i] < lens[i] ==>
      Score(lens[j], budgets[j] - 1) >= Score(lens[i], budgets[i])
  }

  lemma ScoreFalls(len: nat, budget: nat)
    ensures Score(len, budget + 1) <= Score(len, budget)
  {
    var x, a := len as real, (budget + 1) as real;
    var p, q := x / a, x / (a + 1.0);
    assert p * a == x && q * (a + 1.0) == x;
    assert q * (a + 1.0) == q * a + q;
    assert (p - q) * a == q;
  }

  lemma {:induction false} BestIsHighest(lens: seq<nat>, budgets: seq<nat>, n: nat)
    requires |budgets| == |lens| && n <= |lens|
    ensures var best := Best(lens, budgets, n);
      forall i :: 0 <= i < n && budgets[i] < lens[i] ==>
        best >= 0 && Score(lens[best], budgets[best]) >= Score(lens[i], budgets[i])
  {
    if n > 0 {
      BestIsHighest(lens, budgets, n - 1);
    }
  }

  /** Of series with the highest score the first. */
  lemma {:induction false} BestIsFirst(lens: seq<nat>, budgets: seq<nat>, n: nat, i: nat)
    requires |budgets| == |lens| && n <= |lens| && i < Best(lens, budgets, n) && budgets[i] < lens[i]
    ensures Score(lens[Best(lens, budgets, n)], budgets[Best(lens, budgets, n)]) > Score(lens[i], budgets[i])
  {
    hide Score;
    BestIsHighest(lens, budgets, n - 1);
    if i < Best(lens, budgets, n - 1) {
      BestIsFirst(lens, budgets, n - 1, i);
    }
  }

  lemma PointKeepsFair(lens: seq<nat>, reserve: seq<nat>, budgets: seq<nat>, best: nat)
    requires |lens| == |reserve| == |budgets| && best < |lens|
    requires Fair(lens, reserve, budgets)
    requires forall i :: 0 <= i < |lens| && budgets[i] < lens[i] ==>
      Score(lens[best], budgets[best]) >= Score(lens[i], budgets[i])
    ensures Fair(lens, reserve, budgets[best := budgets[best] + 1])
  {
    var next := budgets[best := budgets[best] + 1];
    ScoreFalls(lens[best], budgets[best]);
    forall i, j | 0 <= i < |lens| && 0 <= j < |lens| ensures FairPair(lens, reserve, next, i, j) {
      assert FairPair(lens, reserve, budgets, i, j);
    }
  }

  lemma {:induction false} GrantKeepsFair(lens: seq<nat>, reserve: seq<nat>, budgets: seq<nat>, remaining: nat)
    requires |lens| == |reserve| == |budgets|
    requires Fair(lens, reserve, budgets)
    requires forall i :: 0 <= i < |lens| ==> reserve[i] <= budgets[i] <= lens[i]
    ensures var r := Grant(lens, budgets, remaining);
      && Fair(lens, reserve, r)
      && (forall i :: 0 <= i < |lens| ==> reserve[i] <= r[i] <= lens[i])
    decreases remaining
  {
    var best := Best(lens, budgets, |lens|);
    if remaining > 0 && best >= 0 {
      BestIsHighest(lens, budgets, |lens|);
      PointKeepsFair(lens, reserve, budgets, best);
      GrantKeepsFair(lens, reserve, budgets[best := budgets[best] + 1], remaining - 1);
    }
  }

  lemma {:induction false} GrantSpendsAll(lens: seq<nat>, budgets: seq<nat>, remaining: nat)
    requires |lens| == |budgets|
    requires Total(budgets) + remaining <= Total(lens)
    ensures Total(Grant(lens, budgets, remaining)) == Total(budgets) + remaining
    decreases remaining
  {
    if remaining > 0 {
      var best := Best(lens, budgets, |lens|);
      if best < 0 {
        BestIsHighest(lens, budgets, |lens|);
        SumMonotone(lens, budgets, |lens|);
        assert false;
      }
      SumUpdate(budgets, best, budgets[best] + 1, |lens|);
      GrantSpendsAll(lens, budgets[best := budgets[best] + 1], remaining - 1);
    }
  }

  /** The budgets use every point, never exceed a series, and are fair. */
  lemma BudgetsAreFair(lens: seq<nat>, target: nat)
    requires target <= Total(lens)
    ensures Total(Budgets(lens, target)) == target
    ensures forall i :: 0 <= i < |lens| ==> ReserveFor(lens, target)[i] <= Budgets(lens, target)[i] <= lens[i]
    ensures Fair(lens, ReserveFor(lens, target), Budgets(lens, target))
  {
    BudgetsSum(lens, target);
    GrantFromReserve(lens, ReserveFor(lens, target), LeftOver(lens, target));
  }

  function LeftOver(lens: seq<nat>, target: nat): nat {
    target - ReservedBefore(lens, Minimum(|lens|, target), target, |lens|)
  }

  lemma BudgetsSum(lens: seq<nat>, target: nat)
    requires target <= Total(lens)
    ensures Total(Budgets(lens, target)) == target
  {
    ReserveTotal(lens, target, |lens|);
    GrantSpendsAll(lens, ReserveFor(lens, target), LeftOver(lens, target));
  }

  lemma GrantFromReserve(lens: seq<nat>, reserve: seq<nat>, remaining: nat)
    requires |lens| == |reserve| && forall i :: 0 <= i < |lens| ==> reserve[i] <= lens[i]
    ensures var r := Grant(lens, reserve, remaining);
      && Fair(lens, reserve, r)
      && (forall i :: 0 <= i < |lens| ==> reserve[i] <= r[i] <= lens[i])
  {
    ReserveIsFair(lens, reserve);
    GrantKeepsFair(lens, reserve, reserve, remaining);
  }

  lemma ReserveIsFair(lens: seq<nat>, reserve: seq<nat>)
    requires |lens| == |reserve|
    ensures Fair(lens, reserve, reserve)
  {
  }

  /** While the minimum fits for everyone, each series gets it, or all its rows if it has fewer. */
  lemma {:induction false} ReserveIsFull(lens: seq<nat>, minimum: nat, target: nat, n: nat)
    requires n < |lens| && (n + 1) * minimum <= target
    ensures ReserveAt(lens, minimum, target, n) == Min(minimum, lens[n])
    ensures ReservedBefore(lens, minimum, target, n + 1) <= (n + 1) * minimum
  {
    assert (n + 1) * minimum == n * minimum + minimum;
    if n > 0 {
      ReserveIsFull(lens, minimum, target, n - 1);
    }
  }

  /** Every series is drawn exactly when there are no more series than points. */
  lemma EveryoneGetsAPointIff(lens: seq<nat>, target: nat)
    requires target <= Total(lens)
    requires forall i :: 0 <= i < |lens| ==> lens[i] >= 1
    ensures (forall i :: 0 <= i < |lens| ==> Budgets(lens, target)[i] >= 1) <==> |lens| <= target
  {
    var budgets, minimum := Budgets(lens, target), Minimum(|lens|, target);
    BudgetsAreFair(lens, target);
    if |lens| <= target {
      forall i | 0 <= i < |lens| ensures budgets[i] >= 1 {
        assert (i + 1) * minimum <= target;
        ReserveIsFull(lens, minimum, target, i);
      }
    } else if forall i :: 0 <= i < |lens| ==> budgets[i] >= 1 {
      SumAtLeastOnes(budgets, |lens|);
    }
  }

  /** If two points for each fit, each series has two at least, or all its rows. */
  lemma TwoPointsForEveryone(lens: seq<nat>, target: nat)
    requires target <= Total(lens) && 2 * |lens| <= target
    ensures forall i :: 0 <= i < |lens| ==> Budgets(lens, target)[i] >= 2 || Budgets(lens, target)[i] == lens[i]
  {
    BudgetsAreFair(lens, target);
    forall i | 0 <= i < |lens| ensures ReserveFor(lens, target)[i] == Min(2, lens[i]) {
      assert (i + 1) * 2 <= target;
      ReserveIsFull(lens, 2, target, i);
    }
  }

  /** If there are more series than points, the first ones have one point each and the others none. */
  lemma FirstComeFirstServed(lens: seq<nat>, target: nat)
    requires target < |lens| && target <= Total(lens)
    requires forall i :: 0 <= i < |lens| ==> lens[i] >= 1
    ensures forall i :: 0 <= i < |lens| ==> Budgets(lens, target)[i] == if i < target then 1 else 0
  {
    hide Budgets;
    var reserve, budgets := ReserveFor(lens, target), Budgets(lens, target);
    assert Minimum(|lens|, target) == 1;
    forall i | 0 <= i < |lens| ensures reserve[i] == if i < target then 1 else 0 {
      OneEach(lens, target, i);
    }
    BudgetsAreFair(lens, target);
    OneEach(lens, target, |lens|);
    ReserveTotal(lens, target, |lens|);
    SumMonotone(reserve, budgets, |lens|);
  }

  lemma {:induction false} OneEach(lens: seq<nat>, target: nat, n: nat)
    requires n <= |lens| && forall i :: 0 <= i < |lens| ==> lens[i] >= 1
    ensures ReservedBefore(lens, 1, target, n) == Min(n, target)
  {
    if n > 0 {
      OneEach(lens, target, n - 1);
    }
  }

  /** Fairness in whole numbers: the last point granted to one series was not worth more to another. */
  lemma FairShares(lens: seq<nat>, target: nat, i: nat, j: nat)
    requires target <= Total(lens) && i < |lens| && j < |lens|
    requires Budgets(lens, target)[j] > ReserveFor(lens, target)[j] && Budgets(lens, target)[i] < lens[i]
    ensures lens[j] * (Budgets(lens, target)[i] + 1) >= lens[i] * Budgets(lens, target)[j]
  {
    hide Budgets, ReserveFor;
    BudgetsAreFair(lens, target);
    assert FairPair(lens, ReserveFor(lens, target), Budgets(lens, target), i, j);
    CrossMultiply(lens[j], Budgets(lens, target)[j], lens[i], Budgets(lens, target)[i] + 1);
  }

  lemma CrossMultiply(x: nat, a: nat, y: nat, b: nat)
    requires a > 0 && b > 0 && x as real / a as real >= y as real / b as real
    ensures x * b >= y * a
  {
    var p, q, c, d := x as real / a as real, y as real / b as real, a as real, b as real;
    assert p * c == x as real && q * d == y as real;
    Larger(p, q, c * d);
    assert p * (c * d) == x as real * d && q * (c * d) == y as real * c;
    assert (x * b) as real == x as real * d && (y * a) as real == y as real * c;
  }

  lemma Larger(p: real, q: real, n: real)
    requires p >= q && n > 0.0
    ensures p * n >= q * n
  {
  }

  /** Exchange argument: no other way to share the points has a smaller worst score. */
  lemma NoFairerBudgets(lens: seq<nat>, reserve: seq<nat>, budgets: seq<nat>, other: seq<nat>, i: nat) returns (k: nat)
    requires |lens| == |reserve| == |budgets| == |other| && i < |lens|
    requires Fair(lens, reserve, budgets) && budgets[i] < lens[i]
    requires forall j :: 0 <= j < |lens| ==> reserve[j] <= other[j] && budgets[j] <= lens[j]
    requires Total(other) <= Total(budgets)
    ensures k < |lens| && other[k] < lens[k]
    ensures Score(lens[k], other[k]) >= Score(lens[i], budgets[i])
  {
    if other[i] <= budgets[i] {
      k := i;
      ScoreFallsTo(lens[i], other[i], budgets[i]);
    } else {
      if forall j :: 0 <= j < |lens| ==> budgets[j] <= other[j] {
        SumMonotone(budgets, other, |lens|);
        assert false;
      }
      k :| 0 <= k < |lens| && other[k] < budgets[k];
      assert FairPair(lens, reserve, budgets, i, k);
      ScoreFallsTo(lens[k], other[k], budgets[k] - 1);
    }
  }

  lemma {:induction false} ScoreFallsTo(len: nat, a: nat, b: nat)
    requires a <= b
    ensures Score(len, b) <= Score(len, a)
    decreases b
  {
    if a < b {
      ScoreFallsTo(len, a, b - 1);
      ScoreFalls(len, b - 1);
    }
  }

  // ----- The loops

  method ReservePoints(lens: seq<nat>, target: nat) returns (budgets: seq<nat>, remaining: nat)
    ensures budgets == ReserveFor(lens, target)
    ensures remaining == LeftOver(lens, target)
  {
    var minimum := 1;
    if |lens| * 2 <= target {
      minimum := 2;
    }
    budgets, remaining := ReserveMinimum(lens, minimum, target);
  }

  method ReserveMinimum(lens: seq<nat>, minimum: nat, target: nat) returns (budgets: seq<nat>, remaining: nat)
    ensures |budgets| == |lens|
    ensures forall j :: 0 <= j < |lens| ==> budgets[j] == ReserveAt(lens, minimum, target, j)
    ensures remaining == target - ReservedBefore(lens, minimum, target, |lens|)
  {
    budgets := Zeros(|lens|);
    remaining := target;
    var i := 0;
    while i < |lens|
      invariant 0 <= i <= |lens| && |budgets| == |lens|
      invariant forall j :: 0 <= j < i ==> budgets[j] == ReserveAt(lens, minimum, target, j)
      invariant forall j :: i <= j < |lens| ==> budgets[j] == 0
      invariant remaining == target - ReservedBefore(lens, minimum, target, i)
    {
      if remaining == 0 {
        break;
      }
      var budget := Min(minimum, lens[i]);
      if budget > remaining {
        budget := remaining;
      }
      budgets := budgets[i := budget];
      remaining := remaining - budget;
      i := i + 1;
    }
    forall j | i <= j < |lens| ensures budgets[j] == ReserveAt(lens, minimum, target, j) {
      NothingReserved(lens, minimum, target, i, j);
    }
    NothingReserved(lens, minimum, target, i, |lens|);
  }

  /** Once the points are gone, every later series is left with none. */
  lemma {:induction false} NothingReserved(lens: seq<nat>, minimum: nat, target: nat, i: nat, n: nat)
    requires i <= n <= |lens|
    requires i == n || ReservedBefore(lens, minimum, target, i) == target
    ensures ReservedBefore(lens, minimum, target, n) == ReservedBefore(lens, minimum, target, i)
    decreases n
  {
    if i < n {
      NothingReserved(lens, minimum, target, i, n - 1);
    }
  }

  /** The series with most rows per point among those that can use another point, or -1. */
  method FindBest(lens: seq<nat>, budgets: seq<nat>) returns (best: int)
    requires |budgets| == |lens|
    ensures best == Best(lens, budgets, |lens|)
  {
    best := -1;
    var bestScore := -1.0;
    var i := 0;
    while i < |lens|
      invariant 0 <= i <= |lens|
      invariant best == Best(lens, budgets, i)
      invariant if best < 0 then bestScore == -1.0 else bestScore == Score(lens[best], budgets[best])
    {
      if budgets[i] < lens[i] {
        var score := lens[i] as real / (budgets[i] + 1) as real;
        if score > bestScore {
          best, bestScore := i, score;
        }
      }
      i := i + 1;
    }
  }

  /** Reserves points, then gives the rest one by one to the series with most rows per point. */
  method ShareOut(lens: seq<nat>, target: nat) returns (budgets: seq<nat>)
    ensures budgets == Budgets(lens, target)
  {
    var remaining;
    budgets, remaining := ReservePoints(lens, target);
    while remaining > 0
      invariant |budgets| == |lens|
      invariant Grant(lens, budgets, remaining) == Budgets(lens, target)
    {
      var best := FindBest(lens, budgets);
      if best < 0 {
        break;
      }
      budgets := budgets[best := budgets[best] + 1];
      remaining := remaining - 1;
    }
  }
}
