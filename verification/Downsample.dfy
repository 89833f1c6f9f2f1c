/** Thinning a chart line by largest triangles, with the bucket size as an exact fraction. */
module Downsample {
  import opened Common

  /** A sample without a value has the height null; every other height is finite. */
  datatype Point = Point(x: real, y: Option<real>)

  /** null counts as zero in arithmetic. */
  function Height(p: Point): real {
    if p.y.Some? then p.y.value else 0.0
  }

  function Abs(x: real): real {
    if x < 0.0 then -x else x
  }

  /** Twice the area of the triangle from the point kept last, over p, to the anchor ahead. */
  function Area(kept: Point, p: Point, anchor: Point): real {
    Abs((p.x - anchor.x) * (Height(kept) - Height(p)) - (p.x - kept.x) * (Height(anchor) - Height(p)))
  }

  /** By the shoelace formula, so it does not matter how the corners are named; the height null is zero. */
  lemma AreaIsShoelace(a: Point, b: Point, c: Point, h: real, k: real, l: real)
    requires a.y == Some(h) || (a.y == None && h == 0.0)
    requires b.y == Some(k) || (b.y == None && k == 0.0)
    requires c.y == Some(l) || (c.y == None && l == 0.0)
    ensures Area(a, b, c) == Abs(a.x * (k - l) + b.x * (l - h) + c.x * (h - k))
  {
    var u := (b.x - c.x) * (h - k) - (b.x - a.x) * (l - k);
    var v := a.x * (k - l) + b.x * (l - h) + c.x * (h - k);
    assert u == -v;
    assert Area(a, b, c) == Abs(u) == Abs(v);
  }

  // ----- Buckets

  /** Math.floor(i * bucketSize) + 1 */
  function Start(n: nat, target: nat, i: nat): (s: nat)
    requires 3 <= target < n
    ensures s >= 1
  {
    i * (n - 2) / (target - 2) + 1
  }

  function Least(a: nat, b: nat): nat {
    if a < b then a else b
  }

  function End(n: nat, target: nat, i: nat): nat
    requires 3 <= target < n
  {
    Least(n - 1, Start(n, target, i + 1))
  }

  lemma AtLeastOneMore(a: nat, d: nat, k: nat)
    requires k > 0 && d >= k
    ensures (a + d) / k >= a / k + 1
  {
    var q := a / k;
    assert a == q * k + a % k;
    assert a + d >= (q + 1) * k;
    QuotientAtLeast(a + d, q + 1, k);
  }

  lemma QuotientAtLeast(x: nat, q: nat, k: nat)
    requires k > 0 && x >= q * k
    ensures x / k >= q
  {
    if x / k < q {
      assert (q - 1) * k >= x / k * k by {
        Ordered(x / k, q - 1, k);
      }
    }
  }

  lemma Ordered(a: nat, b: nat, k: nat)
    requires a <= b
    ensures a * k <= b * k
  {
  }

  lemma StartRises(n: nat, target: nat, i: nat)
    requires 3 <= target < n
    ensures Start(n, target, i) < Start(n, target, i + 1)
  {
    assert (i + 1) * (n - 2) == i * (n - 2) + (n - 2);
    AtLeastOneMore(i * (n - 2), n - 2, target - 2);
  }

  lemma {:induction false} StartsRise(n: nat, target: nat, i: nat, j: nat)
    requires 3 <= target < n && i < j
    ensures Start(n, target, i) < Start(n, target, j)
    decreases j
  {
    hide Start;
    StartRises(n, target, j - 1);
    if i < j - 1 {
      StartsRise(n, target, i, j - 1);
    }
  }

  lemma FirstAndLastStart(n: nat, target: nat)
    requires 3 <= target < n
    ensures Start(n, target, 0) == 1 && Start(n, target, target - 2) == n - 1
  {
    var k, m := target - 2, n - 2;
    assert 0 * m == 0 && 0 / k == 0;
    QuotientAtLeast(k * m, m, k);
    assert k * m / k * k <= k * m;
    assert (m + 1) * k == m * k + k;
    if k * m / k > m {
      Ordered(m + 1, k * m / k, k);
    }
  }

  /** The buckets are non-empty and follow on one another from the second point to the last but one. */
  lemma BucketsPartition(n: nat, target: nat, i: nat)
    requires 3 <= target < n && i < target - 2
    ensures 1 <= Start(n, target, i) < End(n, target, i) <= n - 1
    ensures End(n, target, i) == Start(n, target, i + 1)
    ensures i == 0 ==> Start(n, target, i) == 1
    ensures i == target - 3 ==> End(n, target, i) == n - 1
  {
    hide Start;
    FirstAndLastStart(n, target);
    StartRises(n, target, i);
    if i + 1 < target - 2 {
      StartsRise(n, target, i + 1, target - 2);
    }
  }

  // ----- Buckets of equal size

  /** Bucket i starts right after i times the bucket size, rounded down. */
  lemma StartIs(n: nat, target: nat, i: nat)
    requires 3 <= target < n
    ensures (Start(n, target, i) - 1) * (target - 2) <= i * (n - 2) < Start(n, target, i) * (target - 2)
  {
    var x, k := i * (n - 2), target - 2;
    var q := x / k;
    assert x == q * k + x % k;
    assert (q + 1) * k == q * k + k;
  }

  lemma Multiples(a: nat, b: nat, k: nat)
    requires a <= b
    ensures (b - a) * k == b * k - a * k
  {
  }

  lemma SizeIs(n: nat, target: nat, i: nat)
    requires 3 <= target < n && i < target - 2
    ensures var size := End(n, target, i) - Start(n, target, i);
      n - 2 - (target - 2) < size * (target - 2) < n - 2 + (target - 2)
  {
    var k := target - 2;
    BucketsPartition(n, target, i);
    StartIs(n, target, i);
    StartIs(n, target, i + 1);
    hide Start, End;
    var a, b := Start(n, target, i), End(n, target, i);
    Multiples(a, b, k);
    Multiples(1, a, k);
    Multiples(1, b, k);
    assert (i + 1) * (n - 2) == i * (n - 2) + (n - 2);
  }

  /** No bucket has two points more than another. */
  lemma BucketsAreEven(n: nat, target: nat, i: nat, j: nat)
    requires 3 <= target < n && i < target - 2 && j < target - 2
    ensures End(n, target, i) - Start(n, target, i) <= End(n, target, j) - Start(n, target, j) + 1
  {
    hide Start, End;
    SizeIs(n, target, i);
    SizeIs(n, target, j);
    BucketsPartition(n, target, i);
    BucketsPartition(n, target, j);
    NearlyEqual(End(n, target, i) - Start(n, target, i), End(n, target, j) - Start(n, target, j), target - 2, n - 2);
  }

  lemma NearlyEqual(a: nat, b: nat, k: nat, total: nat)
    requires a * k < total + k && total - k < b * k
    ensures a <= b + 1
  {
    assert (b + 2) * k == b * k + 2 * k;
    if a >= b + 2 {
      Ordered(b + 2, a, k);
    }
  }

  // ----- Which points are kept

  /** The anchor ahead: the first point after the next bucket, or the nearest one before it with a height. */
  function Anchor(points: seq<Point>, start: nat, cap: nat): (a: nat)
    requires cap < |points|
    ensures a <= cap
    decreases cap
  {
    if cap > start && points[cap].y == None then Anchor(points, start, cap - 1) else cap
  }

  /** The first point with the largest area among those before end that have a height. */
  function Largest(points: seq<Point>, kept: Point, anchor: Point, start: nat, end: nat): (r: Option<nat>)
    requires start <= end <= |points|
    ensures r.Some? ==> start <= r.value < end && points[r.value].y.Some?
  {
    if end == start then None
    else
      var best, j := Largest(points, kept, anchor, start, end - 1), end - 1;
      if points[j].y == None then best
      else if best == None || Area(kept, points[j], anchor) > Area(kept, points[best.value], anchor) then Some(j)
      else best
  }

  function Middle(start: nat, end: nat): nat {
    (start + end) / 2
  }

  function AnchorOf(points: seq<Point>, target: nat, i: nat): (a: nat)
    requires 3 <= target < |points|
    ensures a < |points|
  {
    var n := |points|;
    Anchor(points, Start(n, target, i), Least(n - 1, Start(n, target, i + 2)))
  }

  /** The index kept from bucket i after the point kept; without an anchor or a height, the middle one. */
  function Pick(points: seq<Point>, target: nat, i: nat, kept: Point): (j: nat)
    requires 3 <= target < |points| && i < target - 2
    ensures Start(|points|, target, i) <= j < End(|points|, target, i) <= |points| - 1
  {
    var n := |points|;
    BucketsPartition(n, target, i);
    var start, end, a := Start(n, target, i), End(n, target, i), AnchorOf(points, target, i);
    if a <= start || points[a].y == None then Middle(start, end)
    else
      var best := Largest(points, kept, points[a], start, end);
      if best == None then Middle(start, end) else best.value
  }

  /** The index kept in place k of the result. */
  function Kept(points: seq<Point>, target: nat, k: nat): (j: nat)
    requires 3 <= target < |points| && k < target
    ensures j < |points|
  {
    if k == 0 then 0
    else if k == target - 1 then |points| - 1
    else Pick(points, target, k - 1, points[Kept(points, target, k - 1)])
  }

  function Sampled(points: seq<Point>, target: nat): seq<Point> {
    if |points| <= target || target < 3 then points
    else seq(target, k requires 0 <= k < target => points[Kept(points, target, k)])
  }

  /** One place of the result for every bucket, between the first and the last point: strictly in order. */
  lemma KeptRises(points: seq<Point>, target: nat, k: nat)
    requires 3 <= target < |points| && k + 1 < target
    ensures Kept(points, target, k) < Kept(points, target, k + 1)
    ensures 0 < k ==> Start(|points|, target, k - 1) <= Kept(points, target, k) < End(|points|, target, k - 1)
    ensures Kept(points, target, 0) == 0 && Kept(points, target, target - 1) == |points| - 1
  {
    hide Start, Largest, AnchorOf;
    if 0 < k {
      BucketsPartition(|points|, target, k - 1);
    }
    if k + 1 < target - 1 {
      BucketsPartition(|points|, target, k);
    }
  }

  /** So the points kept are spread evenly over the line: place k is no further off than the size of a bucket. */
  lemma KeptEvenly(points: seq<Point>, target: nat, k: nat)
    requires 3 <= target < |points| && 0 < k < target - 1
    ensures (k - 1) * (|points| - 2) < Kept(points, target, k) * (target - 2) <= k * (|points| - 2)
  {
    hide *;
    KeptRises(points, target, k);
    BucketsPartition(|points|, target, k - 1);
    InBucketEvenly(|points|, target, k, Kept(points, target, k));
  }

  lemma InBucketEvenly(n: nat, target: nat, k: nat, j: nat)
    requires 3 <= target < n && 0 < k < target - 1
    requires Start(n, target, k - 1) <= j < Start(n, target, k)
    ensures (k - 1) * (n - 2) < j * (target - 2) <= k * (n - 2)
  {
    hide *;
    StartIs(n, target, k - 1);
    StartIs(n, target, k);
    Between(Start(n, target, k - 1), j, Start(n, target, k), target - 2);
  }

  lemma Between(a: nat, j: nat, b: nat, k: nat)
    requires a <= j < b
    ensures a * k <= j * k <= (b - 1) * k
  {
    Ordered(a, j, k);
    Ordered(j, b - 1, k);
  }

  lemma {:induction false} KeptInOrder(points: seq<Point>, target: nat, j: nat, k: nat)
    requires 3 <= target < |points| && j < k < target
    ensures Kept(points, target, j) < Kept(points, target, k)
    decreases k
  {
    hide Kept;
    KeptRises(points, target, k - 1);
    if j < k - 1 {
      KeptInOrder(points, target, j, k - 1);
    }
  }

  /** Every point strictly between the ends belongs to exactly one bucket. */
  lemma {:induction false} BucketOf(n: nat, target: nat, j: nat, m: nat) returns (i: nat)
    requires 3 <= target < n && 1 <= m <= target - 2 && 1 <= j < Start(n, target, m)
    ensures i < m && Start(n, target, i) <= j < End(n, target, i)
    ensures forall other: nat ::
      other < target - 2 && Start(n, target, other) <= j < End(n, target, other) ==> other == i
    decreases m
  {
    hide Start, End;
    FirstAndLastStart(n, target);
    if j >= Start(n, target, m - 1) {
      i := m - 1;
    } else {
      i := BucketOf(n, target, j, m - 1);
    }
    BucketsPartition(n, target, i);
    forall other: nat | other < target - 2 && Start(n, target, other) <= j < End(n, target, other) ensures other == i {
      BucketsPartition(n, target, other);
      if other < i {
        NotPast(n, target, other + 1, i);
      } else if i < other {
        NotPast(n, target, i + 1, other);
      }
    }
  }

  lemma NotPast(n: nat, target: nat, i: nat, j: nat)
    requires 3 <= target < n && i <= j
    ensures Start(n, target, i) <= Start(n, target, j)
  {
    if i < j {
      StartsRise(n, target, i, j);
    }
  }

  // ----- The largest triangle

  lemma {:induction false} LargestIsLargest(points: seq<Point>, kept: Point, anchor: Point, start: nat, end: nat)
    requires start <= end <= |points|
    ensures var r := Largest(points, kept, anchor, start, end);
      && (r == None <==> forall j :: start <= j < end ==> points[j].y == None)
      && (r.Some? ==> forall j :: start <= j < end && points[j].y.Some? ==>
            Area(kept, points[j], anchor) <= Area(kept, points[r.value], anchor)
            && (j < r.value ==> Area(kept, points[j], anchor) < Area(kept, points[r.value], anchor)))
    decreases end
  {
    hide Area;
    if start < end {
      LargestIsLargest(points, kept, anchor, start, end - 1);
    }
  }

  /** An anchor ahead of the bucket's first point, and some point in the bucket with a height. */
  predicate Comparable(points: seq<Point>, target: nat, i: nat)
    requires 3 <= target < |points| && i < target - 2
  {
    var a := AnchorOf(points, target, i);
    && a > Start(|points|, target, i) && points[a].y.Some?
    && exists j :: Start(|points|, target, i) <= j < End(|points|, target, i) && j < |points| && points[j].y.Some?
  }

  lemma {:induction false} AnchorIs(points: seq<Point>, start: nat, cap: nat)
    requires cap < |points|
    ensures var a := Anchor(points, start, cap);
      && (forall j :: a < j <= cap ==> points[j].y == None)
      && (a > start ==> points[a].y.Some?)
      && (a < start ==> a == cap)
    decreases cap
  {
    if cap > start && points[cap].y == None {
      AnchorIs(points, start, cap - 1);
    }
  }

  /** The anchor is the last point with a height up to the first after the next bucket, or the bucket's own start. */
  lemma AnchorIsLast(points: seq<Point>, target: nat, i: nat)
    requires 3 <= target < |points| && i < target - 2
    ensures var n, a := |points|, AnchorOf(points, target, i);
      && (forall j :: a < j < n && j <= Start(n, target, i + 2) ==> points[j].y == None)
      && Start(n, target, i) <= a
      && (a > Start(n, target, i) ==> points[a].y.Some? && a <= Start(n, target, i + 2))
  {
    hide Start, Anchor;
    var n := |points|;
    BucketsPartition(n, target, i);
    StartRises(n, target, i);
    StartRises(n, target, i + 1);
    AnchorIs(points, Start(n, target, i), Least(n - 1, Start(n, target, i + 2)));
  }

  /** With samples missing: the largest triangle if there is anything to compare, else the middle of the bucket. */
  lemma KeepsLargestOrMiddle(points: seq<Point>, target: nat, i: nat)
    requires 3 <= target < |points| && i < target - 2
    ensures var n := |points|;
      var start, end, best := Start(n, target, i), End(n, target, i), Kept(points, target, i + 1);
      var kept, anchor := points[Kept(points, target, i)], points[AnchorOf(points, target, i)];
      if Comparable(points, target, i) then
        points[best].y.Some?
        && forall j :: start <= j < end && j < n && points[j].y.Some? ==>
             && Area(kept, points[j], anchor) <= Area(kept, points[best], anchor)
             && (j < best ==> Area(kept, points[j], anchor) < Area(kept, points[best], anchor))
      else end - best - 1 <= best - start <= end - best
  {
    hide Start, Area, Largest, AnchorOf, Anchor;
    var n := |points|;
    BucketsPartition(n, target, i);
    LargestIsLargest(points, points[Kept(points, target, i)], points[AnchorOf(points, target, i)],
                     Start(n, target, i), End(n, target, i));
  }

  /** With heights everywhere, the anchor is the first point after the next bucket, or the very last point. */
  lemma AnchorAhead(points: seq<Point>, target: nat, i: nat)
    requires 3 <= target < |points| && i < target - 2
    requires forall j :: 0 <= j < |points| ==> points[j].y.Some?
    ensures AnchorOf(points, target, i) == Least(|points| - 1, Start(|points|, target, i + 2))
    ensures AnchorOf(points, target, i) >= End(|points|, target, i)
  {
    hide Start;
    BucketsPartition(|points|, target, i);
    StartRises(|points|, target, i);
    StartRises(|points|, target, i + 1);
  }

  /** Main result: each place holds the first of the points of its bucket that span the largest triangle. */
  lemma KeepsLargestTriangles(points: seq<Point>, target: nat, i: nat)
    requires 3 <= target < |points| && i < target - 2
    requires forall j :: 0 <= j < |points| ==> points[j].y.Some?
    ensures var n := |points|;
      var kept, best, anchor :=
        points[Kept(points, target, i)], Kept(points, target, i + 1), points[AnchorOf(points, target, i)];
      && Start(n, target, i) <= best < End(n, target, i)
      && forall j :: Start(n, target, i) <= j < End(n, target, i) ==>
           && Area(kept, points[j], anchor) <= Area(kept, points[best], anchor)
           && (j < best ==> Area(kept, points[j], anchor) < Area(kept, points[best], anchor))
  {
    hide Start, Area, Largest, AnchorOf, Anchor;
    var n := |points|;
    BucketsPartition(n, target, i);
    AnchorAhead(points, target, i);
    var kept, anchor := points[Kept(points, target, i)], points[AnchorOf(points, target, i)];
    LargestIsLargest(points, kept, anchor, Start(n, target, i), End(n, target, i));
    assert points[Start(n, target, i)].y.Some?;
  }

  // ----- The loop

  lemma KeptNext(points: seq<Point>, target: nat, i: nat)
    requires 3 <= target < |points| && i < target - 2
    ensures Kept(points, target, i + 1) == Pick(points, target, i, points[Kept(points, target, i)])
    ensures Kept(points, target, 0) == 0 && Kept(points, target, target - 1) == |points| - 1
  {
    hide Pick;
  }

  method Lttb(points: seq<Point>, target: nat) returns (result: seq<Option<Point>>)
    ensures |result| == |Sampled(points, target)|
    ensures forall k :: 0 <= k < |result| ==> result[k] == Some(Sampled(points, target)[k])
    ensures 3 <= target < |points| ==>
      |result| == target && forall k :: 0 <= k < target ==> result[k] == Some(points[Kept(points, target, k)])
    ensures target < 3 || |points| <= target ==>
      |result| == |points| && forall k :: 0 <= k < |points| ==> result[k] == Some(points[k])
  {
    var n := |points|;
    if n <= target || target < 3 {
      return seq(n, k requires 0 <= k < n => Some(points[k]));
    }
    result := FillSlots(points, target);
  }

  /** target slots, all filled, each from the one before it. */
  method FillSlots(points: seq<Point>, target: nat) returns (result: seq<Option<Point>>)
    requires 3 <= target < |points|
    ensures |result| == target
    ensures forall k :: 0 <= k < target ==> result[k] == Some(points[Kept(points, target, k)])
  {
    hide *;
    KeptNext(points, target, 0);
    var n := |points|;
    var slots: array<Option<Point>> := new Option<Point>[target](_ => None);
    slots[0] := Some(points[0]);
    slots[target - 1] := Some(points[n - 1]);
    var i := 0;
    while i < target - 2
      invariant 0 <= i <= target - 2
      invariant slots[target - 1] == Some(points[n - 1])
      invariant forall k :: 0 <= k <= i ==> slots[k] == Some(points[Kept(points, target, k)])
    {
      KeptNext(points, target, i);
      var j := PickFrom(points, target, i, slots[i].value);
      slots[i + 1] := Some(points[j]);
      i := i + 1;
    }
    result := slots[..];
  }

  /** One turn of the loop, after the point kept last. */
  method PickFrom(points: seq<Point>, target: nat, i: nat, kept: Point) returns (j: nat)
    requires 3 <= target < |points| && i < target - 2
    ensures j == Pick(points, target, i, kept) && j < |points|
  {
    hide Area, Start;
    var n := |points|;
    BucketsPartition(n, target, i);
    var start, end := Start(n, target, i), End(n, target, i);
    var endCap := Least(n - 1, Start(n, target, i + 2));
    while endCap > start && points[endCap].y == None
      invariant 0 <= endCap < n && Anchor(points, start, endCap) == AnchorOf(points, target, i)
    {
      endCap := endCap - 1;
    }
    if endCap <= start || points[endCap].y == None {
      return Middle(start, end);
    }
    var anchor := points[endCap];
    var maxArea := -1.0;
    j := Middle(start, end);
    var t := start;
    while t < end
      invariant start <= t <= end
      invariant maxArea < 0.0 <==> Largest(points, kept, anchor, start, t) == None
      invariant maxArea < 0.0 ==> maxArea == -1.0 && j == Middle(start, end)
      invariant maxArea >= 0.0 ==>
        Largest(points, kept, anchor, start, t) == Some(j) && maxArea == Area(kept, points[j], anchor)
    {
      if points[t].y.Some? {
        var area := Area(kept, points[t], anchor);
        AreaNotNegative(kept, points[t], anchor);
        if area > maxArea {
          maxArea := area;
          j := t;
        }
      }
      t := t + 1;
    }
  }

  lemma AreaNotNegative(a: Point, b: Point, c: Point)
    ensures Area(a, b, c) >= 0.0
  {
  }
}
