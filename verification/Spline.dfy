/** The smoothed chart line: slopes, tangents clamped in place, and Bezier segments that never overshoot. */
module Spline {

  datatype Point = Point(x: real, y: real)

  datatype Curve = Curve(x0: real, y0: real, c1x: real, c1y: real, c2x: real, c2y: real, x1: real, y1: real)

  /** The length of (a, b), which the reals of this model cannot compute. */
  ghost predicate IsHypot(hypot: (real, real) -> real) {
    forall a: real, b: real :: hypot(a, b) >= 0.0 && hypot(a, b) * hypot(a, b) == a * a + b * b
  }

  // ----- Slopes and tangents

  function Slope(p: Point, q: Point): real {
    if q.x - p.x == 0.0 then 0.0 else (q.y - p.y) / (q.x - p.x)
  }

  function Slopes(px: seq<Point>): seq<real>
    requires |px| >= 2
  {
    seq(|px| - 1, i requires 0 <= i < |px| - 1 => Slope(px[i], px[i + 1]))
  }

  /** The mean, or nothing at a turning point. */
  function Inner(left: real, right: real): real {
    if left * right <= 0.0 then 0.0 else (left + right) / 2.0
  }

  /** Before clamping: the end slopes at the ends. */
  function Tangent(slopes: seq<real>, i: nat): real
    requires 0 < |slopes| && i <= |slopes|
  {
    if i == 0 then slopes[0]
    else if i == |slopes| then slopes[i - 1]
    else Inner(slopes[i - 1], slopes[i])
  }

  function Tangents(slopes: seq<real>): seq<real>
    requires 0 < |slopes|
  {
    seq(|slopes| + 1, i requires 0 <= i <= |slopes| => Tangent(slopes, i))
  }

  function Ratio(tangent: real, slope: real): real
    requires slope != 0.0
  {
    tangent / slope
  }

  /** s*a with s = 3/h */
  function Back(h: real, ratio: real): real
    requires h > 3.0
  {
    3.0 / h * ratio
  }

  function ScaledBack(h: real, ratio: real, slope: real): real
    requires h > 3.0
  {
    Back(h, ratio) * slope
  }

  /** Clamping both ends of segment i. */
  function Clamp(slopes: seq<real>, tangents: seq<real>, i: nat, hypot: (real, real) -> real): seq<real>
    requires i < |slopes| && |tangents| == |slopes| + 1
  {
    var m := slopes[i];
    if m == 0.0 then tangents[i := 0.0][i + 1 := 0.0]
    else
      var a, b := Ratio(tangents[i], m), Ratio(tangents[i + 1], m);
      var h := hypot(a, b);
      if h > 3.0 then tangents[i := ScaledBack(h, a, m)][i + 1 := ScaledBack(h, b, m)] else tangents
  }

  /** After the first n segments, from left to right. */
  function Clamped(slopes: seq<real>, tangents: seq<real>, n: nat, hypot: (real, real) -> real): (r: seq<real>)
    requires n <= |slopes| && |tangents| == |slopes| + 1
    ensures |r| == |tangents|
  {
    if n == 0 then tangents else Clamp(slopes, Clamped(slopes, tangents, n - 1, hypot), n - 1, hypot)
  }

  // ----- What clamping does to one segment

  /** x' lies between 0 and x. */
  predicate Shrunk(x': real, x: real) {
    0.0 <= x' <= x || x <= x' <= 0.0
  }

  predicate SameSign(m: real, t0: real, t1: real) {
    m != 0.0 ==> Ratio(t0, m) >= 0.0 && Ratio(t1, m) >= 0.0
  }

  /** a and b are coordinates in the quarter disc of radius 3. */
  predicate InDisc(a: real, b: real) {
    a >= 0.0 && b >= 0.0 && a * a + b * b <= 9.0
  }

  /** The ratios of both tangents to the slope lie in that disc; on a flat segment both are flat. */
  predicate Gentle(m: real, t0: real, t1: real) {
    if m == 0.0 then t0 == 0.0 && t1 == 0.0 else InDisc(Ratio(t0, m), Ratio(t1, m))
  }

  lemma ShrunkRatio(x': real, x: real, m: real)
    requires m != 0.0 && Shrunk(x', x) && Ratio(x, m) >= 0.0
    ensures 0.0 <= Ratio(x', m) <= Ratio(x, m)
  {
    var k := 1.0 / m;
    assert x / m == x * k && x' / m == x' * k;
    if m > 0.0 {
      assert k > 0.0;
    } else {
      assert k < 0.0;
    }
  }

  lemma SmallerSquare(a: real, b: real)
    requires 0.0 <= a <= b
    ensures a * a <= b * b
  {
  }

  lemma SmallerInDisc(a: real, b: real, a': real, b': real)
    requires InDisc(a, b) && 0.0 <= a' <= a && 0.0 <= b' <= b
    ensures InDisc(a', b')
  {
    SmallerSquare(a', a);
    SmallerSquare(b', b);
  }

  /** What a later iteration shrinks stays gentle. */
  lemma ShrunkGentle(m: real, t0: real, t1: real, s0: real, s1: real)
    requires Gentle(m, t0, t1) && Shrunk(s0, t0) && Shrunk(s1, t1)
    ensures Gentle(m, s0, s1)
  {
    hide Ratio;
    if m != 0.0 {
      assert Ratio(t0, m) >= 0.0 && Ratio(t1, m) >= 0.0;
      ShrunkRatio(s0, t0, m);
      ShrunkRatio(s1, t1, m);
      SmallerInDisc(Ratio(t0, m), Ratio(t1, m), Ratio(s0, m), Ratio(s1, m));
    }
  }

  lemma ShrunkSameSign(m: real, t0: real, t1: real, s0: real, s1: real)
    requires SameSign(m, t0, t1) && Shrunk(s0, t0) && Shrunk(s1, t1)
    ensures SameSign(m, s0, s1)
  {
    hide Ratio;
    if m != 0.0 {
      ShrunkRatio(s0, t0, m);
      ShrunkRatio(s1, t1, m);
    }
  }

  lemma DivideBack(x: real, m: real)
    requires m != 0.0
    ensures x / m * m == x && x * m / m == x
  {
  }

  lemma Scaled(s: real, x: real)
    requires 0.0 <= s <= 1.0
    ensures Shrunk(s * x, x)
  {
    if x >= 0.0 {
      assert 0.0 <= s * x <= 1.0 * x;
    } else {
      assert 1.0 * x <= s * x <= 0.0;
    }
  }

  lemma Quotient(h: real) returns (s: real)
    requires h > 3.0
    ensures s == 3.0 / h && 0.0 < s < 1.0 && s * h == 3.0
  {
    s := 3.0 / h;
    DivideBack(3.0, h);
    assert (1.0 - s) * h > 0.0;
  }

  /** Scaling back multiplies the tangent, and its ratio, by 3/h. */
  lemma ScaledTangent(h: real, t: real, m: real)
    requires m != 0.0 && h > 3.0
    ensures Shrunk(ScaledBack(h, Ratio(t, m), m), t)
    ensures Ratio(ScaledBack(h, Ratio(t, m), m), m) == Back(h, Ratio(t, m))
  {
    var s := Quotient(h);
    DivideBack(t, m);
    DivideBack(s * (t / m), m);
    assert s * (t / m) * m == s * (t / m * m);
    Scaled(s, t);
  }

  lemma OnCircle(s: real, a: real, b: real, h: real)
    requires s * h == 3.0 && h * h == a * a + b * b
    ensures (s * a) * (s * a) + (s * b) * (s * b) == 9.0
  {
    calc {
      (s * a) * (s * a) + (s * b) * (s * b);
      s * s * (a * a + b * b);
      s * s * (h * h);
      (s * h) * (s * h);
      9.0;
    }
  }

  lemma NonNegative(a: real, b: real)
    requires a >= 0.0 && b >= 0.0
    ensures a * b >= 0.0
  {
  }

  lemma ScaledInDisc(a: real, b: real, h: real)
    requires h > 3.0 && a >= 0.0 && b >= 0.0 && h * h == a * a + b * b
    ensures InDisc(Back(h, a), Back(h, b))
  {
    var s := Quotient(h);
    OnCircle(s, a, b, h);
    NonNegative(s, a);
    NonNegative(s, b);
  }

  /** A long pair of ratios is scaled back onto the circle; a short one is already inside. */
  lemma LongOrShort(a: real, b: real, hypot: (real, real) -> real)
    requires a >= 0.0 && b >= 0.0 && IsHypot(hypot)
    ensures hypot(a, b) > 3.0 ==> InDisc(Back(hypot(a, b), a), Back(hypot(a, b), b))
    ensures hypot(a, b) <= 3.0 ==> InDisc(a, b)
  {
    var h := hypot(a, b);
    assert h >= 0.0 && h * h == a * a + b * b;
    if h > 3.0 {
      ScaledInDisc(a, b, h);
    } else {
      SmallerSquare(h, 3.0);
    }
  }

  /** One iteration makes its own segment gentle, and shrinks the two tangents it touches. */
  lemma ClampSegment(slopes: seq<real>, tangents: seq<real>, i: nat, hypot: (real, real) -> real)
    requires i < |slopes| && |tangents| == |slopes| + 1 && IsHypot(hypot)
    requires SameSign(slopes[i], tangents[i], tangents[i + 1])
    ensures var r := Clamp(slopes, tangents, i, hypot);
      && Gentle(slopes[i], r[i], r[i + 1])
      && forall k :: 0 <= k < |tangents| ==> Shrunk(r[k], tangents[k])
  {
    hide Ratio, Back, ScaledBack, InDisc, IsHypot;
    var m, r := slopes[i], Clamp(slopes, tangents, i, hypot);
    if m == 0.0 {
      assert r[i] == 0.0 && r[i + 1] == 0.0;
    } else {
      var a, b := Ratio(tangents[i], m), Ratio(tangents[i + 1], m);
      LongOrShort(a, b, hypot);
      var h := hypot(a, b);
      if h > 3.0 {
        ScaledTangent(h, tangents[i], m);
        ScaledTangent(h, tangents[i + 1], m);
        assert r[i] == ScaledBack(h, a, m) && r[i + 1] == ScaledBack(h, b, m);
      }
    }
  }

  /** Scaling back is exact: onto the circle, in the same direction; what lies in the disc is left alone. */
  lemma ClampExactly(slopes: seq<real>, tangents: seq<real>, i: nat, hypot: (real, real) -> real)
    requires i < |slopes| && |tangents| == |slopes| + 1 && IsHypot(hypot) && slopes[i] != 0.0
    ensures var m, r := slopes[i], Clamp(slopes, tangents, i, hypot);
      var a, b := Ratio(tangents[i], m), Ratio(tangents[i + 1], m);
      var c, d := Ratio(r[i], m), Ratio(r[i + 1], m);
      && (a * a + b * b <= 9.0 ==> r == tangents)
      && (a * a + b * b > 9.0 ==> c * c + d * d == 9.0 && c * b == d * a && c * a >= 0.0 && d * b >= 0.0)
      && forall k :: 0 <= k < |tangents| && k != i && k != i + 1 ==> r[k] == tangents[k]
  {
    hide Ratio, Back, ScaledBack, IsHypot;
    var m := slopes[i];
    var a, b := Ratio(tangents[i], m), Ratio(tangents[i + 1], m);
    var h := hypot(a, b);
    LongIff(a, b, hypot);
    if h > 3.0 {
      ScaledTangent(h, tangents[i], m);
      ScaledTangent(h, tangents[i + 1], m);
      BackOnCircle(a, b, h);
    }
  }

  lemma LongIff(a: real, b: real, hypot: (real, real) -> real)
    requires IsHypot(hypot)
    ensures hypot(a, b) > 3.0 <==> a * a + b * b > 9.0
    ensures hypot(a, b) * hypot(a, b) == a * a + b * b
  {
    var h := hypot(a, b);
    assert h >= 0.0 && h * h == a * a + b * b;
    if h > 3.0 {
      assert (h - 3.0) * (h + 3.0) > 0.0;
      assert (h - 3.0) * (h + 3.0) == h * h - 9.0;
    } else {
      SmallerSquare(h, 3.0);
    }
  }

  lemma BackOnCircle(a: real, b: real, h: real)
    requires h > 3.0 && h * h == a * a + b * b
    ensures var c, d := Back(h, a), Back(h, b);
      c * c + d * d == 9.0 && c * b == d * a && c * a >= 0.0 && d * b >= 0.0
  {
    var s := Quotient(h);
    OnCircle(s, a, b, h);
    SquareScaled(s, a);
    SquareScaled(s, b);
  }

  lemma SquareScaled(s: real, a: real)
    requires s >= 0.0
    ensures s * a * a >= 0.0
  {
    assert a * a >= 0.0;
    NonNegative(s, a * a);
    assert s * a * a == s * (a * a);
  }

  // ----- The whole loop

  predicate AllSameSign(slopes: seq<real>, tangents: seq<real>)
    requires |tangents| == |slopes| + 1
  {
    forall k :: 0 <= k < |slopes| ==> SameSign(slopes[k], tangents[k], tangents[k + 1])
  }

  predicate AllGentle(slopes: seq<real>, tangents: seq<real>, n: nat)
    requires n <= |slopes| && |tangents| == |slopes| + 1
  {
    forall k :: 0 <= k < n ==> Gentle(slopes[k], tangents[k], tangents[k + 1])
  }

  lemma MeanSign(m: real, other: real)
    requires m * other > 0.0
    ensures Ratio((m + other) / 2.0, m) >= 0.0 && Ratio((m + other) / 2.0, other) >= 0.0
  {
    assert m * m >= 0.0 && other * other >= 0.0;
    assert m * ((m + other) / 2.0) == (m * m + m * other) / 2.0;
    assert other * ((m + other) / 2.0) == (m * other + other * other) / 2.0;
    PositiveRatio(m, (m + other) / 2.0);
    PositiveRatio(other, (m + other) / 2.0);
  }

  lemma PositiveRatio(m: real, other: real)
    requires m * other > 0.0
    ensures m != 0.0 && Ratio(other, m) > 0.0
  {
    if m > 0.0 {
      assert other > 0.0;
    } else {
      assert m < 0.0 && other < 0.0;
    }
  }

  /** The unclamped tangents agree in sign with the slopes on both sides. */
  lemma TangentsSameSign(slopes: seq<real>)
    requires 0 < |slopes|
    ensures AllSameSign(slopes, Tangents(slopes))
  {
    forall k | 0 <= k < |slopes|
      ensures SameSign(slopes[k], Tangent(slopes, k), Tangent(slopes, k + 1))
    {
      if slopes[k] != 0.0 {
        if k > 0 && slopes[k - 1] * slopes[k] > 0.0 {
          MeanSign(slopes[k - 1], slopes[k]);
        }
        if k + 1 < |slopes| && slopes[k] * slopes[k + 1] > 0.0 {
          MeanSign(slopes[k], slopes[k + 1]);
        }
      }
    }
  }

  /** Later iterations rewrite tangents of segments already done, and leave those gentle all the same. */
  lemma {:induction false} ClampedGentle(slopes: seq<real>, tangents: seq<real>, n: nat, hypot: (real, real) -> real)
    requires n <= |slopes| && |tangents| == |slopes| + 1 && IsHypot(hypot) && AllSameSign(slopes, tangents)
    ensures AllGentle(slopes, Clamped(slopes, tangents, n, hypot), n)
    ensures AllSameSign(slopes, Clamped(slopes, tangents, n, hypot))
  {
    hide SameSign, Gentle, Shrunk, IsHypot, Clamp;
    if n > 0 {
      ClampedGentle(slopes, tangents, n - 1, hypot);
      var t := Clamped(slopes, tangents, n - 1, hypot);
      var r := Clamped(slopes, tangents, n, hypot);
      ClampSegment(slopes, t, n - 1, hypot);
      forall k | 0 <= k < |slopes|
        ensures SameSign(slopes[k], r[k], r[k + 1])
        ensures k < n ==> Gentle(slopes[k], r[k], r[k + 1])
      {
        ShrunkSameSign(slopes[k], t[k], t[k + 1], r[k], r[k + 1]);
        if k < n - 1 {
          ShrunkGentle(slopes[k], t[k], t[k + 1], r[k], r[k + 1]);
        }
      }
    }
  }

  /** The loop, in place. */
  method ClampTangents(slopes: array<real>, tangents: array<real>, hypot: (real, real) -> real)
    requires tangents.Length == slopes.Length + 1 && tangents != slopes
    modifies tangents
    ensures tangents[..] == Clamped(slopes[..], old(tangents[..]), slopes.Length, hypot)
  {
    ghost var m, t := slopes[..], tangents[..];
    var i := 0;
    while i < slopes.Length
      invariant 0 <= i <= slopes.Length && slopes[..] == m
      invariant tangents[..] == Clamped(m, t, i, hypot)
    {
      ghost var before := tangents[..];
      if slopes[i] == 0.0 {
        tangents[i] := 0.0;
        tangents[i + 1] := 0.0;
        assert tangents[..] == before[i := 0.0][i + 1 := 0.0];
      } else {
        var a := Ratio(tangents[i], slopes[i]);
        var b := Ratio(tangents[i + 1], slopes[i]);
        var h := hypot(a, b);
        if h > 3.0 {
          tangents[i] := ScaledBack(h, a, slopes[i]);
          tangents[i + 1] := ScaledBack(h, b, slopes[i]);
          assert tangents[..] == before[i := ScaledBack(h, a, slopes[i])][i + 1 := ScaledBack(h, b, slopes[i])];
        }
      }
      i := i + 1;
    }
  }

  // ----- The curves

  function Straight(p: Point, q: Point): Curve {
    Curve(p.x, p.y, p.x, p.y, q.x, q.y, q.x, q.y)
  }

  function Smooth(p: Point, q: Point, t0: real, t1: real): Curve {
    var dx := q.x - p.x;
    Curve(p.x, p.y, p.x + dx / 3.0, p.y + t0 * dx / 3.0, q.x - dx / 3.0, q.y - t1 * dx / 3.0, q.x, q.y)
  }

  function FinalTangents(px: seq<Point>, hypot: (real, real) -> real): (r: seq<real>)
    requires |px| >= 2
    ensures |r| == |px|
  {
    Clamped(Slopes(px), Tangents(Slopes(px)), |px| - 1, hypot)
  }

  /** The segments drawn through the points; fewer than three points are never smoothed. */
  function Curves(px: seq<Point>, smooth: bool, hypot: (real, real) -> real): seq<Curve> {
    if |px| == 0 then []
    else if |px| == 1 then [Straight(px[0], px[0])]
    else if |px| < 3 || !smooth then seq(|px| - 1, i requires 0 <= i < |px| - 1 => Straight(px[i], px[i + 1]))
    else
      var t := FinalTangents(px, hypot);
      seq(|px| - 1, i requires 0 <= i < |px| - 1 => Smooth(px[i], px[i + 1], t[i], t[i + 1]))
  }

  method SegmentVertexData(px: seq<Point>, smooth: bool, hypot: (real, real) -> real) returns (result: seq<Curve>)
    ensures result == Curves(px, smooth, hypot)
  {
    hide Smooth, Straight, Clamped, Slopes, Tangents;
    result := [];
    if |px| == 0 {
      return;
    }
    if |px| < 3 || !smooth {
      if |px| < 2 {
        return [Straight(px[0], px[0])];
      }
      var j := 0;
      while j < |px| - 1
        invariant 0 <= j <= |px| - 1 && |result| == j
        invariant forall k :: 0 <= k < j ==> result[k] == Straight(px[k], px[k + 1])
      {
        result := result + [Straight(px[j], px[j + 1])];
        j := j + 1;
      }
      return;
    }
    var n := |px|;
    var slopes := FillSlopes(px);
    var tangents := FillTangents(slopes);
    ClampTangents(slopes, tangents, hypot);
    var i := 0;
    while i < n - 1
      invariant 0 <= i <= n - 1 && |result| == i
      invariant forall k :: 0 <= k < i ==> result[k] == Smooth(px[k], px[k + 1], tangents[k], tangents[k + 1])
    {
      result := result + [Smooth(px[i], px[i + 1], tangents[i], tangents[i + 1])];
      i := i + 1;
    }
  }

  /** No point gives no segment, and a single one a segment of its own. */
  lemma FewPoints(px: seq<Point>, smooth: bool, hypot: (real, real) -> real)
    ensures px == [] ==> Curves(px, smooth, hypot) == []
    ensures |px| == 1 ==>
      var p := px[0]; Curves(px, smooth, hypot) == [Curve(p.x, p.y, p.x, p.y, p.x, p.y, p.x, p.y)]
  {
  }

  method FillSlopes(px: seq<Point>) returns (slopes: array<real>)
    requires |px| >= 3
    ensures fresh(slopes) && slopes.Length == |px| - 1 && slopes[..] == Slopes(px)
  {
    hide Slope;
    slopes := new real[|px| - 1];
    var i := 0;
    while i < |px| - 1
      invariant 0 <= i <= |px| - 1
      invariant forall k :: 0 <= k < i ==> slopes[k] == Slope(px[k], px[k + 1])
    {
      slopes[i] := Slope(px[i], px[i + 1]);
      i := i + 1;
    }
  }

  method FillTangents(slopes: array<real>) returns (tangents: array<real>)
    requires slopes.Length >= 2
    ensures fresh(tangents) && tangents.Length == slopes.Length + 1 && tangents[..] == Tangents(slopes[..])
  {
    hide Inner;
    var n := slopes.Length + 1;
    tangents := new real[n];
    tangents[0] := slopes[0];
    tangents[n - 1] := slopes[n - 2];
    var i := 1;
    while i < n - 1
      invariant 1 <= i <= n - 1
      invariant tangents[n - 1] == slopes[n - 2] && tangents[0] == slopes[0]
      invariant forall k :: 1 <= k < i ==> tangents[k] == Inner(slopes[k - 1], slopes[k])
    {
      tangents[i] := Inner(slopes[i - 1], slopes[i]);
      i := i + 1;
    }
  }

  // ----- No overshoot

  /** After the loop every segment is gentle. */
  lemma FinalGentle(px: seq<Point>, hypot: (real, real) -> real)
    requires |px| >= 2 && IsHypot(hypot)
    ensures AllGentle(Slopes(px), FinalTangents(px, hypot), |px| - 1)
  {
    hide AllGentle, AllSameSign, IsHypot;
    TangentsSameSign(Slopes(px));
    ClampedGentle(Slopes(px), Tangents(Slopes(px)), |px| - 1, hypot);
  }

  /** c rises, or falls, from y0 to y1 by the fractions a and b of a third at its ends. */
  predicate Reaches(c: Curve, a: real, b: real) {
    && c.c1y == c.y0 + a * (c.y1 - c.y0) / 3.0
    && c.c2y == c.y1 - b * (c.y1 - c.y0) / 3.0
  }

  lemma AcrossIs(p: Point, q: Point, t: real)
    requires Slope(p, q) != 0.0
    ensures t * (q.x - p.x) == Ratio(t, Slope(p, q)) * (q.y - p.y)
  {
    var m, dx := Slope(p, q), q.x - p.x;
    DivideBack(q.y - p.y, dx);
    DivideBack(t, m);
    assert t / m * m * dx == t / m * (m * dx);
  }

  lemma SmoothReaches(p: Point, q: Point, t0: real, t1: real) returns (a: real, b: real)
    requires Gentle(Slope(p, q), t0, t1)
    ensures InDisc(a, b) && Reaches(Smooth(p, q, t0, t1), a, b)
  {
    var m := Slope(p, q);
    if m == 0.0 {
      a, b := 0.0, 0.0;
      assert q.x - p.x == 0.0 || q.y - p.y == 0.0 by {
        if q.x - p.x != 0.0 {
          DivideBack(q.y - p.y, q.x - p.x);
        }
      }
    } else {
      a, b := Ratio(t0, m), Ratio(t1, m);
      AcrossIs(p, q, t0);
      AcrossIs(p, q, t1);
    }
  }

  /** The cubic with control values p0, c1, c2, p1. */
  function Bezier(p0: real, c1: real, c2: real, p1: real, t: real): real {
    var s := 1.0 - t;
    s * s * s * p0 + 3.0 * s * s * t * c1 + 3.0 * s * t * t * c2 + t * t * t * p1
  }

  /** The share of the way covered. */
  function Share(a: real, b: real, t: real): real {
    ((a + b - 2.0) * t + (3.0 - 2.0 * a - b)) * t * t + a * t
  }

  /** a p^2 - 2k pq + b q^2 */
  function Form(a: real, k: real, b: real, p: real, q: real): real {
    a * (p * p) - 2.0 * k * (p * q) + b * (q * q)
  }

  /** The derivative of the share. */
  function Rate(a: real, b: real, t: real): real {
    Form(a, a + b - 3.0, b, 1.0 - t, t)
  }

  /** The point a share r of the way from x to x + d. */
  function Along(x: real, d: real, r: real): real {
    x + r * d
  }

  lemma BezierIsShare(p0: real, d: real, a: real, b: real, t: real)
    ensures Bezier(p0, p0 + a * d / 3.0, p0 + d - b * d / 3.0, p0 + d, t) == Along(p0, d, Share(a, b, t))
  {
  }

  /** Simpson's rule is exact here. */
  lemma Simpson(a: real, b: real, t: real, u: real)
    ensures 6.0 * (Share(a, b, u) - Share(a, b, t))
         == (u - t) * (Rate(a, b, t) + 4.0 * Rate(a, b, (t + u) / 2.0) + Rate(a, b, u))
  {
  }

  /** The key inequality: inside the disc, what a and b exceed 3 by is at most their geometric mean. */
  lemma ExcessBounded(a: real, b: real)
    requires InDisc(a, b) && a + b > 3.0
    ensures a > 0.0 && (a + b - 3.0) * (a + b - 3.0) <= a * b
  {
    AtMostThree(a, b);
    AtMostThree(b, a);
    var s := a + b;
    NonNegative(s - 3.0, 9.0 - s);
    assert 2.0 * (a * b) == s * s - (a * a + b * b);
    assert (s - 3.0) * (9.0 - s) == 12.0 * s - s * s - 27.0;
  }

  lemma Factor(x: real, y: real)
    requires y > 0.0 && x * y >= 0.0
    ensures x >= 0.0
  {
  }

  lemma AtMostThree(a: real, b: real)
    requires InDisc(a, b)
    ensures a <= 3.0
  {
    assert b * b >= 0.0;
    assert (3.0 - a) * (3.0 + a) == 9.0 - a * a;
    Factor(3.0 - a, 3.0 + a);
  }

  /** The form with k^2 <= ab is never negative. */
  lemma Discriminant(a: real, k: real, b: real, p: real, q: real)
    requires a > 0.0 && k * k <= a * b
    ensures Form(a, k, b, p, q) >= 0.0
  {
    var x := a * p - k * q;
    assert Form(a, k, b, p, q) * a == x * x + (a * b - k * k) * (q * q);
    assert x * x >= 0.0 && q * q >= 0.0;
    NonNegative(a * b - k * k, q * q);
    hide Form;
    Factor(Form(a, k, b, p, q), a);
  }

  lemma NoExcess(a: real, k: real, b: real, p: real, q: real)
    requires a >= 0.0 && k <= 0.0 && b >= 0.0 && p >= 0.0 && q >= 0.0
    ensures Form(a, k, b, p, q) >= 0.0
  {
    NonNegative(p, p);
    NonNegative(p, q);
    NonNegative(q, q);
    NonNegative(a, p * p);
    NonNegative(-k, p * q);
    NonNegative(b, q * q);
    assert -2.0 * k * (p * q) == 2.0 * (-k * (p * q));
  }

  /** Inside the disc the curve never turns back. */
  lemma RateNotNegative(a: real, b: real, t: real)
    requires InDisc(a, b) && 0.0 <= t <= 1.0
    ensures Rate(a, b, t) >= 0.0
  {
    if a + b <= 3.0 {
      NoExcess(a, a + b - 3.0, b, 1.0 - t, t);
    } else {
      ExcessBounded(a, b);
      Discriminant(a, a + b - 3.0, b, 1.0 - t, t);
    }
  }

  lemma ShareRises(a: real, b: real, t: real, u: real)
    requires InDisc(a, b) && 0.0 <= t <= u <= 1.0
    ensures Share(a, b, t) <= Share(a, b, u)
  {
    hide InDisc, Share, Rate;
    Simpson(a, b, t, u);
    RateNotNegative(a, b, t);
    RateNotNegative(a, b, (t + u) / 2.0);
    RateNotNegative(a, b, u);
    NonNegative(u - t, Rate(a, b, t) + 4.0 * Rate(a, b, (t + u) / 2.0) + Rate(a, b, u));
  }

  function HeightAt(c: Curve, t: real): real {
    Bezier(c.y0, c.c1y, c.c2y, c.y1, t)
  }

  function AcrossAt(c: Curve, t: real): real {
    Bezier(c.x0, c.c1x, c.c2x, c.x1, t)
  }

  /** y is on the way from x to z. */
  predicate OnTheWay(x: real, y: real, z: real) {
    x <= y <= z || z <= y <= x
  }

  lemma StepOnTheWay(x: real, d: real, r: real, s: real)
    requires 0.0 <= r <= s <= 1.0
    ensures OnTheWay(x, Along(x, d, r), Along(x, d, s)) && OnTheWay(Along(x, d, r), Along(x, d, s), x + d)
  {
    if d >= 0.0 {
      NonNegative(r, d);
      NonNegative(s - r, d);
      NonNegative(1.0 - s, d);
    } else {
      NonNegative(r, -d);
      NonNegative(s - r, -d);
      NonNegative(1.0 - s, -d);
    }
  }

  lemma HeightIs(c: Curve, a: real, b: real, t: real)
    requires Reaches(c, a, b)
    ensures HeightAt(c, t) == Along(c.y0, c.y1 - c.y0, Share(a, b, t))
  {
    hide Bezier, Share, Along;
    var d := c.y1 - c.y0;
    assert c.y1 == c.y0 + d && c.c1y == c.y0 + a * d / 3.0 && c.c2y == c.y0 + d - b * d / 3.0;
    BezierIsShare(c.y0, d, a, b, t);
  }

  lemma ControlsAlong(c: Curve, a: real, b: real)
    requires InDisc(a, b) && Reaches(c, a, b)
    ensures OnTheWay(c.y0, c.c1y, c.y1) && OnTheWay(c.y0, c.c2y, c.y1)
  {
    var d := c.y1 - c.y0;
    AtMostThree(a, b);
    AtMostThree(b, a);
    StepOnTheWay(c.y0, d, a / 3.0, 1.0);
    StepOnTheWay(c.y0, d, 1.0 - b / 3.0, 1.0);
    assert c.c1y == Along(c.y0, d, a / 3.0) && c.c2y == Along(c.y0, d, 1.0 - b / 3.0);
  }

  lemma ShareEnds(a: real, b: real)
    ensures Share(a, b, 0.0) == 0.0 && Share(a, b, 1.0) == 1.0
  {
  }

  /** A curve that reaches its end this way goes there monotonically, and its control points are on the way. */
  lemma ReachesMonotonically(c: Curve, a: real, b: real, t: real, u: real)
    requires InDisc(a, b) && Reaches(c, a, b) && 0.0 <= t <= u <= 1.0
    ensures OnTheWay(c.y0, HeightAt(c, t), HeightAt(c, u)) && OnTheWay(HeightAt(c, t), HeightAt(c, u), c.y1)
    ensures OnTheWay(c.y0, c.c1y, c.y1) && OnTheWay(c.y0, c.c2y, c.y1)
  {
    hide InDisc, Reaches, HeightAt, Share, Along;
    ControlsAlong(c, a, b);
    HeightIs(c, a, b, t);
    HeightIs(c, a, b, u);
    ShareEnds(a, b);
    ShareRises(a, b, 0.0, t);
    ShareRises(a, b, t, u);
    ShareRises(a, b, u, 1.0);
    StepOnTheWay(c.y0, c.y1 - c.y0, Share(a, b, t), Share(a, b, u));
  }

  /** Across, the curve moves at an even pace, so it is the graph of a function of x. */
  lemma EvenPace(p: Point, q: Point, t0: real, t1: real, t: real)
    ensures AcrossAt(Smooth(p, q, t0, t1), t) == p.x + t * (q.x - p.x)
  {
    BezierIsShare(p.x, q.x - p.x, 1.0, 1.0, t);
  }

  /**
   * Main result, for any points: every segment drawn joins its two points, its control points lie between their
   * heights, and so does the whole curve, rising or falling all the way.
   */
  lemma NeverOvershoots(px: seq<Point>, smooth: bool, hypot: (real, real) -> real, i: nat, t: real, u: real)
    requires IsHypot(hypot) && i + 1 < |px| && 0.0 <= t <= u <= 1.0
    ensures var c := Curves(px, smooth, hypot)[i];
      && c.x0 == px[i].x && c.y0 == px[i].y && c.x1 == px[i + 1].x && c.y1 == px[i + 1].y
      && OnTheWay(c.y0, c.c1y, c.y1) && OnTheWay(c.y0, c.c2y, c.y1)
      && OnTheWay(c.y0, HeightAt(c, t), HeightAt(c, u)) && OnTheWay(HeightAt(c, t), HeightAt(c, u), c.y1)
  {
    hide HeightAt, OnTheWay, IsHypot;
    var c := Curves(px, smooth, hypot)[i];
    if |px| < 3 || !smooth {
      ReachesMonotonically(c, 0.0, 0.0, t, u);
    } else {
      FinalGentle(px, hypot);
      var tangents := FinalTangents(px, hypot);
      assert Gentle(Slopes(px)[i], tangents[i], tangents[i + 1]);
      var a, b := SmoothReaches(px[i], px[i + 1], tangents[i], tangents[i + 1]);
      ReachesMonotonically(c, a, b, t, u);
    }
  }

  /** a arrives at the slope at which b leaves. */
  predicate Joins(a: Curve, b: Curve) {
    && a.x1 == b.x0 && a.y1 == b.y0
    && (a.y1 - a.c2y) * (b.c1x - b.x0) == (b.c1y - b.y0) * (a.x1 - a.c2x)
  }

  lemma SmoothCurve(px: seq<Point>, hypot: (real, real) -> real, i: nat)
    requires |px| >= 3 && i + 1 < |px|
    ensures |Curves(px, true, hypot)| == |px| - 1
    ensures var t := FinalTangents(px, hypot);
      Curves(px, true, hypot)[i] == Smooth(px[i], px[i + 1], t[i], t[i + 1])
  {
    hide Smooth, FinalTangents;
  }

  /** Two neighbouring segments share the tangent at their common point. */
  lemma JoinsSmoothly(px: seq<Point>, hypot: (real, real) -> real, i: nat)
    requires i + 2 < |px|
    ensures Joins(Curves(px, true, hypot)[i], Curves(px, true, hypot)[i + 1])
  {
    SmoothCurve(px, hypot, i);
    SmoothCurve(px, hypot, i + 1);
    hide *;
    var t := FinalTangents(px, hypot);
    SharedTangent(px[i], px[i + 1], px[i + 2], t[i], t[i + 1], t[i + 2]);
  }

  lemma SharedTangent(p: Point, q: Point, r: Point, t0: real, t: real, t1: real)
    ensures Joins(Smooth(p, q, t0, t), Smooth(q, r, t, t1))
  {
    var dx, dx' := q.x - p.x, r.x - q.x;
    assert t * dx / 3.0 * (dx' / 3.0) == t * dx' / 3.0 * (dx / 3.0);
  }

  // ----- Tangents that need no clamping

  /** The tangents at both ends of segment k lie in the disc as they are. */
  predicate Quiet(slopes: seq<real>, k: nat)
    requires k < |slopes|
  {
    slopes[k] != 0.0 &&
    var a, b := Ratio(Tangent(slopes, k), slopes[k]), Ratio(Tangent(slopes, k + 1), slopes[k]);
    a * a + b * b <= 9.0
  }

  lemma {:induction false} QuietUnclamped(slopes: seq<real>, n: nat, hypot: (real, real) -> real)
    requires 0 < |slopes| && n <= |slopes| && IsHypot(hypot) && forall k :: 0 <= k < n ==> Quiet(slopes, k)
    ensures Clamped(slopes, Tangents(slopes), n, hypot) == Tangents(slopes)
  {
    hide Ratio, Tangent, IsHypot, Clamp;
    if n > 0 {
      QuietUnclamped(slopes, n - 1, hypot);
      assert Quiet(slopes, n - 1);
      ClampExactly(slopes, Tangents(slopes), n - 1, hypot);
    }
  }

  lemma LeavesWithTangent(p: Point, q: Point, t0: real, t1: real)
    ensures var c := Smooth(p, q, t0, t1);
      && c.c1x - c.x0 == (q.x - p.x) / 3.0 && c.c1y - c.y0 == t0 * (c.c1x - c.x0)
      && c.x1 - c.c2x == (q.x - p.x) / 3.0 && c.y1 - c.c2y == t1 * (c.x1 - c.c2x)
  {
  }

  /**
   * Where no tangent has to be clamped, the curve leaves each inner point at the mean of the slopes on both sides, or
   * level if these do not agree in sign, and the ends at the slopes of the first and the last segment.
   */
  lemma LeavesAtMean(px: seq<Point>, hypot: (real, real) -> real, i: nat)
    requires |px| >= 3 && i + 1 < |px| && IsHypot(hypot)
    requires forall k :: 0 <= k < |px| - 1 ==> Quiet(Slopes(px), k)
    ensures var c, s := Curves(px, true, hypot)[i], Slopes(px);
      && (i == 0 ==> c.c1y - c.y0 == s[0] * (c.c1x - c.x0))
      && (i > 0 && s[i - 1] * s[i] > 0.0 ==> c.c1y - c.y0 == (s[i - 1] + s[i]) / 2.0 * (c.c1x - c.x0))
      && (i > 0 && s[i - 1] * s[i] <= 0.0 ==> c.c1y == c.y0)
      && (i == |px| - 2 ==> c.y1 - c.c2y == s[i] * (c.x1 - c.c2x))
  {
    hide *;
    SmoothCurve(px, hypot, i);
    SlopeCount(px);
    QuietUnclamped(Slopes(px), |px| - 1, hypot);
    FinalIs(px, hypot);
    var t := FinalTangents(px, hypot);
    TangentIs(Slopes(px), i);
    TangentIs(Slopes(px), i + 1);
    LeavesWithTangent(px[i], px[i + 1], t[i], t[i + 1]);
  }

  lemma SlopeCount(px: seq<Point>)
    requires |px| >= 2
    ensures |Slopes(px)| == |px| - 1
  {
  }

  lemma FinalIs(px: seq<Point>, hypot: (real, real) -> real)
    requires |px| >= 2
    ensures FinalTangents(px, hypot) == Clamped(Slopes(px), Tangents(Slopes(px)), |px| - 1, hypot)
  {
  }

  lemma TangentIs(slopes: seq<real>, i: nat)
    requires 0 < |slopes| && i <= |slopes|
    ensures |Tangents(slopes)| == |slopes| + 1
    ensures var t := Tangents(slopes)[i];
      && (i == 0 ==> t == slopes[0])
      && (i == |slopes| ==> t == slopes[i - 1])
      && (0 < i < |slopes| && slopes[i - 1] * slopes[i] > 0.0 ==> t == (slopes[i - 1] + slopes[i]) / 2.0)
      && (0 < i < |slopes| && slopes[i - 1] * slopes[i] <= 0.0 ==> t == 0.0)
  {
  }

  lemma {:induction false} ZeroStays(
    slopes: seq<real>, tangents: seq<real>, n: nat, k: nat, hypot: (real, real) -> real)
    requires n <= |slopes| && |tangents| == |slopes| + 1 && k < |tangents| && tangents[k] == 0.0
    ensures Clamped(slopes, tangents, n, hypot)[k] == 0.0
  {
    hide Ratio, ScaledBack;
    if n > 0 {
      ZeroStays(slopes, tangents, n - 1, k, hypot);
      ZeroScaled(slopes[n - 1]);
    }
  }

  lemma ZeroScaled(m: real)
    ensures m != 0.0 ==> forall h: real {:trigger ScaledBack(h, Ratio(0.0, m), m)} :: h > 3.0 ==>
      ScaledBack(h, Ratio(0.0, m), m) == 0.0
  {
    if m != 0.0 {
      assert Ratio(0.0, m) == 0.0;
    }
  }

  /** Clamped or not, the curve is level at turning points. */
  lemma LevelAtTurns(px: seq<Point>, hypot: (real, real) -> real, i: nat)
    requires |px| >= 3 && 0 < i && i + 1 < |px| && Slopes(px)[i - 1] * Slopes(px)[i] <= 0.0
    ensures Curves(px, true, hypot)[i].c1y == px[i].y && Curves(px, true, hypot)[i - 1].c2y == px[i].y
  {
    hide *;
    SmoothCurve(px, hypot, i - 1);
    SmoothCurve(px, hypot, i);
    SlopeCount(px);
    TangentIs(Slopes(px), i);
    ZeroStays(Slopes(px), Tangents(Slopes(px)), |px| - 1, i, hypot);
    FinalIs(px, hypot);
    var t := FinalTangents(px, hypot);
    LeavesWithTangent(px[i - 1], px[i], t[i - 1], t[i]);
    LeavesWithTangent(px[i], px[i + 1], t[i], t[i + 1]);
    SmoothEnds(px[i - 1], px[i], t[i - 1], t[i]);
    SmoothEnds(px[i], px[i + 1], t[i], t[i + 1]);
  }

  lemma SmoothEnds(p: Point, q: Point, t0: real, t1: real)
    ensures var c := Smooth(p, q, t0, t1); c.y0 == p.y && c.y1 == q.y
  {
  }

  /** Fewer than three points, and points not to be smoothed, are joined by straight lines. */
  lemma UnsmoothedIsStraight(px: seq<Point>, smooth: bool, hypot: (real, real) -> real, i: nat, t: real)
    requires i + 1 < |px| && (|px| < 3 || !smooth)
    ensures |Curves(px, smooth, hypot)| == |px| - 1
    ensures var c := Curves(px, smooth, hypot)[i];
      && AcrossAt(c, t) == Along(px[i].x, px[i + 1].x - px[i].x, Share(0.0, 0.0, t))
      && HeightAt(c, t) == Along(px[i].y, px[i + 1].y - px[i].y, Share(0.0, 0.0, t))
  {
    hide Bezier, Share, Along;
    EdgeIsStraight(px[i].x, px[i + 1].x, t);
    EdgeIsStraight(px[i].y, px[i + 1].y, t);
  }

  lemma EdgeIsStraight(p0: real, p1: real, t: real)
    ensures Bezier(p0, p0, p1, p1, t) == Along(p0, p1 - p0, Share(0.0, 0.0, t))
  {
    StraightShare(p0, p1 - p0, 0.0, t);
  }

  lemma StraightShare(p0: real, d: real, none: real, t: real)
    requires none == 0.0
    ensures Bezier(p0, p0, p0 + d, p0 + d, t) == Along(p0, d, Share(none, none, t))
  {
    hide Share, Along, Bezier;
    BezierIsShare(p0, d, none, none, t);
    assert p0 + none * d / 3.0 == p0 && p0 + d - none * d / 3.0 == p0 + d;
  }

  // ----- Straight lines

  predicate AllEqual(s: seq<real>, m: real) {
    forall i :: 0 <= i < |s| ==> s[i] == m
  }

  lemma EvenHypot(hypot: (real, real) -> real)
    requires IsHypot(hypot)
    ensures hypot(1.0, 1.0) <= 3.0
  {
    var h := hypot(1.0, 1.0);
    assert h >= 0.0 && h * h == 2.0;
    assert h > 3.0 ==> h * h > 9.0;
  }

  lemma EvenRatio(m: real)
    ensures m != 0.0 ==> Ratio(m, m) == 1.0
    ensures Inner(m, m) == m
  {
    if m != 0.0 {
      SquarePositive(m);
      DivideBack(1.0, m);
    }
  }

  lemma SquarePositive(m: real)
    requires m != 0.0
    ensures m * m > 0.0
  {
    if m > 0.0 {
      assert m * m > 0.0;
    } else {
      assert (-m) * (-m) > 0.0;
    }
  }

  lemma {:induction false} EvenClamped(
    slopes: seq<real>, tangents: seq<real>, n: nat, m: real, hypot: (real, real) -> real)
    requires n <= |slopes| && |tangents| == |slopes| + 1 && IsHypot(hypot)
    requires AllEqual(slopes, m) && AllEqual(tangents, m)
    ensures Clamped(slopes, tangents, n, hypot) == tangents
  {
    hide Ratio, Inner, IsHypot;
    EvenHypot(hypot);
    EvenRatio(m);
    if n > 0 {
      EvenClamped(slopes, tangents, n - 1, m, hypot);
    }
  }

  lemma EvenTangents(slopes: seq<real>, m: real)
    requires 0 < |slopes| && AllEqual(slopes, m)
    ensures AllEqual(Tangents(slopes), m)
  {
    hide Inner;
    EvenRatio(m);
  }

  lemma EvenFinal(px: seq<Point>, m: real, hypot: (real, real) -> real)
    requires |px| >= 2 && IsHypot(hypot) && AllEqual(Slopes(px), m)
    ensures AllEqual(FinalTangents(px, hypot), m)
  {
    hide AllEqual, IsHypot;
    EvenTangents(Slopes(px), m);
    EvenClamped(Slopes(px), Tangents(Slopes(px)), |px| - 1, m, hypot);
  }

  /** The curve's point at t is on the line through p with slope m. */
  predicate OnLine(c: Curve, p: Point, m: real, t: real) {
    HeightAt(c, t) == p.y + m * (AcrossAt(c, t) - p.x)
  }

  /** Points on a line are joined by that line. */
  lemma LinesStayLines(px: seq<Point>, m: real, hypot: (real, real) -> real, i: nat, t: real)
    requires |px| >= 3 && i + 1 < |px| && IsHypot(hypot) && AllEqual(Slopes(px), m)
    requires px[i].x != px[i + 1].x
    ensures OnLine(Curves(px, true, hypot)[i], px[i], m, t)
  {
    hide OnLine, IsHypot, FinalTangents, Smooth, Curves, Slope;
    EvenFinal(px, m, hypot);
    SmoothCurve(px, hypot, i);
    assert Slopes(px)[i] == m;
    SmoothLine(px[i], px[i + 1], t);
  }

  lemma SmoothLine(p: Point, q: Point, t: real)
    requires p.x != q.x
    ensures OnLine(Smooth(p, q, Slope(p, q), Slope(p, q)), p, Slope(p, q), t)
  {
    var m, dx := Slope(p, q), q.x - p.x;
    DivideBack(q.y - p.y, dx);
    EvenPace(p, q, m, m, t);
    EvenHeight(p, q, m, t);
    LinePoint(m, t, dx);
  }

  lemma EvenHeight(p: Point, q: Point, m: real, t: real)
    requires m * (q.x - p.x) == q.y - p.y
    ensures HeightAt(Smooth(p, q, m, m), t) == p.y + t * (q.y - p.y)
  {
    var c := Smooth(p, q, m, m);
    hide Bezier, Share;
    assert Reaches(c, 1.0, 1.0);
    HeightIs(c, 1.0, 1.0, t);
    EvenShare(t);
  }

  lemma EvenShare(t: real)
    ensures Share(1.0, 1.0, t) == t
  {
  }

  lemma LinePoint(m: real, t: real, dx: real)
    ensures m * (t * dx) == t * (m * dx)
  {
  }
}
