/** Instants, their stored text, and the two ways a cutoff and a bucket start are rounded down. */
module StoredTime {

  const NANOS := 1_000_000_000

  /** The seconds from Go's zero time, the start of year 1, to 1970: 719162 days. */
  const OFFSET := 719162 * 86400

  /** Instants are nanoseconds since 1970. */
  const ZERO_TIME := -OFFSET * NANOS

  function Sec(at: int): int {
    at / NANOS
  }

  function Frac(at: int): int {
    at % NANOS
  }

  // ----- Text order

  /**
   * Whether the fraction f of a second is written before the fraction g. Trailing zeros are not written:
   * the text of a fraction ends in 'Z', which sorts after every digit, and a whole second has no '.' at all.
   */
  predicate FractionBefore(f: nat, g: nat, unit: nat)
    decreases unit
  {
    if f == 0 || unit == 0 then false
    else if g == 0 then true
    else if f / unit != g / unit then f / unit < g / unit
    else FractionBefore(f % unit, g % unit, unit / 10)
  }

  /** a < b as the database compares RFC 3339 texts, for years of four digits in UTC. */
  predicate TextBefore(a: int, b: int) {
    Sec(a) < Sec(b) || (Sec(a) == Sec(b) && FractionBefore(Frac(a), Frac(b), 100_000_000))
  }

  /** 1, 10, 100, ... */
  predicate Power(unit: nat) {
    unit == 1 || (unit >= 10 && unit % 10 == 0 && Power(unit / 10))
  }

  lemma Digits(f: nat, unit: nat)
    requires Power(unit)
    ensures f == f / unit * unit + f % unit && f % unit < unit
    ensures unit > 1 ==> (f % unit) % 10 == f % 10 && f % unit < 10 * (unit / 10)
  {
    assert unit > 0 && (unit > 1 ==> unit % 10 == 0);
    hide Power;
    var q, r := Divide(f, unit);
    if unit > 1 {
      LastDigit(f, q, unit, r);
    }
  }

  lemma Divide(f: nat, unit: nat) returns (q: nat, r: nat)
    requires unit > 0
    ensures q == f / unit && r == f % unit && f == q * unit + r && r < unit
  {
    q, r := f / unit, f % unit;
  }

  lemma LastDigit(f: nat, q: nat, unit: nat, r: nat)
    requires f == q * unit + r && unit % 10 == 0
    ensures r % 10 == f % 10
  {
    var k := unit / 10;
    assert unit == 10 * k;
    TenTimes(q, k, r);
  }

  lemma TenTimes(q: nat, k: nat, r: nat)
    ensures (q * (10 * k) + r) % 10 == r % 10
  {
    var m := q * k;
    assert q * (10 * k) == 10 * m;
    assert (10 * m + r) % 10 == r % 10;
  }

  /** Different fractions have different texts, and one of the two comes first. */
  lemma {:induction false} FractionsDiffer(f: nat, g: nat, unit: nat)
    requires Power(unit) && f < 10 * unit && g < 10 * unit
    ensures f != g ==> (FractionBefore(f, g, unit) <==> !FractionBefore(g, f, unit))
    ensures !FractionBefore(f, f, unit)
    decreases unit
  {
    Digits(f, unit);
    Digits(g, unit);
    if unit > 1 {
      FractionsDiffer(f % unit, g % unit, unit / 10);
    }
  }

  /** Fractions written with all nine digits are in the order of time. */
  lemma {:induction false} FullFractionsInOrder(f: nat, g: nat, unit: nat)
    requires Power(unit) && f < 10 * unit && g < 10 * unit && f % 10 != 0 && g % 10 != 0
    ensures FractionBefore(f, g, unit) <==> f < g
    decreases unit
  {
    Digits(f, unit);
    Digits(g, unit);
    if f / unit == g / unit {
      if unit > 1 {
        FullFractionsInOrder(f % unit, g % unit, unit / 10);
      }
    } else if f / unit < g / unit {
      Product(f / unit, g / unit, unit);
    } else {
      Product(g / unit, f / unit, unit);
    }
  }

  lemma NinePlaces()
    ensures Power(100_000_000)
  {
    assert Power(10_000);
  }

  /** The database's order on texts is total on instants, and is time order on texts of full length. */
  lemma TextOrder(a: int, b: int)
    ensures a != b ==> (TextBefore(a, b) <==> !TextBefore(b, a))
    ensures !TextBefore(a, a)
    ensures a % 10 != 0 && b % 10 != 0 ==> (TextBefore(a, b) <==> a < b)
  {
    hide FractionBefore, Power, Sec, Frac;
    NinePlaces();
    Parts(a);
    Parts(b);
    FractionsDiffer(Frac(a), Frac(b), 100_000_000);
    FractionsDiffer(Frac(a), Frac(a), 100_000_000);
    if a % 10 != 0 && b % 10 != 0 {
      FullFractionsInOrder(Frac(a), Frac(b), 100_000_000);
    }
  }

  lemma Parts(at: int)
    ensures at == Sec(at) * NANOS + Frac(at) && 0 <= Frac(at) < NANOS
    ensures Frac(at) % 10 == at % 10
  {
  }

  // ----- The texts themselves

  /** Text comparison, character by character. */
  predicate Lexical(a: string, b: string) {
    b != [] && (a == [] || a[0] < b[0] || (a[0] == b[0] && Lexical(a[1..], b[1..])))
  }

  function DigitChar(d: int): char {
    if 0 <= d <= 9 then (48 + d) as char else '9'
  }

  /** The digits of a fraction up to the last that is not zero, and the 'Z'. */
  function DigitsText(f: nat, unit: nat): string
    decreases unit
  {
    if f == 0 || unit == 0 then "Z" else [DigitChar(f / unit)] + DigitsText(f % unit, unit / 10)
  }

  /** What follows the seconds in the text of an instant. */
  function Ending(at: int): string {
    if Frac(at) == 0 then "Z" else "." + DigitsText(Frac(at), 100_000_000)
  }

  lemma LexicalCons(c: char, a: string, d: char, b: string)
    ensures Lexical([c] + a, [d] + b) <==> c < d || (c == d && Lexical(a, b))
  {
    assert ([c] + a)[1..] == a && ([d] + b)[1..] == b;
  }

  lemma {:induction false} DigitsLexical(f: nat, g: nat, unit: nat)
    requires Power(unit) && f < 10 * unit && g < 10 * unit
    ensures FractionBefore(f, g, unit) <==> Lexical(DigitsText(f, unit), DigitsText(g, unit))
    decreases unit
  {
    DigitBelow(f, unit);
    DigitBelow(g, unit);
    Digits(f, unit);
    Digits(g, unit);
    var a, b := DigitsText(f % unit, unit / 10), DigitsText(g % unit, unit / 10);
    LexicalCons(DigitChar(f / unit), a, DigitChar(g / unit), b);
    LexicalCons('Z', "", DigitChar(g / unit), b);
    LexicalCons(DigitChar(f / unit), a, 'Z', "");
    LexicalCons('Z', "", 'Z', "");
    assert "Z" == ['Z'] + "";
    if unit > 1 {
      DigitsLexical(f % unit, g % unit, unit / 10);
    }
  }

  /** Texts of one second compare as what follows their seconds does, character by character. */
  lemma TextIsLexical(a: int, b: int)
    requires Sec(a) == Sec(b)
    ensures TextBefore(a, b) <==> Lexical(Ending(a), Ending(b))
  {
    NinePlaces();
    Parts(a);
    Parts(b);
    hide Power, Sec, Frac;
    var f, g := Frac(a), Frac(b);
    DigitsLexical(f, g, 100_000_000);
    hide DigitsText, FractionBefore;
    LexicalCons('.', DigitsText(f, 100_000_000), '.', DigitsText(g, 100_000_000));
    LexicalCons('Z', "", '.', DigitsText(g, 100_000_000));
    LexicalCons('.', DigitsText(f, 100_000_000), 'Z', "");
    LexicalCons('Z', "", 'Z', "");
    assert "Z" == ['Z'] + "";
  }

  // ----- Where the two orders part

  /** Whether f is written as a beginning of g: the digits of f, up to its trailing zeros, and g goes on. */
  predicate Begins(f: nat, g: nat, unit: nat)
    decreases unit
  {
    if f == 0 then g != 0
    else unit != 0 && f / unit == g / unit && Begins(f % unit, g % unit, unit / 10)
  }

  /** An earlier fraction sorts behind a later one exactly when it is written as a beginning of it. */
  lemma {:induction false} BeginsIff(f: nat, g: nat, unit: nat)
    requires Power(unit) && f < 10 * unit && g < 10 * unit
    ensures Begins(f, g, unit) <==> f < g && FractionBefore(g, f, unit)
    decreases unit
  {
    Digits(f, unit);
    Digits(g, unit);
    if unit > 1 {
      BeginsIff(f % unit, g % unit, unit / 10);
    }
    if f / unit < g / unit {
      Product(f / unit, g / unit, unit);
    } else if g / unit < f / unit {
      Product(g / unit, f / unit, unit);
    }
  }

  /** The text of a, but for its 'Z', is a beginning of that of b, such as 5.1 of 5.12 and 5 of both. */
  predicate IsBeginning(a: int, b: int) {
    Sec(a) == Sec(b) && Begins(Frac(a), Frac(b), 100_000_000)
  }

  /** The order of texts reverses that of the times exactly for those. */
  lemma ReversedIff(a: int, b: int)
    ensures a < b && TextBefore(b, a) <==> IsBeginning(a, b)
  {
    hide FractionBefore, Begins, Power, Sec, Frac;
    NinePlaces();
    Parts(a);
    Parts(b);
    BeginsIff(Frac(a), Frac(b), 100_000_000);
  }

  // ----- The place of a text

  /** How many texts of a fraction have their first digit at unit: eleven characters a place, 'Z' among them. */
  function Span(unit: nat): (n: nat)
    ensures n >= 1
    decreases unit
  {
    if unit == 0 then 1 else 11 * Span(unit / 10)
  }

  /** Digit d, before what ranks rest among so many texts. */
  function Placed(d: int, texts: int, rest: int): int {
    d * texts + rest
  }

  function FractionRank(f: nat, unit: nat): int
    decreases unit
  {
    if unit == 0 then 0
    else if f == 0 then Span(unit) - 1
    else Placed(f / unit, Span(unit / 10), FractionRank(f % unit, unit / 10))
  }

  /** Eleven to the power of nine. */
  const SPAN := 2_357_947_691

  lemma SpanOfSecond()
    ensures Span(100_000_000) == SPAN
  {
    assert Span(1) == 11;
    assert Span(10) == 121;
    assert Span(100) == 1_331;
    assert Span(1_000) == 14_641;
    assert Span(10_000) == 161_051;
    assert Span(100_000) == 1_771_561;
    assert Span(1_000_000) == 19_487_171;
    assert Span(10_000_000) == 214_358_881;
  }

  /** A number for the text of each instant, growing in the order of the texts. */
  function TextRank(at: int): int {
    Sec(at) * SPAN + FractionRank(Frac(at), 100_000_000)
  }

  lemma {:induction false} RankBelow(f: nat, unit: nat)
    requires Power(unit) && f < 10 * unit
    ensures 0 <= FractionRank(f, unit) < Span(unit)
    ensures f != 0 ==> FractionRank(f, unit) < 10 * Span(unit / 10)
    decreases unit
  {
    hide Placed;
    Digits(f, unit);
    if f != 0 {
      if unit > 1 {
        RankBelow(f % unit, unit / 10);
      }
      DigitBelow(f, unit);
      DigitPlaced(f / unit, FractionRank(f % unit, unit / 10), Span(unit / 10));
    }
  }

  lemma DigitBelow(f: nat, unit: nat)
    requires unit > 0 && f < 10 * unit
    ensures 0 <= f / unit <= 9
  {
    var q, r := Divide(f, unit);
    if q >= 10 {
      Product(9, q, unit);
    }
  }

  lemma DigitPlaced(d: int, x: int, n: int)
    requires 0 <= d <= 9 && 0 <= x < n
    ensures 0 <= Placed(d, n, x) < 10 * n
  {
    NotNegative(d, n);
    if d < 9 {
      Product(d, 9, n);
    }
  }

  lemma PlacedInOrder(d: int, e: int, n: int, x: int, y: int)
    requires 0 <= x < n && 0 <= y < n
    ensures d < e ==> Placed(d, n, x) < Placed(e, n, y)
    ensures d == e ==> (Placed(d, n, x) < Placed(e, n, y) <==> x < y)
  {
    if d < e {
      Product(d, e, n);
    }
  }

  lemma {:induction false} FractionRankOrders(f: nat, g: nat, unit: nat)
    requires Power(unit) && f < 10 * unit && g < 10 * unit
    ensures FractionBefore(f, g, unit) <==> FractionRank(f, unit) < FractionRank(g, unit)
    decreases unit
  {
    hide Placed;
    RankBelow(f, unit);
    RankBelow(g, unit);
    if f != 0 && g != 0 {
      Digits(f, unit);
      Digits(g, unit);
      if unit > 1 {
        RankBelow(f % unit, unit / 10);
        RankBelow(g % unit, unit / 10);
        FractionRankOrders(f % unit, g % unit, unit / 10);
      }
      var n, x, y := Span(unit / 10), FractionRank(f % unit, unit / 10), FractionRank(g % unit, unit / 10);
      PlacedInOrder(f / unit, g / unit, n, x, y);
      PlacedInOrder(g / unit, f / unit, n, y, x);
    }
  }

  /** Texts compare as their ranks do. */
  lemma TextRankOrders(a: int, b: int)
    ensures TextBefore(a, b) <==> TextRank(a) < TextRank(b)
  {
    NinePlaces();
    SpanOfSecond();
    Parts(a);
    Parts(b);
    FractionRankOrders(Frac(a), Frac(b), 100_000_000);
    RankBelow(Frac(a), 100_000_000);
    RankBelow(Frac(b), 100_000_000);
    hide FractionBefore, FractionRank, Power, Span, Sec, Frac;
    if Sec(a) < Sec(b) {
      Product(Sec(a), Sec(b), SPAN);
    } else if Sec(b) < Sec(a) {
      Product(Sec(b), Sec(a), SPAN);
    }
  }

  /** Against a whole second, everything inside that very second but its start counts as before. */
  lemma BeforeWholeSecond(at: int, second: int)
    ensures TextBefore(at, second * NANOS) <==> Sec(at) < second || (Sec(at) == second && Frac(at) > 0)
  {
    assert Sec(second * NANOS) == second && Frac(second * NANOS) == 0;
  }

  /** So comparing texts agrees with comparing instants for every cutoff exactly when no fraction is stored. */
  lemma TextOrderIsTimeOrderIff(at: int)
    ensures (forall second: int :: TextBefore(at, second * NANOS) <==> at < second * NANOS) <==> Frac(at) == 0
  {
    forall second: int
      ensures TextBefore(at, second * NANOS) <==> (at < second * NANOS || (Sec(at) == second && Frac(at) > 0))
    {
      BeforeWholeSecond(at, second);
    }
    if Frac(at) > 0 {
      assert TextBefore(at, Sec(at) * NANOS) && !(at < Sec(at) * NANOS);
    }
  }

  /** A bucket start is a whole second, so it is before a cutoff only in an earlier second. */
  lemma WholeSecondBefore(second: int, cutoff: int)
    ensures TextBefore(second * NANOS, cutoff) <==> second < Sec(cutoff)
  {
    assert Sec(second * NANOS) == second && Frac(second * NANOS) == 0;
  }

  // ----- Rounding down

  /** Go's Truncate counts multiples of d from the zero time; for d <= 0 it changes nothing. */
  function Truncate(t: int, d: int): int {
    if d <= 0 then t else t - (t - ZERO_TIME) % d
  }

  /** SQL's integer division drops the fraction, also below zero. */
  function SqlDivide(a: int, b: int): int
    requires b > 0
  {
    if a >= 0 then a / b else -((-a) / b)
  }

  /** (unixepoch(checked_at) / seconds) * seconds */
  function BucketStart(at: int, seconds: int): int
    requires seconds > 0
  {
    SqlDivide(Sec(at), seconds) * seconds
  }

  /** The second a cutoff is truncated to. */
  function CutoffSecond(t: int, seconds: int): int {
    Sec(Truncate(t, seconds * NANOS))
  }

  predicate Aligned(seconds: int)
    requires seconds > 0
  {
    OFFSET % seconds == 0
  }

  lemma NotNegative(k: int, n: int)
    requires k >= 0 && n > 0
    ensures k * n >= 0
  {
  }

  lemma Product(a: int, b: int, n: int)
    requires n > 0 && a < b
    ensures a * n + n <= b * n
  {
    var k := b - a - 1;
    NotNegative(k, n);
    assert b * n == (a + 1 + k) * n == a * n + n + k * n;
  }

  /** What is a multiple, and the largest one up to x, is determined. */
  lemma SameMultiple(x: int, m: int, q: int, n: int)
    requires n > 0 && m == q * n && m <= x < m + n
    ensures m == x / n * n
  {
    var p := x / n;
    assert p * n <= x < p * n + n;
    if p < q {
      Product(p, q, n);
    } else if q < p {
      Product(q, p, n);
    }
  }

  lemma MultipleOf(x: int, n: int) returns (q: int)
    requires n > 0 && x % n == 0
    ensures x == q * n
  {
    q := x / n;
  }

  lemma SumOfMultiples(a: int, b: int, n: int)
    requires n > 0
    ensures a * n + b * n == (a + b) * n
    ensures a * n - b * n == (a - b) * n
  {
  }

  /** A truncated cutoff is a whole second, some multiple of the interval after the zero time. */
  lemma TruncatedToSecond(t: int, seconds: int) returns (q: int)
    requires seconds > 0
    ensures Truncate(t, seconds * NANOS) == CutoffSecond(t, seconds) * NANOS
    ensures CutoffSecond(t, seconds) == q * seconds - OFFSET
    ensures CutoffSecond(t, seconds) <= Sec(t) < CutoffSecond(t, seconds) + seconds
  {
    var d := seconds * NANOS;
    q := (t - ZERO_TIME) / d;
    assert (t - ZERO_TIME) - (t - ZERO_TIME) % d == q * d;
    assert q * d == q * seconds * NANOS;
    var c := q * seconds - OFFSET;
    assert Truncate(t, d) == c * NANOS;
    assert Sec(c * NANOS) == c;
    assert c * NANOS <= t < c * NANOS + d;
    WithinSeconds(t, c, seconds);
  }

  lemma WithinSeconds(t: int, c: int, seconds: int)
    requires c * NANOS <= t < c * NANOS + seconds * NANOS
    ensures c <= Sec(t) < c + seconds
  {
  }

  /** With an interval that divides the 719162 days, truncated cutoffs are multiples of it since 1970 as well. */
  lemma AlignedCutoff(t: int, seconds: int) returns (q: int)
    requires seconds > 0 && Aligned(seconds)
    ensures CutoffSecond(t, seconds) == q * seconds
    ensures CutoffSecond(t, seconds) <= Sec(t) < CutoffSecond(t, seconds) + seconds
    ensures Truncate(t, seconds * NANOS) == CutoffSecond(t, seconds) * NANOS
  {
    var a := TruncatedToSecond(t, seconds);
    var b := MultipleOf(OFFSET, seconds);
    SumOfMultiples(a, b, seconds);
    q := a - b;
  }

  /** Truncate and the bucket expression agree on all instants since 1970 exactly for those intervals. */
  lemma TruncationsAgreeIff(seconds: int)
    requires seconds > 0
    ensures (forall t: nat :: CutoffSecond(t, seconds) == BucketStart(t, seconds)) <==> Aligned(seconds)
  {
    if Aligned(seconds) {
      forall t: nat ensures CutoffSecond(t, seconds) == BucketStart(t, seconds) {
        var q := AlignedCutoff(t, seconds);
        SameMultiple(Sec(t), CutoffSecond(t, seconds), q, seconds);
      }
    } else {
      var q := TruncatedToSecond(0, seconds);
      assert BucketStart(0, seconds) == 0;
      if CutoffSecond(0, seconds) == 0 {
        assert OFFSET == q * seconds;
        ModOfMultiple(q, seconds);
      }
    }
  }

  lemma ModOfMultiple(q: int, n: int)
    requires n > 0
    ensures (q * n) % n == 0
  {
    var x := q * n;
    assert x == x / n * n + x % n;
    if x % n != 0 {
      if q <= x / n {
        if q < x / n { Product(q, x / n, n); }
      } else {
        Product(x / n, q, n);
      }
    }
  }

  lemma BucketRange(at: int, seconds: int)
    requires seconds > 0
    ensures Sec(at) >= 0 ==> BucketStart(at, seconds) <= Sec(at) < BucketStart(at, seconds) + seconds
    ensures Sec(at) < 0 ==> Sec(at) <= BucketStart(at, seconds) < Sec(at) + seconds && BucketStart(at, seconds) <= 0
  {
    var s := Sec(at);
    if s >= 0 {
      assert s == s / seconds * seconds + s % seconds;
    } else {
      assert -s == (-s) / seconds * seconds + (-s) % seconds;
      assert -((-s) / seconds) * seconds == -((-s) / seconds * seconds);
    }
  }

  /** A bucket ends by a cutoff that is a multiple of the interval exactly when its samples' seconds come before. */
  lemma BucketEndsBefore(at: int, seconds: int, q: int)
    requires seconds > 0 && q * seconds > 0
    ensures Sec(at) < q * seconds <==> BucketStart(at, seconds) + seconds <= q * seconds
  {
    BucketRange(at, seconds);
    var p := SqlDivide(Sec(at), seconds);
    if p < q {
      Product(p, q, seconds);
    } else if q < p {
      Product(q, p, seconds);
    }
  }
}
