/**
 The conversions between `float64` scores and the 64-bit fixed-point scores the treap orders by.
 */
module FixedPoint {
  import opened Float64
  import opened Rounding

  const MAX_SCORE_VALUE := 1000000000000.0
  const SCORE_SCALE := 1000000000000.0
  const MAX_INT64 := 0x7FFF_FFFF_FFFF_FFFF
  const MIN_INT64 := -0x8000_0000_0000_0000
  const TWO_TO_THE_63 := 9223372036854775808.0

  /** The nearest integer, halves away from zero. */
  function RoundAway(x: real): int {
    if x < 0.0 then -((-x + 0.5).Floor) else (x + 0.5).Floor
  }

  function Clamp(x: real): real {
    if x > MAX_SCORE_VALUE then MAX_SCORE_VALUE
    else if x < -MAX_SCORE_VALUE then -MAX_SCORE_VALUE
    else x
  }

  function ToFixedPoint(x: Float): int {
    match x
    case NaN => 0
    case PosInf => MAX_INT64
    case NegInf => MIN_INT64
    case Finite(v) =>
      var scaled := Round(Clamp(v) * SCORE_SCALE);
      if scaled >= TWO_TO_THE_63 then MAX_INT64
      else if scaled <= -TWO_TO_THE_63 then MIN_INT64
      else RoundAway(scaled)
  }

  /** The conversion to `float64` rounds once, the division by the scale rounds again. */
  function ToFloat(fp: int): real {
    Round(Round(fp as real) / SCORE_SCALE)
  }

  /** Every fixed-point score fits an `int64`: just below 2^63 the scaled value is whole. */
  lemma FixedPointFitsInt64(x: Float)
    ensures MIN_INT64 <= ToFixedPoint(x) <= MAX_INT64
  {
    if x.Finite? {
      var z := Clamp(x.value) * SCORE_SCALE;
      var m := Abs(z);
      RoundIsOdd(z);
      if m >= TWO_TO_THE_53 {
        MagnitudeIsWhole(m);
      } else {
        FineBounds(m, SMALLEST_EXPONENT);
      }
    }
  }

  /** A score that is not lower never gets a lower fixed-point score. */
  lemma ToFixedPointIsMonotone(x: real, y: real)
    requires x <= y
    ensures ToFixedPoint(Finite(x)) <= ToFixedPoint(Finite(y))
  {
    RoundIsMonotone(Clamp(x) * SCORE_SCALE, Clamp(y) * SCORE_SCALE);
    FixedPointFitsInt64(Finite(x));
    FixedPointFitsInt64(Finite(y));
    RoundAwayIsMonotone(Round(Clamp(x) * SCORE_SCALE), Round(Clamp(y) * SCORE_SCALE));
  }

  lemma RoundAwayIsMonotone(x: real, y: real)
    requires x <= y
    ensures RoundAway(x) <= RoundAway(y)
  {
  }

  /** A fixed-point score that is not lower is never shown as a lower score. */
  lemma ToFloatIsMonotone(a: int, b: int)
    requires a <= b
    ensures ToFloat(a) <= ToFloat(b)
  {
    RoundIsMonotone(a as real, b as real);
    RoundIsMonotone(Round(a as real) / SCORE_SCALE, Round(b as real) / SCORE_SCALE);
  }

  /** The score 4096 in fixed point: from there on doubles are 2^-40 apart. */
  const COARSE := 4096 * 1000000000000

  /** The greatest magnitude up to which the conversion to `float64` and back loses nothing. */
  const LOSSLESS := COARSE + 5

  lemma PowersOfTwo()
    ensures Pow2(1) == 2.0 && Pow2(6) == 64.0 && Pow2(40) == 1099511627776.0 && Pow2(41) == 2199023255552.0
  {
    assert Pow2(2) == 4.0;
    Pow2Add(2, 2);
    Pow2Add(4, 4);
    Pow2Add(4, 2);
    Pow2Add(8, 2);
    Pow2Add(10, 10);
    Pow2Add(20, 20);
    Pow2Add(40, 1);
  }

  /** Dividing by the scale is off by at most 2^-42. */
  lemma QuotientError(x: int)
    requires 0 <= x <= COARSE
    ensures 0.0 <= ToFloat(x)
    ensures Abs(ToFloat(x) - x as real / SCORE_SCALE) * 2199023255552.0 <= 0.5
  {
    PowersOfTwo();
    RoundIsExact(x);
    var q := x as real / SCORE_SCALE;
    FineError(q, SMALLEST_EXPONENT, 41);
    FineBounds(q, SMALLEST_EXPONENT);
  }

  /** Multiplying back is off by at most another 1/4: together less than 1/2. */
  lemma ProductError(y: real, x: int)
    requires 0 <= x <= COARSE && 0.0 <= y
    requires Abs(y - x as real / SCORE_SCALE) * 2199023255552.0 <= 0.5
    ensures y <= MAX_SCORE_VALUE
    ensures Abs(Round(y * SCORE_SCALE) - x as real) < 0.5
  {
    PowersOfTwo();
    FineError(y * SCORE_SCALE, SMALLEST_EXPONENT, 1);
  }

  lemma RoundTripError(x: int)
    requires 0 <= x <= COARSE
    ensures 0.0 <= ToFloat(x) <= MAX_SCORE_VALUE
    ensures Abs(Round(ToFloat(x) * SCORE_SCALE) - x as real) < 0.5
  {
    QuotientError(x);
    ProductError(ToFloat(x), x);
  }

  lemma ToFloatIsOdd(x: int)
    ensures ToFloat(-x) == -ToFloat(x)
  {
    assert (-x) as real == -(x as real);
    RoundIsOdd(x as real);
    RoundIsOdd(Round(x as real) / SCORE_SCALE);
  }

  lemma NearestInteger(z: real, x: int)
    requires Abs(z - x as real) < 0.5
    ensures RoundAway(z) == x
  {
  }

  // ---------- the first scores above 4096 ----------

  /** The double `u` units of 2^-40 above 4096. */
  function Above4096(u: int): real {
    (4503599627370496 + u) as real / 1099511627776.0
  }

  lemma QuotientAbove(d: int, u: int)
    requires 0 <= d <= 6
    requires RoundHalfEven((COARSE + d) as real / SCORE_SCALE * 1099511627776.0) == 4503599627370496 + u
    ensures ToFloat(COARSE + d) == Above4096(u)
  {
    PowersOfTwo();
    RoundIsExact(COARSE + d);
    var q := (COARSE + d) as real / SCORE_SCALE;
    FineScales(q, SMALLEST_EXPONENT, 40, q * 1099511627776.0);
  }

  /** Multiplying back leaves a whole number of halves. */
  lemma ProductAbove(u: int, halves: int)
    requires 0 <= u <= 7 && RoundHalfEven(Above4096(u) * SCORE_SCALE * 2.0) == halves
    ensures Round(Above4096(u) * SCORE_SCALE) == halves as real / 2.0
  {
    PowersOfTwo();
    var z := Above4096(u) * SCORE_SCALE;
    FineScales(z, SMALLEST_EXPONENT, 1, z * 2.0);
  }

  lemma ShownAbove(d: int, u: int)
    requires 1 <= d <= 6 && u == if d == 6 then 7 else d
    ensures ToFloat(COARSE + d) == Above4096(u)
  {
    QuotientAbove(d, u);
  }

  lemma StoredAbove(u: int)
    requires 1 <= u <= 7
    ensures ToFixedPoint(Finite(Above4096(u))) == COARSE + u
  {
    ProductAbove(u, 2 * COARSE + if u < 3 then 2 * u else 2 * u - 1);
  }

  // ---------- the round trip ----------

  lemma RoundTripUpwards(x: int)
    requires 0 <= x <= LOSSLESS
    ensures 0.0 <= ToFloat(x) && ToFixedPoint(Finite(ToFloat(x))) == x
  {
    if x <= COARSE {
      RoundTripError(x);
      NearestInteger(Round(ToFloat(x) * SCORE_SCALE), x);
    } else {
      ShownAbove(x - COARSE, x - COARSE);
      StoredAbove(x - COARSE);
    }
  }

  lemma ToFixedPointIsOdd(y: real)
    requires MIN_INT64 < ToFixedPoint(Finite(y)) < MAX_INT64
    ensures ToFixedPoint(Finite(-y)) == -ToFixedPoint(Finite(y))
  {
    RoundIsOdd(Clamp(y) * SCORE_SCALE);
    assert Clamp(-y) * SCORE_SCALE == -(Clamp(y) * SCORE_SCALE);
  }

  /** Up to that magnitude the conversion to `float64` and back is the identity. */
  lemma RoundTrip(x: int)
    requires -LOSSLESS <= x <= LOSSLESS
    ensures ToFixedPoint(Finite(ToFloat(x))) == x
  {
    var m := if x < 0 then -x else x;
    RoundTripUpwards(m);
    ToFloatIsOdd(m);
    ToFixedPointIsOdd(ToFloat(m));
  }

  /**
   And no further: the next score is held by some double, but what it is shown as is stored one
   unit higher.
   */
  lemma RoundTripFailsNext()
    ensures Representable(Above4096(6))
    ensures ToFixedPoint(Finite(Above4096(6))) == LOSSLESS + 1
    ensures ToFixedPoint(Finite(ToFloat(LOSSLESS + 1))) == LOSSLESS + 2
  {
    PowersOfTwo();
    assert Scaled(Above4096(6), SMALLEST_EXPONENT, 4503599627370502, 40);
    ShownAbove(6, 7);
    StoredAbove(6);
    StoredAbove(7);
  }

  /** The scores of magnitude up to a bound all survive if and only if the bound is in range. */
  lemma RoundTripIff(bound: int)
    ensures (forall x: int :: -bound <= x <= bound ==> ToFixedPoint(Finite(ToFloat(x))) == x)
       <==> bound <= LOSSLESS
  {
    if bound <= LOSSLESS {
      forall x: int | -bound <= x <= bound ensures ToFixedPoint(Finite(ToFloat(x))) == x { RoundTrip(x); }
    } else {
      RoundTripFailsNext();
    }
  }

  /** Hence equal floats mean equal scores in range, and the order is kept strictly. */
  lemma ToFloatIsStrict(a: int, b: int)
    requires -LOSSLESS <= a <= LOSSLESS && -LOSSLESS <= b <= LOSSLESS
    ensures ToFloat(a) < ToFloat(b) <==> a < b
    ensures ToFloat(a) == ToFloat(b) <==> a == b
  {
    RoundTrip(a);
    RoundTrip(b);
    if a <= b { ToFloatIsMonotone(a, b); } else { ToFloatIsMonotone(b, a); }
  }

  // ---------- the conversions in numbers ----------

  /** The nearest integer; of two equally near ones the one further from zero. */
  lemma RoundAwayIsNearest(x: real)
    ensures Abs(RoundAway(x) as real - x) <= 0.5
    ensures Abs(RoundAway(x) as real - x) == 0.5 ==> Abs(RoundAway(x) as real) > Abs(x)
  {
  }

  /** While the scaled score fits 53 bits, the fixed-point score is at most one unit away from it. */
  lemma FixedPointIsClose(x: real)
    requires -9007.0 <= x <= 9007.0
    ensures Abs(ToFixedPoint(Finite(x)) as real - x * 1000000000000.0) <= 1.0
  {
    var z := x * SCORE_SCALE;
    var i := RoundHalfEven(z);
    WholeOnGrid(i, SMALLEST_EXPONENT);
    RoundIsNearest(z, i as real);
    RoundAwayIsNearest(Round(z));
  }

  /** Scores up to 128 are off by little more than half a unit. */
  lemma FixedPointIsCloser(x: real)
    requires 0.0 <= x <= 128.0
    ensures Abs(ToFixedPoint(Finite(x)) as real - x * 1000000000000.0) <= 0.51
  {
    var z := x * SCORE_SCALE;
    PowersOfTwo();
    FineError(z, SMALLEST_EXPONENT, 6);
    FineBounds(z, SMALLEST_EXPONENT);
    RoundAwayIsNearest(Round(z));
  }

  /** Not-a-numbers count as zero; what does not fit an `int64` becomes its nearest end. */
  lemma FixedPointSaturates(x: real)
    ensures ToFixedPoint(NaN) == 0
    ensures ToFixedPoint(PosInf) == 0x7FFF_FFFF_FFFF_FFFF && ToFixedPoint(NegInf) == -0x8000_0000_0000_0000
    ensures x >= 9223372.036854775808 ==> ToFixedPoint(Finite(x)) == 0x7FFF_FFFF_FFFF_FFFF
    ensures x <= -9223372.036854775808 ==> ToFixedPoint(Finite(x)) == -0x8000_0000_0000_0000
  {
    PowersOfTwo();
    assert Scaled(TWO_TO_THE_63, SMALLEST_EXPONENT, 0x800000, 40);
    RoundFixesDoubles(TWO_TO_THE_63);
    RoundIsOdd(TWO_TO_THE_63);
    var z := Clamp(x) * SCORE_SCALE;
    if x >= 9223372.036854775808 { RoundIsMonotone(TWO_TO_THE_63, z); }
    if x <= -9223372.036854775808 { RoundIsMonotone(z, -TWO_TO_THE_63); }
  }

  /** What a fixed-point score of at most 53 bits is shown as is the double nearest to it. */
  lemma ShownIsNearest(fp: int, y: real)
    requires -0x20_0000_0000_0000 < fp < 0x20_0000_0000_0000
    ensures Representable(ToFloat(fp))
    ensures Representable(y) ==>
              Abs(ToFloat(fp) - fp as real / 1000000000000.0) <= Abs(y - fp as real / 1000000000000.0)
  {
    RoundIsExact(fp);
    RoundIsNearest(fp as real / SCORE_SCALE, y);
  }
}
