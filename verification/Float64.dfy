/**
 Double-precision numbers and their arithmetic, rounding to nearest with ties to even, as in
 sections 4.3.1 and 6 of IEEE 754-2019.  The two zeros are one value here.
 */
module Float64 {

  datatype Float = NaN | NegInf | PosInf | Finite(value: real)

  const TWO_TO_THE_52 := 4503599627370496.0
  const TWO_TO_THE_53 := 9007199254740992.0

  /** A double has 53 significant bits and its last bit is worth at least 2^-1074. */
  const SMALLEST_EXPONENT := 1074

  function Pow2(n: nat): real {
    if n == 0 then 1.0 else 2.0 * Pow2(n - 1)
  }

  function Abs(x: real): real {
    if x < 0.0 then -x else x
  }

  function RoundHalfEven(x: real): int {
    var f := x.Floor;
    var d := x - f as real;
    if d < 0.5 then f
    else if d > 0.5 then f + 1
    else if f % 2 == 0 then f
    else f + 1
  }

  /** Rounds 0 <= x < 2^53, halving the unit at most `n` times to fill the 53 bits. */
  function RoundFine(x: real, n: nat): real
    decreases n, x
  {
    if x >= TWO_TO_THE_52 || n == 0 then RoundHalfEven(x) as real
    else RoundFine(2.0 * x, n - 1) / 2.0
  }

  function RoundMagnitude(x: real): real
    requires x >= 0.0
    decreases x.Floor
  {
    if x < TWO_TO_THE_53 then RoundFine(x, SMALLEST_EXPONENT)
    else 2.0 * RoundMagnitude(x / 2.0)
  }

  /** The double nearest to `x`, as long as the exponent does not overflow. */
  function Round(x: real): real {
    if x < 0.0 then -RoundMagnitude(-x) else RoundMagnitude(x)
  }

  /** The double for an exact result, infinite when the exponent overflows. */
  function FromExact(x: real): Float {
    var r := Round(x);
    if r >= Pow2(1024) then PosInf else if r <= -Pow2(1024) then NegInf else Finite(r)
  }

  function Product(a: real, b: real): real {
    a * b
  }

  function Mul(a: Float, b: Float): Float {
    if a.NaN? || b.NaN? then NaN
    else if a.Finite? && b.Finite? then FromExact(Product(a.value, b.value))
    else if a == Finite(0.0) || b == Finite(0.0) then NaN
    else if Negative(a) == Negative(b) then PosInf
    else NegInf
  }

  predicate Negative(a: Float) {
    a.NegInf? || (a.Finite? && a.value < 0.0)
  }

  // ---------- rounding is accurate, exact on integers and monotone ----------

  lemma {:induction false} FineIsExact(i: int, n: nat)
    requires 0 <= i
    ensures RoundFine(i as real, n) == i as real
    decreases n
  {
    if (i as real) < TWO_TO_THE_52 && n > 0 {
      assert 2.0 * (i as real) == (2 * i) as real;
      FineIsExact(2 * i, n - 1);
    }
  }

  lemma {:induction false} FineBounds(x: real, n: nat)
    requires 0.0 <= x
    ensures 0.0 <= RoundFine(x, n)
    ensures x <= TWO_TO_THE_52 ==> RoundFine(x, n) <= TWO_TO_THE_52
    ensures x >= TWO_TO_THE_52 ==> RoundFine(x, n) >= TWO_TO_THE_52
    ensures x <= TWO_TO_THE_53 ==> RoundFine(x, n) <= TWO_TO_THE_53
    decreases n
  {
    if x < TWO_TO_THE_52 && n > 0 {
      FineBounds(2.0 * x, n - 1);
    }
  }

  lemma HalfEvenIsMonotone(x: real, y: real)
    requires x <= y
    ensures RoundHalfEven(x) <= RoundHalfEven(y)
  {
    assert x.Floor <= y.Floor;
    if x.Floor < y.Floor {
      assert RoundHalfEven(x) <= x.Floor + 1 <= y.Floor <= RoundHalfEven(y);
    }
  }

  lemma {:induction false} FineIsMonotone(x: real, y: real, n: nat)
    requires 0.0 <= x <= y
    ensures RoundFine(x, n) <= RoundFine(y, n)
    decreases n
  {
    if n > 0 && y < TWO_TO_THE_52 {
      FineIsMonotone(2.0 * x, 2.0 * y, n - 1);
    } else {
      FineBounds(x, n);
      FineBounds(y, n);
      HalfEvenIsMonotone(x, y);
    }
  }

  lemma {:induction false} MagnitudeIsMonotone(x: real, y: real)
    requires 0.0 <= x <= y
    ensures 0.0 <= RoundMagnitude(x) <= RoundMagnitude(y)
    ensures x >= TWO_TO_THE_53 ==> RoundMagnitude(x) >= TWO_TO_THE_53
    decreases y.Floor
  {
    FineBounds(x, SMALLEST_EXPONENT);
    if y < TWO_TO_THE_53 {
      FineIsMonotone(x, y, SMALLEST_EXPONENT);
    } else {
      MagnitudeAtLeast(y);
      if x >= TWO_TO_THE_53 {
        MagnitudeAtLeast(x);
        MagnitudeIsMonotone(x / 2.0, y / 2.0);
      }
    }
  }

  lemma {:induction false} MagnitudeAtLeast(y: real)
    requires y >= TWO_TO_THE_53
    ensures RoundMagnitude(y) >= TWO_TO_THE_53
    decreases y.Floor
  {
    if y / 2.0 < TWO_TO_THE_53 {
      FineBounds(y / 2.0, SMALLEST_EXPONENT);
    } else {
      MagnitudeAtLeast(y / 2.0);
    }
  }

  /** Below 2^(53-m) a value is off by at most half of 2^-m. */
  lemma {:induction false} FineError(x: real, n: nat, m: nat)
    requires 0.0 <= x && x * Pow2(m) <= TWO_TO_THE_53 && m <= n
    ensures Abs(RoundFine(x, n) - x) * Pow2(m) <= 0.5
    decreases n
  {
    if x < TWO_TO_THE_52 && n > 0 {
      assert m > 0 ==> (2.0 * x) * Pow2(m - 1) == x * Pow2(m);
      FineError(2.0 * x, n - 1, if m == 0 then 0 else m - 1);
      assert Abs(RoundFine(x, n) - x) == Abs(RoundFine(2.0 * x, n - 1) - 2.0 * x) / 2.0;
    } else if m > 0 {
      assert x == TWO_TO_THE_52 by { Pow2Grows(1, m); LeastProduct(x, Pow2(m)); }
      FineIsExact(0x10_0000_0000_0000, n);
    }
  }

  lemma LeastProduct(x: real, p: real)
    requires x >= TWO_TO_THE_52 && p >= 2.0 && x * p <= TWO_TO_THE_53
    ensures x == TWO_TO_THE_52
  {
    assert x * p >= x * 2.0;
  }

  lemma ProductShift(x: real, p: real)
    ensures Product(x / 2.0, 2.0 * p) == Product(x, p) && Product(2.0 * x, p) == Product(x, 2.0 * p)
    ensures Product(x, 1.0) == x
  {
  }

  /** The first `m` halvings of the unit, taken at once. */
  lemma {:induction false} FineScales(x: real, n: nat, m: nat, z: real)
    requires 0.0 <= x && m <= n && z == Product(x, Pow2(m)) && z < TWO_TO_THE_53
    ensures Product(RoundFine(x, n), Pow2(m)) == RoundFine(z, n - m)
    decreases m
  {
    if m == 0 {
      ProductShift(x, 1.0);
      ProductShift(RoundFine(x, n), 1.0);
    } else {
      var p := Pow2(m - 1);
      Pow2Grows(0, m - 1);
      HalfProduct(x, p);
      ProductShift(x, p);
      ProductShift(RoundFine(2.0 * x, n - 1), p);
      FineScales(2.0 * x, n - 1, m - 1, z);
    }
  }

  lemma HalfProduct(x: real, p: real)
    requires 0.0 <= x && p >= 1.0 && Product(x, 2.0 * p) < TWO_TO_THE_53
    ensures x < TWO_TO_THE_52
  {
    assert x * (2.0 * p) >= x * 2.0;
  }

  /** A rounded value that needs more than 53 bits of integer part is a whole number. */
  lemma {:induction false} MagnitudeIsWhole(x: real)
    requires x >= TWO_TO_THE_53
    ensures RoundMagnitude(x).Floor as real == RoundMagnitude(x)
    decreases x.Floor
  {
    if x / 2.0 >= TWO_TO_THE_53 {
      MagnitudeIsWhole(x / 2.0);
    }
    assert RoundMagnitude(x / 2.0).Floor as real == RoundMagnitude(x / 2.0);
    assert (2 * RoundMagnitude(x / 2.0).Floor) as real == RoundMagnitude(x);
  }

  lemma RoundIsOdd(x: real)
    ensures Round(-x) == -Round(x)
  {
    if x == 0.0 { RoundIsExact(0); }
  }

  /** Rounding never reverses an order. */
  lemma RoundIsMonotone(x: real, y: real)
    requires x <= y
    ensures Round(x) <= Round(y)
  {
    if x < 0.0 {
      MagnitudeIsMonotone(0.0, -x);
      if y < 0.0 {
        MagnitudeIsMonotone(-y, -x);
      } else {
        MagnitudeIsMonotone(0.0, y);
      }
    } else {
      MagnitudeIsMonotone(x, y);
    }
  }

  /** Integers of at most 53 bits are doubles. */
  lemma RoundIsExact(i: int)
    requires -0x20_0000_0000_0000 < i < 0x20_0000_0000_0000
    ensures Round(i as real) == i as real
  {
    FineIsExact(if i < 0 then -i else i, SMALLEST_EXPONENT);
  }

  lemma {:induction false} Pow2Grows(m: nat, n: nat)
    requires m <= n
    ensures 1.0 <= Pow2(m) <= Pow2(n)
    decreases n
  {
    if 0 < m {
      Pow2Grows(m - 1, n - 1);
    } else if 0 < n {
      Pow2Grows(0, n - 1);
    }
  }

  lemma {:induction false} Pow2Add(m: nat, n: nat)
    ensures Pow2(m + n) == Pow2(m) * Pow2(n)
  {
    if m > 0 {
      Pow2Add(m - 1, n);
    }
  }
}
