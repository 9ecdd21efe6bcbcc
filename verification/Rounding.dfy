/**
 What rounding means: its result is a double, no double is nearer to the exact value, and a double
 is left alone.  The exponent is unbounded above here, as it is in `Round`.
 */
module Rounding {
  import opened Float64

  const MAX_SIGNIFICAND := 0x20_0000_0000_0000

  /** `y` is `m` halved or doubled `k` times, and halved at most `n` times. */
  ghost predicate Scaled(y: real, n: nat, m: int, k: nat) {
    && -MAX_SIGNIFICAND <= m <= MAX_SIGNIFICAND
    && ((k <= n && Product(y, Pow2(k)) == m as real) || y == Product(m as real, Pow2(k)))
  }

  ghost predicate OnGrid(y: real, n: nat) {
    exists m: int, k: nat :: Scaled(y, n, m, k)
  }

  /** A whole number of at most 53 bits, times a power of two that is at least 2^-1074. */
  ghost predicate Representable(y: real) {
    OnGrid(y, SMALLEST_EXPONENT)
  }

  // ---------- the grid of doubles under doubling and halving ----------

  lemma WholeOnGrid(i: int, n: nat)
    requires -MAX_SIGNIFICAND <= i <= MAX_SIGNIFICAND
    ensures OnGrid(i as real, n)
  {
    assert Scaled(i as real, n, i, 0);
  }

  lemma GridIsSymmetric(y: real, n: nat)
    requires OnGrid(y, n)
    ensures OnGrid(-y, n)
  {
    var m: int, k: nat :| Scaled(y, n, m, k);
    NegatedProduct(y, Pow2(k));
    NegatedProduct(m as real, Pow2(k));
    assert (-m) as real == -(m as real);
    assert Scaled(-y, n, -m, k);
  }

  lemma NegatedProduct(x: real, p: real)
    ensures Product(-x, p) == -Product(x, p)
  {
  }

  lemma TwiceProduct(x: real, p: real)
    ensures Product(2.0 * x, p) == Product(x, 2.0 * p) == 2.0 * Product(x, p)
    ensures Product(x, 1.0) == x
  {
  }

  /** Doubling uses up one halving. */
  lemma Doubled(y: real, n: nat)
    requires OnGrid(y, n)
    ensures OnGrid(2.0 * y, if n > 0 then n - 1 else 0)
  {
    var m: int, k: nat :| Scaled(y, n, m, k);
    if 0 < k <= n && Product(y, Pow2(k)) == m as real {
      TwiceProduct(y, Pow2(k - 1));
      assert Scaled(2.0 * y, n - 1, m, k - 1);
    } else {
      TwiceProduct(y, 1.0);
      TwiceProduct(m as real, Pow2(k));
      assert Scaled(2.0 * y, if n > 0 then n - 1 else 0, m, k + 1);
    }
  }

  lemma Halved(y: real, n: nat)
    requires OnGrid(y, n)
    ensures OnGrid(y / 2.0, n + 1)
  {
    var m: int, k: nat :| Scaled(y, n, m, k);
    if k > 0 && y == Product(m as real, Pow2(k)) {
      TwiceProduct(m as real, Pow2(k - 1));
      assert Scaled(y / 2.0, n + 1, m, k - 1);
    } else {
      TwiceProduct(m as real, 1.0);
      TwiceProduct(y, 1.0);
      TwiceProduct(y / 2.0, Pow2(k));
      assert Scaled(y / 2.0, n + 1, m, k + 1);
    }
  }

  lemma FinerGrid(y: real, n: nat)
    requires OnGrid(y, n)
    ensures OnGrid(y, n + 1)
  {
    var m: int, k: nat :| Scaled(y, n, m, k);
    assert Scaled(y, n + 1, m, k);
  }

  /** Where 53 bits leave no room for a fraction the grid holds whole numbers only. */
  lemma WholeAbove(y: real, n: nat)
    requires OnGrid(y, n) && y >= TWO_TO_THE_52
    ensures y == y.Floor as real
  {
    var m: int, k: nat :| Scaled(y, n, m, k);
    Pow2Grows(0, k);
    if Product(y, Pow2(k)) == m as real {
      TwiceProduct(y, 1.0);
      if k > 0 {
        Pow2Grows(1, k);
        LeastProduct(y, Pow2(k));
      }
    } else {
      Pow2IsWhole(k);
      assert y == (m * Pow2(k).Floor) as real;
    }
  }

  lemma {:induction false} Pow2IsWhole(k: nat)
    ensures Pow2(k) == Pow2(k).Floor as real
  {
    if k > 0 {
      Pow2IsWhole(k - 1);
      assert Pow2(k) == (2 * Pow2(k - 1).Floor) as real;
    }
  }

  lemma CoarsestWhole(y: real)
    requires OnGrid(y, 0)
    ensures y == y.Floor as real
  {
    var m: int, k: nat :| Scaled(y, 0, m, k);
    TwiceProduct(y, 1.0);
    Pow2IsWhole(k);
    assert Product(m as real, Pow2(k)) == (m * Pow2(k).Floor) as real;
  }

  /** Above 2^53 halving loses nothing. */
  lemma HalvedAbove(y: real, n: nat)
    requires OnGrid(y, n) && y >= TWO_TO_THE_53
    ensures OnGrid(y / 2.0, n)
  {
    var m: int, k: nat :| Scaled(y, n, m, k);
    Pow2Grows(0, k);
    TwiceProduct(y, 1.0);
    if k > 0 && y == Product(m as real, Pow2(k)) {
      TwiceProduct(m as real, Pow2(k - 1));
      assert Scaled(y / 2.0, n, m, k - 1);
    } else {
      TwiceProduct(m as real, 1.0);
      AtMostFactor(y, Pow2(k));
      assert y / 2.0 == TWO_TO_THE_52;
      WholeOnGrid(0x10_0000_0000_0000, n);
    }
  }

  lemma AtMostFactor(y: real, p: real)
    requires y >= 0.0 && p >= 1.0
    ensures y <= Product(y, p)
  {
    assert y * (p - 1.0) >= 0.0;
  }

  // ---------- the rounded value ----------

  lemma {:induction false} FineOnGrid(x: real, n: nat)
    requires 0.0 <= x <= TWO_TO_THE_53
    ensures OnGrid(RoundFine(x, n), n)
    decreases n
  {
    if x >= TWO_TO_THE_52 || n == 0 {
      WholeOnGrid(RoundHalfEven(x), n);
    } else {
      FineOnGrid(2.0 * x, n - 1);
      Halved(RoundFine(2.0 * x, n - 1), n - 1);
    }
  }

  lemma HalfEvenIsNearest(x: real, i: int)
    ensures Abs(RoundHalfEven(x) as real - x) <= Abs(i as real - x)
  {
    if i <= x.Floor {
      assert i as real <= x.Floor as real;
    } else {
      assert i as real >= (x.Floor + 1) as real;
    }
  }

  lemma {:induction false} FineIsNearest(x: real, n: nat, y: real)
    requires 0.0 <= x && OnGrid(y, n)
    ensures Abs(RoundFine(x, n) - x) <= Abs(y - x)
    decreases n
  {
    if x >= TWO_TO_THE_52 {
      if y >= TWO_TO_THE_52 { WholeAbove(y, n); }
      HalfEvenIsNearest(x, if y >= TWO_TO_THE_52 then y.Floor else 0x10_0000_0000_0000);
    } else if n == 0 {
      CoarsestWhole(y);
      HalfEvenIsNearest(x, y.Floor);
    } else {
      Doubled(y, n);
      FineIsNearest(2.0 * x, n - 1, 2.0 * y);
      HalfTheError(RoundFine(2.0 * x, n - 1), x);
      HalfTheError(2.0 * y, x);
    }
  }

  lemma HalfTheError(z: real, x: real)
    ensures Abs(z / 2.0 - x) == Abs(z - 2.0 * x) / 2.0
  {
  }

  lemma {:induction false} MagnitudeOnGrid(x: real)
    requires 0.0 <= x
    ensures Representable(RoundMagnitude(x))
    decreases x.Floor
  {
    if x < TWO_TO_THE_53 {
      FineOnGrid(x, SMALLEST_EXPONENT);
    } else {
      MagnitudeOnGrid(x / 2.0);
      Doubled(RoundMagnitude(x / 2.0), SMALLEST_EXPONENT);
      FinerGrid(RoundMagnitude(x), SMALLEST_EXPONENT - 1);
    }
  }

  lemma {:induction false} MagnitudeIsNearest(x: real, y: real)
    requires 0.0 <= x && Representable(y)
    ensures Abs(RoundMagnitude(x) - x) <= Abs(y - x)
    decreases x.Floor
  {
    if x < TWO_TO_THE_53 {
      FineIsNearest(x, SMALLEST_EXPONENT, y);
    } else {
      var z := if y < TWO_TO_THE_53 then TWO_TO_THE_53 else y;
      WholeOnGrid(0x20_0000_0000_0000, SMALLEST_EXPONENT);
      HalvedAbove(z, SMALLEST_EXPONENT);
      MagnitudeIsNearest(x / 2.0, z / 2.0);
    }
  }

  /** Rounding yields a double, and no double is nearer to the exact value. */
  lemma RoundIsNearest(x: real, y: real)
    ensures Representable(Round(x))
    ensures Representable(y) ==> Abs(Round(x) - x) <= Abs(y - x)
  {
    if x < 0.0 {
      MagnitudeOnGrid(-x);
      GridIsSymmetric(Round(-x), SMALLEST_EXPONENT);
      if Representable(y) {
        GridIsSymmetric(y, SMALLEST_EXPONENT);
        MagnitudeIsNearest(-x, -y);
      }
    } else {
      MagnitudeOnGrid(x);
      if Representable(y) { MagnitudeIsNearest(x, y); }
    }
  }

  /** Exactly the doubles are left alone by rounding; so rounding twice is rounding once. */
  lemma RoundFixesDoubles(x: real)
    ensures Round(x) == x <==> Representable(x)
    ensures Round(Round(x)) == Round(x)
  {
    RoundIsNearest(x, x);
    RoundIsNearest(Round(x), Round(x));
  }

  // ---------- ties ----------

  /** `z` is an even multiple of `gap`. */
  predicate EvenMultiple(z: real, gap: real, i: int) {
    z == Product((2 * i) as real, gap)
  }

  ghost predicate IsEven(z: real, gap: real) {
    exists i: int :: EvenMultiple(z, gap, i)
  }

  lemma ScaleEven(z: real, gap: real)
    requires IsEven(z, gap)
    ensures IsEven(z / 2.0, gap / 2.0) && IsEven(2.0 * z, 2.0 * gap) && IsEven(-z, gap)
  {
    var i :| EvenMultiple(z, gap, i);
    assert EvenMultiple(z / 2.0, gap / 2.0, i);
    assert EvenMultiple(2.0 * z, 2.0 * gap, i);
    NegatedProduct((2 * i) as real, gap);
    assert (2 * -i) as real == -((2 * i) as real);
    assert EvenMultiple(-z, gap, -i);
  }

  lemma HalfEvenTie(x: real, j: int)
    requires j != RoundHalfEven(x) && Abs(j as real - x) == Abs(RoundHalfEven(x) as real - x)
    ensures IsEven(RoundHalfEven(x) as real, Abs(j as real - RoundHalfEven(x) as real))
  {
    var r := RoundHalfEven(x);
    HalfEvenIsNearest(x, x.Floor);
    HalfEvenIsNearest(x, x.Floor + 1);
    assert Abs(j as real - r as real) == 1.0;
    assert r % 2 == 0;
    assert EvenMultiple(r as real, 1.0, r / 2);
  }

  lemma {:induction false} FineTie(x: real, n: nat, y: real)
    requires 0.0 <= x && OnGrid(y, n)
    requires y != RoundFine(x, n) && Abs(y - x) == Abs(RoundFine(x, n) - x)
    ensures IsEven(RoundFine(x, n), Abs(y - RoundFine(x, n)))
    decreases n
  {
    if x >= TWO_TO_THE_52 {
      HalfEvenIsNearest(x, 0x10_0000_0000_0000);
      WholeAbove(y, n);
      HalfEvenTie(x, y.Floor);
    } else if n == 0 {
      CoarsestWhole(y);
      HalfEvenTie(x, y.Floor);
    } else {
      var z := RoundFine(2.0 * x, n - 1);
      Doubled(y, n);
      HalfTheError(z, x);
      HalfTheError(2.0 * y, x);
      FineTie(2.0 * x, n - 1, 2.0 * y);
      ScaleEven(z, Abs(2.0 * y - z));
      assert Abs(2.0 * y - z) / 2.0 == Abs(y - z / 2.0);
    }
  }

  lemma {:induction false} MagnitudeTie(x: real, y: real)
    requires 0.0 <= x && Representable(y)
    requires y != RoundMagnitude(x) && Abs(y - x) == Abs(RoundMagnitude(x) - x)
    ensures IsEven(RoundMagnitude(x), Abs(y - RoundMagnitude(x)))
    decreases x.Floor
  {
    if x < TWO_TO_THE_53 {
      FineTie(x, SMALLEST_EXPONENT, y);
    } else {
      var z := RoundMagnitude(x / 2.0);
      WholeOnGrid(0x20_0000_0000_0000, SMALLEST_EXPONENT);
      MagnitudeIsNearest(x, TWO_TO_THE_53);
      assert y >= TWO_TO_THE_53;
      HalvedAbove(y, SMALLEST_EXPONENT);
      MagnitudeTie(x / 2.0, y / 2.0);
      ScaleEven(z, Abs(y / 2.0 - z));
      assert 2.0 * Abs(y / 2.0 - z) == Abs(y - 2.0 * z);
    }
  }

  /** Where another double is just as near, the result is the even one of the two: a multiple of twice their gap. */
  lemma TieGoesToEven(x: real, y: real)
    requires Representable(y) && y != Round(x) && Abs(y - x) == Abs(Round(x) - x)
    ensures IsEven(Round(x), Abs(y - Round(x)))
  {
    if x < 0.0 {
      GridIsSymmetric(y, SMALLEST_EXPONENT);
      MagnitudeTie(-x, -y);
      ScaleEven(RoundMagnitude(-x), Abs(-y - RoundMagnitude(-x)));
    } else {
      MagnitudeTie(x, y);
    }
  }
}
