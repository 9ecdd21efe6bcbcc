/**
 From a raw metric to a score between 0 and 100, and what of it reaches the store.
 */
module Scoring {
  import opened Float64
  import opened FixedPoint
  import opened Rounding

  const MAX_SCORE := 100.0
  const DEFAULT_SKILL_WEIGHT := Finite(100.0)

  predicate Positive(w: Float) {
    w.PosInf? || (w.Finite? && w.value > 0.0)
  }

  function Minimum(x: Float, y: Float): Float {
    if x.NegInf? || y.NegInf? then NegInf
    else if x.NaN? || y.NaN? then NaN
    else if x.PosInf? then y
    else if y.PosInf? then x
    else if x.value < y.value then x
    else y
  }

  function Maximum(x: Float, y: Float): Float {
    if x.PosInf? || y.PosInf? then PosInf
    else if x.NaN? || y.NaN? then NaN
    else if x.NegInf? then y
    else if y.NegInf? then x
    else if x.value > y.value then x
    else y
  }

  function ScoreOf(raw: Float, weight: Float): Float {
    Maximum(Finite(0.0), Minimum(Finite(MAX_SCORE), Mul(raw, weight)))
  }

  /** The fixed-point score the store gets for a metric of the given weight. */
  function StoredScore(raw: Float, weight: Float): int {
    ToFixedPoint(ScoreOf(raw, weight))
  }

  function WeightFor(weights: map<string, Float>, defaultWeight: Float, skill: string): Float {
    if skill in weights then weights[skill] else defaultWeight
  }

  /** Whatever the metric and the weight, infinite or not a number, the score is in range or NaN. */
  lemma ScoreIsBounded(raw: Float, weight: Float)
    ensures ScoreOf(raw, weight).NaN? <==> Mul(raw, weight).NaN?
    ensures !Mul(raw, weight).NaN? ==> ScoreOf(raw, weight).Finite? && 0.0 <= ScoreOf(raw, weight).value <= MAX_SCORE
  {
  }

  const FULL_SCORE := 100 * 1000000000000

  lemma FixedPointEnds()
    ensures ToFixedPoint(Finite(0.0)) == 0 && ToFixedPoint(Finite(MAX_SCORE)) == FULL_SCORE
  {
    RoundIsExact(0);
    RoundIsExact(FULL_SCORE);
    assert MAX_SCORE * SCORE_SCALE == FULL_SCORE as real;
    assert 0.0 * SCORE_SCALE == 0 as real;
  }

  /** What reaches the store lies within the range where conversions lose nothing. */
  lemma StoredScoreIsLossless(raw: Float, weight: Float)
    ensures 0 <= StoredScore(raw, weight) <= FULL_SCORE <= LOSSLESS
  {
    FixedPointEnds();
    ScoreIsBounded(raw, weight);
    var s := ScoreOf(raw, weight);
    if s.Finite? {
      ToFixedPointIsMonotone(0.0, s.value);
      ToFixedPointIsMonotone(s.value, MAX_SCORE);
    }
  }

  predicate AtMost(x: Float, y: Float) {
    !x.NaN? && !y.NaN? && (x.NegInf? || y.PosInf? || (x.Finite? && y.Finite? && x.value <= y.value))
  }

  lemma ProductIsMonotone(a: real, b: real, w: real)
    requires a <= b && w > 0.0
    ensures Product(a, w) <= Product(b, w)
  {
    assert Product(b, w) - Product(a, w) == (b - a) * w;
  }

  lemma MulIsMonotone(a: real, b: real, w: real)
    requires a <= b && w > 0.0
    ensures AtMost(Mul(Finite(a), Finite(w)), Mul(Finite(b), Finite(w)))
  {
    ProductIsMonotone(a, b, w);
    RoundIsMonotone(Product(a, w), Product(b, w));
    Pow2Grows(0, 1024);
  }

  lemma ClampIsMonotone(x: Float, y: Float)
    requires AtMost(x, y)
    ensures var cx := Maximum(Finite(0.0), Minimum(Finite(MAX_SCORE), x));
            var cy := Maximum(Finite(0.0), Minimum(Finite(MAX_SCORE), y));
            cx.Finite? && cy.Finite? && cx.value <= cy.value
  {
  }

  /** Under one positive weight a higher metric is never stored as a lower score. */
  lemma StoredScoreIsMonotone(a: real, b: real, weight: Float)
    requires a <= b && Positive(weight)
    ensures StoredScore(Finite(a), weight) <= StoredScore(Finite(b), weight)
  {
    if weight.Finite? {
      MulIsMonotone(a, b, weight.value);
      ClampIsMonotone(Mul(Finite(a), weight), Mul(Finite(b), weight));
      ToFixedPointIsMonotone(ScoreOf(Finite(a), weight).value, ScoreOf(Finite(b), weight).value);
    } else {
      FixedPointEnds();
      StoredScoreIsLossless(Finite(a), weight);
      StoredScoreIsLossless(Finite(b), weight);
    }
  }

  // ---------- the score as a number ----------

  /** The range of scores, at its nearest to `x`. */
  function Clipped(x: real): real {
    if x < 0.0 then 0.0 else if x > 100.0 then 100.0 else x
  }

  /** With a product in range the score is the double nearest to it, and out of range the nearer end. */
  lemma ScoreIsProduct(r: real, w: real, y: real)
    ensures var s := ScoreOf(Finite(r), Finite(w));
            && s.Finite? && Representable(s.value)
            && (r * w <= 0.0 ==> s.value == 0.0)
            && (r * w >= 100.0 ==> s.value == 100.0)
            && (0.0 <= r * w <= 100.0 && Representable(y) ==> Abs(s.value - r * w) <= Abs(y - r * w))
  {
    var p := Product(r, w);
    RoundIsExact(0);
    RoundIsExact(100);
    WholeOnGrid(0, SMALLEST_EXPONENT);
    WholeOnGrid(100, SMALLEST_EXPONENT);
    RoundIsNearest(p, y);
    assert Pow2(7) == 128.0;
    Pow2Grows(7, 1024);
    if p <= 0.0 { RoundIsMonotone(p, 0.0); } else { RoundIsMonotone(0.0, p); }
    if p <= 100.0 { RoundIsMonotone(p, 100.0); } else { RoundIsMonotone(100.0, p); }
  }

  /** Infinite operands give the end their signs say, and no number where the product is none. */
  lemma ScoreOfInfinite(raw: Float, weight: Float)
    requires !raw.Finite? || !weight.Finite?
    ensures var s := ScoreOf(raw, weight);
            && ((Positive(raw) && Positive(weight)) || (Negative(raw) && Negative(weight)) ==> s == Finite(100.0))
            && ((Positive(raw) && Negative(weight)) || (Negative(raw) && Positive(weight)) ==> s == Finite(0.0))
            && (raw.NaN? || weight.NaN? || raw == Finite(0.0) || weight == Finite(0.0) ==> s.NaN?)
  {
  }

  lemma ScoreError(r: real, w: real)
    ensures Abs(ScoreOf(Finite(r), Finite(w)).value - Clipped(r * w)) * 1000000000000.0 <= 0.01
    ensures 0.0 <= ScoreOf(Finite(r), Finite(w)).value <= 100.0
  {
    ScoreIsProduct(r, w, 0.0);
    if 0.0 < r * w < 100.0 {
      var p := Product(r, w);
      PowersOfTwo();
      Pow2Add(40, 6);
      FineError(p, SMALLEST_EXPONENT, 46);
      ScoreInside(r, w);
    }
  }

  lemma ScoreInside(r: real, w: real)
    requires 0.0 < r * w < 100.0
    ensures ScoreOf(Finite(r), Finite(w)) == Finite(RoundFine(Product(r, w), SMALLEST_EXPONENT))
  {
    var p := Product(r, w);
    RoundIsExact(0);
    RoundIsExact(100);
    RoundIsMonotone(0.0, p);
    RoundIsMonotone(p, 100.0);
    assert Pow2(7) == 128.0;
    Pow2Grows(7, 1024);
  }

  /**
   What is stored is within 0.53 of a unit of the clipped product, and so is what it is shown as.
   (A unit is 10^-12 points.)
   */
  lemma StoredScoreIsClose(r: real, w: real)
    ensures Abs(StoredScore(Finite(r), Finite(w)) as real - Clipped(r * w) * 1000000000000.0) <= 0.52
    ensures Abs(ToFloat(StoredScore(Finite(r), Finite(w))) - Clipped(r * w)) * 1000000000000.0 <= 0.53
  {
    var s := ScoreOf(Finite(r), Finite(w));
    ScoreIsProduct(r, w, 0.0);
    ScoreError(r, w);
    FixedPointIsCloser(s.value);
    StoredScoreIsLossless(Finite(r), Finite(w));
    ShownError(StoredScore(Finite(r), Finite(w)));
  }

  lemma ShownError(fp: int)
    requires 0 <= fp <= FULL_SCORE
    ensures Abs(ToFloat(fp) - fp as real / 1000000000000.0) * 1000000000000.0 <= 0.01
  {
    RoundIsExact(fp);
    PowersOfTwo();
    Pow2Add(40, 6);
    FineError(fp as real / SCORE_SCALE, SMALLEST_EXPONENT, 46);
  }

  /** The weights and the default of a scorer; the simulated latency is not part of the result. */
  class InMemoryScorer {
    var skillWeights: map<string, Float>
    var defaultWeight: Float

    constructor ()
      ensures skillWeights == map[] && defaultWeight == DEFAULT_SKILL_WEIGHT
    {
      skillWeights, defaultWeight := map[], DEFAULT_SKILL_WEIGHT;
    }

    /** Takes over the positive weights only, in whatever order the map is iterated. */
    method WithSkillWeightsFromConfig(weights: map<string, Float>, defaultWeight: Float)
      modifies this
      ensures skillWeights == map s | s in weights && Positive(weights[s]) :: weights[s]
      ensures this.defaultWeight == if Positive(defaultWeight) then defaultWeight else old(this.defaultWeight)
    {
      skillWeights := map[];
      var pending := weights.Keys;
      while pending != {}
        invariant pending <= weights.Keys
        invariant skillWeights == map s | s in weights && s !in pending && Positive(weights[s]) :: weights[s]
        invariant this.defaultWeight == old(this.defaultWeight)
        decreases pending
      {
        var skill :| skill in pending;
        pending := pending - {skill};
        if Positive(weights[skill]) {
          skillWeights := skillWeights[skill := weights[skill]];
        }
      }
      if Positive(defaultWeight) {
        this.defaultWeight := defaultWeight;
      }
    }

    method SetSkillWeight(skill: string, weight: Float)
      modifies this`skillWeights
      ensures skillWeights == old(skillWeights)[skill := weight]
    {
      skillWeights := skillWeights[skill := weight];
    }

    /** Fails only when cancelled during the simulated delay. */
    method Score(rawMetric: Float, skill: string, cancelled: bool) returns (ok: bool, score: Float)
      ensures ok <==> !cancelled
      ensures ok && skill in skillWeights ==> score == ScoreOf(rawMetric, skillWeights[skill])
      ensures ok && skill !in skillWeights ==> score == ScoreOf(rawMetric, defaultWeight)
    {
      if cancelled {
        return false, Finite(0.0);
      }
      var weight := if skill in skillWeights then skillWeights[skill] else defaultWeight;
      ok, score := true, Maximum(Finite(0.0), Minimum(Finite(MAX_SCORE), Mul(rawMetric, weight)));
    }
  }
}
