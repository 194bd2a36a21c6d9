/** The moment statistics of a window of samples, computed from scratch:
    mean, sample variance (Bessel's correction), standard deviation,
    coefficient of variation, skewness and excess kurtosis.

    The functions say what each statistic is, and the lemmas prove its
    properties: bounds, the cases in which it is zero, and how it changes
    under a change of units. The engine's loops are in module Statistics. */
module Moments {
  import opened Sums
  import opened Outcomes

  // ---------------------------------------------------------------------
  // Definitions
  // ---------------------------------------------------------------------

  /** μ = (1/N) · Σ xᵢ */
  function Mean(x: seq<real>): real
    requires |x| > 0
  {
    Sum(x) / |x| as real
  }

  /** Σ (xᵢ − μ)², accumulated from the left. */
  function SumSqDev(x: seq<real>, mu: real): real
    decreases |x|
  {
    if |x| == 0 then 0.0 else SumSqDev(x[..|x| - 1], mu) + Pow(x[|x| - 1] - mu, 2)
  }

  /** s² = [1/(N − 1)] · Σ (xᵢ − μ)² */
  function Variance(x: seq<real>): real
    requires |x| >= 2
  {
    SumSqDev(x, Mean(x)) / (|x| - 1) as real
  }

  /** s is the standard deviation of x: the non-negative square root of
      the variance. */
  predicate IsStdDev(x: seq<real>, s: real)
    requires |x| >= 2
  {
    0.0 <= s && s * s == Variance(x)
  }

  /** Σ ((xᵢ − μ) / s)^k, accumulated from the left. */
  function SumStdPow(x: seq<real>, mu: real, s: real, k: nat): real
    requires s != 0.0
    decreases |x|
  {
    if |x| == 0 then 0.0
    else SumStdPow(x[..|x| - 1], mu, s, k) + Pow((x[|x| - 1] - mu) / s, k)
  }

  /** CV = (s / |μ|) · 100, in percent. */
  function CoefficientOfVariation(x: seq<real>, s: real): (cv: real)
    requires |x| >= 2 && IsStdDev(x, s) && Mean(x) != 0.0
    ensures cv >= 0.0
  {
    (s / Abs(Mean(x))) * 100.0
  }

  /** g₁ = (1/N) · Σ ((xᵢ − μ)/s)³: divided by N, not N − 1. */
  function Skewness(x: seq<real>, s: real): real
    requires |x| >= 2 && IsStdDev(x, s) && s != 0.0
  {
    SumStdPow(x, Mean(x), s, 3) / |x| as real
  }

  /** g₂ = (1/N) · Σ ((xᵢ − μ)/s)⁴ − 3 (Fisher's excess kurtosis). */
  function ExcessKurtosis(x: seq<real>, s: real): real
    requires |x| >= 2 && IsStdDev(x, s) && s != 0.0
  {
    SumStdPow(x, Mean(x), s, 4) / |x| as real - 3.0
  }

  /** Every sample has the same value. */
  ghost predicate IsConstant(x: seq<real>)
  {
    forall i, j :: 0 <= i < |x| && 0 <= j < |x| ==> x[i] == x[j]
  }

  // ---------------------------------------------------------------------
  // The mean
  // ---------------------------------------------------------------------

  lemma MeanOfConstant(x: seq<real>, c: real)
    requires |x| > 0
    requires forall i :: 0 <= i < |x| ==> x[i] == c
    ensures Mean(x) == c
  {
    MeanBetween(x, c, c);
  }

  /** Any bounds on every sample also bound the mean. */
  lemma MeanBetween(x: seq<real>, lo: real, hi: real)
    requires |x| > 0
    requires forall i :: 0 <= i < |x| ==> lo <= x[i] <= hi
    ensures lo <= Mean(x) <= hi
  {
    SumBounds(x, lo, hi);
    DivBounds(Sum(x), |x| as real, lo, hi);
  }

  lemma MeanBounds(x: seq<real>)
    requires |x| > 0
    ensures Min(x) <= Mean(x) <= Max(x)
  {
    MeanBetween(x, Min(x), Max(x));
  }

  /** Changing units (v |-> a * v + b) maps the mean the same way. */
  lemma MeanAffine(x: seq<real>, y: seq<real>, a: real, b: real)
    requires |x| > 0 && IsAffine(x, y, a, b)
    ensures Mean(y) == a * Mean(x) + b
  {
    var n := |x| as real;
    SumAffine(x, y, a, b);
    calc {
      Mean(y);
      (a * Sum(x) + n * b) / n;
      a * (Sum(x) / n) + b;
    }
  }

  // ---------------------------------------------------------------------
  // Variance and standard deviation
  // ---------------------------------------------------------------------

  lemma {:induction false} SumSqDevNonNegative(x: seq<real>, mu: real)
    ensures SumSqDev(x, mu) >= 0.0
    decreases |x|
  {
    if |x| > 0 {
      SumSqDevNonNegative(x[..|x| - 1], mu);
      PowSquareNonNegative(x[|x| - 1] - mu);
    }
  }

  /** A sum of squared deviations vanishes exactly when every sample sits
      at the centre. */
  lemma {:induction false} SumSqDevZero(x: seq<real>, mu: real)
    ensures SumSqDev(x, mu) == 0.0 <==> forall i :: 0 <= i < |x| ==> x[i] == mu
    decreases |x|
  {
    if |x| > 0 {
      var n := |x| - 1;
      SumSqDevZero(x[..n], mu);
      SumSqDevNonNegative(x[..n], mu);
      PowSquareNonNegative(x[n] - mu);
      assert forall i :: 0 <= i < n ==> x[..n][i] == x[i];
    }
  }

  lemma VarianceNonNegative(x: seq<real>)
    requires |x| >= 2
    ensures Variance(x) >= 0.0
  {
    SumSqDevNonNegative(x, Mean(x));
  }

  /** The variance is zero exactly for a constant signal. */
  lemma VarianceZeroIffConstant(x: seq<real>)
    requires |x| >= 2
    ensures Variance(x) == 0.0 <==> IsConstant(x)
  {
    SumSqDevZero(x, Mean(x));
    if IsConstant(x) {
      MeanOfConstant(x, x[0]);
    }
  }

  lemma StdDevUnique(x: seq<real>, s: real, t: real)
    requires |x| >= 2 && IsStdDev(x, s) && IsStdDev(x, t)
    ensures s == t
  {
    SquareRootUnique(s, t);
  }

  /** The standard deviation is zero exactly for a constant signal, which is
      when skewness and kurtosis divide by zero. */
  lemma StdDevZeroIffConstant(x: seq<real>, s: real)
    requires |x| >= 2 && IsStdDev(x, s)
    ensures s == 0.0 <==> IsConstant(x)
  {
    VarianceZeroIffConstant(x);
    SquareZero(s);
  }

  /** Squared deviations of the converted samples about the converted
      centre nu = a * mu + b are a² times the original ones. */
  lemma {:induction false} SumSqDevAffine(x: seq<real>, y: seq<real>, a: real, b: real,
                                         mu: real, nu: real)
    requires IsAffine(x, y, a, b) && nu == a * mu + b
    ensures SumSqDev(y, nu) == Pow(a, 2) * SumSqDev(x, mu)
    decreases |x|
  {
    if |x| > 0 {
      var n := |x| - 1;
      SumSqDevAffine(x[..n], y[..n], a, b, mu, nu);
      DeviationPowAffine(a, b, x[n], y[n], mu, nu, 2);
    }
  }

  /** Variances whose sums of squared deviations are in ratio g are in the
      same ratio (both divide by N − 1). */
  lemma VarianceRatio(x: seq<real>, y: seq<real>, g: real)
    requires |x| >= 2 && |y| == |x|
    requires SumSqDev(y, Mean(y)) == g * SumSqDev(x, Mean(x))
    ensures Variance(y) == g * Variance(x)
  {
    var qx, qy := SumSqDev(x, Mean(x)), SumSqDev(y, Mean(y));
    var n := (|x| - 1) as real;
    assert Variance(x) == qx / n;
    assert Variance(y) == qy / n;
    MulDiv(g, qx, n);
  }

  /** Changing units scales the variance by the square of the gain; a shift
      of the baseline leaves it unchanged. */
  lemma VarianceAffine(x: seq<real>, y: seq<real>, a: real, b: real)
    requires |x| >= 2 && IsAffine(x, y, a, b)
    ensures Variance(y) == Pow(a, 2) * Variance(x)
  {
    MeanAffine(x, y, a, b);
    SumSqDevAffine(x, y, a, b, Mean(x), Mean(y));
    VarianceRatio(x, y, Pow(a, 2));
  }

  /** After a change of units the standard deviation is scaled by |a|. */
  lemma StdDevAffine(x: seq<real>, y: seq<real>, a: real, b: real, s: real)
    requires |x| >= 2 && IsAffine(x, y, a, b) && IsStdDev(x, s)
    ensures IsStdDev(y, Abs(a) * s)
  {
    VarianceAffine(x, y, a, b);
    ScaledRoot(a, s, Variance(x), Variance(y), Abs(a) * s);
  }

  // ---------------------------------------------------------------------
  // Coefficient of variation, skewness, kurtosis
  // ---------------------------------------------------------------------

  /** A pure change of gain (no offset), of either sign, leaves the
      coefficient of variation unchanged: the |μ| in the divisor makes a
      negative-mean signal report the same dispersion as its mirror. */
  lemma CoefficientOfVariationScale(x: seq<real>, y: seq<real>, a: real, s: real)
    requires |x| >= 2 && IsAffine(x, y, a, 0.0) && a != 0.0
    requires IsStdDev(x, s) && Mean(x) != 0.0
    ensures IsStdDev(y, Abs(a) * s) && Mean(y) != 0.0
    ensures CoefficientOfVariation(y, Abs(a) * s) == CoefficientOfVariation(x, s)
  {
    StdDevAffine(x, y, a, 0.0, s);
    MeanAffine(x, y, a, 0.0);
    RatioScale(a, Mean(x), Mean(y), s, Abs(a) * s,
               CoefficientOfVariation(x, s), CoefficientOfVariation(y, Abs(a) * s));
  }

  /** Standardised powers of the converted samples are those of the
      original samples times sign(a)^k, which is 1 or -1: the sum keeps its
      value or changes sign. */
  lemma {:induction false} SumStdPowAffine(x: seq<real>, y: seq<real>, a: real, b: real,
                                          mu: real, nu: real, s: real, t: real, k: nat)
    requires IsAffine(x, y, a, b) && a != 0.0 && s != 0.0
    requires nu == a * mu + b && t == Abs(a) * s
    ensures t != 0.0
    ensures Pow(Sign(a), k) == 1.0 ==> SumStdPow(y, nu, t, k) == SumStdPow(x, mu, s, k)
    ensures Pow(Sign(a), k) == -1.0 ==> SumStdPow(y, nu, t, k) == -SumStdPow(x, mu, s, k)
    decreases |x|
  {
    StandardisedAffine(a, b, 0.0, b, mu, nu, s, t);
    if |x| > 0 {
      var n := |x| - 1;
      SumStdPowAffine(x[..n], y[..n], a, b, mu, nu, s, t, k);
      StdPowTermAffine(a, b, x[n], y[n], mu, nu, s, t, k);
    }
  }

  /** Changing units with a positive gain leaves the skewness unchanged; a
      negative gain flips its sign. */
  lemma SkewnessAffine(x: seq<real>, y: seq<real>, a: real, b: real, s: real)
    requires |x| >= 2 && IsAffine(x, y, a, b) && a != 0.0
    requires IsStdDev(x, s) && s != 0.0
    ensures IsStdDev(y, Abs(a) * s) && Abs(a) * s != 0.0
    ensures Skewness(y, Abs(a) * s) == Sign(a) * Skewness(x, s)
  {
    StdDevAffine(x, y, a, b, s);
    MeanAffine(x, y, a, b);
    SumStdPowAffine(x, y, a, b, Mean(x), Mean(y), s, Abs(a) * s, 3);
    SignPowers(a);
    ScaleDiv(SumStdPow(y, Mean(y), Abs(a) * s, 3), SumStdPow(x, Mean(x), s, 3),
             Sign(a), Sign(a), |x| as real, |y| as real);
  }

  /** The kurtosis does not depend on units, baseline or sign. */
  lemma ExcessKurtosisAffine(x: seq<real>, y: seq<real>, a: real, b: real, s: real)
    requires |x| >= 2 && IsAffine(x, y, a, b) && a != 0.0
    requires IsStdDev(x, s) && s != 0.0
    ensures IsStdDev(y, Abs(a) * s) && Abs(a) * s != 0.0
    ensures ExcessKurtosis(y, Abs(a) * s) == ExcessKurtosis(x, s)
  {
    StdDevAffine(x, y, a, b, s);
    MeanAffine(x, y, a, b);
    SumStdPowAffine(x, y, a, b, Mean(x), Mean(y), s, Abs(a) * s, 4);
    SignPowers(a);
  }

  lemma {:induction false} SumStdPowFourthNonNegative(x: seq<real>, mu: real, s: real)
    requires s != 0.0
    ensures SumStdPow(x, mu, s, 4) >= 0.0
    decreases |x|
  {
    if |x| > 0 {
      SumStdPowFourthNonNegative(x[..|x| - 1], mu, s);
      PowFourthNonNegative((x[|x| - 1] - mu) / s);
    }
  }

  /** Subtracting 3 from a mean of fourth powers: never below −3. */
  lemma ExcessKurtosisLowerBound(x: seq<real>, s: real)
    requires |x| >= 2 && IsStdDev(x, s) && s != 0.0
    ensures ExcessKurtosis(x, s) >= -3.0
  {
    SumStdPowFourthNonNegative(x, Mean(x), s);
  }

  lemma {:induction false} SumStdPowSquares(x: seq<real>, mu: real, s: real)
    requires s != 0.0
    ensures SumStdPow(x, mu, s, 2) == SumSqDev(x, mu) / (s * s)
    decreases |x|
  {
    SquareZero(s);
    if |x| > 0 {
      var n := |x| - 1;
      SumStdPowSquares(x[..n], mu, s);
      var d := x[n] - mu;
      assert Pow(d / s, 2) == Pow(d, 2) / (s * s) by {
        assert Pow(d / s, 1) == d / s;
        assert Pow(d, 1) == d;
        SquareOfQuotient(d, s);
      }
      DivAdd(SumSqDev(x[..n], mu), Pow(d, 2), s * s);
    }
  }

  /** The standardised squares sum to N − 1, not N: the standardisation uses
      Bessel's divisor while skewness and kurtosis divide by N. */
  lemma StandardisedSquaresSum(x: seq<real>, s: real)
    requires |x| >= 2 && IsStdDev(x, s) && s != 0.0
    ensures SumStdPow(x, Mean(x), s, 2) == (|x| - 1) as real
  {
    SumStdPowSquares(x, Mean(x), s);
    SquareZero(s);
    assert SumSqDev(x, Mean(x)) != 0.0;
    DivDiv(SumSqDev(x, Mean(x)), (|x| - 1) as real);
  }

  /** The engine converts raw readings to physical units as
      (reading − baseline) / gain with a positive gain: the standard
      deviation shrinks by the gain and the shape statistics are unchanged. */
  lemma GainConversion(x: seq<real>, y: seq<real>, gain: real, baseline: real, s: real)
    requires |x| >= 2 && gain > 0.0 && IsAffine(x, y, 1.0 / gain, -baseline / gain)
    requires IsStdDev(x, s) && s != 0.0
    ensures IsStdDev(y, s / gain) && s / gain != 0.0
    ensures Skewness(y, s / gain) == Skewness(x, s)
    ensures ExcessKurtosis(y, s / gain) == ExcessKurtosis(x, s)
  {
    var a := 1.0 / gain;
    assert Abs(a) * s == s / gain;
    SkewnessAffine(x, y, a, -baseline / gain, s);
    ExcessKurtosisAffine(x, y, a, -baseline / gain, s);
  }
}
