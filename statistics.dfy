/** The statistics engine written with nothing but loops and arithmetic:
    one method per statistic, each accumulating its sum sample by sample and
    dividing at the end, exactly in the order the engine does. Each method is
    proved to compute the corresponding function of module Moments, and to
    fail with DivisionByZero on precisely the inputs where the engine's own
    division raises.

    The engine takes square roots with `** 0.5`; real square roots cannot be
    computed here, so the methods that need the standard deviation receive
    it as the parameter `root`, which must be the non-negative square root
    of the sample variance whenever that variance exists. */
module Statistics {
  import opened Sums
  import opened Outcomes
  import opened Moments

  /** media: adds the samples one by one, then divides by N. */
  method Media(x: seq<real>) returns (r: Result<real>)
    ensures r.Success? <==> |x| > 0
    ensures r.Failure? ==> r.error == DivisionByZero
    ensures r.Success? ==> r.value == Mean(x) && r.value * |x| as real == Sum(x)
  {
    var suma := 0.0;
    for i := 0 to |x|
      invariant suma == Sum(x[..i])
    {
      assert x[..i + 1][..i] == x[..i];
      suma := suma + x[i];
    }
    assert x[..|x|] == x;
    if |x| == 0 {
      return Failure(DivisionByZero);
    }
    return Success(suma / |x| as real);
  }

  /** varianza: the mean first, then the squared deviations from it, then
      Bessel's divisor N − 1. */
  method Varianza(x: seq<real>) returns (r: Result<real>)
    ensures r.Success? <==> |x| >= 2
    ensures r.Failure? ==> r.error == DivisionByZero
    ensures r.Success? ==> r.value == Variance(x) && r.value >= 0.0
  {
    var m := Media(x);
    if m.Failure? {
      return Failure(m.error);
    }
    var mu := m.value;
    var sumaCuad := 0.0;
    for i := 0 to |x|
      invariant sumaCuad == SumSqDev(x[..i], mu)
    {
      assert x[..i + 1][..i] == x[..i];
      sumaCuad := sumaCuad + Pow(x[i] - mu, 2);
    }
    assert x[..|x|] == x;
    if |x| - 1 == 0 {
      return Failure(DivisionByZero);
    }
    VarianceNonNegative(x);
    return Success(sumaCuad / (|x| - 1) as real);
  }

  /** desv_estandar: the square root of the variance. */
  method DesvEstandar(x: seq<real>, root: real) returns (r: Result<real>)
    requires |x| >= 2 ==> IsStdDev(x, root)
    ensures r.Success? <==> |x| >= 2
    ensures r.Failure? ==> r.error == DivisionByZero
    ensures r.Success? ==> IsStdDev(x, r.value) && (r.value == 0.0 <==> IsConstant(x))
  {
    var v := Varianza(x);
    if v.Failure? {
      return Failure(v.error);
    }
    StdDevZeroIffConstant(x, root);
    return Success(root);
  }

  /** coef_variacion: standard deviation over the absolute mean, in percent;
      a zero mean divides by zero. */
  method CoefVariacion(x: seq<real>, root: real) returns (r: Result<real>)
    requires |x| >= 2 ==> IsStdDev(x, root)
    ensures r.Success? <==> |x| >= 2 && Mean(x) != 0.0
    ensures r.Failure? ==> r.error == DivisionByZero
    ensures r.Success? ==> r.value == CoefficientOfVariation(x, root) && r.value >= 0.0
  {
    var d := DesvEstandar(x, root);
    if d.Failure? {
      return Failure(d.error);
    }
    StdDevUnique(x, d.value, root);
    var m := Media(x);
    var den := Abs(m.value);
    if den == 0.0 {
      return Failure(DivisionByZero);
    }
    return Success((d.value / den) * 100.0);
  }

  /** asimetria: standardised cubes averaged over N. The first standardised
      value divides by s, so a constant signal fails there. */
  method Asimetria(x: seq<real>, root: real) returns (r: Result<real>)
    requires |x| >= 2 ==> IsStdDev(x, root)
    ensures r.Success? <==> |x| >= 2 && !IsConstant(x)
    ensures r.Failure? ==> r.error == DivisionByZero
    ensures r.Success? ==> root != 0.0 && r.value == Skewness(x, root)
  {
    var m := Media(x);
    if m.Failure? {
      return Failure(m.error);
    }
    var mu := m.value;
    var d := DesvEstandar(x, root);
    if d.Failure? {
      return Failure(d.error);
    }
    var s := d.value;
    StdDevUnique(x, s, root);
    var suma := 0.0;
    for i := 0 to |x|
      invariant s != 0.0 ==> suma == SumStdPow(x[..i], mu, s, 3)
      invariant s == 0.0 ==> i == 0
    {
      if s == 0.0 {
        return Failure(DivisionByZero);
      }
      assert x[..i + 1][..i] == x[..i];
      suma := suma + Pow((x[i] - mu) / s, 3);
    }
    assert x[..|x|] == x;
    return Success(suma / |x| as real);
  }

  /** curtosis: standardised fourth powers averaged over N, minus 3. */
  method Curtosis(x: seq<real>, root: real) returns (r: Result<real>)
    requires |x| >= 2 ==> IsStdDev(x, root)
    ensures r.Success? <==> |x| >= 2 && !IsConstant(x)
    ensures r.Failure? ==> r.error == DivisionByZero
    ensures r.Success? ==> root != 0.0 && r.value == ExcessKurtosis(x, root)
    ensures r.Success? ==> r.value >= -3.0
  {
    var m := Media(x);
    if m.Failure? {
      return Failure(m.error);
    }
    var mu := m.value;
    var d := DesvEstandar(x, root);
    if d.Failure? {
      return Failure(d.error);
    }
    var s := d.value;
    StdDevUnique(x, s, root);
    var suma := 0.0;
    for i := 0 to |x|
      invariant s != 0.0 ==> suma == SumStdPow(x[..i], mu, s, 4)
      invariant s == 0.0 ==> i == 0
    {
      if s == 0.0 {
        return Failure(DivisionByZero);
      }
      assert x[..i + 1][..i] == x[..i];
      suma := suma + Pow((x[i] - mu) / s, 4);
    }
    assert x[..|x|] == x;
    ExcessKurtosisLowerBound(x, s);
    return Success(suma / |x| as real - 3.0);
  }
}
