/** Sums, powers and extremes of finite sequences of real samples. */
module Sums {

  function Abs(a: real): real
  {
    if a < 0.0 then -a else a
  }

  function Sign(a: real): real
  {
    if a > 0.0 then 1.0 else if a < 0.0 then -1.0 else 0.0
  }

  /** Σ x, accumulated from the left, in the order a `for xi in x` loop adds. */
  function Sum(x: seq<real>): real
    decreases |x|
  {
    if |x| == 0 then 0.0 else Sum(x[..|x| - 1]) + x[|x| - 1]
  }

  /** z to the natural power k (the engine's `** k`). */
  function Pow(z: real, k: nat): real
  {
    if k == 0 then 1.0 else z * Pow(z, k - 1)
  }

  /** The smallest sample (the built-in `min`). */
  function Min(x: seq<real>): (m: real)
    requires |x| > 0
    ensures forall i :: 0 <= i < |x| ==> m <= x[i]
    ensures exists i :: 0 <= i < |x| && x[i] == m
    decreases |x|
  {
    if |x| == 1 then x[0]
    else
      var m' := Min(x[..|x| - 1]);
      assert forall i :: 0 <= i < |x| - 1 ==> x[..|x| - 1][i] == x[i];
      if x[|x| - 1] < m' then x[|x| - 1] else m'
  }

  /** The largest sample (the built-in `max`). */
  function Max(x: seq<real>): (m: real)
    requires |x| > 0
    ensures forall i :: 0 <= i < |x| ==> x[i] <= m
    ensures exists i :: 0 <= i < |x| && x[i] == m
    decreases |x|
  {
    if |x| == 1 then x[0]
    else
      var m' := Max(x[..|x| - 1]);
      assert forall i :: 0 <= i < |x| - 1 ==> x[..|x| - 1][i] == x[i];
      if x[|x| - 1] > m' then x[|x| - 1] else m'
  }

  /** y is x with every sample mapped through v |-> a * v + b
      (a change of units, a shift of the baseline, a sign flip), stated
      prefix by prefix; AffineElementwise gives the pointwise reading. */
  ghost predicate IsAffine(x: seq<real>, y: seq<real>, a: real, b: real)
    decreases |x|
  {
    |y| == |x| &&
    (|x| > 0 ==> IsAffine(x[..|x| - 1], y[..|x| - 1], a, b) && y[|x| - 1] == a * x[|x| - 1] + b)
  }

  lemma {:induction false} SumBounds(x: seq<real>, lo: real, hi: real)
    requires forall i :: 0 <= i < |x| ==> lo <= x[i] <= hi
    ensures |x| as real * lo <= Sum(x) <= |x| as real * hi
    decreases |x|
  {
    if |x| > 0 {
      var n := |x| - 1;
      SumBounds(x[..n], lo, hi);
      assert |x| as real * lo == n as real * lo + lo;
      assert |x| as real * hi == n as real * hi + hi;
    }
  }

  lemma {:induction false} AffineElementwise(x: seq<real>, y: seq<real>, a: real, b: real)
    ensures IsAffine(x, y, a, b) <==> |y| == |x| && forall i :: 0 <= i < |x| ==> y[i] == a * x[i] + b
    decreases |x|
  {
    if |x| > 0 && |y| == |x| {
      var n := |x| - 1;
      AffineElementwise(x[..n], y[..n], a, b);
      assert forall i :: 0 <= i < n ==> x[..n][i] == x[i] && y[..n][i] == y[i];
    }
  }

  lemma {:induction false} SumAffine(x: seq<real>, y: seq<real>, a: real, b: real)
    requires IsAffine(x, y, a, b)
    ensures Sum(y) == a * Sum(x) + |x| as real * b
    decreases |x|
  {
    if |x| > 0 {
      var n := |x| - 1;
      SumAffine(x[..n], y[..n], a, b);
      Distribute(a, Sum(x[..n]), x[n]);
    }
  }

  lemma {:induction false} PowMul(a: real, b: real, p: real, k: nat)
    requires p == a * b
    ensures Pow(p, k) == Pow(a, k) * Pow(b, k)
  {
    if k > 0 {
      PowMul(a, b, p, k - 1);
      calc {
        Pow(p, k);
        (a * b) * (Pow(a, k - 1) * Pow(b, k - 1));
        (a * Pow(a, k - 1)) * (b * Pow(b, k - 1));
      }
    }
  }

  lemma PowSquareNonNegative(z: real)
    ensures Pow(z, 2) >= 0.0
    ensures Pow(z, 2) == 0.0 <==> z == 0.0
  {
    assert Pow(z, 1) == z;
    assert Pow(z, 2) == z * z;
    if z * z == 0.0 {
      assert z == 0.0;
    }
  }

  lemma PowFourthNonNegative(z: real)
    ensures Pow(z, 4) >= 0.0
  {
    assert Pow(z, 1) == z;
    assert Pow(z, 2) == z * z;
    assert Pow(z, 3) == z * (z * z);
    assert Pow(z, 4) == Pow(z, 2) * Pow(z, 2);
    PowSquareNonNegative(z);
  }

  // ---------------------------------------------------------------------
  // Facts of real arithmetic the solver does not find on its own
  // ---------------------------------------------------------------------

  lemma SquareZero(z: real)
    ensures z * z == 0.0 <==> z == 0.0
  {
    PowSquareNonNegative(z);
    assert Pow(z, 1) == z;
  }

  lemma SquareRootUnique(s: real, t: real)
    requires 0.0 <= s && 0.0 <= t && s * s == t * t
    ensures s == t
  {
    assert (s - t) * (s + t) == s * s - t * t;
    SquareZero(s);
    if s + t == 0.0 {
      assert s == 0.0 && t == 0.0;
    }
  }

  lemma DivCancel(a: real, d: real, s: real, p: real, q: real)
    requires a != 0.0 && s != 0.0 && p == a * d && q == a * s
    ensures q != 0.0 && p / q == d / s
  {
  }

  lemma DivAdd(p: real, q: real, c: real)
    requires c != 0.0
    ensures p / c + q / c == (p + q) / c
  {
  }

  lemma UnitQuotient(p: real, q: real)
    requires p == q && q != 0.0
    ensures p / q == 1.0
  {
  }

  lemma MulDiv(c: real, p: real, n: real)
    requires n != 0.0
    ensures (c * p) / n == c * (p / n)
  {
  }

  lemma DivDiv(p: real, m: real)
    requires p != 0.0 && m != 0.0
    ensures p / (p / m) == m
  {
  }

  lemma SquareOfQuotient(d: real, s: real)
    requires s != 0.0
    ensures (d / s) * (d / s) == (d * d) / (s * s)
  {
    var q := d / s;
    SquareZero(s);
    assert d == q * s;
    assert d * d == (q * q) * (s * s);
    assert ((q * q) * (s * s)) / (s * s) == q * q;
  }

  lemma DivBounds(p: real, n: real, lo: real, hi: real)
    requires n > 0.0 && n * lo <= p <= n * hi
    ensures lo <= p / n <= hi
  {
  }

  lemma Distribute(c: real, p: real, q: real)
    ensures c * p + c * q == c * (p + q)
  {
  }

  /** Standardising a sample after a change of units v |-> a * v + b
      (w = a * v + b, with its centre and spread converted with it) gives
      the original standardised value, with its sign flipped when a < 0. */
  lemma StandardisedAffine(a: real, b: real, v: real, w: real, mu: real, nu: real,
                           s: real, t: real)
    requires a != 0.0 && s != 0.0
    requires w == a * v + b && nu == a * mu + b && t == Abs(a) * s
    ensures t != 0.0
    ensures (w - nu) / t == Sign(a) * ((v - mu) / s)
  {
  }

  /** The same, raised to the k-th power: the term a standardised power sum
      adds for one sample keeps its value when sign(a)^k is 1 and changes
      sign when it is -1. */
  lemma StdPowTermAffine(a: real, b: real, v: real, w: real, mu: real, nu: real,
                         s: real, t: real, k: nat)
    requires a != 0.0 && s != 0.0
    requires w == a * v + b && nu == a * mu + b && t == Abs(a) * s
    ensures t != 0.0
    ensures Pow(Sign(a), k) == 1.0 ==> Pow((w - nu) / t, k) == Pow((v - mu) / s, k)
    ensures Pow(Sign(a), k) == -1.0 ==> Pow((w - nu) / t, k) == -Pow((v - mu) / s, k)
  {
    var d, e := (v - mu) / s, (w - nu) / t;
    StandardisedAffine(a, b, v, w, mu, nu, s, t);
    PowMul(Sign(a), d, e, k);
  }

  /** A deviation from the centre, raised to the k-th power, after a change
      of units: it is scaled by a^k. */
  lemma DeviationPowAffine(a: real, b: real, v: real, w: real, mu: real, nu: real, k: nat)
    requires w == a * v + b && nu == a * mu + b
    ensures Pow(w - nu, k) == Pow(a, k) * Pow(v - mu, k)
  {
    var d, e := v - mu, w - nu;
    AffineDeviation(a, b, v, w, mu, nu, e);
    PowMul(a, d, e, k);
  }

  /** Dividing both sides of p = c * q by n; d and m are c and n written
      another way. */
  lemma ScaleDiv(p: real, q: real, c: real, d: real, n: real, m: real)
    requires p == c * q && c == d && n == m && n != 0.0
    ensures p / m == d * (q / n)
  {
    MulDiv(c, q, n);
  }

  /** Scaling a square root: if s * s = v then |a| * s is the non-negative
      root of a² * v. */
  lemma ScaledRoot(a: real, s: real, v: real, w: real, t: real)
    requires 0.0 <= s && s * s == v && w == Pow(a, 2) * v && t == Abs(a) * s
    ensures 0.0 <= t && t * t == w
  {
    PowTwo(a);
    assert Abs(a) * Abs(a) == a * a;
  }

  lemma AbsMul(a: real, b: real, p: real)
    requires p == a * b
    ensures Abs(p) == Abs(a) * Abs(b)
  {
  }

  lemma SignPowers(a: real)
    requires a != 0.0
    ensures Pow(Sign(a), 3) == Sign(a) && Pow(Sign(a), 4) == 1.0
  {
    assert Pow(Sign(a), 1) == Sign(a);
    assert Pow(Sign(a), 2) == 1.0;
  }

  /** (|a|·s / |a·m|)·100 = (s / |m|)·100. */
  lemma RatioScale(a: real, m: real, my: real, s: real, t: real, cx: real, cy: real)
    requires a != 0.0 && m != 0.0 && my == a * m && t == Abs(a) * s
    requires cx == (s / Abs(m)) * 100.0 && cy == (t / Abs(my)) * 100.0
    ensures cy == cx
  {
    AbsMul(a, m, my);
    DivCancel(Abs(a), s, Abs(m), t, Abs(my));
  }

  lemma AffineDeviation(a: real, b: real, v: real, w: real, mu: real, nu: real, e: real)
    requires w == a * v + b && nu == a * mu + b && e == w - nu
    ensures e == a * (v - mu)
  {
  }

  lemma PowTwo(z: real)
    ensures Pow(z, 2) == z * z
  {
    assert Pow(z, 1) == z;
  }
}
