/** The hand-made histogram: the range [min, max] of the samples is cut into
    n bins of equal width, each sample is counted in the bin its offset from
    the minimum falls into (the maximum itself goes to the last bin), and the
    result is the bin centres with the fraction of samples in each bin. */
module Histogram {
  import opened Sums
  import opened Outcomes

  /** The number of bins the engine uses when none is given. */
  const DefaultBins: int := 60

  /** What the histogram returns: the bin centres and the relative
      frequency of each bin. */
  datatype Binned = Binned(centres: seq<real>, freqs: seq<real>)

  /** Conversion of a real to an integer by truncation toward zero, as
      Python's int() does. */
  function Trunc(q: real): (k: int)
    ensures 0.0 <= q ==> 0 <= k && k as real <= q < k as real + 1.0
    ensures q < 0.0 ==> k <= 0 && k as real - 1.0 < q <= k as real
  {
    if q >= 0.0 then q.Floor else -((-q).Floor)
  }

  /** The width of one bin: zero only when the range is empty. */
  function Width(lo: real, hi: real, n: int): (w: real)
    requires n != 0
    ensures w == 0.0 <==> lo == hi
    ensures lo < hi && n > 0 ==> w > 0.0 && n as real * w == hi - lo
  {
    var w := (hi - lo) / n as real;
    assert n as real * w == hi - lo;
    w
  }

  /** Every sample lies in [lo, hi]. */
  predicate Within(x: seq<real>, lo: real, hi: real)
  {
    forall i :: 0 <= i < |x| ==> lo <= x[i] <= hi
  }

  /** Comparing d with a multiple of a positive w is comparing d / w with
      the multiplier. */
  lemma QuotientCompare(d: real, w: real, c: real)
    requires w > 0.0
    ensures c * w <= d <==> c <= d / w
    ensures d < c * w <==> d / w < c
    ensures d == c * w <==> d / w == c
  {
  }

  /** The position of v in units of bins: between 0 and n, and n exactly
      at the maximum. */
  lemma Position(v: real, lo: real, hi: real, n: int)
    requires lo < hi && n >= 1 && lo <= v <= hi
    ensures 0.0 <= (v - lo) / Width(lo, hi, n) <= n as real
    ensures (v - lo) / Width(lo, hi, n) == n as real <==> v == hi
  {
  }

  /** The bin a sample is counted in: its position truncated, with the
      maximum moved from the would-be bin n into the last bin. */
  function BinOf(v: real, lo: real, hi: real, n: int): (b: int)
    requires lo < hi && n >= 1 && lo <= v <= hi
    ensures 0 <= b < n
  {
    Position(v, lo, hi, n);
    var k := Trunc((v - lo) / Width(lo, hi, n));
    if k == n then n - 1 else k
  }

  /** Bin j is the half-open interval [lo + j·w, lo + (j+1)·w), except that
      the last bin also holds its upper edge hi. */
  predicate InBin(v: real, lo: real, hi: real, n: int, j: int)
    requires n != 0
  {
    var w := Width(lo, hi, n);
    lo + j as real * w <= v && (v < lo + (j + 1) as real * w || (j == n - 1 && v == hi))
  }

  /** A sample is counted in bin j exactly when it lies in bin j's interval;
      as BinOf is always a valid bin, the bins partition [lo, hi]. */
  lemma BinOfIffInBin(v: real, lo: real, hi: real, n: int, j: int)
    requires lo < hi && n >= 1 && lo <= v <= hi && 0 <= j < n
    ensures BinOf(v, lo, hi, n) == j <==> InBin(v, lo, hi, n, j)
  {
    var w := Width(lo, hi, n);
    var q := (v - lo) / w;
    Position(v, lo, hi, n);
    QuotientCompare(v - lo, w, j as real);
    QuotientCompare(v - lo, w, (j + 1) as real);
    assert lo + j as real * w <= v <==> j as real <= q;
    assert v < lo + (j + 1) as real * w <==> q < (j + 1) as real;
  }

  /** The counts of the samples of x, per bin, accumulated sample by
      sample. */
  function Counts(x: seq<real>, lo: real, hi: real, n: int): (c: seq<nat>)
    requires lo < hi && n >= 1 && Within(x, lo, hi)
    ensures |c| == n
    decreases |x|
  {
    if |x| == 0 then seq(n, _ => 0)
    else
      var c := Counts(x[..|x| - 1], lo, hi, n);
      var b := BinOf(x[|x| - 1], lo, hi, n);
      c[b := c[b] + 1]
  }

  /** The number of samples of x lying in bin j's interval. */
  function CountInBin(x: seq<real>, lo: real, hi: real, n: int, j: int): (k: nat)
    requires n != 0
    ensures k <= |x|
    decreases |x|
  {
    if |x| == 0 then 0
    else CountInBin(x[..|x| - 1], lo, hi, n, j) + (if InBin(x[|x| - 1], lo, hi, n, j) then 1 else 0)
  }

  function SumNat(c: seq<nat>): nat
    decreases |c|
  {
    if |c| == 0 then 0 else SumNat(c[..|c| - 1]) + c[|c| - 1]
  }

  /** Each count divided by the number of samples. */
  function RelFreqs(c: seq<nat>, total: nat): (f: seq<real>)
    requires total > 0
    ensures |f| == |c|
    ensures forall i :: 0 <= i < |c| ==> f[i] * total as real == c[i] as real
  {
    seq(|c|, i requires 0 <= i < |c| => c[i] as real / total as real)
  }

  /** The midpoint of each bin. */
  function Centres(lo: real, hi: real, n: int): (c: seq<real>)
    requires n >= 1
    ensures |c| == n
  {
    seq(n, i => lo + (i as real + 0.5) * Width(lo, hi, n))
  }

  // ---------------------------------------------------------------------
  // Counting
  // ---------------------------------------------------------------------

  /** The count kept for bin j is the number of samples in bin j. */
  lemma {:induction false} CountsInBin(x: seq<real>, lo: real, hi: real, n: int, j: int)
    requires lo < hi && n >= 1 && Within(x, lo, hi) && 0 <= j < n
    ensures Counts(x, lo, hi, n)[j] == CountInBin(x, lo, hi, n, j)
    decreases |x|
  {
    if |x| > 0 {
      var m := |x| - 1;
      CountsInBin(x[..m], lo, hi, n, j);
      BinOfIffInBin(x[m], lo, hi, n, j);
    }
  }

  lemma {:induction false} SumNatZeros(n: nat)
    ensures SumNat(seq(n, _ => 0)) == 0
  {
    if n > 0 {
      assert seq(n, _ => 0)[..n - 1] == seq(n - 1, _ => 0);
      SumNatZeros(n - 1);
    }
  }

  lemma {:induction false} SumNatIncrement(c: seq<nat>, b: int)
    requires 0 <= b < |c|
    ensures SumNat(c[b := c[b] + 1]) == SumNat(c) + 1
    decreases |c|
  {
    var m := |c| - 1;
    var d := c[b := c[b] + 1];
    if b == m {
      assert d[..m] == c[..m];
    } else {
      assert d[..m] == c[..m][b := c[b] + 1];
      SumNatIncrement(c[..m], b);
    }
  }

  /** Every sample is counted exactly once. */
  lemma {:induction false} CountsTotal(x: seq<real>, lo: real, hi: real, n: int)
    requires lo < hi && n >= 1 && Within(x, lo, hi)
    ensures SumNat(Counts(x, lo, hi, n)) == |x|
    decreases |x|
  {
    if |x| == 0 {
      SumNatZeros(n);
    } else {
      var m := |x| - 1;
      CountsTotal(x[..m], lo, hi, n);
      SumNatIncrement(Counts(x[..m], lo, hi, n), BinOf(x[m], lo, hi, n));
    }
  }

  /** The relative frequencies sum to the total count over the divisor. */
  lemma {:induction false} SumRelFreqs(c: seq<nat>, total: nat)
    requires total > 0
    ensures Sum(RelFreqs(c, total)) == SumNat(c) as real / total as real
    decreases |c|
  {
    if |c| > 0 {
      var m := |c| - 1;
      assert RelFreqs(c, total)[..m] == RelFreqs(c[..m], total);
      SumRelFreqs(c[..m], total);
      DivAdd(SumNat(c[..m]) as real, c[m] as real, total as real);
    }
  }

  /** The relative frequencies of the samples sum to one. */
  lemma FrequenciesSumToOne(x: seq<real>, lo: real, hi: real, n: int)
    requires lo < hi && n >= 1 && Within(x, lo, hi) && |x| > 0
    ensures Sum(RelFreqs(Counts(x, lo, hi, n), |x|)) == 1.0
  {
    var c := Counts(x, lo, hi, n);
    CountsTotal(x, lo, hi, n);
    SumRelFreqs(c, |x|);
    UnitQuotient(SumNat(c) as real, |x| as real);
  }

  // ---------------------------------------------------------------------
  // Centres
  // ---------------------------------------------------------------------

  /** Each centre lies strictly inside [lo, hi] and in its own bin. */
  lemma CentreInOwnBin(lo: real, hi: real, n: int, i: int)
    requires lo < hi && n >= 1 && 0 <= i < n
    ensures lo < Centres(lo, hi, n)[i] < hi
    ensures BinOf(Centres(lo, hi, n)[i], lo, hi, n) == i
  {
    var w := Width(lo, hi, n);
    var v := Centres(lo, hi, n)[i];
    var h := i as real + 0.5;
    assert v - lo == h * w;
    QuotientCompare(v - lo, w, h);
    QuotientCompare(v - lo, w, 0.0);
    QuotientCompare(v - lo, w, n as real);
    assert Trunc(h) == i;
  }

  /** The first centre is half a width above lo, and each centre but the last
      is one bin width below the next. */
  lemma CentresSpacing(lo: real, hi: real, n: int, i: int)
    requires n >= 1 && 0 <= i < n
    ensures Centres(lo, hi, n)[0] == lo + Width(lo, hi, n) / 2.0
    ensures i < n - 1 ==> Centres(lo, hi, n)[i + 1] - Centres(lo, hi, n)[i] == Width(lo, hi, n)
  {
  }

  // ---------------------------------------------------------------------
  // The engine's histogram
  // ---------------------------------------------------------------------

  /** histograma_manual: min and max, the bin width, a zeroed count per bin,
      one pass over the samples, then centres and relative frequencies.
      The failures are the engine's: min of no samples, a width divided by
      zero bins, a zero width (all samples equal) divided into the first
      offset, and an index into the empty count list when n is negative. */
  method HistogramaManual(x: seq<real>, nBins: int := DefaultBins) returns (r: Result<Binned>)
    ensures |x| == 0 ==> r == Failure(EmptySequence)
    ensures |x| > 0 && nBins == 0 ==> r == Failure(DivisionByZero)
    ensures |x| > 0 && nBins != 0 && Min(x) == Max(x) ==> r == Failure(DivisionByZero)
    ensures |x| > 0 && nBins < 0 && Min(x) < Max(x) ==> r == Failure(IndexOutOfRange)
    ensures |x| > 0 && nBins > 0 && Min(x) < Max(x) ==>
              r == Success(Binned(Centres(Min(x), Max(x), nBins),
                                     RelFreqs(Counts(x, Min(x), Max(x), nBins), |x|)))
    ensures r.Success? ==> |r.value.centres| == nBins && |r.value.freqs| == nBins
    ensures r.Success? ==> Sum(r.value.freqs) == 1.0
  {
    if |x| == 0 {
      return Failure(EmptySequence);
    }
    var xMin, xMax := Min(x), Max(x);
    if nBins == 0 {
      return Failure(DivisionByZero);
    }
    var ancho := Width(xMin, xMax, nBins);
    var conteos := new nat[if nBins > 0 then nBins else 0](_ => 0);
    ghost var good := nBins > 0 && xMin < xMax;
    if good {
      assert conteos[..] == Counts([], xMin, xMax, nBins);
    }
    for i := 0 to |x|
      invariant good ==> Within(x, xMin, xMax) && conteos[..] == Counts(x[..i], xMin, xMax, nBins)
      invariant !good ==> i == 0
    {
      if ancho == 0.0 {
        return Failure(DivisionByZero);
      }
      var idx := Trunc((x[i] - xMin) / ancho);
      if idx == nBins {
        idx := nBins - 1;
      }
      if good {
        assert idx == BinOf(x[i], xMin, xMax, nBins);
      }
      if idx < 0 || idx >= conteos.Length {
        return Failure(IndexOutOfRange);
      }
      assert x[..i + 1][..i] == x[..i];
      conteos[idx] := conteos[idx] + 1;
    }
    assert x[..|x|] == x;
    FrequenciesSumToOne(x, xMin, xMax, nBins);
    return Success(Binned(Centres(xMin, xMax, nBins), RelFreqs(conteos[..], |x|)));
  }
}
