/** The sample statistics the summary tables show: what pandas'
    `Series.describe()` and `Series.skew()` yield for a column. Missing cells
    are skipped, as pandas skips NaN. The standard deviation and the
    skewness are passed in as functions of the sample; only the guards
    around them are modelled. */
module Statistics {

  import opened Frames
  import opened Sorting
  import opened Arith

  /** A float a statistic yields: a number, or NaN when there is nothing to
      compute it from. */
  datatype Stat = NaN | Val(x: real)

  /** The fields of `describe()` the dashboards read. */
  datatype Described = Described(count: nat, min: Stat, q1: Stat, mean: Stat,
                                 median: Stat, q3: Stat, max: Stat, std: Stat)

  /** `pd.Series(index=[...], dtype=float).fillna(0)`: the stand-in for the
      statistics of an empty series. */
  const Zeros: Described :=
    Described(0, Val(0.0), Val(0.0), Val(0.0), Val(0.0), Val(0.0), Val(0.0), Val(0.0))

  /** Position of the quantile `num/den` in a sorted sample of length `n`:
      the whole part of `num * (n - 1) / den`. */
  function QuantileIndex(n: nat, num: nat, den: nat): (lo: nat)
    requires 0 < n && 0 < den && num <= den
    ensures lo < n
  {
    ScaledIndexBound(num, n - 1, den);
    num * (n - 1) / den
  }

  /** The fractional part of that position, as a real in [0, 1). */
  function QuantileFraction(n: nat, num: nat, den: nat): (frac: real)
    requires 0 < n && 0 < den
    ensures 0.0 <= frac < 1.0
  {
    var r := (num * (n - 1)) % den;
    FractionBounds(r, den);
    r as real / den as real
  }

  /** The value a fraction `frac` of the way from position `lo` to the next
      one; at the last position, that value itself. */
  function Interpolate(xs: seq<real>, lo: nat, frac: real): real
    requires lo < |xs|
  {
    if lo + 1 < |xs| then xs[lo] + Scaled(frac, xs[lo + 1] - xs[lo]) else xs[lo]
  }

  /** pandas' default ('linear') quantile at `num/den` of a sorted sample:
      the value at the position `num * (n - 1) / den`, interpolated between
      its two neighbours. */
  function Quantile(xs: seq<real>, num: nat, den: nat): real
    requires |xs| > 0 && 0 < den && num <= den
  {
    Interpolate(xs, QuantileIndex(|xs|, num, den), QuantileFraction(|xs|, num, den))
  }

  lemma FractionBounds(r: nat, den: nat)
    requires 0 < den && r < den
    ensures 0.0 <= r as real / den as real < 1.0
  {
    QuotientBetween(r as real, den as real, 0.0, 1.0);
  }

  /** An interpolated value lies between the two neighbouring values. */
  lemma InterpolateBetween(xs: seq<real>, lo: nat, frac: real)
    requires lo < |xs| && 0.0 <= frac <= 1.0
    requires lo + 1 < |xs| ==> xs[lo] <= xs[lo + 1]
    ensures xs[lo] <= Interpolate(xs, lo, frac) <= xs[if lo + 1 < |xs| then lo + 1 else lo]
  {
    if lo + 1 < |xs| {
      ScaledFraction(frac, xs[lo + 1] - xs[lo]);
    }
  }

  /** A further fraction of the same gap interpolates higher. */
  lemma InterpolateMonotone(xs: seq<real>, lo: nat, fa: real, fb: real)
    requires lo < |xs| && fa <= fb
    requires lo + 1 < |xs| ==> xs[lo] <= xs[lo + 1]
    ensures Interpolate(xs, lo, fa) <= Interpolate(xs, lo, fb)
  {
    if lo + 1 < |xs| {
      ScaledMonotone(fa, fb, xs[lo + 1] - xs[lo]);
    }
  }

  /** An interpolated quantile lies between the two neighbouring sample values. */
  lemma QuantileBetween(xs: seq<real>, num: nat, den: nat)
    requires Sorted(xs) && |xs| > 0 && 0 < den && num <= den
    ensures var lo := QuantileIndex(|xs|, num, den);
      xs[lo] <= Quantile(xs, num, den) <= xs[if lo + 1 < |xs| then lo + 1 else lo]
  {
    InterpolateBetween(xs, QuantileIndex(|xs|, num, den), QuantileFraction(|xs|, num, den));
  }

  /** Every quantile lies between the least and the greatest value. */
  lemma QuantileBounds(xs: seq<real>, num: nat, den: nat)
    requires Sorted(xs) && |xs| > 0 && 0 < den && num <= den
    ensures xs[0] <= Quantile(xs, num, den) <= xs[|xs| - 1]
  {
    QuantileBetween(xs, num, den);
  }

  /** The 0-quantile is the least value and the 1-quantile the greatest. */
  lemma QuantileEnds(xs: seq<real>, den: nat)
    requires |xs| > 0 && 0 < den
    ensures Quantile(xs, 0, den) == xs[0]
    ensures Quantile(xs, den, den) == xs[|xs| - 1]
  {
    var n1 := |xs| - 1;
    DivExact(0, 0, den);
    DivExact(n1, 0, den);
    assert den * n1 == n1 * den + 0;
  }

  /** A higher quantile of a sorted sample is never smaller. */
  lemma QuantileMonotone(xs: seq<real>, a: nat, b: nat, den: nat)
    requires Sorted(xs) && |xs| > 0 && 0 < den && a <= b <= den
    ensures Quantile(xs, a, den) <= Quantile(xs, b, den)
  {
    var n1 := |xs| - 1;
    var la, lb := QuantileIndex(|xs|, a, den), QuantileIndex(|xs|, b, den);
    var fa, fb := QuantileFraction(|xs|, a, den), QuantileFraction(|xs|, b, den);
    ScaleWeakInt(a, b, n1);
    DivMonotone(a * n1, b * n1, den);
    InterpolateBetween(xs, la, fa);
    InterpolateBetween(xs, lb, fb);
    if la == lb {
      SameIndexFractions(a * n1, b * n1, den);
      InterpolateMonotone(xs, la, fa, fb);
    } else {
      assert xs[la + 1] <= xs[lb];
    }
  }

  /** Two positions with the same whole part: the further one has the
      larger fraction. */
  lemma SameIndexFractions(pa: nat, pb: nat, den: nat)
    requires 0 < den && pa <= pb && pa / den == pb / den
    ensures (pa % den) as real / den as real <= (pb % den) as real / den as real
  {
    var q, ra, rb := pa / den, pa % den, pb % den;
    assert pa == q * den + ra;
    assert pb == q * den + rb;
    DivideWeak(ra as real, rb as real, den as real);
  }

  /** The median of an odd-sized sample is its middle value. */
  lemma MedianOdd(xs: seq<real>, k: nat)
    requires |xs| == 2 * k + 1
    ensures Quantile(xs, 1, 2) == xs[k]
  {
    assert (1 * (2 * k)) / 2 == k && (1 * (2 * k)) % 2 == 0;
    assert QuantileFraction(|xs|, 1, 2) == 0.0;
    if k + 1 < |xs| {
      assert Scaled(0.0, xs[k + 1] - xs[k]) == 0.0;
    }
  }

  /** The median of an even-sized sample is the mean of the two middle values. */
  lemma MedianEven(xs: seq<real>, k: nat)
    requires |xs| == 2 * k + 2
    ensures Quantile(xs, 1, 2) == (xs[k] + xs[k + 1]) / 2.0
  {
    assert (1 * (2 * k + 1)) / 2 == k && (1 * (2 * k + 1)) % 2 == 1;
    assert QuantileFraction(|xs|, 1, 2) == 0.5;
  }

  /** `series.describe(percentiles=[.25, .75])`: count, least, quartiles,
      mean, median, greatest and the sample standard deviation, which pandas
      leaves NaN below two values. Without values everything is NaN. */
  function Describe(s: seq<Cell>, std: seq<real> -> real): Described {
    var xs := Numbers(s);
    if xs == [] then Described(0, NaN, NaN, NaN, NaN, NaN, NaN, NaN)
    else
      var ys := Sort(xs);
      SortElements(xs);
      Described(|xs|, Val(ys[0]), Val(Quantile(ys, 1, 4)), Val(Total(xs) / |xs| as real),
                Val(Quantile(ys, 1, 2)), Val(Quantile(ys, 3, 4)), Val(ys[|ys| - 1]),
                if |xs| < 2 then NaN else Val(std(xs)))
  }

  /** `series.skew()`: NaN below three values. */
  function Skew(s: seq<Cell>, skew: seq<real> -> real): (r: Stat)
    ensures r.NaN? <==> |Numbers(s)| < 3
    ensures r.Val? ==> r.x == skew(Numbers(s))
  {
    if |Numbers(s)| < 3 then NaN else Val(skew(Numbers(s)))
  }

  /** The summary's raw skewness: `skewness if pd.notna(skewness) else 0.0`. */
  function RawSkew(st: Stat): (r: real)
    ensures st.Val? ==> r == st.x
    ensures st.NaN? ==> r == 0.0
  {
    if st.NaN? then 0.0 else st.x
  }

  predicate Ordered(a: Stat, b: Stat) {
    a.Val? && b.Val? && a.x <= b.x
  }

  /** The quartiles of a sorted sample lie in order between its ends. */
  lemma QuartilesOrdered(ys: seq<real>)
    requires Sorted(ys) && |ys| > 0
    ensures ys[0] <= Quantile(ys, 1, 4) <= Quantile(ys, 1, 2)
    ensures Quantile(ys, 1, 2) <= Quantile(ys, 3, 4) <= ys[|ys| - 1]
  {
    QuantileEnds(ys, 4);
    QuantileMonotone(ys, 0, 1, 4);
    QuantileMonotone(ys, 1, 2, 4);
    QuantileMonotone(ys, 2, 3, 4);
    QuantileMonotone(ys, 3, 4, 4);
    MedianIsHalf(ys);
  }

  /** The mean of a sample lies between the ends of its sorted copy. */
  lemma MeanBetweenEnds(xs: seq<real>)
    requires |xs| > 0
    ensures Sort(xs)[0] <= Total(xs) / |xs| as real <= Sort(xs)[|xs| - 1]
  {
    var ys := Sort(xs);
    SortBounds(xs);
    forall k | 0 <= k < |xs| ensures ys[0] <= xs[k] <= ys[|ys| - 1] {
      assert xs[k] in xs;
    }
    AverageBounds(xs, ys[0], ys[|ys| - 1]);
  }

  /** What `describe` promises: NaN everywhere without values; otherwise the
      least and greatest values of the sample, the quartiles and the mean
      between them in order, and a standard deviation only from two values on. */
  lemma DescribeContract(s: seq<Cell>, std: seq<real> -> real)
    ensures var d := Describe(s, std);
      d.count == |Numbers(s)|
      && (d.count == 0 <==> d.min.NaN?)
      && (d.std.NaN? <==> d.count < 2)
      && (d.count == 0 ==> d.q1.NaN? && d.mean.NaN? && d.median.NaN? && d.q3.NaN? && d.max.NaN?)
      && (d.count > 0 ==>
            d.min.x in Numbers(s) && d.max.x in Numbers(s)
            && (forall x | x in Numbers(s) :: d.min.x <= x <= d.max.x)
            && Ordered(d.min, d.q1) && Ordered(d.q1, d.median) && Ordered(d.median, d.q3)
            && Ordered(d.q3, d.max) && Ordered(d.min, d.mean) && Ordered(d.mean, d.max))
  {
    var xs := Numbers(s);
    if xs != [] {
      SortBounds(xs);
      QuartilesOrdered(Sort(xs));
      MeanBetweenEnds(xs);
    }
  }

  /** The median is the quantile 2/4. */
  lemma MedianIsHalf(ys: seq<real>)
    requires |ys| > 0
    ensures Quantile(ys, 1, 2) == Quantile(ys, 2, 4)
  {
    var n1 := |ys| - 1;
    assert (2 * n1) / 4 == n1 / 2 && ((2 * n1) % 4) as real / 4.0 == (n1 % 2) as real / 2.0 by {
      assert 2 * n1 == 4 * (n1 / 2) + 2 * (n1 % 2);
    }
  }

  /** `describe()` of a column with no values at all gives NaN for every
      figure, which is not the stand-in used for an empty series. */
  lemma AllMissingDescribed(n: nat, std: seq<real> -> real)
    ensures Describe(seq(n, i => Missing), std).min.NaN?
    ensures Describe(seq(n, i => Missing), std) != Zeros
  {
    NoNumbers(seq(n, i => Missing));
  }

  lemma NoNumbers(s: seq<Cell>)
    requires forall i | 0 <= i < |s| :: !s[i].Num?
    ensures Numbers(s) == []
    decreases |s|
  {
    if s != [] {
      NoNumbers(s[..|s| - 1]);
    }
  }
}
