/** The arithmetic the statistics lean on: sums, means, population variance
    (what `numpy.mean` and the square of `numpy.std` compute) and weighted means. */
module Numeric {

  function Sum(s: seq<real>): real {
    if s == [] then 0.0 else Sum(s[..|s| - 1]) + s[|s| - 1]
  }

  function Mean(s: seq<real>): real
    requires |s| > 0
  {
    Sum(s) / |s| as real
  }

  function SquaredDeviations(s: seq<real>, m: real): (r: seq<real>)
    ensures |r| == |s|
    ensures forall i :: 0 <= i < |s| ==> r[i] == (s[i] - m) * (s[i] - m)
  {
    seq(|s|, i requires 0 <= i < |s| => (s[i] - m) * (s[i] - m))
  }

  /** Population variance (divisor n), the square of `numpy.std`. */
  function Variance(s: seq<real>): real
    requires |s| > 0
  {
    Mean(SquaredDeviations(s, Mean(s)))
  }

  lemma {:induction false} SumNonNegative(s: seq<real>)
    requires forall i :: 0 <= i < |s| ==> s[i] >= 0.0
    ensures Sum(s) >= 0.0
  {
    if s != [] {
      SumNonNegative(s[..|s| - 1]);
    }
  }

  lemma {:induction false} SumConstant(s: seq<real>, c: real)
    requires forall i :: 0 <= i < |s| ==> s[i] == c
    ensures Sum(s) == |s| as real * c
  {
    if s != [] {
      SumConstant(s[..|s| - 1], c);
    }
  }

  lemma {:induction false} SumBounds(s: seq<real>, lo: real, hi: real)
    requires forall i :: 0 <= i < |s| ==> lo <= s[i] <= hi
    ensures |s| as real * lo <= Sum(s) <= |s| as real * hi
  {
    if s != [] {
      SumBounds(s[..|s| - 1], lo, hi);
    }
  }

  lemma ScaleCancels(d: real, c: real)
    requires d != 0.0
    ensures d * c / d == c
  {
  }

  lemma QuotientTimesDivisor(a: real, d: real)
    requires d != 0.0
    ensures a / d * d == a
  {
  }

  /** The mean of one sample is that sample. */
  lemma MeanOfOne(x: real)
    ensures Mean([x]) == x
  {
    assert [x][..0] == [];
    assert Sum([x]) == x;
    assert |[x]| as real == 1.0;
  }

  /** The mean of samples in [lo, hi] lies in [lo, hi]. */
  lemma MeanBounds(s: seq<real>, lo: real, hi: real)
    requires |s| > 0
    requires forall i :: 0 <= i < |s| ==> lo <= s[i] <= hi
    ensures lo <= Mean(s) <= hi
  {
    SumBounds(s, lo, hi);
    var n := |s| as real;
    assert Mean(s) * n == Sum(s);
    PositiveFactor(Mean(s) - lo, n);
    PositiveFactor(hi - Mean(s), n);
  }

  /** The variance is never negative, so a standard deviation always exists. */
  lemma VarianceNonNegative(s: seq<real>)
    requires |s| > 0
    ensures Variance(s) >= 0.0
  {
    var d := SquaredDeviations(s, Mean(s));
    forall i | 0 <= i < |d| ensures d[i] >= 0.0 {
      var x := s[i] - Mean(s);
      assert d[i] == x * x;
    }
    SumNonNegative(d);
  }

  /** Identical samples have no dispersion. */
  lemma VarianceOfConstant(s: seq<real>, c: real)
    requires |s| > 0
    requires forall i :: 0 <= i < |s| ==> s[i] == c
    ensures Variance(s) == 0.0
  {
    SumConstant(s, c);
    assert Mean(s) == c;
    var d := SquaredDeviations(s, c);
    SumConstant(d, 0.0);
  }

  /** Two samples are spread by half their distance: the variance is that half, squared. */
  lemma VarianceOfTwo(a: real, b: real)
    ensures Variance([a, b]) == ((a - b) / 2.0) * ((a - b) / 2.0)
  {
    assert [a, b][..1] == [a];
    assert [a][..0] == [];
    assert Sum([a]) == a;
    assert Sum([a, b]) == a + b;
    var m := (a + b) / 2.0;
    assert Mean([a, b]) == m;
    var d := SquaredDeviations([a, b], m);
    assert d[..1] == [d[0]];
    assert Sum(d) == d[0] + d[1];
    assert d[0] == ((a - b) / 2.0) * ((a - b) / 2.0);
    assert d[1] == ((a - b) / 2.0) * ((a - b) / 2.0);
  }

  /** One weighted summand of a weighted mean. */
  datatype Term = Term(weight: real, value: real)

  function WeightedTotal(ts: seq<Term>): real {
    if ts == [] then 0.0 else WeightedTotal(ts[..|ts| - 1]) + ts[|ts| - 1].value * ts[|ts| - 1].weight
  }

  function WeightTotal(ts: seq<Term>): real {
    if ts == [] then 0.0 else WeightTotal(ts[..|ts| - 1]) + ts[|ts| - 1].weight
  }

  /** `total / wsum if wsum > 0 else 0`, the shape both scorers use. */
  function WeightedMean(ts: seq<Term>): real {
    if WeightTotal(ts) > 0.0 then WeightedTotal(ts) / WeightTotal(ts) else 0.0
  }

  lemma {:induction false} WeightedTotalBounds(ts: seq<Term>, lo: real, hi: real)
    requires forall i :: 0 <= i < |ts| ==> ts[i].weight >= 0.0 && lo <= ts[i].value <= hi
    ensures lo * WeightTotal(ts) <= WeightedTotal(ts) <= hi * WeightTotal(ts)
  {
    if ts != [] {
      var init, t := ts[..|ts| - 1], ts[|ts| - 1];
      assert forall i :: 0 <= i < |init| ==> init[i] == ts[i];
      WeightedTotalBounds(init, lo, hi);
      assert WeightedTotal(ts) == WeightedTotal(init) + t.value * t.weight;
      assert WeightTotal(ts) == WeightTotal(init) + t.weight;
      AddBoundedTerm(WeightedTotal(init), WeightTotal(init), t.value, t.weight, lo, hi);
    }
  }

  /** Adding a term with a value in [lo, hi] and a non-negative weight keeps the
      weighted total between lo and hi times the weight total. */
  lemma AddBoundedTerm(total: real, weights: real, v: real, w: real, lo: real, hi: real)
    requires lo * weights <= total <= hi * weights
    requires w >= 0.0 && lo <= v <= hi
    ensures lo * (weights + w) <= total + v * w <= hi * (weights + w)
  {
    assert (v - lo) * w >= 0.0;
    assert (hi - v) * w >= 0.0;
  }

  lemma PositiveFactor(x: real, w: real)
    requires w > 0.0 && x * w >= 0.0
    ensures x >= 0.0
  {
  }

  /** A total between lo and hi times a positive weight, divided by that weight. */
  lemma QuotientBounds(total: real, w: real, lo: real, hi: real)
    requires w > 0.0 && lo * w <= total <= hi * w
    ensures lo <= total / w <= hi
  {
    var m := total / w;
    assert m * w == total;
    assert (m - lo) * w >= 0.0 && (hi - m) * w >= 0.0;
    PositiveFactor(m - lo, w);
    PositiveFactor(hi - m, w);
  }

  /** A weighted mean of values in [lo, hi] with non-negative weights stays in [lo, hi];
      with no weight at all it is 0. */
  lemma WeightedMeanBounds(ts: seq<Term>, lo: real, hi: real)
    requires forall i :: 0 <= i < |ts| ==> ts[i].weight >= 0.0 && lo <= ts[i].value <= hi
    ensures WeightTotal(ts) > 0.0 ==> lo <= WeightedMean(ts) <= hi
    ensures WeightTotal(ts) <= 0.0 ==> WeightedMean(ts) == 0.0
  {
    WeightedTotalBounds(ts, lo, hi);
    if WeightTotal(ts) > 0.0 {
      QuotientBounds(WeightedTotal(ts), WeightTotal(ts), lo, hi);
    }
  }
}
