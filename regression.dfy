/**
 * Weighted least-squares line fitting: the slope and intercept of the line
 * that minimises the weighted squared vertical distances to the points,
 * computed from the weighted means of x and y.
 *
 * Each `points.reduce((a, p) => a + term(p), 0)` of the source is `Sum` of
 * the sequence of terms, and each term sequence is built from the columns
 * of the points (weights, positions, values) by term-wise operations.
 */
module Regression {
  import opened Wrappers

  /** One point of the fit: position `x`, value `y`, weight `w`. */
  datatype Sample = Sample(x: real, y: real, w: real)

  datatype Fit = Fit(slope: real, intercept: real)

  // ---------------------------------------------------------------------
  // Sums and term-wise operations on sequences of numbers
  // ---------------------------------------------------------------------

  /** The sum of a sequence of numbers. */
  function Sum(s: seq<real>): real
  {
    if s == [] then 0.0 else s[0] + Sum(s[1..])
  }

  /** `b * u`, term by term. */
  function Scale(b: real, u: seq<real>): (r: seq<real>)
    ensures |r| == |u|
  {
    seq(|u|, i requires 0 <= i < |u| => b * u[i])
  }

  /** `u + v`, term by term. */
  function Plus(u: seq<real>, v: seq<real>): (r: seq<real>)
    requires |u| == |v|
    ensures |r| == |u|
  {
    seq(|u|, i requires 0 <= i < |u| => u[i] + v[i])
  }

  /** `u * v`, term by term. */
  function Times(u: seq<real>, v: seq<real>): (r: seq<real>)
    requires |u| == |v|
    ensures |r| == |u|
  {
    seq(|u|, i requires 0 <= i < |u| => u[i] * v[i])
  }

  /** `u * v * z`, term by term. */
  function Products(u: seq<real>, v: seq<real>, z: seq<real>): (r: seq<real>)
    requires |u| == |v| == |z|
    ensures |r| == |u|
  {
    seq(|u|, i requires 0 <= i < |u| => u[i] * v[i] * z[i])
  }

  /** `v - mean`, term by term: how far each number lies from `mean`. */
  function Devs(v: seq<real>, mean: real): (r: seq<real>)
    ensures |r| == |v|
  {
    seq(|v|, i requires 0 <= i < |v| => v[i] - mean)
  }

  lemma {:induction false} Distribute(b: real, x: real, y: real)
    ensures b * x + b * y == b * (x + y)
  {
  }

  lemma {:induction false} ScaleTail(b: real, u: seq<real>)
    requires u != []
    ensures Scale(b, u)[1..] == Scale(b, u[1..])
  {
    var t, v := Scale(b, u)[1..], Scale(b, u[1..]);
    forall k | 0 <= k < |t|
      ensures t[k] == v[k]
    {
      assert u[1..][k] == u[k + 1];
    }
  }

  /** Summing commutes with scaling. */
  lemma {:induction false} SumScale(b: real, u: seq<real>)
    ensures Sum(Scale(b, u)) == b * Sum(u)
  {
    if u != [] {
      ScaleTail(b, u);
      SumScale(b, u[1..]);
      Distribute(b, u[0], Sum(u[1..]));
    }
  }

  lemma {:induction false} PlusTail(u: seq<real>, v: seq<real>)
    requires |u| == |v| && u != []
    ensures Plus(u, v)[1..] == Plus(u[1..], v[1..])
  {
    var t, r := Plus(u, v)[1..], Plus(u[1..], v[1..]);
    forall k | 0 <= k < |t|
      ensures t[k] == r[k]
    {
      assert u[1..][k] == u[k + 1] && v[1..][k] == v[k + 1];
    }
  }

  /** Summing commutes with adding term by term. */
  lemma {:induction false} SumPlus(u: seq<real>, v: seq<real>)
    requires |u| == |v|
    ensures Sum(Plus(u, v)) == Sum(u) + Sum(v)
  {
    if u != [] {
      PlusTail(u, v);
      SumPlus(u[1..], v[1..]);
    }
  }

  /** The sum of a sequence that is `b` times another. */
  lemma {:induction false} SumOfScale(t: seq<real>, b: real, u: seq<real>)
    requires t == Scale(b, u)
    ensures Sum(t) == b * Sum(u)
  {
    SumScale(b, u);
  }

  /** The sum of a sequence that is `a * u + b * v`. */
  lemma {:induction false} SumOfLinear(t: seq<real>, a: real, u: seq<real>, b: real, v: seq<real>)
    requires |u| == |v| && t == Plus(Scale(a, u), Scale(b, v))
    ensures Sum(t) == a * Sum(u) + b * Sum(v)
  {
    SumPlus(Scale(a, u), Scale(b, v));
    SumScale(a, u);
    SumScale(b, v);
  }

  /** A sum of terms that are never negative is not negative, and is positive once one term is. */
  lemma {:induction false} SumPositive(s: seq<real>, k: nat)
    requires forall i :: 0 <= i < |s| ==> s[i] >= 0.0
    requires k <= |s|
    ensures Sum(s) >= 0.0
    ensures k < |s| && s[k] > 0.0 ==> Sum(s) > 0.0
  {
    if s != [] {
      if k > 0 && k < |s| {
        assert s[1..][k - 1] == s[k];
      }
      SumPositive(s[1..], if k == 0 then 0 else k - 1);
    }
  }

  // ---------------------------------------------------------------------
  // The sums of `weightedLinearRegression`
  // ---------------------------------------------------------------------

  /** The weights. */
  function Ws(p: seq<Sample>): (s: seq<real>)
    ensures |s| == |p|
  {
    seq(|p|, i requires 0 <= i < |p| => p[i].w)
  }

  /** The positions. */
  function Xs(p: seq<Sample>): (s: seq<real>)
    ensures |s| == |p|
  {
    seq(|p|, i requires 0 <= i < |p| => p[i].x)
  }

  /** The values. */
  function Ys(p: seq<Sample>): (s: seq<real>)
    ensures |s| == |p|
  {
    seq(|p|, i requires 0 <= i < |p| => p[i].y)
  }

  /** `w * x` for each point. */
  function WXs(p: seq<Sample>): (s: seq<real>)
    ensures |s| == |p|
  {
    Times(Ws(p), Xs(p))
  }

  /** `w * y` for each point. */
  function WYs(p: seq<Sample>): (s: seq<real>)
    ensures |s| == |p|
  {
    Times(Ws(p), Ys(p))
  }

  /** `w * (x - xBar) * (y - yBar)` for each point: the terms of the co-deviation. */
  function CoTerms(p: seq<Sample>, xBar: real, yBar: real): (s: seq<real>)
    ensures |s| == |p|
  {
    Products(Ws(p), Devs(Xs(p), xBar), Devs(Ys(p), yBar))
  }

  /** `w * (x - xBar) ** 2` for each point: the terms of the spread. */
  function SpreadTerms(p: seq<Sample>, xBar: real): (s: seq<real>)
    ensures |s| == |p|
  {
    Products(Ws(p), Devs(Xs(p), xBar), Devs(Xs(p), xBar))
  }

  /** The weighted mean of the positions. */
  function XBar(p: seq<Sample>): real
    requires Sum(Ws(p)) != 0.0
  {
    Sum(WXs(p)) / Sum(Ws(p))
  }

  /** The weighted mean of the values. */
  function YBar(p: seq<Sample>): real
    requires Sum(Ws(p)) != 0.0
  {
    Sum(WYs(p)) / Sum(Ws(p))
  }

  /**
   * `weightedLinearRegression(points)`: no fit for fewer than two points, a
   * zero total weight or a zero spread of x; otherwise slope `num / den`
   * and the intercept that puts the line through the weighted means.
   */
  function WeightedLinearRegression(points: seq<Sample>): (r: Option<Fit>)
    ensures r.Some? ==> |points| >= 2 && Sum(Ws(points)) != 0.0 && Sum(SpreadTerms(points, XBar(points))) != 0.0
  {
    if |points| < 2 then None
    else
      var sumW := Sum(Ws(points));
      if sumW == 0.0 then None
      else
        var xBar := Sum(WXs(points)) / sumW;
        var yBar := Sum(WYs(points)) / sumW;
        var num := Sum(CoTerms(points, xBar, yBar));
        var den := Sum(SpreadTerms(points, xBar));
        if den == 0.0 then None
        else Some(Fit(num / den, yBar - (num / den) * xBar))
  }

  /**
   * The fitted slope is the weighted co-deviation over the weighted spread,
   * and the fitted line passes through the weighted means.
   */
  lemma {:induction false} RegressionCentroid(p: seq<Sample>)
    requires WeightedLinearRegression(p).Some?
    ensures var f := WeightedLinearRegression(p).value;
      && f.slope == Sum(CoTerms(p, XBar(p), YBar(p))) / Sum(SpreadTerms(p, XBar(p)))
      && f.intercept + f.slope * XBar(p) == YBar(p)
  {
    var sumW := Sum(Ws(p));
    var xBar, yBar := Sum(WXs(p)) / sumW, Sum(WYs(p)) / sumW;
    var num, den := Sum(CoTerms(p, xBar, yBar)), Sum(SpreadTerms(p, xBar));
    var f := WeightedLinearRegression(p).value;
    assert f.slope == num / den && f.intercept == yBar - (num / den) * xBar;
  }

  // ---------------------------------------------------------------------
  // Scalar algebra
  // ---------------------------------------------------------------------

  lemma {:induction false} MulPositive(a: real, b: real)
    requires a > 0.0 && b > 0.0
    ensures a * b > 0.0
  {
  }

  lemma {:induction false} MulNegative(a: real, b: real)
    requires a < 0.0 && b < 0.0
    ensures a * b > 0.0
  {
  }

  /** `w * d * e` is positive for a positive `w` and equal non-zero `d` and `e`. */
  lemma {:induction false} SquarePositive(w: real, d: real, e: real)
    requires w > 0.0 && d == e && d != 0.0
    ensures w * d * e > 0.0
  {
    if d > 0.0 {
      MulPositive(w, d);
      MulPositive(w * d, e);
    } else {
      assert w * d < 0.0;
      MulNegative(w * d, e);
    }
  }

  lemma {:induction false} ZeroFactor(w: real, d: real, e: real)
    requires d == 0.0
    ensures w * d * e == 0.0
  {
  }

  lemma {:induction false} AtCentre(w: real, x: real, c: real)
    requires x == c
    ensures w * x == c * w
  {
  }

  lemma {:induction false} LinePoint(w: real, x: real, y: real, a: real, b: real)
    requires y == a + b * x
    ensures w * y == a * w + b * (w * x)
  {
  }

  lemma {:induction false} DevOnLine(x: real, y: real, xBar: real, yBar: real, a: real, b: real, d: real, e: real)
    requires y == a + b * x && yBar == a + b * xBar
    requires d == x - xBar && e == y - yBar
    ensures e == b * d
  {
  }

  lemma {:induction false} CoOnLine(w: real, d: real, e: real, f: real, b: real)
    requires f == b * e
    ensures w * d * f == b * (w * d * e)
  {
  }

  lemma {:induction false} QuotientOf(a: real, b: real)
    requires b != 0.0
    ensures (a / b) * b == a
    ensures (a * b) / b == a
  {
  }

  /** The mean of values on a line is the line's value at the mean position. */
  lemma {:induction false} MeanOnLine(sw: real, sx: real, sy: real, a: real, b: real)
    requires sw != 0.0 && sy == a * sw + b * sx
    ensures sy / sw == a + b * (sx / sw)
  {
    var xb := sx / sw;
    QuotientOf(sx, sw);
    assert (a + b * xb) * sw == a * sw + b * (xb * sw);
    QuotientOf(a + b * xb, sw);
  }

  /** The slope is the co-deviation over the spread. */
  lemma {:induction false} SlopeOf(num: real, den: real, s: real, b: real)
    requires den != 0.0 && s == num / den && num == b * den
    ensures s == b
  {
    QuotientOf(b, den);
  }

  // ---------------------------------------------------------------------
  // Term-wise products
  // ---------------------------------------------------------------------

  /** With positive `w` and `d == e` term by term, every `w * d * e` is non-negative, and positive where `d` is not zero. */
  lemma {:induction false} ProductsSigns(w: seq<real>, d: seq<real>, e: seq<real>)
    requires |w| == |d| == |e|
    requires forall i :: 0 <= i < |w| ==> w[i] > 0.0 && d[i] == e[i]
    ensures forall i :: 0 <= i < |w| ==> Products(w, d, e)[i] >= 0.0
    ensures forall i :: 0 <= i < |w| && d[i] != 0.0 ==> Products(w, d, e)[i] > 0.0
  {
    forall i | 0 <= i < |w|
      ensures Products(w, d, e)[i] >= 0.0
      ensures d[i] != 0.0 ==> Products(w, d, e)[i] > 0.0
    {
      if d[i] != 0.0 {
        SquarePositive(w[i], d[i], e[i]);
      } else {
        ZeroFactor(w[i], d[i], e[i]);
      }
    }
  }

  /** Where `d` is zero throughout, so is `w * d * e`. */
  lemma {:induction false} ProductsZero(w: seq<real>, d: seq<real>, e: seq<real>)
    requires |w| == |d| == |e|
    requires forall i :: 0 <= i < |d| ==> d[i] == 0.0
    ensures Products(w, d, e) == Scale(0.0, w)
  {
    forall i | 0 <= i < |w|
      ensures Products(w, d, e)[i] == Scale(0.0, w)[i]
    {
      ZeroFactor(w[i], d[i], e[i]);
    }
  }

  /** Where `f` is `b * e` throughout, `w * d * f` is `b` times `w * d * e`. */
  lemma {:induction false} ProductsScale(w: seq<real>, d: seq<real>, e: seq<real>, f: seq<real>, b: real)
    requires |w| == |d| == |e| == |f|
    requires forall i :: 0 <= i < |f| ==> f[i] == b * e[i]
    ensures Products(w, d, f) == Scale(b, Products(w, d, e))
  {
    forall i | 0 <= i < |w|
      ensures Products(w, d, f)[i] == Scale(b, Products(w, d, e))[i]
    {
      CoOnLine(w[i], d[i], e[i], f[i], b);
    }
  }

  // ---------------------------------------------------------------------
  // When there is no fit
  // ---------------------------------------------------------------------

  /** Every point sits at position `c`. */
  predicate AllAt(p: seq<Sample>, c: real)
  {
    forall i :: 0 <= i < |p| ==> p[i].x == c
  }

  lemma {:induction false} AllAtWeighted(p: seq<Sample>, c: real)
    requires AllAt(p, c)
    ensures WXs(p) == Scale(c, Ws(p))
  {
    forall i | 0 <= i < |p|
      ensures WXs(p)[i] == Scale(c, Ws(p))[i]
    {
      AtCentre(Ws(p)[i], Xs(p)[i], c);
    }
  }

  /**
   * There is no fit for fewer than two points, for a zero total weight, or
   * when every point has the same position.
   */
  lemma {:induction false} RegressionUndefined(p: seq<Sample>, c: real)
    ensures |p| < 2 ==> WeightedLinearRegression(p).None?
    ensures Sum(Ws(p)) == 0.0 ==> WeightedLinearRegression(p).None?
    ensures AllAt(p, c) ==> WeightedLinearRegression(p).None?
  {
    if AllAt(p, c) && Sum(Ws(p)) != 0.0 {
      AllAtWeighted(p, c);
      SumOfScale(WXs(p), c, Ws(p));
      QuotientOf(c, Sum(Ws(p)));
      assert XBar(p) == c;
      var dx := Devs(Xs(p), c);
      ProductsZero(Ws(p), dx, dx);
      SumOfScale(SpreadTerms(p, c), 0.0, Ws(p));
    }
  }

  // ---------------------------------------------------------------------
  // When there is one
  // ---------------------------------------------------------------------

  /** Every weight is positive. */
  predicate PositiveWeights(p: seq<Sample>)
  {
    forall i :: 0 <= i < |p| ==> p[i].w > 0.0
  }

  /** With positive weights the spread about a centre that some point is off is positive. */
  lemma {:induction false} SpreadSumPositive(p: seq<Sample>, xBar: real, k: nat)
    requires PositiveWeights(p) && k < |p| && p[k].x != xBar
    ensures Sum(SpreadTerms(p, xBar)) > 0.0
  {
    var dx := Devs(Xs(p), xBar);
    ProductsSigns(Ws(p), dx, dx);
    assert dx[k] != 0.0;
    SumPositive(SpreadTerms(p, xBar), k);
  }

  /**
   * With positive weights and two points at different positions there is
   * always a fit.
   */
  lemma {:induction false} RegressionDefined(p: seq<Sample>, i: nat, j: nat)
    requires PositiveWeights(p)
    requires i < |p| && j < |p| && p[i].x != p[j].x
    ensures WeightedLinearRegression(p).Some?
  {
    SumPositive(Ws(p), i);
    var xBar := XBar(p);
    SpreadSumPositive(p, xBar, if p[i].x != xBar then i else j);
  }

  /** Every point lies on the line `y = a + b * x`. */
  predicate OnLine(p: seq<Sample>, a: real, b: real)
  {
    forall i :: 0 <= i < |p| ==> p[i].y == a + b * p[i].x
  }

  /** On a line, the weighted values are a combination of the weights and weighted positions. */
  lemma {:induction false} LineTerms(p: seq<Sample>, a: real, b: real)
    requires OnLine(p, a, b)
    ensures WYs(p) == Plus(Scale(a, Ws(p)), Scale(b, WXs(p)))
  {
    forall i | 0 <= i < |p|
      ensures WYs(p)[i] == Plus(Scale(a, Ws(p)), Scale(b, WXs(p)))[i]
    {
      LinePoint(Ws(p)[i], Xs(p)[i], Ys(p)[i], a, b);
    }
  }

  /** On a line, the mean value is the line's value at the mean position. */
  lemma {:induction false} LineMeans(p: seq<Sample>, a: real, b: real)
    requires OnLine(p, a, b) && Sum(Ws(p)) != 0.0
    ensures YBar(p) == a + b * XBar(p)
  {
    LineTerms(p, a, b);
    SumOfLinear(WYs(p), a, Ws(p), b, WXs(p));
    MeanOnLine(Sum(Ws(p)), Sum(WXs(p)), Sum(WYs(p)), a, b);
  }

  /** Where each `y` is `a + b * x` and `yBar` is `a + b * xBar`, each `y - yBar` is `b` times `x - xBar`. */
  lemma {:induction false} DevsOnLine(xs: seq<real>, ys: seq<real>, xBar: real, yBar: real, a: real, b: real)
    requires |xs| == |ys| && yBar == a + b * xBar
    requires forall i :: 0 <= i < |xs| ==> ys[i] == a + b * xs[i]
    ensures forall i :: 0 <= i < |xs| ==> Devs(ys, yBar)[i] == b * Devs(xs, xBar)[i]
  {
    forall i | 0 <= i < |xs|
      ensures Devs(ys, yBar)[i] == b * Devs(xs, xBar)[i]
    {
      DevOnLine(xs[i], ys[i], xBar, yBar, a, b, Devs(xs, xBar)[i], Devs(ys, yBar)[i]);
    }
  }

  /** On a line, each point's deviation in y is `b` times its deviation in x. */
  lemma {:induction false} LineDeviations(p: seq<Sample>, a: real, b: real)
    requires OnLine(p, a, b) && Sum(Ws(p)) != 0.0
    ensures forall i :: 0 <= i < |p| ==> Devs(Ys(p), YBar(p))[i] == b * Devs(Xs(p), XBar(p))[i]
  {
    LineMeans(p, a, b);
    DevsOnLine(Xs(p), Ys(p), XBar(p), YBar(p), a, b);
  }

  /** Points on a line are fitted by exactly that line. */
  lemma {:induction false} RegressionExactLine(p: seq<Sample>, a: real, b: real)
    requires OnLine(p, a, b)
    requires WeightedLinearRegression(p).Some?
    ensures WeightedLinearRegression(p) == Some(Fit(b, a))
  {
    var xBar, yBar := XBar(p), YBar(p);
    var dx, dy := Devs(Xs(p), xBar), Devs(Ys(p), yBar);
    var co, spread := CoTerms(p, xBar, yBar), SpreadTerms(p, xBar);
    LineDeviations(p, a, b);
    ProductsScale(Ws(p), dx, dx, dy, b);
    SumOfScale(co, b, spread);
    RegressionCentroid(p);
    var f := WeightedLinearRegression(p).value;
    SlopeOf(Sum(co), Sum(spread), f.slope, b);
    LineMeans(p, a, b);
    assert f.intercept == a;
  }

  /**
   * Three points falling 0.2 a step, the last with weight 0.8, are fitted
   * by slope -0.2 and intercept 80.
   */
  lemma {:induction false} DescendingLineExample()
    ensures WeightedLinearRegression([Sample(0.0, 80.0, 1.0), Sample(1.0, 79.8, 1.0), Sample(2.0, 79.6, 0.8)])
         == Some(Fit(-0.2, 80.0))
  {
    var p := [Sample(0.0, 80.0, 1.0), Sample(1.0, 79.8, 1.0), Sample(2.0, 79.6, 0.8)];
    RegressionDefined(p, 0, 1);
    RegressionExactLine(p, 80.0, -0.2);
  }
}
