/** The trend slope (app/forecasting/base.py) is the slope of the least-squares line. */
module Trend {
  import opened RealMath

  /** 0, 1, ..., n - 1. */
  function Indices(n: nat): (xs: seq<real>)
    ensures |xs| == n && forall i :: 0 <= i < n ==> xs[i] == i as real
  {
    seq(n, i => i as real)
  }

  function SeriesMean(xs: seq<real>): real
    requires xs != []
  {
    Sum(xs) / |xs| as real
  }

  function MeanX(n: nat): real { (n as real - 1.0) / 2.0 }

  function Dx(n: nat): seq<real> { Shifted(Indices(n), MeanX(n)) }

  function Dy(series: seq<real>): seq<real>
    requires series != []
  {
    Shifted(series, SeriesMean(series))
  }

  function TrendSlope(series: seq<real>): real {
    if |series| < 2 then 0.0
    else
      var dx := Dx(|series|);
      var denom := Dot(dx, dx);
      if denom == 0.0 then 0.0 else Dot(dx, Dy(series)) / denom
  }

  // ---------------------------------------------------------------- lines and their errors

  /** Squared distance of each point (i, series[i]) from the line intercept + slope * x. */
  ghost function Errors(series: seq<real>, intercept: real, slope: real): (es: seq<real>)
    ensures |es| == |series|
  {
    seq(|series|, i requires 0 <= i < |series| => Squared(Residual(series[i], i as real, intercept, slope)))
  }

  lemma ErrorsAt(series: seq<real>, intercept: real, slope: real, i: nat)
    requires i < |series|
    ensures Errors(series, intercept, slope)[i] == Squared(Residual(series[i], i as real, intercept, slope))
  {
  }

  ghost function Residual(y: real, x: real, intercept: real, slope: real): real { y - intercept - slope * x }

  ghost function SquaredError(series: seq<real>, intercept: real, slope: real): real {
    Sum(Errors(series, intercept, slope))
  }

  /** Intercept of the line with the trend slope through the mean point. */
  ghost function FitIntercept(series: seq<real>): real
    requires series != []
  {
    SeriesMean(series) - TrendSlope(series) * MeanX(|series|)
  }

  // ---------------------------------------------------------------- centred sums vanish

  function Ones(n: nat): (os: seq<real>)
    ensures |os| == n && (forall i :: 0 <= i < n ==> os[i] == 1.0) && Sum(os) == n as real
  {
    if n == 0 then [] else [1.0] + Ones(n - 1)
  }

  lemma CentredSum(xs: seq<real>, m: real)
    ensures Sum(Shifted(xs, m)) == Sum(xs) - m * |xs| as real
  {
    hide Sum, Scaled, Ones;
    var os, n := Ones(|xs|), |xs| as real;
    forall i | 0 <= i < |xs| ensures xs[i] == Shifted(xs, m)[i] + Scaled(m, os)[i] {
      ScaledOne(m, os, i);
    }
    SumPointwise(xs, Shifted(xs, m), Scaled(m, os));
    SumScaled(m, os);
    SameProduct(m, Sum(os), n);
  }

  lemma ScaledOne(t: real, os: seq<real>, i: nat)
    requires i < |os| && os[i] == 1.0
    ensures Scaled(t, os)[i] == t
  {
    ScaledAt(t, os, i);
  }

  lemma {:induction false} IndexSum(n: nat)
    ensures Sum(Indices(n)) == MeanX(n) * n as real
  {
    if n == 0 {
      TimesZero(MeanX(0), 0.0);
    } else {
      IndexSum(n - 1);
      assert Indices(n) == Indices(n - 1) + [n as real - 1.0];
      SumAppend(Indices(n - 1), [n as real - 1.0]);
      Triangle(n as real);
    }
  }

  lemma Triangle(x: real)
    ensures (x - 1.0) / 2.0 * x == (x - 1.0 - 1.0) / 2.0 * (x - 1.0) + (x - 1.0)
  {
  }

  lemma DxSumsToZero(n: nat)
    ensures |Dx(n)| == n && Sum(Dx(n)) == 0.0
  {
    IndexSum(n);
    CentredSum(Indices(n), MeanX(n));
  }

  lemma DySumsToZero(series: seq<real>)
    requires series != []
    ensures |Dy(series)| == |series| && Sum(Dy(series)) == 0.0
  {
    CentredSum(series, SeriesMean(series));
    DivideCancels(Sum(series), |series| as real);
  }

  // ---------------------------------------------------------------- the denominator

  lemma {:induction false} SumWithPositive(xs: seq<real>, k: nat)
    requires k < |xs| && xs[k] > 0.0 && forall i :: 0 <= i < |xs| ==> xs[i] >= 0.0
    ensures Sum(xs) > 0.0
  {
    if k > 0 {
      SumWithPositive(xs[1..], k - 1);
    } else {
      SumNonNegative(xs[1..]);
    }
  }

  /** With two points or more the x values differ, so the slope's denominator is positive. */
  lemma DenominatorPositive(n: nat)
    requires n >= 2
    ensures Dot(Dx(n), Dx(n)) > 0.0
  {
    hide Sum, Times;
    var dx := Dx(n);
    var sq := Times(dx, dx);
    forall i | 0 <= i < n ensures sq[i] >= 0.0 {
      TimesAt(dx, dx, i);
      SquareNonNegative(dx[i]);
    }
    TimesAt(dx, dx, 0);
    SquareNonNegative(dx[0]);
    SumWithPositive(sq, 0);
  }

  // ---------------------------------------------------------------- the error of any line

  /** Coefficients that relate the errors of a line to those of the fit: `t` is how much its slope
      differs, `c` how far it misses the mean point. */
  datatype Shift = Shift(fit: real, slope: real, t: real, c: real)

  ghost function ShiftOf(series: seq<real>, intercept: real, slope: real): Shift
    requires series != []
  {
    var fit := TrendSlope(series);
    Shift(fit, slope, fit - slope, intercept + slope * MeanX(|series|) - SeriesMean(series))
  }

  ghost predicate Coefficients(s: Shift, a: real, b: real, cc: real, cy: real, cx: real) {
    && a == s.t * s.t - 2.0 * s.t * s.fit
    && b == 2.0 * s.t
    && cc == s.c * s.c
    && cy == -2.0 * s.c
    && cx == 2.0 * s.c * s.slope
  }

  lemma ErrorTerm(y: real, x: real, my: real, mx: real, dx: real, dy: real, intercept: real, fitIntercept: real,
                  s: Shift, a: real, b: real, cc: real, cy: real, cx: real)
    requires s.t == s.fit - s.slope && s.c == intercept + s.slope * mx - my
    requires dx == x - mx && dy == y - my && fitIntercept == my - s.fit * mx
    requires Coefficients(s, a, b, cc, cy, cx)
    ensures Squared(Residual(y, x, intercept, s.slope)) ==
      Squared(Residual(y, x, fitIntercept, s.fit)) + a * (dx * dx) + b * (dx * dy) + cc + cy * dy + cx * dx
  {
    ResidualSquares(dx, dy, s);
    assert Residual(y, x, intercept, s.slope) == dy - s.slope * dx - s.c;
    assert Residual(y, x, fitIntercept, s.fit) == dy - s.fit * dx;
  }

  lemma ResidualSquares(dx: real, dy: real, s: Shift)
    requires s.t == s.fit - s.slope
    ensures Squared(dy - s.slope * dx - s.c) ==
      Squared(dy - s.fit * dx) + (s.t * s.t - 2.0 * s.t * s.fit) * (dx * dx)
      + 2.0 * s.t * (dx * dy) + s.c * s.c - 2.0 * s.c * dy + 2.0 * s.c * s.slope * dx
  {
  }

  lemma {:induction false} SumOfSix(
    e: seq<real>, f: seq<real>, p: seq<real>, q: seq<real>, k: seq<real>, r: seq<real>, x: seq<real>)
    requires |e| == |f| == |p| == |q| == |k| == |r| == |x|
    requires forall i :: 0 <= i < |e| ==> e[i] == f[i] + p[i] + q[i] + k[i] + r[i] + x[i]
    ensures Sum(e) == Sum(f) + Sum(p) + Sum(q) + Sum(k) + Sum(r) + Sum(x)
  {
    if e != [] { SumOfSix(e[1..], f[1..], p[1..], q[1..], k[1..], r[1..], x[1..]); }
  }

  ghost predicate ErrorSplit(
    series: seq<real>, intercept: real, s: Shift, a: real, b: real, cc: real, cy: real, cx: real, i: nat)
    requires i < |series|
  {
    var n, dx, dy := |series|, Dx(|series|), Dy(series);
    && |dx| == n && |dy| == n
    && Errors(series, intercept, s.slope)[i] ==
         Errors(series, FitIntercept(series), s.fit)[i] + Scaled(a, Times(dx, dx))[i]
         + Scaled(b, Times(dx, dy))[i] + Scaled(cc, Ones(n))[i] + Scaled(cy, dy)[i] + Scaled(cx, dx)[i]
  }

  lemma ErrorAt(series: seq<real>, intercept: real, s: Shift, a: real, b: real, cc: real, cy: real, cx: real, i: nat)
    requires i < |series| && s == ShiftOf(series, intercept, s.slope) && Coefficients(s, a, b, cc, cy, cx)
    ensures ErrorSplit(series, intercept, s, a, b, cc, cy, cx, i)
  {
    hide TrendSlope, SeriesMean, MeanX, Squared, Residual, Coefficients, Errors, Times, Scaled;
    var n, dx, dy := |series|, Dx(|series|), Dy(series);
    ScaledAt(a, Times(dx, dx), i);
    TimesAt(dx, dx, i);
    ScaledAt(b, Times(dx, dy), i);
    TimesAt(dx, dy, i);
    ScaledOne(cc, Ones(n), i);
    ScaledAt(cy, dy, i);
    ScaledAt(cx, dx, i);
    ErrorsAt(series, intercept, s.slope, i);
    ErrorsAt(series, FitIntercept(series), s.fit, i);
    ErrorTerm(series[i], i as real, SeriesMean(series), MeanX(n), dx[i], dy[i], intercept, FitIntercept(series),
              s, a, b, cc, cy, cx);
    SameProduct(a, Times(dx, dx)[i], dx[i] * dx[i]);
    SameProduct(b, Times(dx, dy)[i], dx[i] * dy[i]);
    hide Dx, Dy, FitIntercept, Ones;
  }

  /** What moving off the fit costs: denom * t^2 for the slope and n * c^2 for missing the mean point. */
  ghost function MoveCost(series: seq<real>, s: Shift): real {
    var dx := Dx(|series|);
    Cost(s.t, s.c, Dot(dx, dx), |series| as real)
  }

  ghost function Cost(t: real, c: real, denom: real, n: real): real {
    SquareBy(t, denom) + SquareBy(c, n)
  }

  function SquareBy(x: real, k: real): real { x * x * k }

  lemma SquaredErrorSplits(series: seq<real>, intercept: real, slope: real)
    requires |series| >= 2
    ensures SquaredError(series, intercept, slope) ==
      SquaredError(series, FitIntercept(series), TrendSlope(series))
      + MoveCost(series, ShiftOf(series, intercept, slope))
  {
    hide Sum, Scaled, Times, TrendSlope, SeriesMean, MeanX, Errors, FitIntercept, Dx, Dy;
    var n, dx, dy, s := |series|, Dx(|series|), Dy(series), ShiftOf(series, intercept, slope);
    var a, b, cc := s.t * s.t - 2.0 * s.t * s.fit, 2.0 * s.t, s.c * s.c;
    var cy, cx := -2.0 * s.c, 2.0 * s.c * s.slope;
    DxSumsToZero(n);
    DySumsToZero(series);
    var e, f := Errors(series, intercept, slope), Errors(series, FitIntercept(series), s.fit);
    var p, q, k := Scaled(a, Times(dx, dx)), Scaled(b, Times(dx, dy)), Scaled(cc, Ones(n));
    var r, x := Scaled(cy, dy), Scaled(cx, dx);
    forall i | 0 <= i < n ensures e[i] == f[i] + p[i] + q[i] + k[i] + r[i] + x[i] {
      ErrorAt(series, intercept, s, a, b, cc, cy, cx, i);
    }
    SumOfSix(e, f, p, q, k, r, x);
    SumScaled(a, Times(dx, dx));
    SumScaled(b, Times(dx, dy));
    SumScaled(cc, Ones(n));
    SumScaled(cy, dy);
    SumScaled(cx, dx);
    TimesZero(cy, Sum(dy));
    TimesZero(cx, Sum(dx));
    SlopeTimesDenominator(series);
    CrossTermsCancel(s.t, s.fit, Dot(dx, dx), Dot(dx, dy), a, b);
    SameProduct(cc, Sum(Ones(n)), n as real);
  }

  lemma SlopeTimesDenominator(series: seq<real>)
    requires |series| >= 2
    ensures |Dx(|series|)| == |series|
    ensures |Dy(series)| == |series|
    ensures TrendSlope(series) * Dot(Dx(|series|), Dx(|series|)) == Dot(Dx(|series|), Dy(series))
  {
    hide Dot;
    DenominatorPositive(|series|);
    DivideCancels(Dot(Dx(|series|), Dy(series)), Dot(Dx(|series|), Dx(|series|)));
  }

  lemma CrossTermsCancel(t: real, fit: real, sxx: real, sxy: real, a: real, b: real)
    requires fit * sxx == sxy && a == t * t - 2.0 * t * fit && b == 2.0 * t
    ensures a * sxx + b * sxy == t * t * sxx
  {
    assert a * sxx + b * sxy == t * t * sxx - 2.0 * t * (fit * sxx) + 2.0 * t * sxy;
  }

  lemma SquareTimes(x: real, k: real)
    requires k > 0.0
    ensures SquareBy(x, k) >= 0.0
    ensures x != 0.0 ==> SquareBy(x, k) > 0.0
  {
    if x > 0.0 {
      PositiveProduct(x, k);
      PositiveProduct(x, x * k);
      assert x * x * k == x * (x * k);
    } else if x < 0.0 {
      PositiveProduct(-x, k);
      PositiveProduct(-x, -x * k);
      assert x * x * k == -x * (-x * k);
    }
  }

  /** Least squares: every line other than the fitted one has a strictly larger squared error. */
  lemma TrendIsLeastSquares(series: seq<real>, intercept: real, slope: real)
    requires |series| >= 2
    ensures var best := SquaredError(series, FitIntercept(series), TrendSlope(series));
            && best <= SquaredError(series, intercept, slope)
            && (SquaredError(series, intercept, slope) == best
                ==> slope == TrendSlope(series) && intercept == FitIntercept(series))
  {
    hide SquaredError, TrendSlope, SeriesMean, MeanX, MoveCost;
    SquaredErrorSplits(series, intercept, slope);
    MoveCostSign(series, ShiftOf(series, intercept, slope));
  }

  lemma CostSign(t: real, c: real, denom: real, n: real)
    requires denom > 0.0 && n > 0.0
    ensures Cost(t, c, denom, n) >= 0.0
    ensures Cost(t, c, denom, n) == 0.0 ==> t == 0.0 && c == 0.0
  {
    hide SquareBy;
    SquareTimes(t, denom);
    SquareTimes(c, n);
  }

  lemma MoveCostSign(series: seq<real>, s: Shift)
    requires |series| >= 2
    ensures MoveCost(series, s) >= 0.0
    ensures MoveCost(series, s) == 0.0 ==> s.t == 0.0 && s.c == 0.0
  {
    var n, denom := |series| as real, Dot(Dx(|series|), Dx(|series|));
    assert MoveCost(series, s) == Cost(s.t, s.c, denom, n);
    DenominatorPositive(|series|);
    CostSign(s.t, s.c, denom, n);
  }

  lemma ErrorNonNegative(series: seq<real>, intercept: real, slope: real)
    ensures SquaredError(series, intercept, slope) >= 0.0
  {
    hide Sum;
    forall i | 0 <= i < |series| ensures Errors(series, intercept, slope)[i] >= 0.0 {
      ErrorsAt(series, intercept, slope, i);
      SquareNonNegative(Residual(series[i], i as real, intercept, slope));
    }
    SumNonNegative(Errors(series, intercept, slope));
  }

  /** On an arithmetic progression the slope is exactly its step. */
  lemma SlopeOfProgression(series: seq<real>, start: real, step: real)
    requires |series| >= 2 && forall i :: 0 <= i < |series| ==> series[i] == start + step * i as real
    ensures TrendSlope(series) == step
  {
    hide Sum, TrendSlope, FitIntercept;
    var es, zs := Errors(series, start, step), Scaled(0.0, Ones(|series|));
    forall i | 0 <= i < |series| ensures es[i] == zs[i] {
      ScaledOne(0.0, Ones(|series|), i);
      ErrorsAt(series, start, step, i);
      assert Residual(series[i], i as real, start, step) == 0.0;
    }
    assert es == zs;
    SumScaled(0.0, Ones(|series|));
    ErrorNonNegative(series, FitIntercept(series), TrendSlope(series));
    TrendIsLeastSquares(series, start, step);
  }

  /** Fewer than two points have no trend. */
  lemma NoTrendInOnePoint(series: seq<real>)
    ensures |series| < 2 ==> TrendSlope(series) == 0.0
  {
  }

  lemma SumOfOne(x: real)
    ensures Sum([x]) == x
  {
    assert [x][1..] == [];
  }

  lemma OnePointError(y: real, slope: real)
    ensures SquaredError([y], y, slope) == 0.0 && FitIntercept([y]) == y
  {
    NoTrendInOnePoint([y]);
    ErrorsAt([y], y, slope, 0);
    TimesZero(slope, 0.0);
    assert Residual(y, 0.0, y, slope) == 0.0;
    assert Errors([y], y, slope) == [0.0];
    SumOfOne(0.0);
    SumOfOne(y);
    DivideCancels(y, 1.0);
  }

  /** The slope and the line through the means fit best for every series, and they are the only line
      that does exactly when there are two points or more: one point leaves the slope open, and 0 is
      one of its optima. */
  lemma OptimumIsUniqueIff(series: seq<real>)
    requires series != []
    ensures var best := SquaredError(series, FitIntercept(series), TrendSlope(series));
      && (forall intercept, slope :: best <= SquaredError(series, intercept, slope))
      && ((forall intercept, slope :: SquaredError(series, intercept, slope) == best ==>
             slope == TrendSlope(series) && intercept == FitIntercept(series))
          <==> |series| >= 2)
  {
    hide SquaredError, TrendSlope, FitIntercept;
    if |series| >= 2 {
      forall intercept, slope
        ensures SquaredError(series, FitIntercept(series), TrendSlope(series)) <= SquaredError(series, intercept, slope)
        ensures
          SquaredError(series, intercept, slope) == SquaredError(series, FitIntercept(series), TrendSlope(series)) ==>
          slope == TrendSlope(series) && intercept == FitIntercept(series)
      {
        TrendIsLeastSquares(series, intercept, slope);
      }
    } else {
      assert series == [series[0]];
      NoTrendInOnePoint(series);
      OnePointError(series[0], 0.0);
      OnePointError(series[0], 1.0);
      forall intercept, slope ensures SquaredError(series, intercept, slope) >= 0.0 {
        ErrorNonNegative(series, intercept, slope);
      }
    }
  }
}
