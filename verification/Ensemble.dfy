/** Inverse-variance weighting of member forecasts (app/forecasting/ensemble.py). */
module Ensemble {
  import opened RealMath
  import opened Wrappers

  const Z95: real := 1.96
  const FLOOR: real := 0.000000001

  datatype MemberForecast = MemberForecast(prediction: real, lower: real, upper: real, confidence: real)

  /** A member model: the targets it supports and what it forecasts in the given context. */
  datatype Member = Member(name: string, supports: set<string>, forecast: MemberForecast)

  datatype ForecastError = NoMemberSupports(target: string)

  datatype Combined = Combined(
    prediction: real, lower: real, upper: real, confidence: real, variance: real, usedModels: seq<string>)

  /** Confidence is kept in [0.05, 1]. */
  function Clamp01(value: real): real { Max(0.05, Min(1.0, value)) }

  function Supporting(members: seq<Member>, target: string): (ms: seq<Member>)
    ensures forall m :: m in ms <==> m in members && target in m.supports
  {
    if members == [] then []
    else (if target in members[0].supports then [members[0]] else []) + Supporting(members[1..], target)
  }

  /** Variance read back from the width of a member's 95% interval. */
  function VarianceOf(f: MemberForecast): (v: real)
    ensures v > 0.0
  {
    var width := Max(f.upper - f.lower, FLOOR);
    var sigma := width / (2.0 * Z95);
    PositiveProduct(sigma, sigma);
    sigma * sigma
  }

  function WeightOf(variance: real): (w: real)
    ensures w > 0.0
    ensures w * Max(variance, FLOOR) == 1.0
  {
    var m := Max(variance, FLOOR);
    DivideCancels(1.0, m);
    1.0 / m
  }

  function Variances(ms: seq<Member>): (vs: seq<real>)
    ensures |vs| == |ms|
    ensures forall i :: 0 <= i < |ms| ==> vs[i] == VarianceOf(ms[i].forecast) && vs[i] > 0.0
  {
    seq(|ms|, i requires 0 <= i < |ms| => VarianceOf(ms[i].forecast))
  }

  function Weights(vs: seq<real>): (ws: seq<real>)
    ensures |ws| == |vs|
    ensures forall i :: 0 <= i < |vs| ==> ws[i] == WeightOf(vs[i]) && ws[i] > 0.0
  {
    seq(|vs|, i requires 0 <= i < |vs| => WeightOf(vs[i]))
  }

  function Predictions(ms: seq<Member>): (ps: seq<real>)
    ensures |ps| == |ms| && forall i :: 0 <= i < |ms| ==> ps[i] == ms[i].forecast.prediction
  {
    seq(|ms|, i requires 0 <= i < |ms| => ms[i].forecast.prediction)
  }

  function Confidences(ms: seq<Member>): (cs: seq<real>)
    ensures |cs| == |ms| && forall i :: 0 <= i < |ms| ==> cs[i] == ms[i].forecast.confidence
  {
    seq(|ms|, i requires 0 <= i < |ms| => ms[i].forecast.confidence)
  }

  function Names(ms: seq<Member>): (ns: seq<string>)
    ensures |ns| == |ms| && forall i :: 0 <= i < |ms| ==> ns[i] == ms[i].name
  {
    seq(|ms|, i requires 0 <= i < |ms| => ms[i].name)
  }

  /** u_i^2 * v_i for each member. */
  function Quad(us: seq<real>, vs: seq<real>): (qs: seq<real>)
    requires |us| == |vs|
    ensures |qs| == |us|
  {
    seq(|us|, i requires 0 <= i < |us| => us[i] * us[i] * vs[i])
  }

  lemma {:induction false} SumPositive(ws: seq<real>)
    requires |ws| > 0 && forall i :: 0 <= i < |ws| ==> ws[i] > 0.0
    ensures Sum(ws) > 0.0
    ensures forall i :: 0 <= i < |ws| ==> ws[i] <= Sum(ws)
  {
    if |ws| > 1 {
      SumPositive(ws[1..]);
      assert forall i :: 1 <= i < |ws| ==> ws[i] == ws[1..][i - 1];
    } else {
      assert Sum(ws[1..]) == 0.0;
    }
  }

  /** The weighted mean of `xs`. */
  function Mean(ws: seq<real>, xs: seq<real>): real
    requires |ws| == |xs| && Sum(ws) > 0.0
  {
    Dot(ws, xs) / Sum(ws)
  }

  /** Variance of the weighted mean, for independent members. */
  function PooledVariance(ws: seq<real>, vs: seq<real>): real
    requires |ws| == |vs| && Sum(ws) > 0.0
  {
    OverSquare(Sum(Quad(ws, vs)), Sum(ws))
  }

  function OverSquare(q: real, total: real): real
    requires total > 0.0
  {
    PositiveProduct(total, total);
    q / (total * total)
  }

  function Combine(ms: seq<Member>, root: real -> real): Combined
    requires ms != []
  {
    var vs := Variances(ms);
    var ws := Weights(vs);
    SumPositive(ws);
    var prediction := Mean(ws, Predictions(ms));
    var variance := PooledVariance(ws, vs);
    var std := root(variance);
    Combined(prediction, prediction - Z95 * std, prediction + Z95 * std,
             Clamp01(Mean(ws, Confidences(ms))), variance, Names(ms))
  }

  /** The loop over the members' intervals. */
  method Weigh(ms: seq<Member>) returns (variances: seq<real>, weights: seq<real>)
    ensures variances == Variances(ms) && weights == Weights(variances)
  {
    hide VarianceOf, WeightOf;
    variances, weights := [], [];
    for i := 0 to |ms|
      invariant |variances| == |weights| == i
      invariant forall k :: 0 <= k < i ==> variances[k] == VarianceOf(ms[k].forecast)
      invariant forall k :: 0 <= k < i ==> weights[k] == WeightOf(variances[k])
    {
      var variance := VarianceOf(ms[i].forecast);
      variances := variances + [variance];
      weights := weights + [WeightOf(variance)];
    }
  }

  lemma NobodySupports(members: seq<Member>, target: string)
    ensures Supporting(members, target) == [] <==> forall m :: m in members ==> target !in m.supports
  {
    var ms := Supporting(members, target);
    assert ms != [] ==> ms[0] in ms;
    assert ms == [] ==> forall m :: m in members ==> m !in ms;
  }

  /** The forecast method: an error when nobody supports the target, else the combination. */
  method Forecast(members: seq<Member>, target: string, root: real -> real)
    returns (r: Result<Combined, ForecastError>)
    ensures r.Err? <==> forall m :: m in members ==> target !in m.supports
    ensures r.Err? ==> r.error == NoMemberSupports(target)
    ensures r.Ok? ==> r.value == Combine(Supporting(members, target), root)
    ensures r.Ok? ==> FitsBest(r.value, Supporting(members, target))
  {
    hide Variances, Weights, Sum, Supporting, Dot, Quad, FitsBest;
    var ms := Supporting(members, target);
    NobodySupports(members, target);
    if ms == [] {
      return Err(NoMemberSupports(target));
    }
    CombinationFitsBest(ms, root);
    var variances, weights := Weigh(ms);
    SumPositive(weights);
    var prediction := Mean(weights, Predictions(ms));
    var pooled := PooledVariance(weights, variances);
    var std := root(pooled);
    r := Ok(Combined(prediction, prediction - Z95 * std, prediction + Z95 * std,
                     Clamp01(Mean(weights, Confidences(ms))), pooled, Names(ms)));
  }

  // ---------------------------------------------------------------- the point forecast

  lemma Ordered(w: real, x: real, y: real)
    requires w >= 0.0 && x <= y
    ensures w * x <= w * y && x * w <= y * w
  {
    assert w * y - w * x == w * (y - x);
  }

  lemma BoundedTerm(ws: seq<real>, xs: seq<real>, lo: real, hi: real, i: nat)
    requires i < |ws| == |xs| && ws[i] > 0.0 && lo <= xs[i] <= hi
    ensures Scaled(lo, ws)[i] <= Times(ws, xs)[i] <= Scaled(hi, ws)[i]
  {
    hide Scaled, Times;
    ScaledAt(lo, ws, i);
    TimesAt(ws, xs, i);
    ScaledAt(hi, ws, i);
    Ordered(ws[i], lo, xs[i]);
    Ordered(ws[i], xs[i], hi);
  }

  lemma WeightedSumBetween(ws: seq<real>, xs: seq<real>, lo: real, hi: real)
    requires |ws| == |xs| && forall i :: 0 <= i < |ws| ==> ws[i] > 0.0 && lo <= xs[i] <= hi
    ensures lo * Sum(ws) <= Dot(ws, xs) <= hi * Sum(ws)
  {
    hide Sum, Times, Scaled;
    forall i | 0 <= i < |ws| ensures Scaled(lo, ws)[i] <= Times(ws, xs)[i] <= Scaled(hi, ws)[i] {
      BoundedTerm(ws, xs, lo, hi, i);
    }
    SumMonotone(Scaled(lo, ws), Times(ws, xs));
    SumMonotone(Times(ws, xs), Scaled(hi, ws));
    SumScaled(lo, ws);
    SumScaled(hi, ws);
  }

  lemma QuotientBetween(lo: real, hi: real, sum: real, dot: real)
    requires sum > 0.0 && lo * sum <= dot <= hi * sum
    ensures lo <= dot / sum <= hi
  {
    var q := dot / sum;
    DivideCancels(dot, sum);
    if q < lo { PositiveProduct(lo - q, sum); }
    if hi < q { PositiveProduct(q - hi, sum); }
  }

  /** A weighted mean lies between any bounds on what it averages. */
  lemma MeanBetween(ws: seq<real>, xs: seq<real>, lo: real, hi: real)
    requires |ws| == |xs| > 0 && forall i :: 0 <= i < |ws| ==> ws[i] > 0.0 && lo <= xs[i] <= hi
    ensures Sum(ws) > 0.0 && lo <= Mean(ws, xs) <= hi
  {
    hide Sum, Times;
    SumPositive(ws);
    WeightedSumBetween(ws, xs, lo, hi);
    QuotientBetween(lo, hi, Sum(ws), Dot(ws, xs));
  }

  // ---------------------------------------------------------------- what the combination minimises

  /** How far `x` is from one value, in units of that member's variance, raised to 1e-9. */
  ghost function Pull(x: real, value: real, variance: real): real {
    (x - value) * (x - value) / Max(variance, FLOOR)
  }

  ghost function Pulls(ms: seq<Member>, values: seq<real>, x: real): (ps: seq<real>)
    requires |values| == |ms|
    ensures |ps| == |ms|
    ensures forall i :: 0 <= i < |ms| ==> ps[i] == Pull(x, values[i], VarianceOf(ms[i].forecast))
  {
    seq(|ms|, i requires 0 <= i < |ms| => Pull(x, values[i], VarianceOf(ms[i].forecast)))
  }

  /** `best` is closer than any other number to the members' values, each in units of its variance. */
  ghost predicate IsClosest(ms: seq<Member>, values: seq<real>, best: real)
    requires |values| == |ms|
  {
    forall x :: x != best ==> Sum(Pulls(ms, values, best)) < Sum(Pulls(ms, values, x))
  }

  /** The prediction is closest to the members' predictions, and the confidence to their confidences,
      unless that lies outside [0.05, 1]; the members are named in order. */
  ghost predicate FitsBest(c: Combined, ms: seq<Member>) {
    && IsClosest(ms, Predictions(ms), c.prediction)
    && (exists best :: IsClosest(ms, Confidences(ms), best) && IsNearest(c.confidence, best, 0.05, 1.0))
    && |c.usedModels| == |ms| && (forall i :: 0 <= i < |ms| ==> c.usedModels[i] == ms[i].name)
  }

  /** `y` is the number of [lo, hi] nearest to `x`. */
  ghost predicate IsNearest(y: real, x: real, lo: real, hi: real) {
    lo <= y <= hi && (x < y ==> y == lo) && (y < x ==> y == hi)
  }

  lemma ClampIsNearest(x: real)
    ensures IsNearest(Clamp01(x), x, 0.05, 1.0)
  {
  }

  /** One term, moved from the mean `m` to `x`. */
  lemma PullShifts(x: real, m: real, value: real, variance: real, w: real)
    requires w == WeightOf(variance)
    ensures Pull(x, value, variance)
      == Pull(m, value, variance) + (2.0 * (x - m) * m + (x - m) * (x - m)) * w + (-2.0 * (x - m)) * (w * value)
  {
    hide WeightOf;
    ByWeight((x - value) * (x - value), variance);
    ByWeight((m - value) * (m - value), variance);
    assert w * Max(variance, FLOOR) == 1.0 by { WeightInverts(variance); }
    var t := x - m;
    assert (x - value) * (x - value) == (m - value) * (m - value) + (2.0 * t * m + t * t) + (-2.0 * t) * value;
    Distributed((m - value) * (m - value), 2.0 * t * m + t * t, -2.0 * t, value, w);
  }

  lemma WeightInverts(variance: real)
    ensures WeightOf(variance) * Max(variance, FLOOR) == 1.0
  {
  }

  lemma Distributed(a: real, b: real, c: real, v: real, w: real)
    ensures (a + b + c * v) * w == a * w + b * w + c * (w * v)
  {
  }

  lemma ByWeight(x: real, variance: real)
    ensures x / Max(variance, FLOOR) == x * WeightOf(variance)
  {
    var m, w := Max(variance, FLOOR), WeightOf(variance);
    DivideCancels(x, m);
    assert x / m * (w * m) == x / m * m * w;
  }

  lemma PullAt(ms: seq<Member>, values: seq<real>, x: real, m: real, t: real, a: real, b: real, i: nat)
    requires i < |ms| == |values| && t == x - m && a == 2.0 * t * m + t * t && b == -2.0 * t
    ensures var ws := Weights(Variances(ms));
      Pulls(ms, values, x)[i] == Pulls(ms, values, m)[i] + (Scaled(a, ws)[i] + Scaled(b, Times(ws, values))[i])
  {
    hide Scaled, Times, Pull, WeightOf, VarianceOf;
    var ws := Weights(Variances(ms));
    PullShifts(x, m, values[i], VarianceOf(ms[i].forecast), ws[i]);
    ScaledAt(a, ws, i);
    ScaledAt(b, Times(ws, values), i);
    TimesAt(ws, values, i);
  }

  lemma SumOfThree(p: seq<real>, q: seq<real>, u: seq<real>, v: seq<real>)
    requires |p| == |q| == |u| == |v| && forall i :: 0 <= i < |p| ==> p[i] == q[i] + (u[i] + v[i])
    ensures Sum(p) == Sum(q) + Sum(u) + Sum(v)
  {
    hide Sum;
    var w := seq(|p|, i requires 0 <= i < |p| => u[i] + v[i]);
    SumPointwise(w, u, v);
    SumPointwise(p, q, w);
  }

  /** The sum of the terms, moved from the mean `m` to `x`: the linear part vanishes. */
  lemma PullsShift(ms: seq<Member>, values: seq<real>, x: real, m: real, t: real)
    requires |values| == |ms| && t == x - m
    requires m * Sum(Weights(Variances(ms))) == Dot(Weights(Variances(ms)), values)
    ensures Sum(Pulls(ms, values, x))
      == Sum(Pulls(ms, values, m)) + Squared(t) * Sum(Weights(Variances(ms)))
  {
    hide Sum, Scaled, Times, Pulls, Weights, Variances, Squared;
    var ws := Weights(Variances(ms));
    var a, b := 2.0 * t * m + t * t, -2.0 * t;
    forall i | 0 <= i < |ms|
      ensures Pulls(ms, values, x)[i]
        == Pulls(ms, values, m)[i] + (Scaled(a, ws)[i] + Scaled(b, Times(ws, values))[i])
    {
      PullAt(ms, values, x, m, t, a, b, i);
    }
    SumOfThree(Pulls(ms, values, x), Pulls(ms, values, m), Scaled(a, ws), Scaled(b, Times(ws, values)));
    SumScaled(a, ws);
    SumScaled(b, Times(ws, values));
    LinearVanishes(t, m, Sum(ws), Sum(Times(ws, values)));
  }

  lemma LinearVanishes(t: real, m: real, total: real, dot: real)
    requires m * total == dot
    ensures (2.0 * t * m + t * t) * total + (-2.0 * t) * dot == Squared(t) * total
  {
    assert (-2.0 * t) * dot == (-2.0 * t * m) * total;
  }

  lemma MeanTimesWeight(ws: seq<real>, values: seq<real>)
    requires |ws| == |values| && Sum(ws) > 0.0
    ensures Mean(ws, values) * Sum(ws) == Dot(ws, values)
  {
    DivideCancels(Dot(ws, values), Sum(ws));
  }

  /** The weighted mean is closest, for any values of the members. */
  lemma MeanIsClosest(ms: seq<Member>, values: seq<real>)
    requires ms != [] && |values| == |ms|
    ensures var ws := Weights(Variances(ms));
      Sum(ws) > 0.0 && IsClosest(ms, values, Mean(ws, values))
  {
    var ws := Weights(Variances(ms));
    SumPositive(ws);
    var m := Mean(ws, values);
    MeanTimesWeight(ws, values);
    hide Mean, Sum, Pulls, Weights, Variances, Dot;
    forall x | x != m ensures Sum(Pulls(ms, values, m)) < Sum(Pulls(ms, values, x)) { FartherPulls(ms, values, x, m); }
  }

  lemma FartherPulls(ms: seq<Member>, values: seq<real>, x: real, m: real)
    requires |values| == |ms| && x != m && Sum(Weights(Variances(ms))) > 0.0
    requires m * Sum(Weights(Variances(ms))) == Dot(Weights(Variances(ms)), values)
    ensures Sum(Pulls(ms, values, m)) < Sum(Pulls(ms, values, x))
  {
    hide Sum, Pulls, Weights, Variances, Dot, Squared;
    PullsShift(ms, values, x, m, x - m);
    MoreBySquare(Sum(Pulls(ms, values, m)), Sum(Pulls(ms, values, x)), x - m, Sum(Weights(Variances(ms))));
  }

  lemma MoreBySquare(low: real, high: real, t: real, total: real)
    requires t != 0.0 && total > 0.0 && high == low + Squared(t) * total
    ensures low < high
  {
    SquareIsPositive(t);
    hide Squared;
    PositiveProduct(Squared(t), total);
  }

  lemma CombinationFitsBest(ms: seq<Member>, root: real -> real)
    requires ms != []
    ensures FitsBest(Combine(ms, root), ms)
  {
    hide Mean, Sum, PooledVariance, Weights, IsClosest;
    MeanIsClosest(ms, Predictions(ms));
    MeanIsClosest(ms, Confidences(ms));
    ClampIsNearest(Mean(Weights(Variances(ms)), Confidences(ms)));
  }

  /** An interval of a given variance is 2 * 1.96 standard deviations wide, and at least 1e-9. */
  lemma IntervalHasVariance(f: MemberForecast)
    ensures VarianceOf(f) * ((2.0 * Z95) * (2.0 * Z95)) == Max(f.upper - f.lower, FLOOR) * Max(f.upper - f.lower, FLOOR)
  {
    var width := Max(f.upper - f.lower, FLOOR);
    DivideCancels(width, 2.0 * Z95);
    SquareOfProduct(width / (2.0 * Z95), 2.0 * Z95);
  }

  lemma SquareOfProduct(a: real, b: real)
    ensures (a * a) * (b * b) == (a * b) * (a * b)
  {
  }

  /** Read as a member's forecast, a combination has its own variance again, unless its interval is
      narrower than the floor. */
  lemma CombinationRoundTrip(ms: seq<Member>, root: real -> real)
    requires ms != [] && SquareRoot(root)
    ensures var c := Combine(ms, root);
      c.upper - c.lower >= FLOOR ==>
        VarianceOf(MemberForecast(c.prediction, c.lower, c.upper, c.confidence)) == c.variance
  {
    hide Mean, PooledVariance, WeightOf, Weights, Variances, Sum;
    var vs := Variances(ms);
    SumPositive(Weights(vs));
    PooledNonNegative(Weights(vs), vs);
    var c := Combine(ms, root);
    var std := root(c.variance);
    if c.upper - c.lower >= FLOOR {
      assert c.upper - c.lower == std * (2.0 * Z95);
      assert (c.upper - c.lower) / (2.0 * Z95) == std;
    }
  }

  lemma SupportingAppends(a: seq<Member>, b: seq<Member>, target: string)
    ensures Supporting(a + b, target) == Supporting(a, target) + Supporting(b, target)
  {
    if a == [] {
      assert a + b == b;
    } else {
      assert (a + b)[1..] == a[1..] + b;
      SupportingAppends(a[1..], b, target);
    }
  }

  // ---------------------------------------------------------------- the pooled variance

  lemma QuadAt(us: seq<real>, vs: seq<real>, i: nat)
    requires i < |us| == |vs|
    ensures Quad(us, vs)[i] == us[i] * us[i] * vs[i]
  {
  }

  lemma QuadTermBelowWeight(w: real, v: real)
    requires w > 0.0 && v > 0.0 && w * Max(v, FLOOR) == 1.0
    ensures w * w * v <= w
  {
    var m := Max(v, FLOOR);
    Ordered(w, v, m);
    Ordered(w, w * v, 1.0);
    assert w * w * v == w * (w * v);
  }

  lemma QuadBelowWeights(vs: seq<real>)
    requires forall i :: 0 <= i < |vs| ==> vs[i] > 0.0
    ensures Sum(Quad(Weights(vs), vs)) <= Sum(Weights(vs))
  {
    hide WeightOf, Sum, Quad;
    var ws := Weights(vs);
    forall i | 0 <= i < |vs| ensures Quad(ws, vs)[i] <= ws[i] {
      QuadAt(ws, vs, i);
      QuadTermBelowWeight(ws[i], vs[i]);
    }
    SumMonotone(Quad(ws, vs), ws);
  }

  lemma OverProductBelow(q: real, s: real, t: real, w: real, floor: real)
    requires q <= t && 0.0 < w <= s && 0.0 < t && w * floor == 1.0 && floor > 0.0
    ensures s * t > 0.0 && q / (s * t) <= floor
  {
    PositiveProduct(s, t);
    var p := q / (s * t);
    DivideCancels(q, s * t);
    Ordered(floor, w, s);
    Ordered(t, 1.0, s * floor);
    assert t * (s * floor) == floor * (s * t);
    if p > floor {
      PositiveProduct(p - floor, s * t);
    }
  }

  lemma OverSquareBelow(q: real, total: real, w: real, floor: real)
    requires q <= total && 0.0 < w <= total && w * floor == 1.0 && floor > 0.0
    ensures OverSquare(q, total) <= floor
  {
    OverProductBelow(q, total, total, w, floor);
  }

  lemma PooledBelowFloor(vs: seq<real>, i: nat)
    requires i < |vs| && forall j :: 0 <= j < |vs| ==> vs[j] > 0.0
    ensures Sum(Weights(vs)) > 0.0 && PooledVariance(Weights(vs), vs) <= Max(vs[i], FLOOR)
  {
    hide Sum, Quad, WeightOf, Weights;
    var ws := Weights(vs);
    SumPositive(ws);
    QuadBelowWeights(vs);
    OverSquareBelow(Sum(Quad(ws, vs)), Sum(ws), ws[i], Max(vs[i], FLOOR));
  }

  /** Pooling never does worse than any one member: the pooled variance is at most that member's
      variance, raised to the floor of 1e-9. */
  lemma PooledBelowEachMember(ms: seq<Member>, root: real -> real, i: nat)
    requires i < |ms|
    ensures Combine(ms, root).variance <= Max(VarianceOf(ms[i].forecast), FLOOR)
  {
    hide PooledVariance, VarianceOf;
    PooledBelowFloor(Variances(ms), i);
  }

  lemma PooledNonNegative(ws: seq<real>, vs: seq<real>)
    requires |ws| == |vs| && Sum(ws) > 0.0 && forall i :: 0 <= i < |vs| ==> vs[i] > 0.0
    ensures PooledVariance(ws, vs) >= 0.0
  {
    hide Sum, Quad;
    forall i | 0 <= i < |vs| ensures Quad(ws, vs)[i] >= 0.0 {
      QuadAt(ws, vs, i);
      QuadTermNonNegative(ws[i], vs[i]);
    }
    SumNonNegative(Quad(ws, vs));
    OverSquareNonNegative(Sum(Quad(ws, vs)), Sum(ws));
  }

  lemma OverProductNonNegative(q: real, s: real, t: real)
    requires q >= 0.0 && s > 0.0 && t > 0.0
    ensures s * t > 0.0 && q / (s * t) >= 0.0
  {
    PositiveProduct(s, t);
    var p := q / (s * t);
    DivideCancels(q, s * t);
    if p < 0.0 { PositiveProduct(-p, s * t); }
  }

  lemma OverSquareNonNegative(q: real, total: real)
    requires q >= 0.0 && total > 0.0
    ensures OverSquare(q, total) >= 0.0
  {
    OverProductNonNegative(q, total, total);
  }

  lemma QuadTermNonNegative(u: real, v: real)
    requires v > 0.0
    ensures u * u * v >= 0.0
    ensures u * u * v == 0.0 ==> u == 0.0
  {
    if u > 0.0 {
      PositiveProduct(u, v);
      PositiveProduct(u, u * v);
      assert u * u * v == u * (u * v);
    } else if u < 0.0 {
      PositiveProduct(-u, v);
      PositiveProduct(-u, -u * v);
      assert u * u * v == -u * (-u * v);
    }
  }

  /** What every forecast promises: a point within the members' range, inside its own interval,
      and a confidence in [0.05, 1]. */
  lemma CombineIsSane(ms: seq<Member>, root: real -> real, lo: real, hi: real)
    requires ms != [] && SquareRoot(root)
    requires forall m :: m in ms ==> lo <= m.forecast.prediction <= hi
    ensures var c := Combine(ms, root);
            && lo <= c.prediction <= hi
            && c.lower <= c.prediction <= c.upper
            && c.upper - c.prediction == c.prediction - c.lower == Z95 * root(c.variance)
            && 0.05 <= c.confidence <= 1.0
  {
    hide Mean, PooledVariance, VarianceOf, WeightOf;
    var vs := Variances(ms);
    var ws := Weights(vs);
    SumPositive(ws);
    forall i | 0 <= i < |ms| ensures lo <= Predictions(ms)[i] <= hi { assert ms[i] in ms; }
    MeanBetween(ws, Predictions(ms), lo, hi);
    PooledNonNegative(ws, vs);
  }
}
