/** When a forecast has least variance (app/forecasting/ensemble.py). */
module EnsembleOptimality {
  // For independent members with variances v, any weights u summing to 1 have variance
  // 1/S + sum (u_i - 1/(S v_i))^2 v_i with S = sum 1/v_i, so exactly one choice is best.

  import opened RealMath
  import opened Ensemble

  ghost predicate Positive(vs: seq<real>) { |vs| > 0 && forall i :: 0 <= i < |vs| ==> vs[i] > 0.0 }

  ghost function Inverse(v: real): (s: real)
    requires v > 0.0
    ensures s > 0.0 && s * v == 1.0
  {
    DivideCancels(1.0, v);
    1.0 / v
  }

  ghost function Precisions(vs: seq<real>): (ss: seq<real>)
    requires Positive(vs)
    ensures |ss| == |vs| && forall i :: 0 <= i < |vs| ==> ss[i] == Inverse(vs[i]) && ss[i] > 0.0
    ensures Sum(ss) > 0.0
  {
    var ss := seq(|vs|, i requires 0 <= i < |vs| => Inverse(vs[i]));
    SumPositive(ss);
    ss
  }

  /** 1 / S: the least variance any weights can reach. */
  ghost function LeastVariance(vs: seq<real>): (c: real)
    requires Positive(vs)
  {
    Inverse(Sum(Precisions(vs)))
  }

  ghost function Normalised(ws: seq<real>): seq<real>
    requires Sum(ws) > 0.0
  {
    Scaled(Inverse(Sum(ws)), ws)
  }

  /** The weights proportional to the true precisions. */
  ghost function Ideal(vs: seq<real>): seq<real>
    requires Positive(vs)
  {
    Normalised(Precisions(vs))
  }

  ghost function WeightedVariance(us: seq<real>, vs: seq<real>): real
    requires |us| == |vs|
  {
    Sum(Quad(us, vs))
  }

  // ---------------------------------------------------------------- the split of the variance

  ghost function GapTerm(u: real, v: real, s: real, c: real): real { (u - c * s) * (u - c * s) * v }

  ghost function GapTerms(us: seq<real>, vs: seq<real>): (gs: seq<real>)
    requires Positive(vs) && |us| == |vs|
    ensures |gs| == |us|
    ensures forall i :: 0 <= i < |us| ==> gs[i] == GapTerm(us[i], vs[i], Precisions(vs)[i], LeastVariance(vs))
  {
    seq(|us|, i requires 0 <= i < |us| => GapTerm(us[i], vs[i], Precisions(vs)[i], LeastVariance(vs)))
  }

  lemma GapTermExpands(u: real, v: real, s: real, c: real)
    requires s * v == 1.0
    ensures u * u * v + c * c * s == GapTerm(u, v, s, c) + 2.0 * c * u
  {
    var x := c * s;
    assert GapTerm(u, v, s, c) == u * u * v - 2.0 * u * (x * v) + x * (x * v);
    assert x * v == c * (s * v) == c;
    assert x * (x * v) == c * c * s;
  }

  lemma SplitTerm(u: real, v: real, s: real, c: real, square: real, double: real)
    requires s * v == 1.0 && square == c * c && double == 2.0 * c
    ensures u * u * v + square * s == GapTerm(u, v, s, c) + double * u
  {
    GapTermExpands(u, v, s, c);
  }

  lemma SplitAt(us: seq<real>, vs: seq<real>, c: real, square: real, double: real, i: nat)
    requires Positive(vs) && i < |us| == |vs|
    requires c == LeastVariance(vs) && square == c * c && double == 2.0 * c
    ensures Quad(us, vs)[i] + Scaled(square, Precisions(vs))[i] == GapTerms(us, vs)[i] + Scaled(double, us)[i]
  {
    hide GapTerm, LeastVariance, GapTerms, Precisions;
    QuadAt(us, vs, i);
    ScaledAt(square, Precisions(vs), i);
    ScaledAt(double, us, i);
    SplitTerm(us[i], vs[i], Precisions(vs)[i], c, square, double);
  }

  lemma {:induction false} SumsAgree(p: seq<real>, q: seq<real>, u: seq<real>, v: seq<real>)
    requires |p| == |q| == |u| == |v|
    requires forall i :: 0 <= i < |p| ==> p[i] + q[i] == u[i] + v[i]
    ensures Sum(p) + Sum(q) == Sum(u) + Sum(v)
  {
    if p != [] { SumsAgree(p[1..], q[1..], u[1..], v[1..]); }
  }

  lemma CancelOnce(c: real, total: real, square: real)
    requires c * total == 1.0 && square == c * c
    ensures square * total == c
  {
    assert square * total == c * (c * total);
  }

  /** The variance of any normalised weights is the least variance plus the sum of the gaps. */
  lemma VarianceSplits(us: seq<real>, vs: seq<real>)
    requires Positive(vs) && |us| == |vs| && Sum(us) == 1.0
    ensures WeightedVariance(us, vs) == LeastVariance(vs) + Sum(GapTerms(us, vs))
  {
    hide Sum, Quad, Scaled, GapTerms, Precisions, Inverse, LeastVariance;
    var c, ss := LeastVariance(vs), Precisions(vs);
    var square, double := c * c, 2.0 * c;
    forall i | 0 <= i < |us|
      ensures Quad(us, vs)[i] + Scaled(square, ss)[i] == GapTerms(us, vs)[i] + Scaled(double, us)[i]
    {
      SplitAt(us, vs, c, square, double, i);
    }
    SumsAgree(Quad(us, vs), Scaled(square, ss), GapTerms(us, vs), Scaled(double, us));
    SumScaled(square, ss);
    SumScaled(double, us);
    LeastTimesTotal(vs);
    CancelOnce(c, Sum(ss), square);
    TimesOne(double, Sum(us));
  }

  lemma LeastTimesTotal(vs: seq<real>)
    requires Positive(vs)
    ensures LeastVariance(vs) > 0.0 && LeastVariance(vs) * Sum(Precisions(vs)) == 1.0
  {
  }

  lemma TimesOne(t: real, one: real)
    requires one == 1.0
    ensures t * one == t
  {
  }

  lemma GapTermSign(u: real, v: real, s: real, c: real)
    requires v > 0.0
    ensures GapTerm(u, v, s, c) >= 0.0
    ensures GapTerm(u, v, s, c) == 0.0 <==> u == c * s
  {
    var d := u - c * s;
    QuadTermNonNegative(d, v);
    if d == 0.0 { assert d * d * v == 0.0 * d * v; }
  }

  function Zeros(n: nat): (zs: seq<real>)
    ensures |zs| == n && (forall i :: 0 <= i < n ==> zs[i] == 0.0) && Sum(zs) == 0.0
  {
    if n == 0 then [] else [0.0] + Zeros(n - 1)
  }

  lemma NormalisedSumsToOne(ws: seq<real>)
    requires Sum(ws) > 0.0
    ensures |Normalised(ws)| == |ws| && Sum(Normalised(ws)) == 1.0
  {
    SumScaled(Inverse(Sum(ws)), ws);
  }

  lemma IdealAt(vs: seq<real>, i: nat)
    requires Positive(vs) && i < |vs|
    ensures |Ideal(vs)| == |vs| && Ideal(vs)[i] == LeastVariance(vs) * Precisions(vs)[i]
  {
    ScaledAt(Inverse(Sum(Precisions(vs))), Precisions(vs), i);
  }

  lemma GapsVanishOnlyAtIdeal(us: seq<real>, vs: seq<real>)
    requires Positive(vs) && |us| == |vs|
    ensures Sum(GapTerms(us, vs)) >= 0.0
    ensures Sum(GapTerms(us, vs)) == 0.0 <==> us == Ideal(vs)
  {
    hide Sum, Precisions, LeastVariance, Ideal, GapTerm;
    var gs, zs := GapTerms(us, vs), Zeros(|us|);
    IdealAt(vs, 0);
    forall i | 0 <= i < |us| ensures zs[i] <= gs[i] && (gs[i] == 0.0 <==> us[i] == Ideal(vs)[i]) {
      IdealAt(vs, i);
      GapTermSign(us[i], vs[i], Precisions(vs)[i], LeastVariance(vs));
    }
    SumMonotone(zs, gs);
    if us == Ideal(vs) {
      assert gs == zs;
    }
  }

  // ---------------------------------------------------------------- minimal weights

  /** No weights summing to 1 give a smaller variance. */
  ghost predicate Minimal(us: seq<real>, vs: seq<real>) {
    && |us| == |vs| && Sum(us) == 1.0
    && forall zs :: |zs| == |vs| && Sum(zs) == 1.0 ==> WeightedVariance(us, vs) <= WeightedVariance(zs, vs)
  }

  /** Exactly one choice of weights is minimal: the one proportional to the precisions. */
  lemma MinimalIffIdeal(us: seq<real>, vs: seq<real>)
    requires Positive(vs) && |us| == |vs| && Sum(us) == 1.0
    ensures Minimal(us, vs) <==> us == Ideal(vs)
  {
    hide Sum, WeightedVariance, Ideal;
    var best := Ideal(vs);
    assert |best| == |vs| && Sum(best) == 1.0 by {
      IdealAt(vs, 0);
      IdealSums(vs);
    }
    VarianceSplits(us, vs);
    GapsVanishOnlyAtIdeal(us, vs);
    VarianceSplits(best, vs);
    GapsVanishOnlyAtIdeal(best, vs);
    if us == best {
      forall zs | |zs| == |vs| && Sum(zs) == 1.0
        ensures WeightedVariance(us, vs) <= WeightedVariance(zs, vs)
      {
        VarianceSplits(zs, vs);
        GapsVanishOnlyAtIdeal(zs, vs);
      }
    }
  }

  lemma IdealSums(vs: seq<real>)
    requires Positive(vs)
    ensures Sum(Ideal(vs)) == 1.0
  {
    NormalisedSumsToOne(Precisions(vs));
  }

  // ---------------------------------------------------------------- the ensemble's weights

  /** Every variance reaches the floor, or all are the same. */
  ghost predicate FloorIsHarmless(vs: seq<real>) {
    (forall i :: 0 <= i < |vs| ==> vs[i] >= FLOOR) || forall i, j :: 0 <= i < |vs| && 0 <= j < |vs| ==> vs[i] == vs[j]
  }

  lemma NormalisedAt(ws: seq<real>, i: nat)
    requires Sum(ws) > 0.0 && i < |ws|
    ensures |Normalised(ws)| == |ws| && Normalised(ws)[i] == Inverse(Sum(ws)) * ws[i]
  {
    ScaledAt(Inverse(Sum(ws)), ws, i);
  }

  lemma ProportionalNormalises(ws: seq<real>, ss: seq<real>, a: real)
    requires a > 0.0 && Sum(ss) > 0.0 && ws == Scaled(a, ss)
    ensures Sum(ws) > 0.0 && Normalised(ws) == Normalised(ss)
  {
    hide Sum, Scaled, Normalised, Inverse;
    SumScaled(a, ss);
    PositiveProduct(a, Sum(ss));
    var total, scaledTotal := Sum(ss), Sum(ws);
    NormalisedSumsToOne(ws);
    NormalisedSumsToOne(ss);
    forall i | 0 <= i < |ss| ensures Normalised(ws)[i] == Normalised(ss)[i] {
      NormalisedAt(ws, i);
      ScaledAt(a, ss, i);
      NormalisedAt(ss, i);
      SameShare(a, ss[i], ws[i], total, scaledTotal, Inverse(total), Inverse(scaledTotal));
    }
  }

  lemma SameShare(a: real, s: real, w: real, total: real, scaledTotal: real, inv: real, scaledInv: real)
    requires a > 0.0 && total > 0.0 && scaledTotal == a * total && w == a * s
    requires inv * total == 1.0 && scaledInv * scaledTotal == 1.0
    ensures scaledInv * w == inv * s
  {
    assert scaledInv * (a * total) == 1.0;
    assert (scaledInv * a - inv) * total == 0.0;
    assert scaledInv * a == inv;
    assert scaledInv * (a * s) == (scaledInv * a) * s;
  }

  lemma WeightAsScaledPrecision(v: real, a: real)
    requires v > 0.0 && a * Max(v, FLOOR) == v
    ensures WeightOf(v) == a * Inverse(v)
  {
    var m, w, s := Max(v, FLOOR), WeightOf(v), Inverse(v);
    assert (a * s) * m == s * (a * m) == 1.0;
    assert (a * s - w) * m == 0.0;
  }

  lemma HarmlessScale(vs: seq<real>) returns (a: real)
    requires Positive(vs) && FloorIsHarmless(vs)
    ensures a > 0.0 && forall i :: 0 <= i < |vs| ==> a * Max(vs[i], FLOOR) == vs[i]
  {
    if forall i :: 0 <= i < |vs| ==> vs[i] >= FLOOR {
      a := 1.0;
    } else {
      var m := Max(vs[0], FLOOR);
      a := vs[0] / m;
      DivideCancels(vs[0], m);
    }
  }

  lemma WeightsAreScaled(vs: seq<real>, a: real)
    requires Positive(vs) && forall i :: 0 <= i < |vs| ==> a * Max(vs[i], FLOOR) == vs[i]
    ensures Weights(vs) == Scaled(a, Precisions(vs))
  {
    hide Max, WeightOf, Inverse, Scaled;
    var ss := Precisions(vs);
    forall i | 0 <= i < |vs| ensures Weights(vs)[i] == Scaled(a, ss)[i] {
      ScaledAt(a, ss, i);
      WeightAsScaledPrecision(vs[i], a);
    }
  }

  lemma HarmlessFloorIsIdeal(vs: seq<real>)
    requires Positive(vs) && FloorIsHarmless(vs)
    ensures Sum(Weights(vs)) > 0.0 && Normalised(Weights(vs)) == Ideal(vs)
  {
    hide Max, Inverse, Sum, FloorIsHarmless, Scaled, Weights, WeightOf;
    var a := HarmlessScale(vs);
    WeightsAreScaled(vs, a);
    ProportionalNormalises(Weights(vs), Precisions(vs), a);
  }

  lemma SharedRatio(w: real, v: real, s: real, inv: real, total: real, c: real)
    requires total > 0.0 && inv * total == 1.0 && s * v == 1.0 && inv * w == c * s
    ensures w * v == c * total
  {
    assert w == (inv * total) * w == total * (c * s);
    assert w * v == (total * c) * (s * v);
  }

  /** In ideal normalised weights every weight times its variance is the same number. */
  lemma IdealSharesRatio(vs: seq<real>, i: nat, k: real)
    requires Positive(vs) && Sum(Weights(vs)) > 0.0 && Normalised(Weights(vs)) == Ideal(vs)
    requires i < |vs| && k == LeastVariance(vs) * Sum(Weights(vs))
    ensures Weights(vs)[i] * vs[i] == k
  {
    hide Sum, Normalised, Ideal, LeastVariance, Weights, Precisions, Inverse;
    var ws, ss := Weights(vs), Precisions(vs);
    NormalisedAt(ws, i);
    IdealAt(vs, i);
    SharedRatio(ws[i], vs[i], ss[i], Inverse(Sum(ws)), Sum(ws), LeastVariance(vs));
  }

  lemma SameRatioHarmless(vs: seq<real>, ws: seq<real>, k: real)
    requires |ws| == |vs|
    requires forall i :: 0 <= i < |vs| ==> RatioAt(ws[i], vs[i], k)
    ensures FloorIsHarmless(vs)
  {
    hide RatioAt;
    if i :| 0 <= i < |vs| && vs[i] >= FLOOR {
      forall j | 0 <= j < |vs| ensures vs[j] >= FLOOR {
        RatioAboveFloor(ws[i], vs[i], ws[j], vs[j], k);
      }
    } else {
      forall i, j | 0 <= i < |vs| && 0 <= j < |vs| ensures vs[i] == vs[j] {
        RatioBelowFloor(ws[i], vs[i], ws[j], vs[j], k);
      }
    }
  }

  ghost predicate RatioAt(w: real, v: real, k: real) { w > 0.0 && w * Max(v, FLOOR) == 1.0 && w * v == k }

  lemma RatioAboveFloor(w: real, v: real, z: real, y: real, k: real)
    requires RatioAt(w, v, k) && RatioAt(z, y, k) && v >= FLOOR
    ensures y >= FLOOR
  {
    assert k == 1.0;
    SameFactor(z, y, Max(y, FLOOR));
  }

  lemma RatioBelowFloor(w: real, v: real, z: real, y: real, k: real)
    requires RatioAt(w, v, k) && RatioAt(z, y, k) && v < FLOOR && y < FLOOR
    ensures v == y
  {
    SameFactorLeft(w, z, FLOOR);
    SameFactor(w, v, y);
  }

  lemma IdealHasHarmlessFloor(vs: seq<real>)
    requires Positive(vs) && Sum(Weights(vs)) > 0.0 && Normalised(Weights(vs)) == Ideal(vs)
    ensures FloorIsHarmless(vs)
  {
    hide Sum, Normalised, Ideal, LeastVariance, WeightOf;
    var k := LeastVariance(vs) * Sum(Weights(vs));
    forall i | 0 <= i < |vs| ensures RatioAt(Weights(vs)[i], vs[i], k) {
      IdealSharesRatio(vs, i, k);
    }
    SameRatioHarmless(vs, Weights(vs), k);
  }

  lemma SameFactor(w: real, x: real, y: real)
    requires w > 0.0 && w * x == w * y
    ensures x == y
  {
    assert w * (x - y) == 0.0;
  }

  lemma SameFactorLeft(w: real, z: real, m: real)
    requires m > 0.0 && w * m == z * m
    ensures w == z
  {
    SameFactor(m, w, z);
  }

  lemma PooledIsWeighted(ws: seq<real>, vs: seq<real>)
    requires |ws| == |vs| && Sum(ws) > 0.0
    ensures |Normalised(ws)| == |ws| && PooledVariance(ws, vs) == WeightedVariance(Normalised(ws), vs)
  {
    hide Sum, Quad, Scaled;
    var total := Sum(ws);
    var inv := Inverse(total);
    forall i | 0 <= i < |ws| ensures Quad(Normalised(ws), vs)[i] == Scaled(inv * inv, Quad(ws, vs))[i] {
      ScaledAt(inv, ws, i);
      QuadAt(Normalised(ws), vs, i);
      QuadAt(ws, vs, i);
      ScaledAt(inv * inv, Quad(ws, vs), i);
      ScaledQuad(inv, ws[i], vs[i]);
    }
    assert Quad(Normalised(ws), vs) == Scaled(inv * inv, Quad(ws, vs));
    SumScaled(inv * inv, Quad(ws, vs));
    OverSquareIsScaled(Sum(Quad(ws, vs)), total, inv);
  }

  lemma ScaledQuad(t: real, w: real, v: real)
    ensures (t * w) * (t * w) * v == t * t * (w * w * v)
  {
  }

  lemma OverProductIsScaled(q: real, s: real, t: real, invS: real, invT: real)
    requires s > 0.0 && t > 0.0 && invS * s == 1.0 && invT * t == 1.0
    ensures s * t > 0.0 && q / (s * t) == invS * invT * q
  {
    PositiveProduct(s, t);
    DivideCancels(q, s * t);
    assert (invS * invT) * (s * t) == (invS * s) * (invT * t);
    assert invS * invT * q * (s * t) == q * ((invS * invT) * (s * t));
    SameFactor(s * t, q / (s * t), invS * invT * q);
  }

  lemma OverSquareIsScaled(q: real, total: real, inv: real)
    requires total > 0.0 && inv * total == 1.0
    ensures OverSquare(q, total) == inv * inv * q
  {
    OverProductIsScaled(q, total, total, inv, inv);
  }

  /** The ensemble's weights have the least variance of all weights summing to 1 exactly when every
      member's variance reaches the floor of 1e-9, or all members have the same variance; and the
      variance the forecast reports is the variance of those weights. */
  lemma EnsembleMinimalIff(ms: seq<Member>, root: real -> real)
    requires ms != []
    ensures var vs := Variances(ms);
            && Sum(Weights(vs)) > 0.0
            && Combine(ms, root).variance == WeightedVariance(Normalised(Weights(vs)), vs)
            && (Minimal(Normalised(Weights(vs)), vs) <==> FloorIsHarmless(vs))
  {
    hide PooledVariance, WeightedVariance, Normalised, Ideal, Mean;
    var vs := Variances(ms);
    var ws := Weights(vs);
    SumPositive(ws);
    PooledIsWeighted(ws, vs);
    NormalisedSumsToOne(ws);
    MinimalIffIdeal(Normalised(ws), vs);
    if FloorIsHarmless(vs) {
      HarmlessFloorIsIdeal(vs);
    }
    if Normalised(ws) == Ideal(vs) {
      IdealHasHarmlessFloor(vs);
    }
  }

  const WIDE: Member := Member("wide", {"t"}, MemberForecast(10.0, 8.04, 11.96, 0.5))
  const NARROW: Member := Member("narrow", {"t"}, MemberForecast(10.0, 9.9999804, 10.0000196, 0.5))

  lemma ExampleVariances()
    ensures VarianceOf(WIDE.forecast) == 1.0 && VarianceOf(NARROW.forecast) == 0.0000000001
  {
    assert (11.96 - 8.04) / (2.0 * Z95) == 1.0;
    assert (10.0000196 - 9.9999804) / (2.0 * Z95) == 0.00001;
  }

  /** An example: a member surer than the floor allows gets too little weight. */
  lemma FlooredEnsembleIsNotMinimal()
    ensures var vs := Variances([WIDE, NARROW]);
      Sum(Weights(vs)) > 0.0 && !Minimal(Normalised(Weights(vs)), vs)
  {
    hide Minimal, Normalised, Sum;
    var vs := Variances([WIDE, NARROW]);
    ExampleVariances();
    assert vs[0] == 1.0 && vs[1] == 0.0000000001;
    EnsembleMinimalIff([WIDE, NARROW], x => x);
  }
}
