/** Statistics per variant (app/experiments/engine.py): confusion counts, and the observations of each
    variant summarised. Labels are compared pair by pair after the missing ones are dropped. */
module Statistics {
  import opened RealMath
  import opened Sequences
  import opened Wrappers

  /** An observation with its variant's key. */
  datatype View = View(
    variantKey: string, outcome: bool, profit: Option<real>, roi: Option<real>, value: Option<real>,
    predicted: Option<bool>, groundTruth: Option<bool>)

  // ---------------------------------------------------------------- confusion metrics

  datatype Confusion = Confusion(tp: nat, fp: nat, tn: nat, fn: nat)

  function Tally(c: Confusion, predicted: bool, truth: bool): Confusion {
    if truth then (if predicted then c.(tp := c.tp + 1) else c.(fn := c.fn + 1))
    else if predicted then c.(fp := c.fp + 1)
    else c.(tn := c.tn + 1)
  }

  /** The counts over the first `n` pairs. */
  function Tallied(predicted: seq<bool>, truth: seq<bool>, n: nat): Confusion
    requires n <= |predicted| && n <= |truth|
  {
    if n == 0 then Confusion(0, 0, 0, 0) else Tally(Tallied(predicted, truth, n - 1), predicted[n - 1], truth[n - 1])
  }

  function Shorter(a: seq<bool>, b: seq<bool>): nat { if |a| <= |b| then |a| else |b| }

  method ConfusionMetrics(predicted: seq<bool>, truth: seq<bool>) returns (c: Confusion)
    ensures c == Tallied(predicted, truth, Shorter(predicted, truth))
  {
    var tp, fp, tn, fn := 0, 0, 0, 0;
    for i := 0 to Shorter(predicted, truth)
      invariant tp >= 0 && fp >= 0 && tn >= 0 && fn >= 0
      invariant Confusion(tp, fp, tn, fn) == Tallied(predicted, truth, i)
    {
      if truth[i] {
        if predicted[i] { tp := tp + 1; } else { fn := fn + 1; }
      } else {
        if predicted[i] { fp := fp + 1; } else { tn := tn + 1; }
      }
    }
    c := Confusion(tp, fp, tn, fn);
  }

  function Ratio(a: nat, b: nat): real { if b > 0 then a as real / b as real else 0.0 }

  function PrecisionOf(c: Confusion): real { Ratio(c.tp, c.tp + c.fp) }

  function RecallOf(c: Confusion): real { Ratio(c.tp, c.tp + c.fn) }

  function AccuracyOf(c: Confusion): real { Ratio(c.tp + c.tn, c.tp + c.fp + c.tn + c.fn) }

  function Harmonic(p: real, r: real): real { if p + r > 0.0 then 2.0 * p * r / (p + r) else 0.0 }

  function F1Of(c: Confusion): real { Harmonic(PrecisionOf(c), RecallOf(c)) }

  ghost function CountPairs(predicted: seq<bool>, truth: seq<bool>, n: nat, p: bool, t: bool): nat
    requires n <= |predicted| && n <= |truth|
  {
    if n == 0 then 0
    else CountPairs(predicted, truth, n - 1, p, t) + if predicted[n - 1] == p && truth[n - 1] == t then 1 else 0
  }

  /** Each counter counts its own kind of pair, and together they count every pair once. */
  lemma {:induction false} CountersAreExact(predicted: seq<bool>, truth: seq<bool>, n: nat)
    requires n <= |predicted| && n <= |truth|
    ensures var c := Tallied(predicted, truth, n);
      && c.tp == CountPairs(predicted, truth, n, true, true)
      && c.fp == CountPairs(predicted, truth, n, true, false)
      && c.tn == CountPairs(predicted, truth, n, false, false)
      && c.fn == CountPairs(predicted, truth, n, false, true)
      && c.tp + c.fp + c.tn + c.fn == n
  {
    if n > 0 { CountersAreExact(predicted, truth, n - 1); }
  }

  lemma RatioInUnit(a: nat, b: nat)
    requires a <= b
    ensures 0.0 <= Ratio(a, b) <= 1.0
  {
    if b > 0 { DivideBounds(a as real, b as real); }
  }

  lemma DivideBounds(a: real, b: real)
    requires 0.0 <= a <= b && b > 0.0
    ensures 0.0 <= a / b <= 1.0
  {
    var q := a / b;
    assert q * b == a;
    if q < 0.0 { NegativeProduct(q, b); }
    if q > 1.0 { NegativeProduct(1.0 - q, b); }
  }

  lemma NegativeProduct(q: real, b: real)
    requires q < 0.0 && b > 0.0
    ensures q * b < 0.0
  {
  }

  /** F1 lies between precision and recall, all of them between 0 and 1. */
  lemma F1Between(c: Confusion)
    ensures 0.0 <= PrecisionOf(c) <= 1.0 && 0.0 <= RecallOf(c) <= 1.0 && 0.0 <= AccuracyOf(c) <= 1.0
    ensures Min(PrecisionOf(c), RecallOf(c)) <= F1Of(c) <= Max(PrecisionOf(c), RecallOf(c))
  {
    RatioInUnit(c.tp, c.tp + c.fp);
    RatioInUnit(c.tp, c.tp + c.fn);
    RatioInUnit(c.tp + c.tn, c.tp + c.fp + c.tn + c.fn);
    HarmonicBetween(PrecisionOf(c), RecallOf(c));
  }

  lemma HarmonicBetween(p: real, r: real)
    requires p >= 0.0 && r >= 0.0
    ensures Min(p, r) <= Harmonic(p, r) <= Max(p, r)
  {
    if p + r > 0.0 {
      if p <= r { HarmonicOrdered(p, r, p + r, Harmonic(p, r)); } else { HarmonicOrdered(r, p, p + r, Harmonic(p, r)); }
    }
  }

  lemma HarmonicOrdered(low: real, high: real, sum: real, h: real)
    requires 0.0 <= low <= high && sum == low + high && sum > 0.0 && h == 2.0 * low * high / sum
    ensures low <= h <= high
  {
    assert h * sum == 2.0 * low * high;
    assert low * (high - low) >= 0.0 && high * (high - low) >= 0.0;
    assert low * sum == low * low + low * high;
    assert high * sum == high * low + high * high;
    if h < low { NegativeProduct(h - low, sum); }
    if h > high { NegativeProduct(high - h, sum); }
  }

  // ---------------------------------------------------------------- aggregation per variant

  function KeysOf(views: seq<View>): (ks: seq<string>)
    ensures |ks| == |views| && forall i :: 0 <= i < |views| ==> ks[i] == views[i].variantKey
  {
    seq(|views|, i requires 0 <= i < |views| => views[i].variantKey)
  }

  /** The observations of one variant, in order. */
  function Items(views: seq<View>, key: string): seq<View> {
    if views == [] then []
    else
      var last := views[|views| - 1];
      Items(views[..|views| - 1], key) + if last.variantKey == key then [last] else []
  }

  lemma {:induction false} ItemsAreExact(views: seq<View>, key: string, v: View)
    ensures v in Items(views, key) <==> v in views && v.variantKey == key
  {
    if views != [] {
      var init, last := views[..|views| - 1], views[|views| - 1];
      ItemsAreExact(init, key, v);
      assert views == init + [last];
    }
  }

  function Present<T>(values: seq<Option<T>>): seq<T> {
    if values == [] then []
    else Present(values[..|values| - 1]) + match values[|values| - 1] case None => [] case Some(x) => [x]
  }

  function ProfitOf(v: View): Option<real> { v.profit }

  function RoiOf(v: View): Option<real> { v.roi }

  function ValueOf(v: View): Option<real> { v.value }

  /** The values a field has where it is given. */
  function Given(items: seq<View>, field: View -> Option<real>): seq<real> {
    if items == [] then []
    else Given(items[..|items| - 1], field) + match field(items[|items| - 1]) case None => [] case Some(x) => [x]
  }

  function Predictions(items: seq<View>): seq<Option<bool>> {
    seq(|items|, i requires 0 <= i < |items| => items[i].predicted)
  }

  function Truths(items: seq<View>): seq<Option<bool>> {
    seq(|items|, i requires 0 <= i < |items| => items[i].groundTruth)
  }

  function Successes(items: seq<View>): nat {
    if items == [] then 0 else Successes(items[..|items| - 1]) + if items[|items| - 1].outcome then 1 else 0
  }

  function Mean(values: seq<real>): real {
    if values == [] then 0.0 else Sum(values) / |values| as real
  }

  function SquaredGap(x: real, m: real): real { (x - m) * (x - m) }

  function Deviations(values: seq<real>, m: real): (ds: seq<real>)
    ensures |ds| == |values| && forall i :: 0 <= i < |ds| ==> ds[i] == SquaredGap(values[i], m)
  {
    seq(|values|, i requires 0 <= i < |values| => SquaredGap(values[i], m))
  }

  function Variance(values: seq<real>): real {
    if |values| < 2 then 0.0 else Sum(Deviations(values, Mean(values))) / (|values| - 1) as real
  }

  datatype Spread = Spread(mean: real, variance: real)

  function SpreadOf(values: seq<real>): Spread { Spread(Mean(values), Variance(values)) }

  datatype Entry = Entry(
    key: string, n: nat, successes: nat, profit: Spread, roi: Spread, value: Spread, confusion: Option<Confusion>)

  function ConfusionOf(items: seq<View>): Option<Confusion> {
    var predicted, truth := Present(Predictions(items)), Present(Truths(items));
    if predicted == [] || truth == [] then None else Some(Tallied(predicted, truth, Shorter(predicted, truth)))
  }

  function EntryOf(key: string, items: seq<View>): Entry {
    Entry(key, |items|, Successes(items), SpreadOf(Given(items, ProfitOf)), SpreadOf(Given(items, RoiOf)),
          SpreadOf(Given(items, ValueOf)), ConfusionOf(items))
  }

  ghost predicate IsStats(stats: seq<Entry>, views: seq<View>) {
    && |stats| == |Distinct(KeysOf(views))|
    && forall k :: 0 <= k < |stats| ==>
         stats[k] == EntryOf(Distinct(KeysOf(views))[k], Items(views, Distinct(KeysOf(views))[k]))
  }

  /** The dictionary of groups over the first `i` observations, and its keys in order of appearance. */
  ghost predicate IsGrouped(order: seq<string>, groups: map<string, seq<View>>, views: seq<View>, i: nat)
    requires i <= |views|
  {
    && order == Distinct(KeysOf(views[..i]))
    && (forall k :: k in groups <==> k in order)
    && (forall k :: k in groups ==> groups[k] == Items(views[..i], k))
  }

  lemma GroupStep(order: seq<string>, groups: map<string, seq<View>>, views: seq<View>, i: nat)
    requires i < |views| && IsGrouped(order, groups, views, i)
    ensures var v := views[i];
      var k := v.variantKey;
      if k in groups then IsGrouped(order, groups[k := groups[k] + [v]], views, i + 1)
      else IsGrouped(order + [k], groups[k := [v]], views, i + 1)
  {
    var v, k := views[i], views[i].variantKey;
    assert views[..i + 1][..i] == views[..i];
    assert KeysOf(views[..i + 1])[..i] == KeysOf(views[..i]);
    forall x ensures Items(views[..i + 1], x) == Items(views[..i], x) + if k == x then [v] else [] {
    }
    if k !in groups { NoItems(views[..i], k); }
    hide Items, Distinct, KeysOf;
    assert forall x :: Items(views[..i], x) + [] == Items(views[..i], x);
  }

  lemma NoItems(views: seq<View>, k: string)
    requires k !in Distinct(KeysOf(views))
    ensures Items(views, k) == []
  {
    if Items(views, k) != [] {
      ItemsAreExact(views, k, Items(views, k)[0]);
      KeyIsListed(views, Items(views, k)[0]);
    }
  }

  method GroupByVariant(views: seq<View>) returns (order: seq<string>, groups: map<string, seq<View>>)
    ensures IsGrouped(order, groups, views, |views|)
  {
    hide Items;
    order, groups := [], map[];
    for i := 0 to |views|
      invariant IsGrouped(order, groups, views, i)
    {
      GroupStep(order, groups, views, i);
      hide IsGrouped;
      var v := views[i];
      if v.variantKey in groups {
        groups := groups[v.variantKey := groups[v.variantKey] + [v]];
      } else {
        order := order + [v.variantKey];
        groups := groups[v.variantKey := [v]];
      }
    }
  }

  /** Groups by variant, then summarises each group; a dictionary keeps the order in which keys appeared. */
  method VariantStats(views: seq<View>) returns (stats: seq<Entry>)
    ensures IsStats(stats, views)
  {
    hide Items, EntryOf;
    var order, groups := GroupByVariant(views);
    assert views[..|views|] == views;
    stats := [];
    for k := 0 to |order|
      invariant |stats| == k
      invariant forall j :: 0 <= j < k ==> stats[j] == EntryOf(order[j], Items(views, order[j]))
    {
      stats := stats + [EntryOf(order[k], groups[order[k]])];
    }
  }

  ghost function Sizes(stats: seq<Entry>): nat {
    if stats == [] then 0 else Sizes(stats[..|stats| - 1]) + stats[|stats| - 1].n
  }

  /** What each key contributes to the number of observations. */
  ghost function Counts(keys: seq<string>, views: seq<View>): nat {
    if keys == [] then 0 else Counts(keys[..|keys| - 1], views) + |Items(views, keys[|keys| - 1])|
  }

  lemma {:induction false} CountsStep(keys: seq<string>, views: seq<View>)
    requires views != [] && NoDuplicates(keys)
    ensures var last := views[|views| - 1];
      Counts(keys, views) == Counts(keys, views[..|views| - 1]) + if last.variantKey in keys then 1 else 0
  {
    if keys != [] {
      var init := keys[..|keys| - 1];
      CountsStep(init, views);
      assert keys == init + [keys[|keys| - 1]];
    }
  }

  lemma {:induction false} NothingCounted(keys: seq<string>)
    ensures Counts(keys, []) == 0
  {
    if keys != [] { NothingCounted(keys[..|keys| - 1]); }
  }

  lemma {:induction false} CountsEverything(keys: seq<string>, views: seq<View>)
    requires NoDuplicates(keys) && forall v :: v in views ==> v.variantKey in keys
    ensures Counts(keys, views) == |views|
  {
    if views == [] {
      NothingCounted(keys);
    } else {
      CountsStep(keys, views);
      assert views[|views| - 1] in views;
      CountsEverything(keys, views[..|views| - 1]);
    }
  }

  lemma {:induction false} SizesAreCounts(stats: seq<Entry>, keys: seq<string>, views: seq<View>)
    requires |stats| == |keys| && forall k :: 0 <= k < |keys| ==> stats[k].n == |Items(views, keys[k])|
    ensures Sizes(stats) == Counts(keys, views)
  {
    if stats != [] { SizesAreCounts(stats[..|stats| - 1], keys[..|keys| - 1], views); }
  }

  lemma KeyIsListed(views: seq<View>, v: View)
    requires v in views
    ensures v.variantKey in Distinct(KeysOf(views))
  {
    var i :| 0 <= i < |views| && views[i] == v;
    assert KeysOf(views)[i] == v.variantKey;
  }

  lemma GroupIsNotEmpty(views: seq<View>, key: string)
    requires key in Distinct(KeysOf(views))
    ensures |Items(views, key)| > 0
  {
    var i :| 0 <= i < |views| && KeysOf(views)[i] == key;
    ItemsAreExact(views, key, views[i]);
  }

  /** Aggregation partitions the observations: every key once, every observation in its own key's group
      and no other, and the group sizes, none of them zero, add up to the number of observations. */
  lemma StatsPartition(stats: seq<Entry>, views: seq<View>)
    requires IsStats(stats, views)
    ensures forall i, j :: 0 <= i < j < |stats| ==> stats[i].key != stats[j].key
    ensures forall v, k :: 0 <= k < |stats| && v in views ==>
      (v in Items(views, stats[k].key) <==> stats[k].key == v.variantKey)
    ensures forall v :: v in views ==> exists k :: 0 <= k < |stats| && stats[k].key == v.variantKey
    ensures forall k :: 0 <= k < |stats| ==> stats[k].n > 0
    ensures Sizes(stats) == |views|
  {
    hide Items, Distinct, KeysOf, Counts, Sizes;
    var keys := Distinct(KeysOf(views));
    forall v | v in views ensures exists k :: 0 <= k < |stats| && stats[k].key == v.variantKey {
      KeyIsListed(views, v);
      var k :| 0 <= k < |keys| && keys[k] == v.variantKey;
      assert stats[k].key == v.variantKey;
    }
    forall v | v in views ensures v.variantKey in keys { KeyIsListed(views, v); }
    forall v, k | 0 <= k < |stats| && v in views
      ensures v in Items(views, stats[k].key) <==> stats[k].key == v.variantKey
    {
      ItemsAreExact(views, stats[k].key, v);
    }
    forall k | 0 <= k < |stats| ensures stats[k].n > 0 { GroupIsNotEmpty(views, keys[k]); }
    SizesAreCounts(stats, keys, views);
    CountsEverything(keys, views);
  }

  // ---------------------------------------------------------------- what the figures mean

  /** `x` is the part that `a` is of `b`, and 0 of nothing. */
  ghost predicate IsShare(x: real, a: nat, b: nat) { x * b as real == a as real && (b == 0 ==> x == 0.0) }

  lemma RatioIsShare(a: nat, b: nat)
    requires a <= b
    ensures IsShare(Ratio(a, b), a, b)
  {
    if b > 0 { DivideCancels(a as real, b as real); }
  }

  /** Precision is the share of true ones among those predicted, recall the share of those predicted among
      the true ones, accuracy the share predicted rightly. */
  lemma SharesOfPairs(c: Confusion)
    ensures IsShare(PrecisionOf(c), c.tp, c.tp + c.fp)
    ensures IsShare(RecallOf(c), c.tp, c.tp + c.fn)
    ensures IsShare(AccuracyOf(c), c.tp + c.tn, c.tp + c.tn + c.fp + c.fn)
  {
    hide Ratio, IsShare;
    RatioIsShare(c.tp, c.tp + c.fp);
    RatioIsShare(c.tp, c.tp + c.fn);
    RatioIsShare(c.tp + c.tn, c.tp + c.fp + c.tn + c.fn);
    assert c.tp + c.fp + c.tn + c.fn == c.tp + c.tn + c.fp + c.fn;
  }

  /** F1 counts every true positive twice, against everything predicted and everything true. */
  lemma F1CountsTwice(c: Confusion)
    ensures IsShare(F1Of(c), 2 * c.tp, 2 * c.tp + c.fp + c.fn)
  {
    SharesOfPairs(c);
    if c.tp == 0 {
      ZeroShares(c);
      hide F1Of, PrecisionOf, RecallOf;
    } else {
      var p, r := PrecisionOf(c), RecallOf(c);
      hide PrecisionOf, RecallOf, Harmonic, IsShare;
      SharesOfTp(c, p, r);
      TwiceAsReal(Harmonic(p, r), c);
    }
  }

  lemma SharesOfTp(c: Confusion, p: real, r: real)
    requires c.tp > 0 && IsShare(p, c.tp, c.tp + c.fp) && IsShare(r, c.tp, c.tp + c.fn)
    ensures Harmonic(p, r) * ((c.tp + c.fp) as real + (c.tp + c.fn) as real) == 2.0 * c.tp as real
  {
    HarmonicOfShares(p, r, (c.tp + c.fp) as real, (c.tp + c.fn) as real, c.tp as real);
    hide Harmonic;
  }

  lemma TwiceAsReal(f: real, c: Confusion)
    requires c.tp > 0 && f * ((c.tp + c.fp) as real + (c.tp + c.fn) as real) == 2.0 * c.tp as real
    ensures IsShare(f, 2 * c.tp, 2 * c.tp + c.fp + c.fn)
  {
    assert (2 * c.tp + c.fp + c.fn) as real == (c.tp + c.fp) as real + (c.tp + c.fn) as real;
    assert (2 * c.tp) as real == 2.0 * c.tp as real;
  }

  lemma ZeroShares(c: Confusion)
    requires c.tp == 0
    ensures F1Of(c) == 0.0
  {
    assert PrecisionOf(c) == 0.0 && RecallOf(c) == 0.0;
  }

  lemma HarmonicOfShares(p: real, r: real, a: real, b: real, tp: real)
    requires a > 0.0 && b > 0.0 && tp > 0.0 && p * a == tp && r * b == tp
    ensures Harmonic(p, r) * (a + b) == 2.0 * tp
  {
    PositiveFactor(p, a);
    PositiveFactor(r, b);
    var h := 2.0 * p * r / (p + r);
    DivideCancels(2.0 * p * r, p + r);
    SharesMultiplied(p, r, a, b, tp, h);
  }

  lemma SharesMultiplied(p: real, r: real, a: real, b: real, tp: real, h: real)
    requires a > 0.0 && b > 0.0 && p > 0.0 && r > 0.0 && p * a == tp && r * b == tp && h * (p + r) == 2.0 * p * r
    ensures h * (a + b) == 2.0 * tp
  {
    PositiveProduct(p, r);
    var d := h * (a + b) - 2.0 * tp;
    assert (a + b) * (p * r) == tp * (p + r) by {
      assert (a + b) * (p * r) == (p * a) * r + (r * b) * p;
    }
    assert h * (a + b) * (p * r) == h * (p + r) * tp by {
      assert h * ((a + b) * (p * r)) == h * (tp * (p + r));
    }
    assert d * (p * r) == 0.0;
  }

  /** The mean balances the values, and the variance is what is left of the sum of squares when the values
      have been centred, per degree of freedom. */
  lemma SpreadByMoments(values: seq<real>)
    ensures values != [] ==> Mean(values) * |values| as real == Sum(values)
    ensures values == [] ==> Mean(values) == 0.0
    ensures |values| < 2 ==> Variance(values) == 0.0
    ensures |values| >= 2 ==>
      Variance(values) * (|values| - 1) as real
        == Sum(Deviations(values, 0.0)) - Squared(Mean(values)) * |values| as real
  {
    if values != [] { MeanBalances(values); }
    if |values| >= 2 { VarianceBalances(values); }
    hide Mean, Squared, Deviations;
  }

  lemma MeanBalances(values: seq<real>)
    requires values != []
    ensures Mean(values) * |values| as real == Sum(values)
  {
    hide Sum;
    DivideCancels(Sum(values), |values| as real);
  }

  lemma VarianceBalances(values: seq<real>)
    requires |values| >= 2
    ensures Variance(values) * (|values| - 1) as real
      == Sum(Deviations(values, 0.0)) - Squared(Mean(values)) * |values| as real
  {
    hide Sum, Mean, Squared, MomentShift, Deviations;
    var m, n := Mean(values), |values| as real;
    MeanBalances(values);
    DeviationsShift(values, m);
    Balance(m, Sum(values), n);
    DivideCancels(Sum(Deviations(values, m)), (|values| - 1) as real);
  }

  /** What centring `n` values of sum `sum` at `m` adds to their sum of squares. */
  ghost function MomentShift(m: real, sum: real, n: real): real { -2.0 * m * sum + m * m * n }

  lemma Balance(m: real, sum: real, n: real)
    requires m * n == sum
    ensures MomentShift(m, sum, n) == -(Squared(m) * n)
  {
    assert m * sum == m * (m * n);
  }

  lemma SumCons(xs: seq<real>)
    requires xs != []
    ensures Sum(xs) == xs[0] + Sum(xs[1..])
  {
  }

  lemma {:induction false} DeviationsShift(values: seq<real>, m: real)
    ensures Sum(Deviations(values, m)) == Sum(Deviations(values, 0.0)) + MomentShift(m, Sum(values), |values| as real)
  {
    if values != [] {
      var x, rest := values[0], values[1..];
      SumCons(values);
      SumCons(Deviations(values, m));
      SumCons(Deviations(values, 0.0));
      hide Sum, SquaredGap, MomentShift;
      DeviationsShift(rest, m);
      assert Deviations(values, m)[1..] == Deviations(rest, m);
      assert Deviations(values, 0.0)[1..] == Deviations(rest, 0.0);
      ShiftOne(x, m, Sum(rest), |rest| as real);
      assert |values| as real == |rest| as real + 1.0;
    }
  }

  lemma ShiftOne(x: real, m: real, sum: real, n: real)
    ensures SquaredGap(x, m) + MomentShift(m, sum, n) == SquaredGap(x, 0.0) + MomentShift(m, x + sum, n + 1.0)
  {
    assert SquaredGap(x, m) == x * x - 2.0 * m * x + m * m;
    assert m * m * (n + 1.0) == m * m * n + m * m;
    assert m * (x + sum) == m * x + m * sum;
  }

  /** Each summary is of its own field: so it is for one observation, and every further observation adds its
      value to the values summarised. */
  lemma SummaryOfOne(v: View)
    ensures var e := EntryOf(v.variantKey, [v]);
      && e.key == v.variantKey && e.n == 1 && e.successes == (if v.outcome then 1 else 0)
      && e.profit == Spread(if v.profit.Some? then v.profit.value else 0.0, 0.0)
      && e.roi == Spread(if v.roi.Some? then v.roi.value else 0.0, 0.0)
      && e.value == Spread(if v.value.Some? then v.value.value else 0.0, 0.0)
  {
    assert [v][..0] == [] && Successes([]) == 0;
    assert Successes([v]) == Successes([v][..0]) + if v.outcome then 1 else 0;
    GivenOne(v, ProfitOf);
    GivenOne(v, RoiOf);
    GivenOne(v, ValueOf);
    hide Given, SpreadOf, ConfusionOf, Successes;
  }

  lemma GivenOne(v: View, field: View -> Option<real>)
    ensures SpreadOf(Given([v], field)) == Spread(if field(v).Some? then field(v).value else 0.0, 0.0)
  {
    assert [v][..0] == [];
    assert Given([], field) == [];
    if field(v).Some? {
      var x := field(v).value;
      assert Given([v], field) == [x];
      assert [x][1..] == [] && Sum([x]) == x;
      assert x / 1.0 == x;
      hide Given;
    }
  }

  lemma GivenNext(items: seq<View>, v: View, field: View -> Option<real>)
    ensures Given(items + [v], field) == Given(items, field) + if field(v).Some? then [field(v).value] else []
  {
    assert (items + [v])[..|items|] == items;
  }

  // ---------------------------------------------------------------- labels

  /** The labels given, in order; each list passes over the observations without its own label. */
  lemma LabelsNext(items: seq<View>, v: View)
    ensures Present(Predictions(items + [v]))
      == Present(Predictions(items)) + if v.predicted.Some? then [v.predicted.value] else []
    ensures Present(Truths(items + [v]))
      == Present(Truths(items)) + if v.groundTruth.Some? then [v.groundTruth.value] else []
    ensures Present(Predictions([])) == [] && Present(Truths([])) == []
    ensures Successes(items + [v]) == Successes(items) + (if v.outcome then 1 else 0) && Successes([]) == 0
  {
    assert (items + [v])[..|items|] == items;
    LabelsStep(items + [v]);
  }

  /** There are counters exactly when some observation carries the one label and some the other; they count
      the pairs of the first, second and so on of each label, as long as there are both. */
  lemma CountersOfLabels(items: seq<View>)
    ensures var predicted, truth := Present(Predictions(items)), Present(Truths(items));
      && (ConfusionOf(items).Some? <==> predicted != [] && truth != [])
      && (ConfusionOf(items).Some? ==>
            var c := ConfusionOf(items).value;
            && c.tp + c.fp + c.tn + c.fn == (if |predicted| <= |truth| then |predicted| else |truth|)
            && c.tp == CountPairs(predicted, truth, c.tp + c.fp + c.tn + c.fn, true, true)
            && c.fp == CountPairs(predicted, truth, c.tp + c.fp + c.tn + c.fn, true, false)
            && c.tn == CountPairs(predicted, truth, c.tp + c.fp + c.tn + c.fn, false, false)
            && c.fn == CountPairs(predicted, truth, c.tp + c.fp + c.tn + c.fn, false, true))
  {
    var predicted, truth := Present(Predictions(items)), Present(Truths(items));
    CountersAreExact(predicted, truth, Shorter(predicted, truth));
    hide Present, Predictions, Truths, CountPairs, Tallied;
  }

  ghost predicate BothOrNeither(items: seq<View>) {
    forall i :: 0 <= i < |items| ==> (items[i].predicted.Some? <==> items[i].groundTruth.Some?)
  }

  ghost function CountLabelled(items: seq<View>, p: bool, t: bool): nat {
    if items == [] then 0
    else
      var last := items[|items| - 1];
      CountLabelled(items[..|items| - 1], p, t)
      + if last.predicted == Some(p) && last.groundTruth == Some(t) then 1 else 0
  }

  lemma {:induction false} LabelsAlign(items: seq<View>, p: bool, t: bool)
    requires BothOrNeither(items)
    ensures var predicted, truth := Present(Predictions(items)), Present(Truths(items));
      |predicted| == |truth| && CountPairs(predicted, truth, |predicted|, p, t) == CountLabelled(items, p, t)
  {
    if items != [] {
      var init, last := items[..|items| - 1], items[|items| - 1];
      LabelsAlign(init, p, t);
      LabelsStep(items);
      hide Predictions, Truths, Present, CountPairs, BothOrNeither;
      if last.predicted.Some? {
        PairsAppend(Present(Predictions(init)), Present(Truths(init)),
                    last.predicted.value, last.groundTruth.value, p, t);
      }
    }
  }

  lemma LabelsStep(items: seq<View>)
    requires items != []
    ensures var init, last := items[..|items| - 1], items[|items| - 1];
      && Present(Predictions(items)) == Extended(Present(Predictions(init)), last.predicted)
      && Present(Truths(items)) == Extended(Present(Truths(init)), last.groundTruth)
  {
    var init := items[..|items| - 1];
    assert Predictions(items)[..|items| - 1] == Predictions(init);
    assert Truths(items)[..|items| - 1] == Truths(init);
    PresentStep(Predictions(items));
    PresentStep(Truths(items));
  }

  function Extended<T>(values: seq<T>, more: Option<T>): seq<T> {
    if more.Some? then values + [more.value] else values
  }

  lemma PairsAppend(a: seq<bool>, b: seq<bool>, x: bool, y: bool, p: bool, t: bool)
    requires |a| == |b|
    ensures CountPairs(a + [x], b + [y], |a| + 1, p, t)
      == CountPairs(a, b, |a|, p, t) + if x == p && y == t then 1 else 0
  {
    PairsOfPrefix(a, b, [x], [y], |a|, p, t);
  }

  lemma PresentStep<T>(values: seq<Option<T>>)
    requires values != []
    ensures var last := values[|values| - 1];
      Present(values) == Present(values[..|values| - 1]) + if last.Some? then [last.value] else []
  {
  }

  lemma {:induction false} PairsOfPrefix(
    a: seq<bool>, b: seq<bool>, x: seq<bool>, y: seq<bool>, n: nat, p: bool, t: bool)
    requires n <= |a| && n <= |b|
    ensures CountPairs(a + x, b + y, n, p, t) == CountPairs(a, b, n, p, t)
  {
    if n > 0 { PairsOfPrefix(a, b, x, y, n - 1, p, t); }
  }

  /** When every observation carries both labels or neither, the counters count observations. (The two
      label lists are filtered separately, so with a single missing label they would slip.) */
  lemma ConfusionCountsObservations(items: seq<View>)
    requires BothOrNeither(items) && ConfusionOf(items).Some?
    ensures var c := ConfusionOf(items).value;
      && c.tp == CountLabelled(items, true, true) && c.fp == CountLabelled(items, true, false)
      && c.tn == CountLabelled(items, false, false) && c.fn == CountLabelled(items, false, true)
  {
    var predicted, truth := Present(Predictions(items)), Present(Truths(items));
    LabelsAlign(items, true, true);
    LabelsAlign(items, true, false);
    LabelsAlign(items, false, false);
    LabelsAlign(items, false, true);
    CountersAreExact(predicted, truth, |predicted|);
  }
}
