/** The winner of an experiment (app/experiments/engine.py). */
module Winner {
  // The two significance tests are inputs: functions to a p-value.

  import opened RealMath
  import opened Statistics
  import opened Wrappers

  datatype Metric = Conversion | Profit | Roi | Value | Accuracy | Precision | Recall | F1

  /** The tests' p-values: of two proportions, and of two means with variances and sizes. */
  datatype Tests = Tests(
    proportions: (nat, nat, nat, nat) -> real, means: (real, real, nat, real, real, nat) -> real)

  ghost predicate ProperTests(t: Tests) {
    && (forall a, b, c, d :: 0.0 <= t.proportions(a, b, c, d) <= 1.0)
    && (forall m, v, n, m', v', n' :: 0.0 <= t.means(m, v, n, m', v', n') <= 1.0)
  }

  // ---------------------------------------------------------------- comparison with the control

  /** What variants are compared under. */
  datatype Contest = Contest(control: Entry, alpha: real, metric: Metric, tests: Tests)

  datatype Comparison = Comparison(
    pValue: Option<real>, confidence: real, better: bool, uplift: real, significant: bool)

  /** The scalar a variant is ranked by. */
  function ScoreOf(e: Entry, metric: Metric): real {
    match metric
    case Conversion => Ratio(e.successes, e.n)
    case Profit => e.profit.mean
    case Roi => e.roi.mean
    case Value => e.value.mean
    case Accuracy => if e.confusion.Some? then AccuracyOf(e.confusion.value) else 0.0
    case Precision => if e.confusion.Some? then PrecisionOf(e.confusion.value) else 0.0
    case Recall => if e.confusion.Some? then RecallOf(e.confusion.value) else 0.0
    case F1 => if e.confusion.Some? then F1Of(e.confusion.value) else 0.0
  }

  function SpreadFor(e: Entry, metric: Metric): Spread {
    match metric case Profit => e.profit case Roi => e.roi case _ => e.value
  }

  /** Successes and trials of a proportion metric. */
  function Trials(e: Entry, metric: Metric): Option<(nat, nat)> {
    if metric.Conversion? then Some((e.successes, e.n))
    else match e.confusion
      case None => None
      case Some(c) =>
        if metric.Accuracy? then Some((c.tp + c.tn, e.n))
        else if metric.Precision? then Some((c.tp, c.tp + c.fp))
        else Some((c.tp, c.tp + c.fn))
  }

  function Uplift(e: Entry, c: Contest): real {
    var a, b := ScoreOf(e, c.metric), ScoreOf(c.control, c.metric);
    if c.metric.Conversion? && b > 0.0 then (a - b) / b else a - b
  }

  /** The p-value (None for F1, which has no test) and the confidence; None when a sample is too small to
      test, or labels are missing. */
  function Tested(e: Entry, c: Contest): Option<(Option<real>, real)> {
    if c.metric.F1? then Some((None, 0.0))
    else if c.metric.Profit? || c.metric.Roi? || c.metric.Value? then
      if e.n < 2 || c.control.n < 2 then None
      else
        var a, b := SpreadFor(e, c.metric), SpreadFor(c.control, c.metric);
        var p := c.tests.means(a.mean, a.variance, e.n, b.mean, b.variance, c.control.n);
        Some((Some(p), 1.0 - p))
    else
      match (Trials(e, c.metric), Trials(c.control, c.metric))
      case (Some(a), Some(b)) =>
        if a.1 == 0 || b.1 == 0 then None
        else
          var p := c.tests.proportions(a.0, a.1, b.0, b.1);
          Some((Some(p), 1.0 - p))
      case _ => None
  }

  predicate IsBetter(e: Entry, c: Contest) { ScoreOf(e, c.metric) > ScoreOf(c.control, c.metric) }

  predicate IsSignificant(e: Entry, c: Contest) {
    var t := Tested(e, c);
    t.Some? && IsBetter(e, c) && (t.value.0.Some? ==> t.value.0.value < c.alpha)
  }

  /** None when the variant cannot be tested. */
  function Compare(e: Entry, c: Contest): Option<Comparison> {
    match Tested(e, c)
    case None => None
    case Some(t) => Some(Comparison(t.0, t.1, IsBetter(e, c), Uplift(e, c), IsSignificant(e, c)))
  }

  /** Not the control, compared, and significantly better than the control. */
  predicate IsCandidate(e: Entry, c: Contest) { e.key != c.control.key && IsSignificant(e, c) }

  lemma CandidateHasComparison(e: Entry, c: Contest)
    ensures IsCandidate(e, c) <==>
      e.key != c.control.key && var r := Compare(e, c); r.Some? && r.value.significant && r.value.better
  {
  }

  // ---------------------------------------------------------------- the winner

  function FindKey(stats: seq<Entry>, key: string): (r: Option<nat>)
    ensures r.Some? ==> r.value < |stats| && stats[r.value].key == key
    ensures r.None? ==> forall i :: 0 <= i < |stats| ==> stats[i].key != key
  {
    if stats == [] then None
    else if stats[0].key == key then Some(0)
    else match FindKey(stats[1..], key) case None => None case Some(i) => Some(i + 1)
  }

  /** What a candidate is chosen by: uplift, then score. */
  predicate Beats(a: Entry, b: Entry, c: Contest) {
    || Uplift(a, c) > Uplift(b, c)
    || (Uplift(a, c) == Uplift(b, c) && ScoreOf(a, c.metric) > ScoreOf(b, c.metric))
  }

  datatype Verdict = Verdict(
    winner: Option<string>, leading: Option<string>, confidence: Option<real>, pValue: Option<real>)

  /** No entry scores higher. */
  ghost predicate HasTopScore(stats: seq<Entry>, metric: Metric, e: Entry) {
    forall j :: 0 <= j < |stats| ==> ScoreOf(stats[j], metric) <= ScoreOf(e, metric)
  }

  ghost predicate IsTop(stats: seq<Entry>, metric: Metric, i: nat) {
    && i < |stats| && HasTopScore(stats, metric, stats[i])
    && forall j :: 0 <= j < i ==> ScoreOf(stats[j], metric) < ScoreOf(stats[i], metric)
  }

  /** The first candidate that no candidate beats. */
  ghost predicate IsWinner(stats: seq<Entry>, c: Contest, i: nat) {
    && i < |stats| && IsCandidate(stats[i], c)
    && (forall j :: 0 <= j < |stats| && IsCandidate(stats[j], c) ==> !Beats(stats[j], stats[i], c))
    && (forall j :: 0 <= j < i && IsCandidate(stats[j], c) ==> Beats(stats[i], stats[j], c))
  }

  ghost predicate HasCandidate(stats: seq<Entry>, c: Contest) {
    exists i :: 0 <= i < |stats| && IsCandidate(stats[i], c)
  }

  /** The comparisons of the first `n` entries, by key. */
  function Comparisons(stats: seq<Entry>, n: nat, c: Contest): map<string, Comparison>
    requires n <= |stats|
  {
    if n == 0 then map[]
    else
      var before, e := Comparisons(stats, n - 1, c), stats[n - 1];
      var r := Compare(e, c);
      if e.key != c.control.key && r.Some? then before[e.key := r.value] else before
  }

  method TopScorer(stats: seq<Entry>, metric: Metric) returns (top: nat)
    requires stats != []
    ensures IsTop(stats, metric, top)
  {
    hide ScoreOf;
    top := 0;
    for i := 1 to |stats|
      invariant top < i
      invariant forall j :: 0 <= j < top ==> ScoreOf(stats[j], metric) < ScoreOf(stats[top], metric)
      invariant forall j :: top <= j < i ==> ScoreOf(stats[j], metric) <= ScoreOf(stats[top], metric)
    {
      if ScoreOf(stats[i], metric) > ScoreOf(stats[top], metric) {
        top := i;
      }
    }
  }

  /** `best` is the choice among the first `n` entries. */
  ghost predicate IsBestOf(stats: seq<Entry>, n: nat, c: Contest, best: Option<nat>)
    requires n <= |stats|
  {
    match best
    case None => !HasCandidate(stats[..n], c)
    case Some(i) => IsWinner(stats[..n], c, i)
  }

  /** Compares every variant with the control and keeps the best of the significant ones. */
  method CompareAll(stats: seq<Entry>, c: Contest) returns (best: Option<nat>, comparisons: map<string, Comparison>)
    ensures comparisons == Comparisons(stats, |stats|, c)
    ensures best.Some? <==> HasCandidate(stats, c)
    ensures best.Some? ==> IsWinner(stats, c, best.value)
  {
    hide Compare, IsCandidate, Beats, IsBestOf;
    best, comparisons := None, map[];
    NoneYet(stats, c);
    for i := 0 to |stats|
      invariant comparisons == Comparisons(stats, i, c)
      invariant IsBestOf(stats, i, c, best) && (best.Some? ==> best.value < i)
    {
      BestOfNext(stats, i, c, best);
      CandidateHasComparison(stats[i], c);
      var r := Compare(stats[i], c);
      if stats[i].key != c.control.key && r.Some? {
        comparisons := comparisons[stats[i].key := r.value];
        if r.value.significant && r.value.better {
          if best.None? || Beats(stats[i], stats[best.value], c) {
            best := Some(i);
          }
        }
      }
    }
    BestOfAll(stats, c, best);
  }

  lemma NoneYet(stats: seq<Entry>, c: Contest)
    ensures IsBestOf(stats, 0, c, None)
  {
  }

  lemma BestOfAll(stats: seq<Entry>, c: Contest, best: Option<nat>)
    requires IsBestOf(stats, |stats|, c, best)
    ensures best.Some? <==> HasCandidate(stats, c)
    ensures best.Some? ==> IsWinner(stats, c, best.value)
  {
    hide IsCandidate;
    assert stats[..|stats|] == stats;
  }

  /** One more entry: it replaces the choice so far exactly when it is a candidate that beats it. */
  lemma BestOfNext(stats: seq<Entry>, i: nat, c: Contest, best: Option<nat>)
    requires i < |stats| && IsBestOf(stats, i, c, best) && (best.Some? ==> best.value < i)
    ensures IsBestOf(stats, i + 1, c,
      if IsCandidate(stats[i], c) && (best.None? || Beats(stats[i], stats[best.value], c)) then Some(i) else best)
  {
    hide IsCandidate, Beats;
    forall j | 0 <= j < i ensures stats[..i][j] == stats[..i + 1][j] == stats[j] {
    }
    assert stats[..i + 1][i] == stats[i];
    if IsCandidate(stats[i], c) && (best.None? || Beats(stats[i], stats[best.value], c)) {
      NewBest(stats, i, c, best);
    }
  }

  lemma BeatsIsTransitive(a: Entry, b: Entry, d: Entry, c: Contest)
    ensures Beats(a, b, c) && !Beats(d, b, c) ==> Beats(a, d, c) && !Beats(d, a, c)
    ensures !Beats(a, a, c)
  {
  }

  lemma NewBest(stats: seq<Entry>, i: nat, c: Contest, best: Option<nat>)
    requires i < |stats| && IsBestOf(stats, i, c, best) && (best.Some? ==> best.value < i)
    requires IsCandidate(stats[i], c) && (best.None? || Beats(stats[i], stats[best.value], c))
    ensures IsWinner(stats[..i + 1], c, i)
  {
    hide IsCandidate, Beats;
    var upTo := stats[..i + 1];
    BeatsIsTransitive(stats[i], stats[i], stats[i], c);
    forall j | 0 <= j < i && IsCandidate(upTo[j], c)
      ensures !Beats(upTo[j], upTo[i], c) && Beats(upTo[i], upTo[j], c)
    {
      assert stats[..i][j] == upTo[j];
      BeatsIsTransitive(stats[i], stats[best.value], stats[j], c);
    }
  }

  /** The verdict for a winner: it is reported as the leading variant too. */
  function Crowned(e: Entry, c: Contest): Verdict {
    match Compare(e, c)
    case None => Verdict(None, None, None, None)
    case Some(r) => Verdict(Some(e.key), Some(e.key), Some(r.confidence), r.pValue)
  }

  function Leads(e: Entry): Verdict { Verdict(None, Some(e.key), None, None) }

  /** The contest with the named control, if that control was observed. */
  function ContestOf(stats: seq<Entry>, controlKey: Option<string>, alpha: real, metric: Metric, tests: Tests)
      : Option<Contest> {
    if controlKey.None? then None
    else match FindKey(stats, controlKey.value)
      case None => None
      case Some(i) => Some(Contest(stats[i], alpha, metric, tests))
  }

  ghost predicate IsVerdict(v: Verdict, stats: seq<Entry>, metric: Metric, contest: Option<Contest>) {
    if stats == [] then v == Verdict(None, None, None, None)
    else if contest.Some? && HasCandidate(stats, contest.value) then
      exists i: nat :: IsWinner(stats, contest.value, i) && v == Crowned(stats[i], contest.value)
    else exists i: nat :: IsTop(stats, metric, i) && v == Leads(stats[i])
  }

  method DetermineWinner(stats: seq<Entry>, controlKey: Option<string>, alpha: real, metric: Metric, tests: Tests)
    returns (v: Verdict, comparisons: map<string, Comparison>)
    ensures var contest := ContestOf(stats, controlKey, alpha, metric, tests);
      && IsVerdict(v, stats, metric, contest)
      && comparisons == if contest.None? then map[] else Comparisons(stats, |stats|, contest.value)
  {
    hide Compare, Beats, ScoreOf, IsCandidate;
    comparisons := map[];
    if stats == [] {
      return Verdict(None, None, None, None), comparisons;
    }
    var contest := ContestOf(stats, controlKey, alpha, metric, tests);
    if contest.Some? {
      var best;
      best, comparisons := CompareAll(stats, contest.value);
      if best.Some? {
        return Crowned(stats[best.value], contest.value), comparisons;
      }
    }
    var top := TopScorer(stats, metric);
    v := Leads(stats[top]);
  }

  // ---------------------------------------------------------------- what a verdict means

  /** `stats` has distinct keys, and the control is one of them. */
  ghost predicate Enters(stats: seq<Entry>, c: Contest) {
    && c.control in stats
    && (forall i, j :: 0 <= i < j < |stats| ==> stats[i].key != stats[j].key)
  }

  /** Every variant but the control that can be compared is, under its own key. */
  lemma {:induction false} ComparisonsAreExact(stats: seq<Entry>, n: nat, c: Contest, i: nat)
    requires n <= |stats| && i < n && Enters(stats, c)
    ensures var all, r := Comparisons(stats, n, c), Compare(stats[i], c);
      && (stats[i].key in all <==> stats[i].key != c.control.key && r.Some?)
      && (stats[i].key in all ==> all[stats[i].key] == r.value)
  {
    hide Compare;
    if i < n - 1 {
      ComparisonsAreExact(stats, n - 1, c, i);
    } else {
      OnlyEarlierKeys(stats, n - 1, c, stats[i].key);
    }
  }

  lemma {:induction false} OnlyEarlierKeys(stats: seq<Entry>, n: nat, c: Contest, key: string)
    requires n <= |stats| && forall j :: 0 <= j < n ==> stats[j].key != key
    ensures key !in Comparisons(stats, n, c)
  {
    hide Compare;
    if n > 0 { OnlyEarlierKeys(stats, n - 1, c, key); }
  }

  lemma DivideKeepsOrder(a: real, b: real, c: real)
    requires c > 0.0
    ensures a / c <= b / c <==> a <= b
  {
    var x, y := a / c, b / c;
    assert x * c == a && y * c == b;
    if x > y { NegativeProduct(y - x, c); }
    if x < y { NegativeProduct(x - y, c); }
  }

  /** For one control, a higher uplift is the same as a higher score, whatever the metric. */
  lemma UpliftFollowsScore(a: Entry, b: Entry, c: Contest)
    ensures Uplift(a, c) <= Uplift(b, c) <==> ScoreOf(a, c.metric) <= ScoreOf(b, c.metric)
  {
    hide ScoreOf;
    var base := ScoreOf(c.control, c.metric);
    if c.metric.Conversion? && base > 0.0 {
      DivideKeepsOrder(ScoreOf(a, c.metric) - base, ScoreOf(b, c.metric) - base, base);
    }
  }

  /** The uplift leads from the control's score to the variant's: as a part of it for conversion, where the
      control converts at all, and otherwise as a difference. */
  lemma UpliftRebuildsScore(e: Entry, c: Contest)
    ensures var base := ScoreOf(c.control, c.metric);
      ScoreOf(e, c.metric)
        == if c.metric.Conversion? && base > 0.0 then base * (1.0 + Uplift(e, c)) else base + Uplift(e, c)
  {
    hide ScoreOf;
    var a, base := ScoreOf(e, c.metric), ScoreOf(c.control, c.metric);
    if c.metric.Conversion? && base > 0.0 {
      DivideCancels(a - base, base);
      assert base * (1.0 + (a - base) / base) == base + (a - base) / base * base;
    }
  }

  /** The score is the share of successes, the mean of the metric's own values, or the metric's own share of
      the pairs; without pairs of labels it is 0. */
  lemma ScoreMeans(e: Entry)
    requires e.successes <= e.n
    ensures IsShare(ScoreOf(e, Conversion), e.successes, e.n)
    ensures ScoreOf(e, Profit) == e.profit.mean && ScoreOf(e, Roi) == e.roi.mean && ScoreOf(e, Value) == e.value.mean
    ensures e.confusion.Some? ==>
      var k := e.confusion.value;
      && IsShare(ScoreOf(e, Precision), k.tp, k.tp + k.fp) && IsShare(ScoreOf(e, Recall), k.tp, k.tp + k.fn)
      && IsShare(ScoreOf(e, Accuracy), k.tp + k.tn, k.tp + k.tn + k.fp + k.fn)
      && IsShare(ScoreOf(e, F1), 2 * k.tp, 2 * k.tp + k.fp + k.fn)
    ensures e.confusion.None? ==>
      ScoreOf(e, Accuracy) == ScoreOf(e, Precision) == ScoreOf(e, Recall) == ScoreOf(e, F1) == 0.0
  {
    hide Ratio, PrecisionOf, RecallOf, AccuracyOf, F1Of, IsShare;
    RatioIsShare(e.successes, e.n);
    if e.confusion.Some? {
      SharesOfPairs(e.confusion.value);
      F1CountsTwice(e.confusion.value);
    }
  }

  /** Which test a variant is compared by: means and variances for the values, shares for the rest, the
      variant's figures before the control's; none where a sample is too small, and none for F1. */
  lemma ComparedBy(e: Entry, c: Contest)
    ensures var p, k := Compare(e, c), c.control;
      match c.metric
      case Profit =>
        if e.n < 2 || k.n < 2 then p.None?
        else TestedAt(p, c.tests.means(e.profit.mean, e.profit.variance, e.n, k.profit.mean, k.profit.variance, k.n))
      case Roi =>
        if e.n < 2 || k.n < 2 then p.None?
        else TestedAt(p, c.tests.means(e.roi.mean, e.roi.variance, e.n, k.roi.mean, k.roi.variance, k.n))
      case Value =>
        if e.n < 2 || k.n < 2 then p.None?
        else TestedAt(p, c.tests.means(e.value.mean, e.value.variance, e.n, k.value.mean, k.value.variance, k.n))
      case Conversion =>
        if e.n == 0 || k.n == 0 then p.None?
        else TestedAt(p, c.tests.proportions(e.successes, e.n, k.successes, k.n))
      case F1 => p.Some? && p.value.pValue.None? && p.value.confidence == 0.0
      case _ => e.confusion.None? || k.confusion.None? ==> p.None?
  {
  }

  ghost predicate TestedAt(r: Option<Comparison>, p: real) {
    r.Some? && r.value.pValue == Some(p) && r.value.confidence == 1.0 - p
  }

  /** Labelled metrics compare the true positives among those predicted, among the true ones, or those
      predicted rightly among all observations. */
  lemma LabelsComparedBy(e: Entry, c: Contest)
    requires e.confusion.Some? && c.control.confusion.Some?
    ensures var p, a, b := Compare(e, c), e.confusion.value, c.control.confusion.value;
      && (c.metric.Precision? ==>
            if a.tp + a.fp == 0 || b.tp + b.fp == 0 then p.None?
            else TestedAt(p, c.tests.proportions(a.tp, a.tp + a.fp, b.tp, b.tp + b.fp)))
      && (c.metric.Recall? ==>
            if a.tp + a.fn == 0 || b.tp + b.fn == 0 then p.None?
            else TestedAt(p, c.tests.proportions(a.tp, a.tp + a.fn, b.tp, b.tp + b.fn)))
      && (c.metric.Accuracy? ==>
            if e.n == 0 || c.control.n == 0 then p.None?
            else TestedAt(p, c.tests.proportions(a.tp + a.tn, e.n, b.tp + b.tn, c.control.n)))
  {
    hide ScoreOf, Uplift;
  }

  /** A candidate is a variant other than the control that can be compared, scores higher, and has a p-value
      below alpha, if the metric has a test. */
  lemma CandidateIff(e: Entry, c: Contest)
    ensures IsCandidate(e, c) <==>
      && e.key != c.control.key && Compare(e, c).Some?
      && ScoreOf(e, c.metric) > ScoreOf(c.control, c.metric)
      && (c.metric.F1? || (Compare(e, c).value.pValue.Some? && Compare(e, c).value.pValue.value < c.alpha))
  {
    hide ScoreOf, Uplift, Trials, SpreadFor;
  }

  /** The contest is the one asked for: against the entry that carries the control's key, if one does. */
  lemma ContestIsAsked(stats: seq<Entry>, controlKey: Option<string>, alpha: real, metric: Metric, tests: Tests)
    ensures var c := ContestOf(stats, controlKey, alpha, metric, tests);
      && (c.Some? <==> controlKey.Some? && exists i :: 0 <= i < |stats| && stats[i].key == controlKey.value)
      && (c.Some? ==>
            && c.value.control in stats && c.value.control.key == controlKey.value
            && c.value.alpha == alpha && c.value.metric == metric && c.value.tests == tests)
  {
  }

  lemma WinnerTopsCandidates(stats: seq<Entry>, c: Contest, i: nat, j: nat)
    requires IsWinner(stats, c, i) && j < |stats| && IsCandidate(stats[j], c)
    ensures ScoreOf(stats[j], c.metric) <= ScoreOf(stats[i], c.metric)
  {
    hide IsCandidate, ScoreOf, Uplift;
    UpliftFollowsScore(stats[j], stats[i], c);
  }

  /** The reasons for a win, as the verdict reports them. */
  ghost predicate Reasons(v: Verdict, e: Entry, c: Contest) {
    && v.winner == v.leading == Some(e.key) && v.confidence.Some?
    && ScoreOf(e, c.metric) > ScoreOf(c.control, c.metric)
    && (if c.metric.F1? then v.pValue == None && v.confidence.value == 0.0
        else v.pValue.Some? && v.pValue.value < c.alpha && v.confidence.value == 1.0 - v.pValue.value)
  }

  lemma CrownedHasReasons(e: Entry, c: Contest)
    requires IsCandidate(e, c)
    ensures Reasons(Crowned(e, c), e, c)
  {
  }

  /** `w` is the candidate that the verdict names as winner and leader. */
  ghost predicate IsBest(v: Verdict, stats: seq<Entry>, c: Contest, w: Entry) {
    && w in stats && IsCandidate(w, c) && Reasons(v, w, c)
    && forall j :: 0 <= j < |stats| && IsCandidate(stats[j], c) ==> ScoreOf(stats[j], c.metric) <= ScoreOf(w, c.metric)
  }

  /** A winner is named exactly when some variant is significantly better than the control. The winner
      is never the control, outscores it, and no significant variant outscores the winner; except for
      F1, which has no test, its p-value is below alpha. */
  lemma WinnerIsBest(v: Verdict, stats: seq<Entry>, c: Contest)
    requires Enters(stats, c) && IsVerdict(v, stats, c.metric, Some(c))
    ensures v.winner.Some? <==> HasCandidate(stats, c)
    ensures v.winner.Some? ==> exists w :: IsBest(v, stats, c, w)
    ensures v.winner.None? ==> exists i: nat :: IsTop(stats, c.metric, i) && v == Leads(stats[i])
  {
    hide IsCandidate, Beats, ScoreOf, Reasons, Crowned;
    if HasCandidate(stats, c) {
      var i: nat :| IsWinner(stats, c, i) && v == Crowned(stats[i], c);
      forall j | 0 <= j < |stats| && IsCandidate(stats[j], c)
        ensures ScoreOf(stats[j], c.metric) <= ScoreOf(stats[i], c.metric)
      {
        WinnerTopsCandidates(stats, c, i, j);
      }
      CrownedHasReasons(stats[i], c);
      assert IsBest(v, stats, c, stats[i]);
      WinnerIsNamed(v, stats[i], c);
    }
  }

  lemma WinnerIsNamed(v: Verdict, e: Entry, c: Contest)
    requires Reasons(v, e, c)
    ensures v.winner.Some?
  {
  }

  /** With p-values in [0, 1] a reported confidence is in [0, 1], and above 1 - alpha unless the metric
      is F1. */
  lemma WinnerConfidence(v: Verdict, stats: seq<Entry>, c: Contest)
    requires Enters(stats, c) && IsVerdict(v, stats, c.metric, Some(c)) && ProperTests(c.tests)
    ensures v.confidence.Some? <==> v.winner.Some?
    ensures v.winner.Some? ==> 0.0 <= v.confidence.value <= 1.0 && (c.metric.F1? || v.confidence.value > 1.0 - c.alpha)
  {
    hide IsCandidate, Beats, ScoreOf, Compare;
    if HasCandidate(stats, c) {
      var i: nat :| IsWinner(stats, c, i) && v == Crowned(stats[i], c);
      CrownedHasReasons(stats[i], c);
      ConfidenceInUnit(stats[i], c);
    }
  }

  lemma ConfidenceInUnit(e: Entry, c: Contest)
    requires ProperTests(c.tests) && Compare(e, c).Some?
    ensures 0.0 <= Compare(e, c).value.confidence <= 1.0
  {
    var a, b := SpreadFor(e, c.metric), SpreadFor(c.control, c.metric);
    assert 0.0 <= c.tests.means(a.mean, a.variance, e.n, b.mean, b.variance, c.control.n) <= 1.0;
    var s, t := Trials(e, c.metric), Trials(c.control, c.metric);
    assert s.Some? && t.Some? ==>
      0.0 <= c.tests.proportions(s.value.0, s.value.1, t.value.0, t.value.1) <= 1.0;
  }

  /** Some candidate has the top score of all variants. */
  ghost predicate CandidateOnTop(stats: seq<Entry>, c: Contest) {
    exists i :: 0 <= i < |stats| && IsCandidate(stats[i], c) && HasTopScore(stats, c.metric, stats[i])
  }

  /** The leading variant has the top score exactly when there is no candidate, or some candidate has
      the top score: with a winner it is the winner that leads, whoever scores higher. */
  lemma LeaderHasTopScoreIff(v: Verdict, stats: seq<Entry>, c: Contest, l: Entry)
    requires Enters(stats, c) && IsVerdict(v, stats, c.metric, Some(c))
    requires l in stats && v.leading == Some(l.key)
    ensures HasTopScore(stats, c.metric, l) <==> (HasCandidate(stats, c) ==> CandidateOnTop(stats, c))
  {
    hide IsCandidate, ScoreOf, Beats, Crowned;
    var k :| 0 <= k < |stats| && stats[k] == l;
    WinnerIsBest(v, stats, c);
    if HasCandidate(stats, c) {
      var w :| IsBest(v, stats, c, w);
      var i :| 0 <= i < |stats| && stats[i] == w;
      assert i == k;
      if CandidateOnTop(stats, c) {
        var j :| 0 <= j < |stats| && IsCandidate(stats[j], c) && HasTopScore(stats, c.metric, stats[j]);
        assert ScoreOf(stats[j], c.metric) <= ScoreOf(w, c.metric);
      }
    } else {
      var i: nat :| IsTop(stats, c.metric, i) && v == Leads(stats[i]);
      assert i == k;
    }
  }

  function ProfitEntry(key: string, n: nat, mean: real): Entry {
    Entry(key, n, 0, Spread(mean, 1.0), Spread(0.0, 0.0), Spread(0.0, 0.0), None)
  }

  const CONTROL_ENTRY: Entry := ProfitEntry("c", 50, 1.0)
  const TESTED_ENTRY: Entry := ProfitEntry("t", 50, 2.0)
  const ONCE_ENTRY: Entry := ProfitEntry("o", 1, 9.0)

  /** An example: a variant seen once has the highest mean profit but cannot be tested, and the tested
      winner leads instead. */
  lemma LeaderNeedNotHaveTopScore(v: Verdict, tests: Tests)
    requires tests == Tests((_, _, _, _) => 0.01, (_, _, _, _, _, _) => 0.01)
    requires IsVerdict(v, [CONTROL_ENTRY, TESTED_ENTRY, ONCE_ENTRY], Profit,
                       Some(Contest(CONTROL_ENTRY, 0.05, Profit, tests)))
    ensures v.leading == v.winner == Some("t")
    ensures !HasTopScore([CONTROL_ENTRY, TESTED_ENTRY, ONCE_ENTRY], Profit, TESTED_ENTRY)
  {
    var stats, c := [CONTROL_ENTRY, TESTED_ENTRY, ONCE_ENTRY], Contest(CONTROL_ENTRY, 0.05, Profit, tests);
    assert "c"[0] == 'c' && "t"[0] == 't' && "o"[0] == 'o';
    assert IsCandidate(TESTED_ENTRY, c) && !IsCandidate(CONTROL_ENTRY, c) && !IsCandidate(ONCE_ENTRY, c);
    assert stats[0] == CONTROL_ENTRY && stats[1] == TESTED_ENTRY && stats[2] == ONCE_ENTRY;
    assert ScoreOf(stats[2], Profit) > ScoreOf(TESTED_ENTRY, Profit);
    assert Crowned(TESTED_ENTRY, c).winner == Crowned(TESTED_ENTRY, c).leading == Some("t");
    hide IsCandidate, Crowned, ScoreOf, Beats;
    assert HasCandidate(stats, c);
    var i: nat :| IsWinner(stats, c, i) && v == Crowned(stats[i], c);
  }

  /** The order of the variants only decides ties: over the same entries both verdicts name a winner or
      neither does, and the two winners have the same score. */
  lemma OrderOnlyBreaksTies(a: seq<Entry>, b: seq<Entry>, c: Contest, va: Verdict, vb: Verdict)
    requires Enters(a, c) && Enters(b, c) && forall e :: e in a <==> e in b
    requires IsVerdict(va, a, c.metric, Some(c)) && IsVerdict(vb, b, c.metric, Some(c))
    ensures va.winner.Some? <==> vb.winner.Some?
    ensures va.winner.Some? ==> exists x, y ::
      IsBest(va, a, c, x) && IsBest(vb, b, c, y) && ScoreOf(x, c.metric) == ScoreOf(y, c.metric)
  {
    hide IsCandidate, ScoreOf, Reasons;
    WinnerIsBest(va, a, c);
    WinnerIsBest(vb, b, c);
    SameCandidates(a, b, c);
    SameCandidates(b, a, c);
    if va.winner.Some? {
      var x :| IsBest(va, a, c, x);
      var y :| IsBest(vb, b, c, y);
      BestScores(a, b, c, va, vb, x, y);
      BestScores(b, a, c, vb, va, y, x);
    }
  }

  lemma SameCandidates(a: seq<Entry>, b: seq<Entry>, c: Contest)
    requires forall e :: e in a ==> e in b
    ensures HasCandidate(a, c) ==> HasCandidate(b, c)
  {
    hide IsCandidate;
    if HasCandidate(a, c) {
      var i :| 0 <= i < |a| && IsCandidate(a[i], c);
      assert a[i] in a;
      var j :| 0 <= j < |b| && b[j] == a[i];
      assert IsCandidate(b[j], c);
    }
  }

  lemma BestScores(a: seq<Entry>, b: seq<Entry>, c: Contest, va: Verdict, vb: Verdict, x: Entry, y: Entry)
    requires IsBest(va, a, c, x) && IsBest(vb, b, c, y) && forall e :: e in a ==> e in b
    ensures ScoreOf(x, c.metric) <= ScoreOf(y, c.metric)
  {
    hide IsCandidate, ScoreOf, Reasons;
    var j :| 0 <= j < |b| && b[j] == x;
  }
}
