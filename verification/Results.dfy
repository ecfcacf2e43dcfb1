/** From rows to a report (app/experiments/manager.py). */
module Results {
  // The outcome hardly depends on the order in which the rows are read.

  import opened Experiments
  import opened RealMath
  import opened Sequences
  import opened StableSorting
  import opened Statistics
  import opened Winner
  import opened Wrappers

  const LOAD_LIMIT: nat := 100000

  // ---------------------------------------------------------------- loading

  /** Newest first; rows of one time in order of insertion, where the database leaves the order open. */
  function RecordedKey(row: Row<Observed>): real { row.body.recordedAt as real }

  function LoadedRows(e: Experiment): seq<Row<Observed>> {
    AtMost(SortDescending(e.observations, RecordedKey), LOAD_LIMIT)
  }

  function VariantKey(variants: seq<Variant>, id: nat): string {
    if variants == [] then "?"
    else
      var last := variants[|variants| - 1];
      if last.id == id then last.request.key else VariantKey(variants[..|variants| - 1], id)
  }

  function ViewOf(variants: seq<Variant>, row: Row<Observed>): View {
    var m := row.body.measures;
    View(VariantKey(variants, row.body.variantId), m.outcome, m.profit, m.roi, m.value, m.predicted, m.groundTruth)
  }

  function ViewsOf(variants: seq<Variant>, rows: seq<Row<Observed>>): (views: seq<View>)
    ensures |views| == |rows| && forall i :: 0 <= i < |rows| ==> views[i] == ViewOf(variants, rows[i])
  {
    seq(|rows|, i requires 0 <= i < |rows| => ViewOf(variants, rows[i]))
  }

  method LoadStats(e: Experiment) returns (stats: seq<Entry>)
    ensures IsStats(stats, ViewsOf(e.variants, LoadedRows(e)))
  {
    stats := VariantStats(ViewsOf(e.variants, LoadedRows(e)));
  }

  // ---------------------------------------------------------------- the report

  datatype Report = Report(
    winnerKey: Option<string>, winnerLabel: Option<string>, confidence: Option<real>, metric: Metric,
    profitImpact: Option<real>, roiImpact: Option<real>, precision: Option<real>, recall: Option<real>,
    falsePositives: Option<nat>, falseNegatives: Option<nat>)

  function FindByKey(variants: seq<Variant>, key: string): (v: Option<Variant>)
    ensures v.Some? ==> v.value in variants && v.value.request.key == key
    ensures v.None? ==> forall x :: x in variants ==> x.request.key != key
  {
    if variants == [] then None
    else if variants[0].request.key == key then Some(variants[0])
    else FindByKey(variants[1..], key)
  }

  /** The winner's label; looking it up raises when two variants share the key. */
  function LabelFor(variants: seq<Variant>, key: Option<string>): Result<Option<string>, Error> {
    if !Truthy(key) then Ok(None)
    else if KeyCount(variants, key.value) > 1 then Err(MultipleRows)
    else match FindByKey(variants, key.value)
      case None => Ok(key)
      case Some(v) => Ok(Some(v.request.labelText))
  }

  function EntryAt(stats: seq<Entry>, key: Option<string>): Option<Entry> {
    if key.None? then None
    else match FindKey(stats, key.value) case None => None case Some(i) => Some(stats[i])
  }

  /** Impact of the winner, or else of the leader, against the control. */
  function ReportOf(stats: seq<Entry>, v: Verdict, named: Option<string>, controlKey: Option<string>, metric: Metric)
      : Report {
    var chosen := EntryAt(stats, if v.winner.Some? then v.winner else v.leading);
    var control := if Truthy(controlKey) then EntryAt(stats, controlKey) else None;
    if chosen.None? || control.None? then
      Report(v.winner, named, v.confidence, metric, None, None, None, None, None, None)
    else
      var a, b := chosen.value, control.value;
      var profit, roi := a.profit.mean - b.profit.mean, a.roi.mean - b.roi.mean;
      match a.confusion
      case None => Report(v.winner, named, v.confidence, metric, Some(profit), Some(roi), None, None, None, None)
      case Some(c) =>
        Report(v.winner, named, v.confidence, metric, Some(profit), Some(roi),
               Some(PrecisionOf(c)), Some(RecallOf(c)), Some(c.fp), Some(c.fn))
  }

  function Reporting(e: Experiment, stats: seq<Entry>, v: Verdict): Result<Report, Error> {
    match LabelFor(e.variants, v.winner)
    case Err(error) => Err(error)
    case Ok(named) => Ok(ReportOf(stats, v, named, e.config.controlKey, e.config.metric))
  }

  /** `r` reports the experiment's verdict on the observations it has. */
  ghost predicate IsReport(r: Result<Report, Error>, e: Experiment, tests: Tests) {
    exists stats, v ::
      && IsStats(stats, ViewsOf(e.variants, LoadedRows(e)))
      && IsVerdict(v, stats, e.config.metric,
                   ContestOf(stats, e.config.controlKey, e.config.alpha, e.config.metric, tests))
      && r == Reporting(e, stats, v)
  }

  /** The label of the winner: that of a variant that has its key, or the key. */
  ghost predicate NamesWinner(called: Option<string>, variants: seq<Variant>, winner: Option<string>) {
    if winner.None? || winner.value == "" then called.None?
    else
      && (forall v :: v in variants && v.request.key == winner.value ==> called == Some(v.request.labelText))
      && ((forall v :: v in variants ==> v.request.key != winner.value) ==> called == winner)
  }

  /** How far `a` is from the control in profit and in return, and its precision, recall and errors. */
  ghost predicate SpeaksOf(r: Report, a: Entry, control: Entry) {
    && r.profitImpact.Some? && control.profit.mean + r.profitImpact.value == a.profit.mean
    && r.roiImpact.Some? && control.roi.mean + r.roiImpact.value == a.roi.mean
    && (if a.confusion.Some? then
          && r.precision == Some(PrecisionOf(a.confusion.value)) && r.recall == Some(RecallOf(a.confusion.value))
          && r.falsePositives == Some(a.confusion.value.fp) && r.falseNegatives == Some(a.confusion.value.fn)
        else r.precision.None? && r.recall.None? && r.falsePositives.None? && r.falseNegatives.None?)
  }

  ghost predicate IsControl(a: Entry, e: Experiment) { a.key != "" && e.config.controlKey == Some(a.key) }

  ghost predicate IsChosen(a: Entry, v: Verdict) {
    Some(a.key) == if v.winner.Some? then v.winner else v.leading
  }

  /** The report tells the verdict, and of the winner, or else of the leader, beside the control; without a
      control among the entries it tells the verdict alone. */
  ghost predicate Tells(r: Report, e: Experiment, stats: seq<Entry>, v: Verdict) {
    && r.winnerKey == v.winner && r.confidence == v.confidence && r.metric == e.config.metric
    && NamesWinner(r.winnerLabel, e.variants, v.winner)
    && (forall a, control :: a in stats && control in stats && IsControl(control, e) && IsChosen(a, v) ==>
          SpeaksOf(r, a, control))
    && ((forall s :: s in stats ==> !IsControl(s, e)) ==>
          && r.profitImpact.None? && r.roiImpact.None? && r.precision.None? && r.recall.None?
          && r.falsePositives.None? && r.falseNegatives.None?)
  }

  lemma ReportTells(e: Experiment, stats: seq<Entry>, v: Verdict)
    requires forall i, j :: 0 <= i < j < |stats| ==> stats[i].key != stats[j].key
    ensures var r := Reporting(e, stats, v); r.Ok? ==> Tells(r.value, e, stats, v)
  {
    var r := Reporting(e, stats, v);
    if r.Ok? {
      LabelTells(e.variants, v.winner);
      hide LabelFor;
      forall a, control | a in stats && control in stats && IsControl(control, e) && IsChosen(a, v)
        ensures SpeaksOf(r.value, a, control)
      {
        ReportSpeaksOf(stats, v, r.value.winnerLabel, control.key, e.config.metric, a, control);
      }
      if forall s :: s in stats ==> !IsControl(s, e) {
        assert Truthy(e.config.controlKey) ==> forall s :: s in stats ==> s.key != e.config.controlKey.value;
        ReportWithoutControl(stats, v, r.value.winnerLabel, e.config.controlKey, e.config.metric);
      }
    }
  }

  lemma LabelTells(variants: seq<Variant>, winner: Option<string>)
    ensures var named := LabelFor(variants, winner); named.Ok? ==> NamesWinner(named.value, variants, winner)
  {
    if winner.Some? && winner.value != "" && LabelFor(variants, winner).Ok? {
      forall v | v in variants && v.request.key == winner.value
        ensures LabelFor(variants, winner).value == Some(v.request.labelText)
      {
        var i :| 0 <= i < |variants| && variants[i] == v;
        forall j | 0 <= j < |variants| && j != i ensures variants[j].request.key != winner.value {
          if variants[j].request.key == winner.value {
            CountedTwice(variants, winner.value, MinInt(i, j), MaxInt(i, j));
          }
        }
        LabelNamesWinner(variants, winner.value, i);
      }
      if forall v :: v in variants ==> v.request.key != winner.value {
        UnknownKeyNamesItself(variants, winner.value);
      }
    }
  }

  /** A report tells the verdict on the statistics of the loaded observations. */
  lemma ReportTellsVerdict(r: Report, e: Experiment, tests: Tests)
    requires IsReport(Ok(r), e, tests)
    ensures exists stats, v ::
      && IsStats(stats, ViewsOf(e.variants, LoadedRows(e)))
      && IsVerdict(v, stats, e.config.metric,
                   ContestOf(stats, e.config.controlKey, e.config.alpha, e.config.metric, tests))
      && Tells(r, e, stats, v)
  {
    hide IsStats, IsVerdict, LoadedRows, Reporting, LabelFor, Tells, ContestOf, ViewsOf;
    var stats, v :|
      && IsStats(stats, ViewsOf(e.variants, LoadedRows(e)))
      && IsVerdict(v, stats, e.config.metric,
                   ContestOf(stats, e.config.controlKey, e.config.alpha, e.config.metric, tests))
      && Ok(r) == Reporting(e, stats, v);
    StatsPartition(stats, ViewsOf(e.variants, LoadedRows(e)));
    ReportTells(e, stats, v);
  }

  method GenerateReport(e: Experiment, tests: Tests) returns (r: Result<Report, Error>)
    ensures IsReport(r, e, tests)
  {
    hide IsStats, IsVerdict, LoadedRows, Reporting;
    var stats := LoadStats(e);
    var v, _ := DetermineWinner(stats, e.config.controlKey, e.config.alpha, e.config.metric, tests);
    r := Reporting(e, stats, v);
  }

  /** When a winner was decided on profit, the report gives a positive profit impact; on return, a
      positive return impact. */
  lemma WinnerHasImpact(stats: seq<Entry>, c: Contest, v: Verdict, named: Option<string>)
    requires Enters(stats, c) && IsVerdict(v, stats, c.metric, Some(c)) && v.winner.Some? && c.control.key != ""
    ensures var r := ReportOf(stats, v, named, Some(c.control.key), c.metric);
      && r.profitImpact.Some? && r.roiImpact.Some?
      && (c.metric.Profit? ==> r.profitImpact.value > 0.0)
      && (c.metric.Roi? ==> r.roiImpact.value > 0.0)
  {
    hide IsCandidate, IsVerdict;
    WinnerIsBest(v, stats, c);
    var w :| IsBest(v, stats, c, w);
    KeyFinds(stats, w);
    KeyFinds(stats, c.control);
  }

  lemma KeyFinds(stats: seq<Entry>, e: Entry)
    requires e in stats && forall i, j :: 0 <= i < j < |stats| ==> stats[i].key != stats[j].key
    ensures EntryAt(stats, Some(e.key)) == Some(e)
  {
    var i :| 0 <= i < |stats| && stats[i] == e;
  }

  // ---------------------------------------------------------------- what is loaded and reported

  /** The newest observations are loaded, newest first, each as often as it is stored, and up to 100000. */
  lemma LoadsNewest(e: Experiment)
    ensures var rows := LoadedRows(e);
      && |rows| == (if |e.observations| <= 100000 then |e.observations| else 100000)
      && (forall i, j :: 0 <= i < j < |rows| ==> rows[i].body.recordedAt >= rows[j].body.recordedAt)
      && exists left :: LeftOut(e, rows, left)
  {
    SortIsStable(e.observations, RecordedKey);
    var sorted := SortDescending(e.observations, RecordedKey);
    StableSortPermutes(sorted, e.observations, RecordedKey);
    hide SortDescending;
    var rows := LoadedRows(e);
    forall i, j | 0 <= i < j < |rows| ensures rows[i].body.recordedAt >= rows[j].body.recordedAt {
      assert RecordedKey(sorted[i]) >= RecordedKey(sorted[j]);
    }
    var left := sorted[|rows|..];
    assert sorted == rows + left;
    forall i, j | 0 <= i < |rows| && 0 <= j < |left| ensures rows[i].body.recordedAt >= left[j].body.recordedAt {
      assert RecordedKey(sorted[i]) >= RecordedKey(sorted[|rows| + j]);
    }
    assert LeftOut(e, rows, left);
  }

  /** `left` are the observations that are not loaded: none is newer than one that is. */
  ghost predicate LeftOut(e: Experiment, rows: seq<Row<Observed>>, left: seq<Row<Observed>>) {
    && multiset(rows) + multiset(left) == multiset(e.observations)
    && forall i, j :: 0 <= i < |rows| && 0 <= j < |left| ==> rows[i].body.recordedAt >= left[j].body.recordedAt
  }

  /** An observation is counted for the key of its variant, with its own measures. */
  lemma {:induction false} ViewNamesVariant(variants: seq<Variant>, row: Row<Observed>, i: nat)
    requires i < |variants| && variants[i].id == row.body.variantId
    requires forall j :: i < j < |variants| ==> variants[j].id != row.body.variantId
    ensures var v, m := ViewOf(variants, row), row.body.measures;
      && v.variantKey == variants[i].request.key
      && v.outcome == m.outcome && v.profit == m.profit && v.roi == m.roi && v.value == m.value
      && v.predicted == m.predicted && v.groundTruth == m.groundTruth
    decreases |variants|
  {
    var init := variants[..|variants| - 1];
    if i < |init| { ViewNamesVariant(init, row, i); }
  }

  lemma {:induction false} MissingVariantIsUnknown(variants: seq<Variant>, id: nat)
    requires forall i :: 0 <= i < |variants| ==> variants[i].id != id
    ensures VariantKey(variants, id) == "?"
  {
    if variants != [] { MissingVariantIsUnknown(variants[..|variants| - 1], id); }
  }

  /** The report tells the verdict, how far the winner, or else the leader, is from the control in profit and
      in return, and its precision, recall and errors. */
  lemma ReportSpeaksOf(stats: seq<Entry>, v: Verdict, named: Option<string>, controlKey: string, metric: Metric,
                       a: Entry, control: Entry)
    requires forall i, j :: 0 <= i < j < |stats| ==> stats[i].key != stats[j].key
    requires a in stats && control in stats && control.key == controlKey != ""
    requires if v.winner.Some? then v.winner == Some(a.key) else v.leading == Some(a.key)
    ensures var r := ReportOf(stats, v, named, Some(controlKey), metric);
      && r.winnerKey == v.winner && r.winnerLabel == named && r.confidence == v.confidence && r.metric == metric
      && SpeaksOf(r, a, control)
  {
    KeyFinds(stats, a);
    KeyFinds(stats, control);
    ReportFrom(stats, v, named, controlKey, metric, a, control);
    hide EntryAt, ReportOf, SpeaksOf;
  }

  lemma ReportFrom(stats: seq<Entry>, v: Verdict, named: Option<string>, controlKey: string, metric: Metric,
                   a: Entry, control: Entry)
    requires controlKey != "" && EntryAt(stats, Some(controlKey)) == Some(control)
    requires EntryAt(stats, if v.winner.Some? then v.winner else v.leading) == Some(a)
    ensures var r := ReportOf(stats, v, named, Some(controlKey), metric);
      && r.winnerKey == v.winner && r.winnerLabel == named && r.confidence == v.confidence && r.metric == metric
      && SpeaksOf(r, a, control)
  {
    hide EntryAt, PrecisionOf, RecallOf;
  }

  /** Without a control among the entries the report tells the verdict alone. */
  lemma ReportWithoutControl(stats: seq<Entry>, v: Verdict, named: Option<string>, controlKey: Option<string>,
    metric: Metric)
    requires !Truthy(controlKey) || forall e :: e in stats ==> e.key != controlKey.value
    ensures ReportOf(stats, v, named, controlKey, metric)
      == Report(v.winner, named, v.confidence, metric, None, None, None, None, None, None)
  {
    if Truthy(controlKey) {
      forall i | 0 <= i < |stats| ensures stats[i].key != controlKey.value { assert stats[i] in stats; }
    }
  }

  /** A winner is called by the label of the one variant that has its key; by the key if none has. */
  lemma LabelNamesWinner(variants: seq<Variant>, key: string, i: nat)
    requires key != "" && i < |variants| && variants[i].request.key == key
    requires forall j :: 0 <= j < |variants| && j != i ==> variants[j].request.key != key
    ensures LabelFor(variants, Some(key)) == Ok(Some(variants[i].request.labelText))
  {
    CountedOnce(variants, key, i);
    assert variants[i] in variants;
    var v := FindByKey(variants, key);
    var j :| 0 <= j < |variants| && variants[j] == v.value;
    assert j == i;
  }

  lemma {:induction false} CountedOnce(variants: seq<Variant>, key: string, i: nat)
    requires i < |variants| && variants[i].request.key == key
    requires forall j :: 0 <= j < |variants| && j != i ==> variants[j].request.key != key
    ensures KeyCount(variants, key) == 1
    decreases |variants|
  {
    var init := variants[..|variants| - 1];
    if i < |init| {
      CountedOnce(init, key, i);
    } else {
      KeyCountPositive(init, key);
    }
  }

  lemma {:induction false} CountedTwice(variants: seq<Variant>, key: string, i: nat, j: nat)
    requires i < j < |variants| && variants[i].request.key == key && variants[j].request.key == key
    ensures KeyCount(variants, key) >= 2
    decreases |variants|
  {
    var init := variants[..|variants| - 1];
    if j < |init| {
      CountedTwice(init, key, i, j);
    } else {
      assert init[i].request.key == key;
      KeyCountPositive(init, key);
    }
  }

  lemma UnknownKeyNamesItself(variants: seq<Variant>, key: string)
    requires key != "" && forall j :: 0 <= j < |variants| ==> variants[j].request.key != key
    ensures LabelFor(variants, Some(key)) == Ok(Some(key))
    ensures LabelFor(variants, None) == LabelFor(variants, Some("")) == Ok(None)
  {
    KeyCountPositive(variants, key);
    assert forall v :: v in variants ==> v.request.key != key;
  }

  // ---------------------------------------------------------------- sums over any order

  ghost function Total<T>(f: T -> real, xs: seq<T>): real {
    if xs == [] then 0.0 else Total(f, xs[..|xs| - 1]) + f(xs[|xs| - 1])
  }

  lemma {:induction false} TotalAppend<T>(f: T -> real, a: seq<T>, b: seq<T>)
    ensures Total(f, a + b) == Total(f, a) + Total(f, b)
  {
    if b == [] {
      assert a + b == a;
    } else {
      assert (a + b)[..|a + b| - 1] == a + b[..|b| - 1];
      TotalAppend(f, a, b[..|b| - 1]);
    }
  }

  lemma TotalOne<T>(f: T -> real, x: T)
    ensures Total(f, [x]) == f(x)
  {
    assert [x][..0] == [];
  }

  lemma Without<T>(b: seq<T>, i: nat)
    requires i < |b|
    ensures multiset(b) == multiset(b[..i] + b[i + 1..]) + multiset{b[i]}
  {
    assert b == b[..i] + ([b[i]] + b[i + 1..]);
  }

  lemma TotalWithout<T>(f: T -> real, b: seq<T>, i: nat)
    requires i < |b|
    ensures Total(f, b) == Total(f, b[..i] + b[i + 1..]) + f(b[i])
  {
    hide Total;
    assert b == (b[..i] + [b[i]]) + b[i + 1..];
    TotalAppend(f, b[..i] + [b[i]], b[i + 1..]);
    TotalAppend(f, b[..i], [b[i]]);
    TotalAppend(f, b[..i], b[i + 1..]);
    TotalOne(f, b[i]);
  }

  /** Somewhere in any rearrangement of `init + [x]` stands `x`, and the rest rearranges `init`. */
  lemma FindLast<T>(init: seq<T>, x: T, b: seq<T>) returns (i: nat)
    requires multiset(init + [x]) == multiset(b)
    ensures i < |b| && b[i] == x && multiset(init) == multiset(b[..i] + b[i + 1..])
  {
    assert x in multiset(init + [x]);
    assert x in multiset(b);
    i :| 0 <= i < |b| && b[i] == x;
    Without(b, i);
    assert multiset(init) == multiset(init + [x]) - multiset{x};
  }

  /** A sum does not depend on the order of its terms. */
  lemma {:induction false} TotalPermutes<T>(f: T -> real, a: seq<T>, b: seq<T>)
    requires multiset(a) == multiset(b)
    ensures Total(f, a) == Total(f, b)
    decreases |a|
  {
    hide Total;
    if a == [] {
      assert |multiset(b)| == |b|;
      assert b == a;
    } else {
      var init, x := a[..|a| - 1], a[|a| - 1];
      assert a == init + [x];
      var i := FindLast(init, x, b);
      TotalPermutes(f, init, b[..i] + b[i + 1..]);
      TotalWithout(f, b, i);
      TotalAppend(f, init, [x]);
      TotalOne(f, x);
    }
  }

  // ---------------------------------------------------------------- entries over any order

  ghost function Term(field: View -> Option<real>): View -> real {
    (v: View) => match field(v) case None => 0.0 case Some(x) => x
  }

  ghost function Presence(field: View -> Option<real>): View -> real {
    (v: View) => if field(v).Some? then 1.0 else 0.0
  }

  ghost function SquareTerm(field: View -> Option<real>, m: real): View -> real {
    (v: View) => match field(v) case None => 0.0 case Some(x) => SquaredGap(x, m)
  }

  ghost function SuccessTerm(v: View): real { if v.outcome then 1.0 else 0.0 }

  ghost function LabelTerm(p: bool, t: bool): View -> real {
    (v: View) => if v.predicted == Some(p) && v.groundTruth == Some(t) then 1.0 else 0.0
  }

  lemma {:induction false} GivenTotals(items: seq<View>, field: View -> Option<real>)
    ensures Sum(Given(items, field)) == Total(Term(field), items)
    ensures |Given(items, field)| as real == Total(Presence(field), items)
  {
    if items != [] {
      var init, last := items[..|items| - 1], items[|items| - 1];
      GivenTotals(init, field);
      match field(last)
      case None =>
        assert Given(items, field) == Given(init, field);
      case Some(x) =>
        SumAppend(Given(init, field), [x]);
        assert [x][1..] == [];
    }
  }

  lemma {:induction false} DeviationTotals(items: seq<View>, field: View -> Option<real>, m: real)
    ensures Sum(Deviations(Given(items, field), m)) == Total(SquareTerm(field, m), items)
  {
    hide SquaredGap;
    if items != [] {
      var init, last := items[..|items| - 1], items[|items| - 1];
      var given := Given(init, field);
      DeviationTotals(init, field, m);
      match field(last)
      case None =>
        assert Given(items, field) == given;
      case Some(x) =>
        assert Deviations(given + [x], m) == Deviations(given, m) + Deviations([x], m);
        SumAppend(Deviations(given, m), Deviations([x], m));
        DeviationOfOne(x, m);
    }
  }

  lemma DeviationOfOne(x: real, m: real)
    ensures Sum(Deviations([x], m)) == SquaredGap(x, m)
  {
    hide SquaredGap;
    var ds := Deviations([x], m);
    assert ds[1..] == [];
    assert Sum(ds) == ds[0] + Sum(ds[1..]);
  }

  lemma SpreadPermutes(a: seq<View>, b: seq<View>, field: View -> Option<real>)
    requires multiset(a) == multiset(b)
    ensures SpreadOf(Given(a, field)) == SpreadOf(Given(b, field))
  {
    hide Given, Sum, Deviations, Total;
    GivenTotals(a, field);
    GivenTotals(b, field);
    TotalPermutes(Term(field), a, b);
    TotalPermutes(Presence(field), a, b);
    var m := Mean(Given(a, field));
    DeviationTotals(a, field, m);
    DeviationTotals(b, field, m);
    TotalPermutes(SquareTerm(field, m), a, b);
    SameMoments(Given(a, field), Given(b, field));
  }

  lemma SameMoments(xs: seq<real>, ys: seq<real>)
    requires |xs| == |ys| && Sum(xs) == Sum(ys)
    requires Sum(Deviations(xs, Mean(xs))) == Sum(Deviations(ys, Mean(xs)))
    ensures SpreadOf(xs) == SpreadOf(ys)
  {
    hide Sum, Deviations;
    assert xs == [] <==> ys == [];
    assert Mean(xs) == Mean(ys);
  }

  lemma {:induction false} SuccessTotals(items: seq<View>)
    ensures Successes(items) as real == Total(SuccessTerm, items)
  {
    if items != [] { SuccessTotals(items[..|items| - 1]); }
  }

  lemma {:induction false} LabelTotals(items: seq<View>, p: bool, t: bool)
    ensures CountLabelled(items, p, t) as real == Total(LabelTerm(p, t), items)
  {
    if items != [] { LabelTotals(items[..|items| - 1], p, t); }
  }

  lemma {:induction false} LabelsPresent(items: seq<View>)
    ensures Present(Predictions(items)) != [] <==> exists v :: v in items && v.predicted.Some?
    ensures Present(Truths(items)) != [] <==> exists v :: v in items && v.groundTruth.Some?
  {
    if items != [] {
      var init, last := items[..|items| - 1], items[|items| - 1];
      LabelsPresent(init);
      LabelsStep(items);
      assert items == init + [last];
      assert last in items;
      assert forall v :: v in items <==> v in init || v == last;
    }
  }

  lemma LabelCountPermutes(a: seq<View>, b: seq<View>, p: bool, t: bool)
    requires multiset(a) == multiset(b)
    ensures CountLabelled(a, p, t) == CountLabelled(b, p, t)
  {
    hide CountLabelled, Total;
    LabelTotals(a, p, t);
    LabelTotals(b, p, t);
    TotalPermutes(LabelTerm(p, t), a, b);
  }

  lemma SameElements<T>(a: seq<T>, b: seq<T>)
    requires multiset(a) == multiset(b)
    ensures |a| == |b| && forall x :: x in a <==> x in b
  {
    assert |multiset(a)| == |a| && |multiset(b)| == |b|;
    assert forall x :: x in a <==> x in multiset(a);
    assert forall x :: x in b <==> x in multiset(b);
  }

  lemma ConfusionPermutes(a: seq<View>, b: seq<View>)
    requires multiset(a) == multiset(b) && BothOrNeither(a) && BothOrNeither(b)
    ensures ConfusionOf(a) == ConfusionOf(b)
  {
    hide CountLabelled, Present, Predictions, Truths, Tallied, BothOrNeither;
    SameElements(a, b);
    LabelsPresent(a);
    LabelsPresent(b);
    if ConfusionOf(a).Some? {
      ConfusionCountsObservations(a);
      ConfusionCountsObservations(b);
      LabelCountPermutes(a, b, true, true);
      LabelCountPermutes(a, b, true, false);
      LabelCountPermutes(a, b, false, false);
      LabelCountPermutes(a, b, false, true);
    }
  }

  /** The summary of a group does not depend on the order of its observations. */
  lemma EntryPermutes(key: string, a: seq<View>, b: seq<View>)
    requires multiset(a) == multiset(b) && BothOrNeither(a) && BothOrNeither(b)
    ensures EntryOf(key, a) == EntryOf(key, b)
  {
    hide Given, SpreadOf, ConfusionOf, Successes, Total, BothOrNeither;
    SameElements(a, b);
    SpreadPermutes(a, b, ProfitOf);
    SpreadPermutes(a, b, RoiOf);
    SpreadPermutes(a, b, ValueOf);
    ConfusionPermutes(a, b);
    SuccessTotals(a);
    SuccessTotals(b);
    TotalPermutes(SuccessTerm, a, b);
  }

  lemma {:induction false} ItemsCount(views: seq<View>, key: string, v: View)
    ensures multiset(Items(views, key))[v] == if v.variantKey == key then multiset(views)[v] else 0
  {
    if views != [] {
      var init, last := views[..|views| - 1], views[|views| - 1];
      ItemsCount(init, key, v);
      assert views == init + [last];
      if last.variantKey != key { assert Items(views, key) == Items(init, key); }
    }
  }

  lemma ItemsPermute(a: seq<View>, b: seq<View>, key: string)
    requires multiset(a) == multiset(b)
    ensures multiset(Items(a, key)) == multiset(Items(b, key))
  {
    hide Items;
    forall v: View ensures multiset(Items(a, key))[v] == multiset(Items(b, key))[v] {
      ItemsCount(a, key, v);
      ItemsCount(b, key, v);
    }
  }

  lemma ItemsLabelled(views: seq<View>, key: string)
    requires BothOrNeither(views)
    ensures BothOrNeither(Items(views, key))
  {
    var items := Items(views, key);
    forall i | 0 <= i < |items| ensures items[i].predicted.Some? <==> items[i].groundTruth.Some? {
      ItemsAreExact(views, key, items[i]);
      var j :| 0 <= j < |views| && views[j] == items[i];
    }
  }

  lemma EntryIsShared(a: seq<View>, b: seq<View>, sa: seq<Entry>, sb: seq<Entry>, i: nat)
    requires multiset(a) == multiset(b) && BothOrNeither(a) && BothOrNeither(b)
    requires IsStats(sa, a) && IsStats(sb, b) && i < |sa|
    ensures sa[i] in sb
  {
    hide Items, EntryOf, BothOrNeither, KeysOf;
    var key := Distinct(KeysOf(a))[i];
    SameElements(a, b);
    KeyIsShared(a, b, key);
    var j :| 0 <= j < |sb| && Distinct(KeysOf(b))[j] == key;
    ItemsPermute(a, b, key);
    ItemsLabelled(a, key);
    ItemsLabelled(b, key);
    EntryPermutes(key, Items(a, key), Items(b, key));
    assert sb[j] == sa[i];
  }

  lemma KeyIsShared(a: seq<View>, b: seq<View>, key: string)
    requires key in Distinct(KeysOf(a)) && forall v :: v in a ==> v in b
    ensures key in Distinct(KeysOf(b))
  {
    var i :| 0 <= i < |a| && KeysOf(a)[i] == key;
    assert a[i] in b;
    KeyIsListed(b, a[i]);
  }

  /** Read in any order, fully or not at all labelled observations give the same entries. */
  lemma StatsPermute(a: seq<View>, b: seq<View>, sa: seq<Entry>, sb: seq<Entry>)
    requires multiset(a) == multiset(b) && BothOrNeither(a) && BothOrNeither(b)
    requires IsStats(sa, a) && IsStats(sb, b)
    ensures forall e :: e in sa <==> e in sb
  {
    hide IsStats, BothOrNeither;
    forall i | 0 <= i < |sa| ensures sa[i] in sb { EntryIsShared(a, b, sa, sb, i); }
    forall i | 0 <= i < |sb| ensures sb[i] in sa { EntryIsShared(b, a, sb, sa, i); }
  }
}
