/** Repeating experiments (app/experiments/manager.py). */
module Replays {
  import opened ExperimentRuns
  import opened Experiments
  import opened Results
  import opened StableSorting
  import opened Statistics
  import opened Ties
  import opened Winner
  import opened Wrappers

  // ---------------------------------------------------------------- rows in any order

  lemma {:induction false} ViewsPermute(variants: seq<Variant>, a: seq<Row<Observed>>, b: seq<Row<Observed>>)
    requires multiset(a) == multiset(b)
    ensures multiset(ViewsOf(variants, a)) == multiset(ViewsOf(variants, b))
    decreases |a|
  {
    hide ViewOf;
    SameElements(a, b);
    if a != [] {
      var init, x := a[..|a| - 1], a[|a| - 1];
      assert a == init + [x];
      var i := FindLast(init, x, b);
      ViewsPermute(variants, init, b[..i] + b[i + 1..]);
      var views := ViewsOf(variants, b);
      Without(views, i);
      assert views[..i] + views[i + 1..] == ViewsOf(variants, b[..i] + b[i + 1..]);
      assert ViewsOf(variants, a) == ViewsOf(variants, init) + [ViewOf(variants, x)];
    }
  }

  lemma LoadingPermutes(e: Experiment)
    requires |e.observations| <= LOAD_LIMIT
    ensures multiset(ViewsOf(e.variants, LoadedRows(e))) == multiset(ViewsOf(e.variants, e.observations))
  {
    SortIsStable(e.observations, RecordedKey);
    StableSortPermutes(SortDescending(e.observations, RecordedKey), e.observations, RecordedKey);
    hide SortDescending, ViewsOf;
    ViewsPermute(e.variants, LoadedRows(e), e.observations);
  }

  /** Both experiments hold the same measures, perhaps recorded at other times. */
  lemma TimesDoNotShow(a: Experiment, b: Experiment)
    requires a.variants == b.variants && SameExceptTimes(a.observations, b.observations)
    ensures ViewsOf(a.variants, a.observations) == ViewsOf(b.variants, b.observations)
  {
    hide VariantKey;
  }

  ghost predicate Labelled(e: Experiment) {
    forall i :: 0 <= i < |e.observations| ==>
      (e.observations[i].body.measures.predicted.Some? <==> e.observations[i].body.measures.groundTruth.Some?)
  }

  lemma ViewsAreLabelled(e: Experiment)
    requires Labelled(e) && |e.observations| <= LOAD_LIMIT
    ensures BothOrNeither(ViewsOf(e.variants, LoadedRows(e)))
  {
    SortIsStable(e.observations, RecordedKey);
    StableSortPermutes(SortDescending(e.observations, RecordedKey), e.observations, RecordedKey);
    hide SortDescending;
    var rows := LoadedRows(e);
    SameElements(rows, e.observations);
    forall i | 0 <= i < |rows| ensures rows[i] in e.observations { assert rows[i] in rows; }
  }

  /** `v` is a verdict on the rows as they are read back. */
  ghost predicate IsResult(v: Verdict, stats: seq<Entry>, e: Experiment, tests: Tests) {
    && IsStats(stats, ViewsOf(e.variants, LoadedRows(e)))
    && IsVerdict(v, stats, e.config.metric,
                 ContestOf(stats, e.config.controlKey, e.config.alpha, e.config.metric, tests))
  }

  /** No two contenders share the top score. */
  ghost predicate Untied(e: Experiment, stats: seq<Entry>, tests: Tests) {
    !TiedOnTop(stats, e.config.metric, ContestOf(stats, e.config.controlKey, e.config.alpha, e.config.metric, tests))
  }

  /** Over the same entries in any order, the same verdict makes the same report. */
  lemma ReportingIsShared(e: Experiment, a: seq<Entry>, b: seq<Entry>, v: Verdict)
    requires KeysDiffer(a) && KeysDiffer(b) && forall x :: x in a <==> x in b
    ensures Reporting(e, a, v) == Reporting(e, b, v)
  {
    forall key ensures EntryAt(a, key) == EntryAt(b, key) {
      if key.Some? {
        var i, j := FindKey(a, key.value), FindKey(b, key.value);
        if i.Some? { assert a[i.value] in b; }
        if j.Some? { assert b[j.value] in a; }
      }
    }
    hide EntryAt;
  }

  /** Results depend on the measures alone: experiments that differ only in the times of their
      observations, and so perhaps in the order of reading them, have the same outcome up to ties, and
      the same verdict and report when there is no tie on top. */
  lemma ResultsIgnoreTimes(
    a: Experiment, b: Experiment, tests: Tests, sa: seq<Entry>, sb: seq<Entry>, va: Verdict, vb: Verdict)
    requires a.variants == b.variants && a.config == b.config && SameExceptTimes(a.observations, b.observations)
    requires Labelled(a) && |a.observations| <= LOAD_LIMIT
    requires IsResult(va, sa, a, tests) && IsResult(vb, sb, b, tests)
    ensures SameOutcome(va, sa, vb, sb, a.config.metric)
    ensures Untied(a, sa, tests) ==> va == vb && Reporting(a, sa, va) == Reporting(b, sb, vb)
  {
    hide IsStats, IsVerdict, LoadedRows, BothOrNeither, SameOutcome, Reporting, TiedOnTop, ContestOf;
    LoadingPermutes(a);
    LoadingPermutes(b);
    TimesDoNotShow(a, b);
    ViewsAreLabelled(a);
    ViewsAreLabelled(b);
    var wa, wb := ViewsOf(a.variants, LoadedRows(a)), ViewsOf(b.variants, LoadedRows(b));
    StatsPermute(wa, wb, sa, sb);
    StatsPartition(sa, wa);
    StatsPartition(sb, wb);
    VerdictIsShared(sa, sb, a.config.controlKey, a.config.alpha, a.config.metric, tests, va, vb);
    ReportingIsShared(a, sa, sb, va);
    SameReporting(a, b, sb, va);
  }

  lemma SameReporting(a: Experiment, b: Experiment, stats: seq<Entry>, v: Verdict)
    requires a.variants == b.variants && a.config == b.config
    ensures Reporting(a, stats, v) == Reporting(b, stats, v)
  {
  }

  /** Whatever the clock does: recording a stream a second time changes neither whether there is a winner
      nor the score of the leading variant, and without a tie on top it changes no verdict and no report. */
  lemma ReplayKeepsResults(e: Experiment, stream: seq<Measurement>, times: nat -> int, again: nat -> int, env: Env,
                           tests: Tests, sa: seq<Entry>, sb: seq<Entry>, va: Verdict, vb: Verdict)
    requires Inv(e) && e.status != Draft
    requires RecordedAll(e, stream, times, env).Ok?
    requires var once := RecordedAll(e, stream, times, env).value;
      && Labelled(once) && |once.observations| <= LOAD_LIMIT && IsResult(va, sa, once, tests)
    requires var once := RecordedAll(e, stream, times, env).value;
      && RecordedAll(once, stream, again, env).Ok?
      && IsResult(vb, sb, RecordedAll(once, stream, again, env).value, tests)
    ensures SameOutcome(va, sa, vb, sb, e.config.metric)
    ensures Untied(e, sa, tests) ==> va == vb && Reporting(e, sa, va) == Reporting(e, sb, vb)
  {
    hide Reporting, Untied, IsResult, RecordedAll, SameOutcome, Labelled, Inv;
    ReplayIsIdempotent(e, stream, times, again, env);
    OnlyTablesChange(e, stream, times, env);
    var once := RecordedAll(e, stream, times, env).value;
    var twice := RecordedAll(once, stream, again, env).value;
    ResultsIgnoreTimes(once, twice, tests, sa, sb, va, vb);
    SameReporting(e, once, sa, va);
    SameReporting(e, twice, sb, vb);
    SameTie(e, once, sa, tests);
  }

  lemma SameTie(a: Experiment, b: Experiment, stats: seq<Entry>, tests: Tests)
    requires a.config == b.config
    ensures Untied(a, stats, tests) == Untied(b, stats, tests)
  {
  }

  // ---------------------------------------------------------------- one experiment, one report

  lemma WinnerIsUnique(stats: seq<Entry>, c: Contest, i: nat, j: nat)
    requires IsWinner(stats, c, i) && IsWinner(stats, c, j)
    ensures i == j
  {
    hide IsCandidate, Beats;
  }

  lemma TopIsUnique(stats: seq<Entry>, metric: Metric, i: nat, j: nat)
    requires IsTop(stats, metric, i) && IsTop(stats, metric, j)
    ensures i == j
  {
    hide ScoreOf;
  }

  lemma VerdictIsUnique(v: Verdict, w: Verdict, stats: seq<Entry>, metric: Metric, contest: Option<Contest>)
    requires IsVerdict(v, stats, metric, contest) && IsVerdict(w, stats, metric, contest)
    ensures v == w
  {
    hide IsCandidate, Beats, ScoreOf, HasCandidate, Crowned;
    if stats == [] {
    } else if contest.Some? && HasCandidate(stats, contest.value) {
      var i: nat :| IsWinner(stats, contest.value, i) && v == Crowned(stats[i], contest.value);
      var j: nat :| IsWinner(stats, contest.value, j) && w == Crowned(stats[j], contest.value);
      WinnerIsUnique(stats, contest.value, i, j);
    } else {
      var i: nat :| IsTop(stats, metric, i) && v == Leads(stats[i]);
      var j: nat :| IsTop(stats, metric, j) && w == Leads(stats[j]);
      TopIsUnique(stats, metric, i, j);
    }
  }

  lemma StatsAreUnique(a: seq<Entry>, b: seq<Entry>, views: seq<View>)
    requires IsStats(a, views) && IsStats(b, views)
    ensures a == b
  {
    hide EntryOf, Items, KeysOf;
  }

  /** However often a report is made, it is the same as long as the observations are. */
  lemma ReportIsUnique(a: Experiment, b: Experiment, tests: Tests, r: Result<Report, Error>, q: Result<Report, Error>)
    requires a.variants == b.variants && a.config == b.config
    requires ViewsOf(a.variants, LoadedRows(a)) == ViewsOf(b.variants, LoadedRows(b))
    requires IsReport(r, a, tests) && IsReport(q, b, tests)
    ensures r == q
  {
    hide IsStats, IsVerdict, LoadedRows, Reporting, ContestOf;
    var sa, va :|
      && IsStats(sa, ViewsOf(a.variants, LoadedRows(a)))
      && IsVerdict(va, sa, a.config.metric, ContestOf(sa, a.config.controlKey, a.config.alpha, a.config.metric, tests))
      && r == Reporting(a, sa, va);
    var sb, vb :|
      && IsStats(sb, ViewsOf(b.variants, LoadedRows(b)))
      && IsVerdict(vb, sb, b.config.metric, ContestOf(sb, b.config.controlKey, b.config.alpha, b.config.metric, tests))
      && q == Reporting(b, sb, vb);
    StatsAreUnique(sa, sb, ViewsOf(a.variants, LoadedRows(a)));
    VerdictIsUnique(va, vb, sa, a.config.metric,
                    ContestOf(sa, a.config.controlKey, a.config.alpha, a.config.metric, tests));
    SameReporting(a, b, sa, va);
  }

  // ---------------------------------------------------------------- replays under a rising clock

  type Pair = (Row<Observed>, Row<Observed>)

  function FirstOf(p: Pair): Row<Observed> { p.0 }

  function SecondOf(p: Pair): Row<Observed> { p.1 }

  function FirstKey(p: Pair): real { RecordedKey(p.0) }

  function SecondKey(p: Pair): real { RecordedKey(p.1) }

  function Zipped(a: seq<Row<Observed>>, b: seq<Row<Observed>>): (z: seq<Pair>)
    requires |a| == |b|
    ensures |z| == |a| && forall i :: 0 <= i < |a| ==> z[i] == (a[i], b[i])
  {
    seq(|a|, i requires 0 <= i < |a| => (a[i], b[i]))
  }

  /** Any two rows were recorded in the same order. */
  ghost predicate SameTimeOrder(a: seq<Row<Observed>>, b: seq<Row<Observed>>)
    requires |a| == |b|
  {
    forall i, j :: 0 <= i < |a| && 0 <= j < |a| ==>
      (a[i].body.recordedAt >= a[j].body.recordedAt <==> b[i].body.recordedAt >= b[j].body.recordedAt)
  }

  lemma SortsAlike(a: seq<Row<Observed>>, b: seq<Row<Observed>>)
    requires SameExceptTimes(a, b) && SameTimeOrder(a, b)
    ensures SameExceptTimes(SortDescending(a, RecordedKey), SortDescending(b, RecordedKey))
  {
    hide SortDescending;
    var z := Zipped(a, b);
    assert Mapped(z, FirstOf) == a && Mapped(z, SecondOf) == b;
    assert SameOrder(z, FirstKey, SecondKey);
    SortMapped(z, FirstOf, FirstKey, RecordedKey);
    SortMapped(z, SecondOf, SecondKey, RecordedKey);
    SortAgrees(z, FirstKey, SecondKey);
    SortMembers(z, FirstKey);
    var sorted := SortDescending(z, FirstKey);
    forall i | 0 <= i < |sorted| ensures SameExceptTimes([sorted[i].0], [sorted[i].1]) {
      assert sorted[i] in z;
      var k :| 0 <= k < |z| && z[k] == sorted[i];
    }
    var sa, sb := SortDescending(a, RecordedKey), SortDescending(b, RecordedKey);
    forall i | 0 <= i < |sa|
      ensures sa[i].subject == sb[i].subject && sa[i].body.variantId == sb[i].body.variantId
      ensures sa[i].body.measures == sb[i].body.measures
    {
      assert SameExceptTimes([sorted[i].0], [sorted[i].1]);
      assert [sorted[i].0][0] == sa[i] && [sorted[i].1][0] == sb[i];
    }
  }

  /** Rows alike but for their times, recorded in the same order, are read back alike. */
  lemma LoadsAlike(a: Experiment, b: Experiment)
    requires a.variants == b.variants
    requires SameExceptTimes(a.observations, b.observations) && SameTimeOrder(a.observations, b.observations)
    ensures ViewsOf(a.variants, LoadedRows(a)) == ViewsOf(b.variants, LoadedRows(b))
  {
    SortsAlike(a.observations, b.observations);
    hide SortDescending, VariantKey;
  }

  // ---------------------------------------------------------------- the time of the last measurement

  ghost function TimeIn(e: Experiment, t: string): Option<int> {
    match Lookup(e.observations, t) case None => None case Some(o) => Some(o.recordedAt)
  }

  ghost function LastIndex(stream: seq<Measurement>, t: string): (k: Option<nat>)
    ensures k.Some? ==> k.value < |stream|
  {
    if stream == [] then None
    else if stream[|stream| - 1].subject == t then Some(|stream| - 1)
    else LastIndex(stream[..|stream| - 1], t)
  }

  lemma RecordTime(e: Experiment, s: string, m: Measures, now: int, env: Env, t: string)
    requires Inv(e) && e.status != Draft && Recorded(e, s, m, now, env).Ok?
    ensures TimeIn(Recorded(e, s, m, now, env).value, t) == if t == s then Some(now) else TimeIn(e, t)
  {
    RecordStores(e, s, m, now, env, t);
    hide Recorded, Lookup, Inv;
  }

  /** After a stream each of its subjects holds the time of its last measurement; others keep theirs. */
  lemma {:induction false} LastTimeWins(e: Experiment, stream: seq<Measurement>, times: nat -> int, env: Env, t: string)
    requires Inv(e) && e.status != Draft
    ensures var r := RecordedAll(e, stream, times, env);
      r.Ok? && TimeIn(r.value, t) == match LastIndex(stream, t) case None => TimeIn(e, t) case Some(k) => Some(times(k))
  {
    LastWins(e, stream, times, env, t);
    if stream != [] {
      var k := |stream| - 1;
      LastWins(e, stream[..k], times, env, t);
      LastTimeWins(e, stream[..k], times, env, t);
      var before := RecordedAll(e, stream[..k], times, env).value;
      RecordTime(before, stream[k].subject, stream[k].measures, times(k), env, t);
      hide MeasuresOf, Recorded, Inv, TimeIn;
    }
  }

  /** Both clocks order the measurements alike, among themselves and against the rows already there. */
  ghost predicate ClocksAgree(e: Experiment, n: nat, times: nat -> int, again: nat -> int) {
    && (forall j: nat, k: nat :: j < n && k < n ==> (times(j) >= times(k) <==> again(j) >= again(k)))
    && (forall i, k: nat :: 0 <= i < |e.observations| && k < n ==>
          var at := e.observations[i].body.recordedAt;
          (at >= times(k) <==> at >= again(k)) && (times(k) >= at <==> again(k) >= at))
  }

  /** The two times of one row, after recording a stream once and twice. */
  ghost predicate TwoTimes(e: Experiment, stream: seq<Measurement>, times: nat -> int, again: nat -> int, t: string,
                           once: int, twice: int) {
    match LastIndex(stream, t)
    case Some(n) => once == times(n) && twice == again(n)
    case None =>
      once == twice && exists i :: 0 <= i < |e.observations| && e.observations[i].body.recordedAt == once
  }

  lemma RowHasTwoTimes(e: Experiment, stream: seq<Measurement>, times: nat -> int, again: nat -> int, env: Env, i: nat)
    requires Inv(e) && e.status != Draft
    requires var once := RecordedAll(e, stream, times, env);
      once.Ok? &&
      var twice := RecordedAll(once.value, stream, again, env);
      twice.Ok? && i < |once.value.observations|
    ensures var once := RecordedAll(e, stream, times, env).value;
      var twice := RecordedAll(once, stream, again, env).value;
      i < |twice.observations|
      && TwoTimes(e, stream, times, again, once.observations[i].subject, once.observations[i].body.recordedAt,
                  twice.observations[i].body.recordedAt)
  {
    ReplayIsIdempotent(e, stream, times, again, env);
    var once := RecordedAll(e, stream, times, env).value;
    var twice := RecordedAll(once, stream, again, env).value;
    var t := once.observations[i].subject;
    LastWins(e, stream, times, env, t);
    LastWins(once, stream, again, env, t);
    LastTimeWins(e, stream, times, env, t);
    LastTimeWins(once, stream, again, env, t);
    var k := LastIndex(stream, t);
    hide RecordedAll, LastIndex, MeasuresOf, VariantsOk, AssignmentsOk, StatusOk;
    LookupIs(once.observations, i);
    LookupIs(twice.observations, i);
    if k.None? {
      var j := Find(e.observations, t);
      assert e.observations[j.value].body.recordedAt == once.observations[i].body.recordedAt;
    }
  }

  lemma TwoTimesAgree(e: Experiment, stream: seq<Measurement>, times: nat -> int, again: nat -> int,
                      s: string, s1: int, s2: int, t: string, t1: int, t2: int)
    requires ClocksAgree(e, |stream|, times, again)
    requires TwoTimes(e, stream, times, again, s, s1, s2) && TwoTimes(e, stream, times, again, t, t1, t2)
    ensures s1 >= t1 <==> s2 >= t2
  {
  }

  /** Under clocks that agree, a replay leaves what is read back as it was: the views, in their order. */
  lemma ReplayKeepsViews(e: Experiment, stream: seq<Measurement>, times: nat -> int, again: nat -> int, env: Env)
    requires Inv(e) && e.status != Draft && ClocksAgree(e, |stream|, times, again)
    ensures var once := RecordedAll(e, stream, times, env);
      once.Ok? &&
      var twice := RecordedAll(once.value, stream, again, env);
      && twice.Ok?
      && ViewsOf(once.value.variants, LoadedRows(once.value)) == ViewsOf(twice.value.variants, LoadedRows(twice.value))
  {
    ReplayIsIdempotent(e, stream, times, again, env);
    var once := RecordedAll(e, stream, times, env).value;
    var twice := RecordedAll(once, stream, again, env).value;
    var a, b := once.observations, twice.observations;
    hide RecordedAll, Inv, ClocksAgree, TwoTimes, LoadedRows, ViewsOf;
    forall i, j | 0 <= i < |a| && 0 <= j < |a|
      ensures a[i].body.recordedAt >= a[j].body.recordedAt <==> b[i].body.recordedAt >= b[j].body.recordedAt
    {
      RowHasTwoTimes(e, stream, times, again, env, i);
      RowHasTwoTimes(e, stream, times, again, env, j);
      TwoTimesAgree(e, stream, times, again, a[i].subject, a[i].body.recordedAt, b[i].body.recordedAt,
                    a[j].subject, a[j].body.recordedAt, b[j].body.recordedAt);
    }
    LoadsAlike(once, twice);
  }

  /** A clock that rises from measurement to measurement, and starts after every row already there. */
  ghost predicate Rises(e: Experiment, n: nat, times: nat -> int) {
    && (forall j: nat, k: nat :: j < k < n ==> times(j) < times(k))
    && (forall i, k: nat :: 0 <= i < |e.observations| && k < n ==> e.observations[i].body.recordedAt < times(k))
  }

  /** The same winner, confidence, impact and report every time: under a rising clock, recording a whole
      stream again changes nothing in the report, for any measures, any number of rows and any tie. */
  lemma ReplayKeepsReport(e: Experiment, stream: seq<Measurement>, times: nat -> int, again: nat -> int, env: Env,
                          tests: Tests, r: Result<Report, Error>, q: Result<Report, Error>)
    requires Inv(e) && e.status != Draft && Rises(e, |stream|, times) && Rises(e, |stream|, again)
    requires var once := RecordedAll(e, stream, times, env);
      once.Ok? && IsReport(r, once.value, tests) &&
      var twice := RecordedAll(once.value, stream, again, env);
      twice.Ok? && IsReport(q, twice.value, tests)
    ensures r == q
  {
    RisingClocksAgree(e, |stream|, times, again);
    ReplayKeepsViews(e, stream, times, again, env);
    ReplayIsIdempotent(e, stream, times, again, env);
    var once := RecordedAll(e, stream, times, env).value;
    var twice := RecordedAll(once, stream, again, env).value;
    hide RecordedAll, Inv, IsReport, Rises, ViewsOf, LoadedRows;
    ReportIsUnique(once, twice, tests, r, q);
  }

  lemma RisingClocksAgree(e: Experiment, n: nat, times: nat -> int, again: nat -> int)
    requires Rises(e, n, times) && Rises(e, n, again)
    ensures ClocksAgree(e, n, times, again)
  {
    forall j: nat, k: nat | j < n && k < n ensures times(j) >= times(k) <==> again(j) >= again(k) {
      if j < k { assert times(j) < times(k) && again(j) < again(k); }
      if k < j { assert times(k) < times(j) && again(k) < again(j); }
    }
  }
}
