/** What repeated variant keys do (app/experiments/manager.py). Creation accepts them, everything later
    refuses them; observations of variants that share a key are pooled, and a report cannot name the
    label of a winner whose key is not its own. */
module VariantKeys {
  import opened ExperimentRuns
  import opened Experiments
  import opened Replays
  import opened Results
  import opened Sequences
  import opened StableSorting
  import opened Statistics
  import opened Winner
  import opened Wrappers

  ghost predicate KeysDiffer(variants: seq<Variant>) {
    forall i, j :: 0 <= i < j < |variants| ==> variants[i].request.key != variants[j].request.key
  }

  ghost predicate RequestsDiffer(rs: seq<VariantRequest>) {
    forall i, j :: 0 <= i < j < |rs| ==> rs[i].key != rs[j].key
  }

  // ---------------------------------------------------------------- creation decides

  lemma {:induction false} CreateAllRequests(config: Config, rs: seq<VariantRequest>)
    ensures Requests(CreateAll(Blank(config), rs).variants) == rs
  {
    if rs != [] { CreateAllRequests(config, rs[..|rs| - 1]); }
  }

  lemma SameRequests(variants: seq<Variant>, rs: seq<VariantRequest>)
    requires Requests(variants) == rs
    ensures KeysDiffer(variants) <==> RequestsDiffer(rs)
  {
    assert forall i :: 0 <= i < |rs| ==> rs[i] == variants[i].request;
  }

  function Moved(rs: seq<VariantRequest>, i: nat): seq<VariantRequest>
    requires i < |rs|
  {
    [rs[i]] + rs[..i] + rs[i + 1..]
  }

  /** Where the element at `k` comes from. */
  function Origin(i: nat, k: nat): nat { if k == 0 then i else if k <= i then k - 1 else k }

  lemma MovedAt(rs: seq<VariantRequest>, i: nat, k: nat)
    requires i < |rs| && k < |rs|
    ensures |Moved(rs, i)| == |rs| && Origin(i, k) < |rs| && Moved(rs, i)[k] == rs[Origin(i, k)]
  {
  }

  lemma MovedDiffers(rs: seq<VariantRequest>, i: nat)
    requires i < |rs|
    ensures RequestsDiffer(Moved(rs, i)) <==> RequestsDiffer(rs)
  {
    hide Moved;
    var moved := Moved(rs, i);
    MovedAt(rs, i, 0);
    if RequestsDiffer(rs) {
      forall j, k | 0 <= j < k < |moved| ensures moved[j].key != moved[k].key {
        MovedAt(rs, i, j);
        MovedAt(rs, i, k);
        assert Origin(i, j) != Origin(i, k);
      }
    }
    if RequestsDiffer(moved) {
      forall j, k | 0 <= j < k < |rs| ensures rs[j].key != rs[k].key {
        var a := if j == i then 0 else if j < i then j + 1 else j;
        var b := if k == i then 0 else if k < i then k + 1 else k;
        MovedAt(rs, i, a);
        MovedAt(rs, i, b);
        assert Origin(i, a) == j && Origin(i, b) == k && a != b;
      }
    }
  }

  lemma ControlFirstDiffers(rs: seq<VariantRequest>)
    ensures RequestsDiffer(ControlFirst(rs)) <==> RequestsDiffer(rs)
  {
    match FirstControl(rs)
    case None =>
    case Some(i) => MovedDiffers(rs, i);
  }

  lemma AddedDiffers(variants: seq<Variant>, v: Variant)
    requires KeyCount(variants, v.request.key) == 0
    ensures KeysDiffer(variants + [v]) <==> KeysDiffer(variants)
  {
    hide KeyCount;
    KeyCountPositive(variants, v.request.key);
    var all := variants + [v];
    forall i | 0 <= i < |variants| ensures all[i] == variants[i] { }
  }

  /** A new experiment has distinct variant keys exactly when the request did. */
  lemma CreatedDiffersIff(config: Config, rs: seq<VariantRequest>, env: Env)
    requires Created(config, rs, env, true).Ok?
    ensures KeysDiffer(Created(config, rs, env, true).value.variants) <==> RequestsDiffer(rs)
  {
    var made := CreateAll(Blank(config), ControlFirst(rs));
    CreateAllRequests(config, ControlFirst(rs));
    SameRequests(made.variants, ControlFirst(rs));
    ControlFirstDiffers(rs);
    hide CreateAll, ControlFirst, KeyCount, KeysDiffer, RequestsDiffer, Requests;
    if Truthy(made.config.controlKey) && KeyCount(made.variants, made.config.controlKey.value) == 0 {
      var control := VariantRequest(made.config.controlKey.value, "Control", "{}", true);
      AddedDiffers(made.variants, Variant(made.nextId, control));
    }
  }

  lemma StepKeepsKeys(e: Experiment, op: Op, env: Env)
    ensures KeysDiffer(Applied(e, op, env).variants) <==> KeysDiffer(e.variants)
  {
    hide KeysDiffer, KeyCount, Lookup, Upsert, HasVariant;
    if op.DoAddVariant? && AddedVariant(e, op.request, env).Ok? {
      AddedDiffers(e.variants, Variant(e.nextId, op.request));
    }
  }

  lemma {:induction false} RunKeepsKeys(e: Experiment, ops: seq<Op>, env: Env)
    ensures KeysDiffer(RunOf(e, ops, env).variants) <==> KeysDiffer(e.variants)
    decreases |ops|
  {
    if ops != [] {
      StepKeepsKeys(e, ops[0], env);
      hide Applied, KeysDiffer;
      RunKeepsKeys(Applied(e, ops[0], env), ops[1..], env);
    }
  }

  /** In every state an experiment can reach its variants have distinct keys exactly when those it was
      created with did: creation checks nothing, everything later does. */
  lemma KeysStayDistinctIff(config: Config, rs: seq<VariantRequest>, env: Env, ops: seq<Op>)
    requires Created(config, rs, env, true).Ok?
    ensures KeysDiffer(RunOf(Created(config, rs, env, true).value, ops, env).variants) <==> RequestsDiffer(rs)
  {
    CreatedDiffersIff(config, rs, env);
    RunKeepsKeys(Created(config, rs, env, true).value, ops, env);
  }

  // ---------------------------------------------------------------- what a repeated key costs

  /** Stopping a running experiment yields a report exactly when the winner's key, if there is a winner
      with a key that is not empty, belongs to one variant at most. */
  lemma StopReportsIff(e: Experiment, now: int, tests: Tests, stats: seq<Entry>, v: Verdict, r: Result<Report, Error>)
    requires e.status == Running && IsResult(v, stats, e, tests)
    requires IsReport(r, StoppedAt(e, now).value, tests)
    ensures r.Ok? <==> (Truthy(v.winner) ==> KeyCount(e.variants, v.winner.value) <= 1)
  {
    var stopped := StoppedAt(e, now).value;
    assert LoadedRows(stopped) == LoadedRows(e);
    hide IsStats, IsVerdict, LoadedRows, ContestOf, KeyCount, ViewsOf;
    assert IsReport(Reporting(e, stats, v), e, tests);
    ReportIsUnique(e, stopped, tests, Reporting(e, stats, v), r);
  }

  lemma {:induction false} DistinctKeyCount(variants: seq<Variant>, key: string)
    requires KeysDiffer(variants)
    ensures KeyCount(variants, key) <= 1
  {
    if variants != [] {
      var init, last := variants[..|variants| - 1], variants[|variants| - 1];
      assert forall i :: 0 <= i < |init| ==> init[i] == variants[i];
      DistinctKeyCount(init, key);
      if last.request.key == key { KeyCountPositive(init, key); }
    }
  }

  lemma DistinctKeysReport(e: Experiment, tests: Tests, r: Result<Report, Error>)
    requires KeysDiffer(e.variants) && IsReport(r, e, tests)
    ensures r.Ok?
  {
    hide IsStats, IsVerdict, LoadedRows, ViewsOf, ContestOf, KeysDiffer, KeyCount, ReportOf;
    var stats, v :|
      && IsStats(stats, ViewsOf(e.variants, LoadedRows(e)))
      && IsVerdict(v, stats, e.config.metric,
                   ContestOf(stats, e.config.controlKey, e.config.alpha, e.config.metric, tests))
      && r == Reporting(e, stats, v);
    if v.winner.Some? { DistinctKeyCount(e.variants, v.winner.value); }
  }

  /** With distinct keys requested, no report on the experiment ever fails, whatever is done to it. */
  lemma DistinctKeysAlwaysReport(config: Config, rs: seq<VariantRequest>, env: Env, ops: seq<Op>, tests: Tests,
                                 r: Result<Report, Error>)
    requires Created(config, rs, env, true).Ok? && RequestsDiffer(rs)
    requires IsReport(r, RunOf(Created(config, rs, env, true).value, ops, env), tests)
    ensures r.Ok?
  {
    KeysStayDistinctIff(config, rs, env, ops);
    hide IsReport;
    DistinctKeysReport(RunOf(Created(config, rs, env, true).value, ops, env), tests, r);
  }

  // ---------------------------------------------------------------- an example

  /** Subject "t" hashes to 1, every other one to 0. */
  const TWO_ENV: Env := Env((_, subject) => if subject == "t" then 1 else 0, 20, 1000)

  const LOW_TESTS: Tests := Tests((_, _, _, _) => 0.01, (_, _, _, _, _, _) => 0.01)

  const TWICE: seq<VariantRequest> := [FIRST, SECOND, SECOND]

  const LIVE: Experiment :=
    Blank(PLAIN.(controlKey := Some("a"))).(
      variants := [Variant(0, FIRST), Variant(1, SECOND), Variant(2, SECOND)], nextId := 3)

  lemma CreateAllNext(e: Experiment, rs: seq<VariantRequest>, r: VariantRequest)
    ensures CreateAll(e, rs + [r]) == CreateOne(CreateAll(e, rs), r)
  {
    assert (rs + [r])[..|rs|] == rs;
  }

  lemma KeyCountNext(variants: seq<Variant>, v: Variant, key: string)
    ensures KeyCount(variants + [v], key) == KeyCount(variants, key) + if v.request.key == key then 1 else 0
  {
    assert (variants + [v])[..|variants|] == variants;
  }

  lemma KeyCounts()
    ensures KeyCount(LIVE.variants, "a") == 1 && KeyCount(LIVE.variants, "b") == 2
  {
    var v0, v1, v2 := Variant(0, FIRST), Variant(1, SECOND), Variant(2, SECOND);
    assert "a"[0] == 'a' && "b"[0] == 'b';
    assert LIVE.variants == [] + [v0] + [v1] + [v2];
    hide KeyCount;
    forall key ensures KeyCount(LIVE.variants, key) == if key == "a" then 1 else if key == "b" then 2 else 0 {
      assert KeyCount([], key) == 0 by { NoVariants(key); }
      KeyCountNext([], v0, key);
      KeyCountNext([] + [v0], v1, key);
      KeyCountNext([] + [v0] + [v1], v2, key);
    }
  }

  lemma NoVariants(key: string)
    ensures KeyCount([], key) == 0
  {
  }

  lemma TwiceIsAccepted()
    ensures Created(PLAIN, TWICE, TWO_ENV, true) == Ok(LIVE)
  {
    assert ControlFirst(TWICE) == TWICE;
    assert TWICE == [] + [FIRST] + [SECOND] + [SECOND];
    CreateAllNext(Blank(PLAIN), [], FIRST);
    CreateAllNext(Blank(PLAIN), [] + [FIRST], SECOND);
    CreateAllNext(Blank(PLAIN), [] + [FIRST] + [SECOND], SECOND);
    assert CreateAll(Blank(PLAIN), []) == Blank(PLAIN);
    KeyCounts();
    hide CreateAll, KeyCount, ControlFirst;
    assert |"a"| == 1;
    var config := PLAIN.(controlKey := Some("a"));
    var one := Blank(config).(variants := [Variant(0, FIRST)], nextId := 1);
    var two := one.(variants := one.variants + [Variant(1, SECOND)], nextId := 2);
    assert CreateOne(Blank(PLAIN), FIRST) == one;
    assert CreateOne(one, SECOND) == two;
    assert CreateOne(two, SECOND) == LIVE;
  }

  const STREAM: seq<Op> := [DoStart("v1", 0), DoRecord("s", FAILURE, 1), DoRecord("t", SUCCESS, 2)]

  const ROWS: seq<Row<Observed>> := [Row("s", Observed(0, FAILURE, 1)), Row("t", Observed(1, SUCCESS, 2))]

  /** A subject measured for the first time. */
  lemma FirstRecord(e: Experiment, s: string, m: Measures, now: int, env: Env)
    requires e.status == Running && e.variants != []
    requires Find(e.assignments, s).None? && Find(e.observations, s).None?
    ensures var id := Hashed(e, s, env);
      Applied(e, DoRecord(s, m, now), env)
        == e.(assignments := e.assignments + [Row(s, id)],
              observations := e.observations + [Row(s, Observed(id, m, now))])
  {
    hide Hashed;
  }

  lemma RunOfThree(e: Experiment, ops: seq<Op>, env: Env)
    requires |ops| == 3
    ensures RunOf(e, ops, env) == Applied(Applied(Applied(e, ops[0], env), ops[1], env), ops[2], env)
  {
    hide Applied;
    var one, two := ops[1..], ops[1..][1..];
    assert one[0] == ops[1] && two[0] == ops[2] && two[1..] == [];
    var a := Applied(e, ops[0], env);
    var b := Applied(a, ops[1], env);
    var c := Applied(b, ops[2], env);
    assert RunOf(b, two, env) == RunOf(c, [], env) == c;
    assert RunOf(a, one, env) == RunOf(b, two, env);
  }

  ghost predicate IsLive(e: Experiment, assignments: seq<Row<nat>>, observations: seq<Row<Observed>>) {
    && e.status == Running && e.variants == LIVE.variants && e.config == LIVE.config
    && e.assignments == assignments && e.observations == observations
  }

  lemma LiveStarts()
    ensures IsLive(Applied(LIVE, DoStart("v1", 0), TWO_ENV), [], [])
  {
  }

  lemma LiveHashes(e: Experiment)
    requires e.variants == LIVE.variants && e.config == LIVE.config
    ensures Hashed(e, "s", TWO_ENV) == 0 && Hashed(e, "t", TWO_ENV) == 1
  {
    assert "s"[0] == 's' && "t"[0] == 't';
  }

  lemma StreamRuns()
    ensures IsLive(RunOf(LIVE, STREAM, TWO_ENV), [Row("s", 0), Row("t", 1)], ROWS)
  {
    RunOfThree(LIVE, STREAM, TWO_ENV);
    LiveStarts();
    assert "s"[0] == 's' && "t"[0] == 't';
    hide Applied, Find, Hashed, RunOf;
    var e0 := Applied(LIVE, STREAM[0], TWO_ENV);
    LiveHashes(e0);
    NoRow(e0.assignments, "s");
    NoRow(e0.observations, "s");
    FirstRecord(e0, "s", FAILURE, 1, TWO_ENV);
    var e1 := Applied(e0, STREAM[1], TWO_ENV);
    assert IsLive(e1, [Row("s", 0)], [ROWS[0]]);
    LiveHashes(e1);
    OtherRow(Row("s", 0), "t");
    OtherRow(ROWS[0], "t");
    FirstRecord(e1, "t", SUCCESS, 2, TWO_ENV);
  }

  lemma NoRow<T>(rows: seq<Row<T>>, t: string)
    requires rows == []
    ensures Find(rows, t) == None
  {
  }

  lemma OtherRow<T>(row: Row<T>, t: string)
    requires row.subject != t
    ensures Find([row], t) == None
  {
  }

  lemma RowsLoad(e: Experiment)
    requires e.observations == ROWS && e.variants == LIVE.variants
    ensures ViewsOf(e.variants, LoadedRows(e))
      == [View("b", true, None, None, None, None, None), View("a", false, None, None, None, None, None)]
  {
    var s, t := ROWS[0], ROWS[1];
    assert ROWS[1..] == [t] && [t][1..] == [];
    assert SortDescending([t], RecordedKey) == [t];
    assert Insert(s, [t], RecordedKey) == [t] + Insert(s, [], RecordedKey) == [t, s];
    assert LoadedRows(e) == [t, s];
    var v0, v1, v2 := Variant(0, FIRST), Variant(1, SECOND), Variant(2, SECOND);
    assert LIVE.variants == [v0, v1, v2] && [v0, v1, v2][..2] == [v0, v1] && [v0, v1][..1] == [v0];
    assert VariantKey([v0, v1], 1) == "b" && VariantKey([v0, v1], 0) == VariantKey([v0], 0) == "a";
  }

  lemma OfTwo(b: View, a: View, stats: seq<Entry>)
    requires b.variantKey != a.variantKey && IsStats(stats, [b, a])
    ensures stats == [EntryOf(b.variantKey, [b]), EntryOf(a.variantKey, [a])]
  {
    var views := [b, a];
    assert KeysOf(views) == [b.variantKey, a.variantKey];
    DistinctOfDistinct(KeysOf(views));
    assert views[..1] == [b] && [b][..0] == [];
    assert Items([b], b.variantKey) == [b] && Items([b], a.variantKey) == [];
    assert Items(views, b.variantKey) == [b] && Items(views, a.variantKey) == [a];
    hide EntryOf;
  }

  ghost predicate OneEach(stats: seq<Entry>) {
    && |stats| == 2 && stats[0].key == "b" && stats[1].key == "a"
    && stats[0].n == stats[0].successes == stats[1].n == 1 && stats[1].successes == 0
  }

  lemma OneEachContest(stats: seq<Entry>)
    requires OneEach(stats)
    ensures ContestOf(stats, Some("a"), 0.05, Conversion, LOW_TESTS)
      == Some(Contest(stats[1], 0.05, Conversion, LOW_TESTS))
  {
    assert "a"[0] == 'a' && "b"[0] == 'b';
  }

  lemma OneEachCandidates(stats: seq<Entry>, c: Contest)
    requires OneEach(stats) && c == Contest(stats[1], 0.05, Conversion, LOW_TESTS)
    ensures IsCandidate(stats[0], c) && !IsCandidate(stats[1], c)
  {
    assert "a"[0] == 'a' && "b"[0] == 'b';
    assert ScoreOf(stats[0], Conversion) == 1.0 && ScoreOf(stats[1], Conversion) == 0.0;
    assert Tested(stats[0], c) == Some((Some(0.01), 1.0 - 0.01));
    hide ScoreOf, Tested;
  }

  lemma SecondWins(stats: seq<Entry>, v: Verdict)
    requires OneEach(stats)
    requires IsVerdict(v, stats, Conversion, ContestOf(stats, Some("a"), 0.05, Conversion, LOW_TESTS))
    ensures v.winner == Some("b")
  {
    var c := Contest(stats[1], 0.05, Conversion, LOW_TESTS);
    hide IsCandidate, Crowned, ContestOf, IsVerdict;
    OneEachContest(stats);
    OneEachCandidates(stats, c);
    OnlyCandidateWins(stats, c, v);
    CrownedIsNamed(stats[0], c);
  }

  lemma OnlyCandidateWins(stats: seq<Entry>, c: Contest, v: Verdict)
    requires |stats| == 2 && IsCandidate(stats[0], c) && !IsCandidate(stats[1], c)
    requires IsVerdict(v, stats, c.metric, Some(c))
    ensures v == Crowned(stats[0], c)
  {
    hide IsCandidate, Beats, ScoreOf, Crowned;
    assert HasCandidate(stats, c);
    var i: nat :| IsWinner(stats, c, i) && v == Crowned(stats[i], c);
    assert i == 0 || i == 1;
  }

  lemma CrownedIsNamed(e: Entry, c: Contest)
    requires IsCandidate(e, c)
    ensures Crowned(e, c).winner == Some(e.key)
  {
    CrownedHasReasons(e, c);
    hide IsCandidate, Crowned, ScoreOf;
  }

  /** Created with one key twice, started, and measured once for each of two subjects: the variants of
      that key win together, and the experiment cannot be stopped. */
  lemma RepeatedKeyBlocksStop(now: int, r: Result<Report, Error>)
    requires Created(PLAIN, TWICE, TWO_ENV, true).Ok?
    requires var e := RunOf(Created(PLAIN, TWICE, TWO_ENV, true).value, STREAM, TWO_ENV);
      StoppedAt(e, now).Ok? && IsReport(r, StoppedAt(e, now).value, LOW_TESTS)
    ensures r == Err(MultipleRows)
  {
    TwiceIsAccepted();
    StreamRuns();
    KeyCounts();
    hide Created, RunOf, Applied, IsReport, KeyCount;
    var e := StoppedAt(RunOf(LIVE, STREAM, TWO_ENV), now).value;
    StoppedReports(e, r);
  }

  lemma StoppedReports(e: Experiment, r: Result<Report, Error>)
    requires e.variants == LIVE.variants && e.config == LIVE.config && e.observations == ROWS
    requires KeyCount(e.variants, "b") == 2 && IsReport(r, e, LOW_TESTS)
    ensures r == Err(MultipleRows)
  {
    hide Created, RunOf, Applied, IsStats, IsVerdict, LoadedRows, ViewsOf, ContestOf, KeyCount, ReportOf;
    var stats, v :|
      && IsStats(stats, ViewsOf(e.variants, LoadedRows(e)))
      && IsVerdict(v, stats, e.config.metric,
                   ContestOf(stats, e.config.controlKey, e.config.alpha, e.config.metric, LOW_TESTS))
      && r == Reporting(e, stats, v);
    RowsLoad(e);
    var b, a := View("b", true, None, None, None, None, None), View("a", false, None, None, None, None, None);
    assert "a"[0] == 'a' && "b"[0] == 'b';
    OfTwo(b, a, stats);
    SummaryOfOne(b);
    SummaryOfOne(a);
    hide EntryOf;
    SecondWins(stats, v);
  }
}
