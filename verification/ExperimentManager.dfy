/** The experiment manager as an object (app/experiments/manager.py): the stored experiments by id, each
    method working on its rows in place. What one operation does to one experiment is said by the
    functions of `Experiments`; the methods here agree with them, branch by branch. */
module ExperimentManager {
  import opened ExperimentRuns
  import opened Experiments
  import opened Results
  import opened Winner
  import opened Wrappers

  type Store = map<nat, Experiment>

  /** The outcome of one operation on the store. */
  function Ran(store: Store, id: nat, op: Op, env: Env): Result<Experiment, Error> {
    if id !in store then Err(NotFound) else Attempt(store[id], op, env)
  }

  function Kept(store: Store, id: nat, r: Result<Experiment, Error>): Store {
    if r.Ok? then store[id := r.value] else store
  }

  function FindVariant(e: Experiment, id: nat): (v: Option<Variant>)
    ensures v.Some? <==> HasVariant(e, id)
    ensures v.Some? ==> v.value in e.variants && v.value.id == id
  {
    FindIn(e.variants, id)
  }

  function FindIn(variants: seq<Variant>, id: nat): (v: Option<Variant>)
    ensures v.Some? <==> exists i :: 0 <= i < |variants| && variants[i].id == id
    ensures v.Some? ==> v.value in variants && v.value.id == id
  {
    if variants == [] then None
    else if variants[0].id == id then Some(variants[0])
    else FindIn(variants[1..], id)
  }

  ghost predicate AssignReply(e: Experiment, subject: string, v: Variant) {
    v in e.variants && Lookup(e.assignments, subject) == Some(v.id)
  }

  /** The subject's stored observation, of its assigned variant. */
  ghost predicate RecordReply(e: Experiment, subject: string, m: Measures, now: int, o: Observed) {
    && o.measures == m && o.recordedAt == now
    && Lookup(e.observations, subject) == Some(o)
    && Lookup(e.assignments, subject) == Some(o.variantId)
  }

  function WithAssignment(e: Experiment, subject: string, v: Variant): Experiment {
    e.(assignments := e.assignments + [Row(subject, v.id)])
  }

  lemma PositionIsRemainder(hash: (nat, string) -> nat, subject: string, seed: nat, n: nat)
    requires n > 0
    ensures AssignVariant(hash, subject, seed, n) == hash(seed, subject) % n
  {
  }

  lemma AssignOutcome(e: Experiment, subject: string, env: Env)
    requires Inv(e)
    ensures e.status != Archived
    ensures var outcome := Assigned(e, subject, env);
      match Lookup(e.assignments, subject)
      case Some(id) =>
        && outcome == Ok(e) && FindVariant(e, id).Some? && AssignReply(e, subject, FindVariant(e, id).value)
      case None =>
        if e.variants == [] then outcome == Err(Invalid)
        else
          var v := e.variants[AssignVariant(env.hash, subject, e.config.seed, |e.variants|)];
          outcome == Ok(WithAssignment(e, subject, v)) && AssignReply(WithAssignment(e, subject, v), subject, v)
  {
    var i := Find(e.assignments, subject);
    if i.Some? {
      assert HasVariant(e, e.assignments[i.value].body);
    } else if e.variants != [] {
      UpsertLookup(e.assignments, subject, Hashed(e, subject, env), subject);
    }
  }

  lemma RecordRefused(e: Experiment, subject: string, m: Measures, now: int, env: Env)
    requires e.status != Running && e.status != Stopped
    ensures Recorded(e, subject, m, now, env) == Err(Conflict)
  {
  }

  /** The row that `record` writes once the subject is assigned. */
  function RowFor(e: Experiment, subject: string, m: Measures, now: int): Observed
    requires Lookup(e.assignments, subject).Some?
  {
    Observed(
      match Lookup(e.observations, subject)
      case Some(o) => o.variantId
      case None => Lookup(e.assignments, subject).value,
      m, now)
  }

  function Written(e: Experiment, subject: string, row: Observed): Experiment {
    e.(observations := Upsert(e.observations, subject, row))
  }

  lemma RecordWrites(e: Experiment, subject: string, m: Measures, now: int, env: Env)
    requires Inv(e) && e.status != Draft
    ensures var a := Assigned(e, subject, env);
      && a.Ok? && Inv(a.value) && Lookup(a.value.assignments, subject).Some?
      && (Lookup(e.assignments, subject).Some? ==> a.value == e)
      && var row := RowFor(a.value, subject, m, now);
         && Recorded(e, subject, m, now, env) == Ok(Written(a.value, subject, row))
         && RecordReply(Written(a.value, subject, row), subject, m, now, row)
  {
    TouchAssigns(e, subject, env, subject);
    AssignKeeps(e, subject, env);
    var a := Assigned(e, subject, env).value;
    var row := RowFor(a, subject, m, now);
    ObservedIsAssigned(a, subject);
    UpsertLookup(a.observations, subject, row, subject);
  }

  /** The state of a batch after its first `i` measurements. */
  ghost function SoFar(e: Experiment, batch: seq<Measurement>, i: nat, times: nat -> int, env: Env)
      : Result<Experiment, Error>
    requires i <= |batch|
  {
    RecordedAll(e, FirstOnly(batch[..i]), times, env)
  }

  lemma SoFarStep(e: Experiment, batch: seq<Measurement>, i: nat, times: nat -> int, env: Env)
    requires i < |batch|
    ensures var seen := batch[i].subject in SubjectsOf(batch[..i]);
      && SubjectsOf(batch[..i + 1]) == SubjectsOf(batch[..i]) + {batch[i].subject}
      && |FirstOnly(batch[..i + 1])| == |FirstOnly(batch[..i])| + (if seen then 0 else 1)
      && (seen ==> SoFar(e, batch, i + 1, times, env) == SoFar(e, batch, i, times, env))
      && (!seen && SoFar(e, batch, i, times, env).Ok? ==>
           SoFar(e, batch, i + 1, times, env)
             == Recorded(SoFar(e, batch, i, times, env).value, batch[i].subject, batch[i].measures,
                         times(|FirstOnly(batch[..i])|), env))
  {
    assert batch[..i + 1][..i] == batch[..i];
    SubjectsGrow(batch[..i + 1]);
    var before := FirstOnly(batch[..i]);
    assert before + [] == before;
    assert (before + [batch[i]])[..|before|] == before;
  }

  /** A batch on an experiment that is not there fails at its first record. */
  ghost function BatchSoFar(store: Store, id: nat, batch: seq<Measurement>, i: nat, times: nat -> int, env: Env)
      : Result<Experiment, Error>
    requires i <= |batch| && id in store
  {
    SoFar(store[id], batch, i, times, env)
  }

  ghost predicate IsSoFar(
    now: Store, start: Store, id: nat, batch: seq<Measurement>, i: nat, times: nat -> int, env: Env)
    requires i <= |batch|
  {
    if id in start then
      var so := BatchSoFar(start, id, batch, i, times, env);
      so.Ok? && now == start[id := so.value]
    else i == 0 && now == start
  }

  lemma NothingSoFar(start: Store, id: nat, batch: seq<Measurement>, times: nat -> int, env: Env)
    ensures SubjectsOf(batch[..0]) == {} && FirstOnly(batch[..0]) == []
    ensures IsSoFar(start, start, id, batch, 0, times, env)
  {
  }

  lemma SkipStep(now: Store, start: Store, id: nat, batch: seq<Measurement>, i: nat, times: nat -> int, env: Env)
    requires i < |batch| && IsSoFar(now, start, id, batch, i, times, env) && id in start
    requires batch[i].subject in SubjectsOf(batch[..i])
    ensures IsSoFar(now, start, id, batch, i + 1, times, env)
    ensures SubjectsOf(batch[..i + 1]) == SubjectsOf(batch[..i])
    ensures |FirstOnly(batch[..i + 1])| == |FirstOnly(batch[..i])|
  {
    hide SoFar, Recorded, FirstOnly;
    SoFarStep(start[id], batch, i, times, env);
  }

  lemma NextSoFar(e: Experiment, batch: seq<Measurement>, i: nat, times: nat -> int, env: Env)
    requires Inv(e) && i < |batch| && SoFar(e, batch, i, times, env).Ok?
    requires batch[i].subject !in SubjectsOf(batch[..i])
    ensures var before, after := SoFar(e, batch, i, times, env).value, SoFar(e, batch, i + 1, times, env);
      && after == Recorded(before, batch[i].subject, batch[i].measures, times(|FirstOnly(batch[..i])|), env)
      && (after.Err? ==> after == SoFar(e, batch, |batch|, times, env) && before == e)
    ensures SubjectsOf(batch[..i + 1]) == SubjectsOf(batch[..i]) + {batch[i].subject}
    ensures |FirstOnly(batch[..i + 1])| == |FirstOnly(batch[..i])| + 1
  {
    hide Recorded, FirstOnly, Inv, SubjectsOf, RecordedAll;
    SoFarStep(e, batch, i, times, env);
    if e.status == Draft {
      SoFarSucceeds(e, batch, i, times, env);
      EmptySoFar(e, batch, times, env);
    }
    hide SoFar;
    SoFarSucceeds(e, batch, i + 1, times, env);
    SoFarSucceeds(e, batch, |batch|, times, env);
  }

  lemma EmptySoFar(e: Experiment, batch: seq<Measurement>, times: nat -> int, env: Env)
    ensures SoFar(e, batch, 0, times, env) == Ok(e)
  {
  }

  lemma BatchStep(now: Store, start: Store, id: nat, batch: seq<Measurement>, i: nat, times: nat -> int, env: Env)
    requires i < |batch| && IsSoFar(now, start, id, batch, i, times, env) && id in start && Inv(start[id])
    requires batch[i].subject !in SubjectsOf(batch[..i])
    ensures var ran := Ran(now, id, DoRecord(batch[i].subject, batch[i].measures, times(|FirstOnly(batch[..i])|)), env);
      && (ran.Ok? ==> IsSoFar(now[id := ran.value], start, id, batch, i + 1, times, env))
      && (ran.Err? ==> ran == BatchSoFar(start, id, batch, |batch|, times, env) && now == start)
    ensures SubjectsOf(batch[..i + 1]) == SubjectsOf(batch[..i]) + {batch[i].subject}
    ensures |FirstOnly(batch[..i + 1])| == |FirstOnly(batch[..i])| + 1
  {
    hide SoFar, Recorded, FirstOnly, Inv, SubjectsOf, AddedVariant, Updated, Started, StoppedAt, Assigned;
    NextSoFar(start[id], batch, i, times, env);
  }

  lemma MissingSoFar(now: Store, start: Store, id: nat, batch: seq<Measurement>, i: nat, times: nat -> int, env: Env)
    requires i < |batch| && IsSoFar(now, start, id, batch, i, times, env) && id !in start
    ensures now == start
    ensures forall op :: Ran(now, id, op, env) == Err(NotFound)
  {
  }

  /** On a started experiment every prefix of a batch succeeds; otherwise the first record fails. */
  lemma SoFarSucceeds(e: Experiment, batch: seq<Measurement>, i: nat, times: nat -> int, env: Env)
    requires Inv(e) && i <= |batch|
    ensures e.status != Draft ==> SoFar(e, batch, i, times, env).Ok?
    ensures e.status == Draft && i > 0 ==> SoFar(e, batch, i, times, env) == Err(Conflict)
  {
    if e.status != Draft {
      LastWins(e, FirstOnly(batch[..i]), times, env, "");
    } else if i > 0 {
      assert batch[..i][0].subject in SubjectsOf(batch[..i]);
      FirstOnlyKeepsFirst(batch[..i], batch[0].subject);
      DraftRecordsNothing(e, FirstOnly(batch[..i]), times, env);
    }
  }

  lemma ManyIsSoFar(store: Store, id: nat, batch: seq<Measurement>, times: nat -> int, env: Env)
    requires id in store && |batch| <= env.maxBatch
    ensures RecordedMany(store[id], batch, times, env) == BatchSoFar(store, id, batch, |batch|, times, env)
  {
    assert batch[..|batch|] == batch;
  }

  lemma LastSoFar(now: Store, start: Store, id: nat, batch: seq<Measurement>, times: nat -> int, env: Env)
    requires IsSoFar(now, start, id, batch, |batch|, times, env)
    ensures id in start ==> now == Kept(start, id, BatchSoFar(start, id, batch, |batch|, times, env))
    ensures id in start ==> BatchSoFar(start, id, batch, |batch|, times, env).Ok?
    ensures id !in start ==> batch == [] && now == start
  {
  }

  lemma {:induction false} DraftRecordsNothing(e: Experiment, stream: seq<Measurement>, times: nat -> int, env: Env)
    requires e.status == Draft && stream != []
    ensures RecordedAll(e, stream, times, env) == Err(Conflict)
  {
    if |stream| > 1 { DraftRecordsNothing(e, stream[..|stream| - 1], times, env); }
  }

  /** The reports made for an experiment, oldest first. */
  function ReportsFor(reports: map<nat, seq<Report>>, id: nat): seq<Report> {
    if id in reports then reports[id] else []
  }

  /** A report stored for an experiment, or an experiment deleted with its reports. */
  datatype Filing = Made(id: nat, report: Report) | Removed(id: nat)

  /** The reports that a history of filings leaves. */
  ghost function Filed(history: seq<Filing>): map<nat, seq<Report>> {
    if history == [] then map[]
    else FiledNext(Filed(history[..|history| - 1]), history[|history| - 1])
  }

  ghost function FiledNext(before: map<nat, seq<Report>>, next: Filing): map<nat, seq<Report>> {
    match next
    case Made(id, r) => before[id := ReportsFor(before, id) + [r]]
    case Removed(id) => before - {id}
  }

  /** The report made last for an experiment since it was last deleted. */
  ghost function LastMade(history: seq<Filing>, id: nat): Option<Report> {
    if history == [] then None
    else
      var last := history[|history| - 1];
      if last.id != id then LastMade(history[..|history| - 1], id)
      else if last.Made? then Some(last.report)
      else None
  }

  /** The last report stored for an experiment is the one made last, over any history. */
  lemma {:induction false} LatestIsLastMade(history: seq<Filing>, id: nat)
    ensures var made := ReportsFor(Filed(history), id);
      LastMade(history, id) == if made == [] then None else Some(made[|made| - 1])
  {
    if history != [] { LatestIsLastMade(history[..|history| - 1], id); }
  }

  /** The reports made for an experiment, in order. */
  ghost function MadeFor(history: seq<Filing>, id: nat): seq<Report> {
    if history == [] then []
    else
      (if history[0].Made? && history[0].id == id then [history[0].report] else []) + MadeFor(history[1..], id)
  }

  lemma {:induction false} MadeForAppends(a: seq<Filing>, b: seq<Filing>, id: nat)
    ensures MadeFor(a + b, id) == MadeFor(a, id) + MadeFor(b, id)
  {
    if a == [] {
      assert a + b == b;
    } else {
      assert (a + b)[1..] == a[1..] + b;
      MadeForAppends(a[1..], b, id);
    }
  }

  /** Every report made for an experiment since it was last deleted is stored, in order, and no other. */
  lemma {:induction false} ReportsAreKept(before: seq<Filing>, since: seq<Filing>, id: nat)
    requires before == [] || before[|before| - 1] == Removed(id)
    requires forall k :: 0 <= k < |since| ==> since[k] != Removed(id)
    ensures ReportsFor(Filed(before + since), id) == MadeFor(since, id)
    decreases |since|
  {
    var history := before + since;
    if since == [] {
      assert history == before;
    } else {
      var init, last := since[..|since| - 1], since[|since| - 1];
      assert since == init + [last];
      assert last != Removed(id) && forall k :: 0 <= k < |init| ==> init[k] == since[k];
      hide Filed, MadeFor, FiledNext, ReportsFor;
      assert history == (before + init) + [last];
      ReportsAreKept(before, init, id);
      FilesOne(before + init, last);
      FiledAdds(Filed(before + init), last, id);
      MadeForAppends(init, [last], id);
    }
  }

  lemma FiledAdds(filed: map<nat, seq<Report>>, last: Filing, id: nat)
    requires last != Removed(id)
    ensures ReportsFor(FiledNext(filed, last), id) == ReportsFor(filed, id) + MadeFor([last], id)
  {
    MadeForOne(last, id);
    hide MadeFor;
  }

  lemma MadeForOne(one: Filing, id: nat)
    ensures MadeFor([one], id) == if one.Made? && one.id == id then [one.report] else []
  {
    assert [one][1..] == [];
  }

  lemma FilesOne(history: seq<Filing>, next: Filing)
    ensures Filed(history + [next]) == FiledNext(Filed(history), next)
  {
    assert (history + [next])[..|history|] == history;
  }

  class ExperimentManager {
    const env: Env
    const enabled: bool
    const tests: Tests
    var experiments: Store
    var reports: map<nat, seq<Report>>
    var nextId: nat
    ghost var filings: seq<Filing>

    ghost predicate Valid()
      reads this
    {
      && reports == Filed(filings)
      && forall id :: id in experiments ==> id < nextId && Inv(experiments[id])
    }

    constructor (env: Env, enabled: bool, tests: Tests)
      ensures Valid() && experiments == map[] && filings == []
      ensures this.env == env && this.enabled == enabled && this.tests == tests
    {
      this.env, this.enabled, this.tests := env, enabled, tests;
      experiments, reports, nextId := map[], map[], 0;
      filings := [];
    }

    method CreateExperiment(config: Config, variants: seq<VariantRequest>) returns (r: Result<nat, Error>)
      requires Valid()
      modifies this`experiments, this`nextId
      ensures Valid()
      ensures var e := Created(config, variants, env, enabled);
        && r == (if e.Ok? then Ok(old(nextId)) else Err(e.error))
        && experiments == Kept(old(experiments), old(nextId), e)
    {
      hide Inv, KeyCount, ControlFirst;
      if !enabled || |variants| > env.maxVariants {
        return Err(Invalid);
      }
      var e := Blank(config);
      var ordered := ControlFirst(variants);
      for i := 0 to |ordered|
        invariant e == CreateAll(Blank(config), ordered[..i])
      {
        assert ordered[..i + 1][..i] == ordered[..i];
        var given := Truthy(e.config.controlKey);
        e := WithVariant(e, ordered[i]);
        if ordered[i].isControl && !given {
          e := WithControl(e, ordered[i].key);
        }
      }
      assert ordered[..|ordered|] == ordered;
      if Truthy(e.config.controlKey) {
        var carriers := KeyCount(e.variants, e.config.controlKey.value);
        if carriers > 1 {
          return Err(MultipleRows);
        }
        if carriers == 0 {
          e := WithVariant(e, VariantRequest(e.config.controlKey.value, "Control", "{}", true));
        }
      }
      CreatedIsInv(config, variants, env, true);
      experiments := experiments[nextId := e];
      r := Ok(nextId);
      nextId := nextId + 1;
    }

    method AddVariant(id: nat, request: VariantRequest) returns (r: Result<nat, Error>)
      requires Valid()
      modifies this`experiments
      ensures Valid()
      ensures var ran := Ran(old(experiments), id, DoAddVariant(request), env);
        && experiments == Kept(old(experiments), id, ran)
        && r == (if ran.Ok? then Ok(old(experiments)[id].nextId) else Err(ran.error))
    {
      hide Inv, KeyCount, Assigned, Recorded, Requests;
      if id !in experiments {
        return Err(NotFound);
      }
      var e := experiments[id];
      StepKeepsInv(e, DoAddVariant(request), env);
      if e.status != Draft {
        return Err(Conflict);
      }
      if |e.variants| >= env.maxVariants || (request.isControl && Truthy(e.config.controlKey)) {
        return Err(Invalid);
      }
      var carriers := KeyCount(e.variants, request.key);
      if carriers > 0 {
        return Err(if carriers == 1 then Invalid else MultipleRows);
      }
      experiments := experiments[id := WithVariant(e, request)];
      if request.isControl {
        experiments := experiments[id := WithControl(experiments[id], request.key)];
      }
      r := Ok(e.nextId);
    }

    method UpdateExperiment(id: nat, update: Update) returns (r: Result<Config, Error>)
      requires Valid()
      modifies this`experiments
      ensures Valid()
      ensures var ran := Ran(old(experiments), id, DoUpdate(update), env);
        && experiments == Kept(old(experiments), id, ran)
        && r == (if ran.Ok? then Ok(ran.value.config) else Err(ran.error))
    {
      hide Inv, KeyCount, Assigned, Recorded, Requests;
      if id !in experiments {
        return Err(NotFound);
      }
      var e := experiments[id];
      StepKeepsInv(e, DoUpdate(update), env);
      if e.status != Draft {
        return Err(Conflict);
      }
      var c := e.config;
      if update.name.Some? { c := c.(name := update.name.value); }
      if update.description.Some? { c := c.(description := update.description); }
      if update.hypothesis.Some? { c := c.(hypothesis := update.hypothesis); }
      if update.controlKey.Some? { c := c.(controlKey := update.controlKey); }
      experiments := experiments[id := e.(config := c)];
      r := Ok(c);
    }

    method Start(id: nat, codeVersion: string, now: int) returns (r: Result<Snapshot, Error>)
      requires Valid()
      modifies this`experiments
      ensures Valid()
      ensures var ran := Ran(old(experiments), id, DoStart(codeVersion, now), env);
        && experiments == Kept(old(experiments), id, ran)
        && r == (if ran.Ok? then Ok(SnapshotOf(old(experiments)[id], codeVersion)) else Err(ran.error))
    {
      hide Inv, KeyCount, Assigned, Recorded, Requests;
      if id !in experiments {
        return Err(NotFound);
      }
      var e := experiments[id];
      StepKeepsInv(e, DoStart(codeVersion, now), env);
      if e.status != Draft && e.status != Running {
        return Err(Conflict);
      }
      if e.variants == [] {
        return Err(Invalid);
      }
      var snapshot := SnapshotOf(e, codeVersion);
      experiments := experiments[id :=
        e.(status := Running, startedAt := Some(now), snapshot := Some(snapshot), codeVersion := Some(codeVersion))];
      r := Ok(snapshot);
    }

    /** Stops a running experiment and reports on it. Should the report fail, the stop is undone with it. */
    method Stop(id: nat, now: int) returns (r: Result<Report, Error>)
      requires Valid()
      modifies this`experiments, this`reports, this`filings
      ensures Valid()
      ensures var ran := Ran(old(experiments), id, DoStop(now), env);
        && (ran.Err? ==> r == Err(ran.error))
        && (ran.Ok? ==> IsReport(r, ran.value, tests))
        && experiments == (if r.Ok? then Kept(old(experiments), id, ran) else old(experiments))
      ensures filings == if r.Err? then old(filings) else old(filings) + [Made(id, r.value)]
    {
      hide Inv, IsReport, Filed;
      if id !in experiments {
        return Err(NotFound);
      }
      var e := experiments[id];
      StepKeepsInv(e, DoStop(now), env);
      if e.status != Running {
        return Err(Conflict);
      }
      e := e.(status := Stopped, stoppedAt := Some(now));
      r := GenerateReport(e, tests);
      if r.Ok? {
        experiments := experiments[id := e];
        FilesOne(filings, Made(id, r.value));
        reports := reports[id := ReportsFor(reports, id) + [r.value]];
        filings := filings + [Made(id, r.value)];
      }
    }

    /** A new report on an experiment in any status. */
    method MakeReport(id: nat) returns (r: Result<Report, Error>)
      requires Valid()
      modifies this`reports, this`filings
      ensures Valid()
      ensures if id in experiments then IsReport(r, experiments[id], tests) else r == Err(NotFound)
      ensures filings == if r.Err? then old(filings) else old(filings) + [Made(id, r.value)]
    {
      hide Inv, IsReport, Filed;
      if id !in experiments {
        return Err(NotFound);
      }
      r := GenerateReport(experiments[id], tests);
      if r.Ok? {
        FilesOne(filings, Made(id, r.value));
        reports := reports[id := ReportsFor(reports, id) + [r.value]];
        filings := filings + [Made(id, r.value)];
      }
    }

    /** What the last successful `Stop` or `MakeReport` for this experiment returned. */
    method LatestReport(id: nat) returns (r: Result<Report, Error>)
      requires Valid()
      ensures r == match LastMade(filings, id) case None => Err(NotFound) case Some(report) => Ok(report)
    {
      LatestIsLastMade(filings, id);
      var made := ReportsFor(reports, id);
      r := if made == [] then Err(NotFound) else Ok(made[|made| - 1]);
    }

    /** The variant of a subject: the stored one, or the one it hashes to, stored now. */
    method Assign(id: nat, subject: string) returns (r: Result<Variant, Error>)
      requires Valid()
      modifies this`experiments
      ensures Valid()
      ensures var ran := Ran(old(experiments), id, DoAssign(subject), env);
        && experiments == Kept(old(experiments), id, ran)
        && (ran.Err? ==> r == Err(ran.error))
        && (ran.Ok? ==> r.Ok? && AssignReply(ran.value, subject, r.value))
      ensures r.Ok? ==> id in old(experiments)
      ensures r.Ok? && Lookup(old(experiments)[id].assignments, subject).None? ==>
        var e := old(experiments)[id];
        e.variants != [] && r.value == e.variants[env.hash(e.config.seed, subject) % |e.variants|]
    {
      hide Inv, Lookup, Assigned, AssignReply, FindVariant, AssignVariant;
      if id !in experiments {
        return Err(NotFound);
      }
      var e := experiments[id];
      StepKeepsInv(e, DoAssign(subject), env);
      AssignOutcome(e, subject, env);
      if e.status == Archived {
        return Err(Conflict);
      }
      var existing := Lookup(e.assignments, subject);
      if existing.Some? {
        var v := FindVariant(e, existing.value);
        return if v.Some? then Ok(v.value) else Err(NotFound);
      }
      if e.variants == [] {
        return Err(Invalid);
      }
      var variant := e.variants[AssignVariant(env.hash, subject, e.config.seed, |e.variants|)];
      PositionIsRemainder(env.hash, subject, e.config.seed, |e.variants|);
      experiments := experiments[id := WithAssignment(e, subject, variant)];
      r := Ok(variant);
    }

    /** Assigns the subject if it is not yet, then updates its observation row or inserts one. */
    method Record(id: nat, subject: string, measures: Measures, now: int) returns (r: Result<Observed, Error>)
      requires Valid()
      modifies this`experiments
      ensures Valid()
      ensures var ran := Ran(old(experiments), id, DoRecord(subject, measures, now), env);
        && experiments == Kept(old(experiments), id, ran)
        && (ran.Err? ==> r == Err(ran.error))
        && (ran.Ok? ==> r.Ok? && RecordReply(ran.value, subject, measures, now, r.value))
    {
      hide Inv, Lookup, Recorded, Assigned, RecordReply, AssignReply, RowFor, Written;
      if id !in experiments {
        return Err(NotFound);
      }
      if experiments[id].status != Running && experiments[id].status != Stopped {
        RecordRefused(experiments[id], subject, measures, now, env);
        return Err(Conflict);
      }
      StepKeepsInv(experiments[id], DoRecord(subject, measures, now), env);
      RecordWrites(experiments[id], subject, measures, now, env);
      if Lookup(experiments[id].assignments, subject).None? {
        var _ := Assign(id, subject);
      }
      var row := RowFor(experiments[id], subject, measures, now);
      WriteObservation(id, subject, row);
      r := Ok(row);
    }

    /** Updates the subject's observation row in place, or inserts it. */
    method WriteObservation(id: nat, subject: string, row: Observed)
      requires id in experiments
      modifies this`experiments
      ensures experiments == old(experiments)[id := Written(old(experiments)[id], subject, row)]
    {
      var e := experiments[id];
      var existing := Find(e.observations, subject);
      if existing.Some? {
        experiments := experiments[id := e.(observations := e.observations[existing.value := Row(subject, row)])];
      } else {
        experiments := experiments[id := e.(observations := e.observations + [Row(subject, row)])];
      }
    }

    /** Records a batch, skipping every subject already seen in it; the k-th record is made at `times(k)`. */
    method RecordMany(id: nat, batch: seq<Measurement>, times: nat -> int) returns (r: Result<seq<Observed>, Error>)
      requires Valid()
      modifies this`experiments
      ensures Valid()
      ensures |batch| > env.maxBatch ==> r == Err(Invalid) && experiments == old(experiments)
      ensures |batch| <= env.maxBatch && id !in old(experiments) ==>
        r == (if batch == [] then Ok([]) else Err(NotFound)) && experiments == old(experiments)
      ensures |batch| <= env.maxBatch && id in old(experiments) ==>
        var ran := RecordedMany(old(experiments)[id], batch, times, env);
        && experiments == Kept(old(experiments), id, ran)
        && (if ran.Ok? then r.Ok? && |r.value| == |FirstOnly(batch)| else r == Err(ran.error))
    {
      if |batch| > env.maxBatch {
        return Err(Invalid);
      }
      hide Inv, Ran, RecordReply, RecordedMany, BatchSoFar, SoFar, IsSoFar, FirstOnly, SubjectsOf;
      ghost var start := experiments;
      var seen: set<string> := {};
      var made: seq<Observed> := [];
      NothingSoFar(start, id, batch, times, env);
      for i := 0 to |batch|
        invariant Valid() && seen == SubjectsOf(batch[..i]) && |made| == |FirstOnly(batch[..i])|
        invariant IsSoFar(experiments, start, id, batch, i, times, env)
        invariant id !in start ==> i == 0
      {
        if batch[i].subject !in seen {
          if id in start { BatchStep(experiments, start, id, batch, i, times, env); }
          if id !in start { MissingSoFar(experiments, start, id, batch, i, times, env); }
          seen := seen + {batch[i].subject};
          var one := Record(id, batch[i].subject, batch[i].measures, times(|made|));
          if one.Err? {
            if id in start { ManyIsSoFar(start, id, batch, times, env); }
            return Err(one.error);
          }
          made := made + [one.value];
        } else {
          NothingSoFar(start, id, batch, times, env);
          SkipStep(experiments, start, id, batch, i, times, env);
        }
      }
      if id in start { ManyIsSoFar(start, id, batch, times, env); }
      assert batch[..|batch|] == batch;
      LastSoFar(experiments, start, id, batch, times, env);
      r := Ok(made);
    }

    method DeleteExperiment(id: nat) returns (found: bool)
      requires Valid()
      modifies this`experiments, this`reports, this`filings
      ensures Valid()
      ensures found <==> id in old(experiments)
      ensures experiments == old(experiments) - {id} && filings == old(filings) + [Removed(id)]
    {
      hide Inv, Filed;
      found := id in experiments;
      experiments := experiments - {id};
      FilesOne(filings, Removed(id));
      reports := reports - {id};
      filings := filings + [Removed(id)];
    }
  }
}
