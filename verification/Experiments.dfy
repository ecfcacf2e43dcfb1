/** One experiment and its operations (app/experiments/manager.py). */
module Experiments {
  // Tables (app/experiments/repository.py) are sequences of rows in order of insertion; times, the subject
  // hash and the code version are inputs.

  import opened Wrappers

  import Winner

  // ---------------------------------------------------------------- tables keyed by subject

  datatype Row<T> = Row(subject: string, body: T)

  ghost predicate UniqueSubjects<T>(rows: seq<Row<T>>) {
    forall i, j :: 0 <= i < j < |rows| ==> rows[i].subject != rows[j].subject
  }

  function Find<T>(rows: seq<Row<T>>, subject: string): (r: Option<nat>)
    ensures r.Some? ==> r.value < |rows| && rows[r.value].subject == subject
    ensures r.None? ==> forall i :: 0 <= i < |rows| ==> rows[i].subject != subject
  {
    if rows == [] then None
    else if rows[|rows| - 1].subject == subject then Some(|rows| - 1)
    else Find(rows[..|rows| - 1], subject)
  }

  function Lookup<T>(rows: seq<Row<T>>, subject: string): Option<T> {
    match Find(rows, subject)
    case None => None
    case Some(i) => Some(rows[i].body)
  }

  /** The subject's row is replaced, or a new row is added. */
  function Upsert<T>(rows: seq<Row<T>>, subject: string, body: T): seq<Row<T>> {
    match Find(rows, subject)
    case None => rows + [Row(subject, body)]
    case Some(i) => rows[i := Row(subject, body)]
  }

  lemma LookupIs<T>(rows: seq<Row<T>>, i: nat)
    requires UniqueSubjects(rows) && i < |rows|
    ensures Lookup(rows, rows[i].subject) == Some(rows[i].body)
  {
    var j := Find(rows, rows[i].subject);
    assert j.Some? && j.value == i;
  }

  lemma UpsertIsUnique<T>(rows: seq<Row<T>>, subject: string, body: T)
    requires UniqueSubjects(rows)
    ensures UniqueSubjects(Upsert(rows, subject, body))
  {
  }

  lemma UpsertLookup<T>(rows: seq<Row<T>>, subject: string, body: T, s: string)
    requires UniqueSubjects(rows)
    ensures Lookup(Upsert(rows, subject, body), s) == if s == subject then Some(body) else Lookup(rows, s)
  {
    var after := Upsert(rows, subject, body);
    UpsertIsUnique(rows, subject, body);
    var at := Find(rows, subject);
    assert at.Some? ==> after[at.value].subject == subject;
    assert at.None? ==> after[|rows|].subject == subject;
    if s == subject {
      LookupIs(after, if at.Some? then at.value else |rows|);
    } else {
      var was := Find(rows, s);
      if was.Some? { LookupIs(after, was.value); }
    }
  }

  // ---------------------------------------------------------------- the experiment

  datatype Status = Draft | Running | Stopped | Archived

  datatype Error = NotFound | Conflict | Invalid | MultipleRows

  datatype VariantRequest = VariantRequest(key: string, labelText: string, parameters: string, isControl: bool)

  datatype Variant = Variant(id: nat, request: VariantRequest)

  datatype Config = Config(
    name: string, kind: string, description: Option<string>, hypothesis: Option<string>, metric: Winner.Metric,
    alpha: real, minSampleSize: nat, seed: nat, controlKey: Option<string>)

  datatype Snapshot = Snapshot(
    name: string, kind: string, metric: Winner.Metric, alpha: real, minSampleSize: nat, seed: nat,
    controlKey: Option<string>, variants: seq<VariantRequest>, codeVersion: string)

  datatype Measures = Measures(
    outcome: bool, profit: Option<real>, roi: Option<real>, value: Option<real>,
    predicted: Option<bool>, groundTruth: Option<bool>)

  datatype Observed = Observed(variantId: nat, measures: Measures, recordedAt: int)

  datatype Experiment = Experiment(
    config: Config, status: Status, variants: seq<Variant>, assignments: seq<Row<nat>>,
    observations: seq<Row<Observed>>, snapshot: Option<Snapshot>, codeVersion: Option<string>,
    startedAt: Option<int>, stoppedAt: Option<int>, nextId: nat)

  datatype Env = Env(hash: (nat, string) -> nat, maxVariants: nat, maxBatch: nat)

  /** Python's truth of an optional string. */
  predicate Truthy(s: Option<string>) { s.Some? && s.value != "" }

  function KeyCount(variants: seq<Variant>, key: string): nat {
    if variants == [] then 0
    else
      var last := variants[|variants| - 1];
      KeyCount(variants[..|variants| - 1], key) + if last.request.key == key then 1 else 0
  }

  function WithVariant(e: Experiment, r: VariantRequest): Experiment {
    e.(variants := e.variants + [Variant(e.nextId, r)], nextId := e.nextId + 1)
  }

  function WithControl(e: Experiment, key: string): Experiment { e.(config := e.config.(controlKey := Some(key))) }

  // ---------------------------------------------------------------- creation

  /** The first variant marked as control goes to the front. */
  function ControlFirst(rs: seq<VariantRequest>): seq<VariantRequest> {
    match FirstControl(rs)
    case None => rs
    case Some(i) => [rs[i]] + rs[..i] + rs[i + 1..]
  }

  function FirstControl(rs: seq<VariantRequest>): (r: Option<nat>)
    ensures r.Some? ==> r.value < |rs| && rs[r.value].isControl && forall j :: 0 <= j < r.value ==> !rs[j].isControl
    ensures r.None? ==> forall j :: 0 <= j < |rs| ==> !rs[j].isControl
  {
    if rs == [] then None
    else if rs[0].isControl then Some(0)
    else match FirstControl(rs[1..])
      case None => None
      case Some(i) => Some(i + 1)
  }

  function CreateOne(e: Experiment, r: VariantRequest): Experiment {
    var added := WithVariant(e, r);
    if r.isControl && !Truthy(e.config.controlKey) then WithControl(added, r.key) else added
  }

  function CreateAll(e: Experiment, rs: seq<VariantRequest>): Experiment {
    if rs == [] then e else CreateOne(CreateAll(e, rs[..|rs| - 1]), rs[|rs| - 1])
  }

  function Blank(config: Config): Experiment {
    Experiment(config, Draft, [], [], [], None, None, None, None, 0)
  }

  function Created(config: Config, rs: seq<VariantRequest>, env: Env, enabled: bool): Result<Experiment, Error> {
    if !enabled || |rs| > env.maxVariants then Err(Invalid)
    else
      var e := CreateAll(Blank(config), ControlFirst(rs));
      if !Truthy(e.config.controlKey) then Ok(e)
      else
        var n := KeyCount(e.variants, e.config.controlKey.value);
        if n == 0 then Ok(WithVariant(e, VariantRequest(e.config.controlKey.value, "Control", "{}", true)))
        else if n == 1 then Ok(e)
        else Err(MultipleRows)
  }

  // ---------------------------------------------------------------- lifecycle

  function AddedVariant(e: Experiment, r: VariantRequest, env: Env): Result<Experiment, Error> {
    if e.status != Draft then Err(Conflict)
    else if |e.variants| >= env.maxVariants then Err(Invalid)
    else if r.isControl && Truthy(e.config.controlKey) then Err(Invalid)
    else if KeyCount(e.variants, r.key) == 1 then Err(Invalid)
    else if KeyCount(e.variants, r.key) > 1 then Err(MultipleRows)
    else
      var added := WithVariant(e, r);
      Ok(if r.isControl then WithControl(added, r.key) else added)
  }

  datatype Update = Update(
    name: Option<string>, description: Option<string>, hypothesis: Option<string>, controlKey: Option<string>)

  /** Only fields given are written. */
  function Updated(e: Experiment, u: Update): Result<Experiment, Error> {
    if e.status != Draft then Err(Conflict)
    else
      var c := e.config;
      Ok(e.(config := c.(
        name := if u.name.Some? then u.name.value else c.name,
        description := if u.description.Some? then u.description else c.description,
        hypothesis := if u.hypothesis.Some? then u.hypothesis else c.hypothesis,
        controlKey := if u.controlKey.Some? then u.controlKey else c.controlKey)))
  }

  function Requests(variants: seq<Variant>): (rs: seq<VariantRequest>)
    ensures |rs| == |variants| && forall i :: 0 <= i < |variants| ==> rs[i] == variants[i].request
  {
    seq(|variants|, i requires 0 <= i < |variants| => variants[i].request)
  }

  /** The live configuration and variant list. */
  function SnapshotOf(e: Experiment, codeVersion: string): Snapshot {
    var c := e.config;
    Snapshot(c.name, c.kind, c.metric, c.alpha, c.minSampleSize, c.seed, c.controlKey, Requests(e.variants),
             codeVersion)
  }

  function Started(e: Experiment, codeVersion: string, now: int): Result<Experiment, Error> {
    if e.status != Draft && e.status != Running then Err(Conflict)
    else if e.variants == [] then Err(Invalid)
    else Ok(e.(status := Running, startedAt := Some(now), snapshot := Some(SnapshotOf(e, codeVersion)),
               codeVersion := Some(codeVersion)))
  }

  function StoppedAt(e: Experiment, now: int): Result<Experiment, Error> {
    if e.status != Running then Err(Conflict) else Ok(e.(status := Stopped, stoppedAt := Some(now)))
  }

  // ---------------------------------------------------------------- assignment and observation

  /** The variant index of a subject. */
  function AssignVariant(hash: (nat, string) -> nat, subject: string, seed: nat, n: int): (i: nat)
    ensures n > 0 ==> i < n
  {
    if n <= 0 then 0 else hash(seed, subject) % n
  }

  /** The variant a subject hashes to. */
  function Hashed(e: Experiment, subject: string, env: Env): nat
    requires e.variants != []
  {
    e.variants[AssignVariant(env.hash, subject, e.config.seed, |e.variants|)].id
  }

  predicate HasVariant(e: Experiment, id: nat) { exists i :: 0 <= i < |e.variants| && e.variants[i].id == id }

  function Assigned(e: Experiment, subject: string, env: Env): Result<Experiment, Error> {
    if e.status == Archived then Err(Conflict)
    else match Lookup(e.assignments, subject)
      case Some(id) => if HasVariant(e, id) then Ok(e) else Err(NotFound)
      case None =>
        if e.variants == [] then Err(Invalid)
        else Ok(e.(assignments := e.assignments + [Row(subject, Hashed(e, subject, env))]))
  }

  /** Assigns the subject if need be, then writes its one observation. */
  function Recorded(e: Experiment, subject: string, m: Measures, now: int, env: Env): Result<Experiment, Error> {
    if e.status != Running && e.status != Stopped then Err(Conflict)
    else match Assigned(e, subject, env)
      case Err(error) => Err(error)
      case Ok(a) =>
        var id := Lookup(a.assignments, subject);
        if id.None? then Err(NotFound)
        else
          var kept := match Lookup(a.observations, subject) case Some(o) => o.variantId case None => id.value;
          Ok(a.(observations := Upsert(a.observations, subject, Observed(kept, m, now))))
  }

  datatype Measurement = Measurement(subject: string, measures: Measures)

  /** A stream of measurements through `record`, the k-th at `times(k)`. */
  function RecordedAll(e: Experiment, stream: seq<Measurement>, times: nat -> int, env: Env)
      : Result<Experiment, Error> {
    if stream == [] then Ok(e)
    else
      var k := |stream| - 1;
      match RecordedAll(e, stream[..k], times, env)
      case Err(error) => Err(error)
      case Ok(before) => Recorded(before, stream[k].subject, stream[k].measures, times(k), env)
  }

  ghost function SubjectsOf(stream: seq<Measurement>): set<string> { set k | 0 <= k < |stream| :: stream[k].subject }

  /** The first measurement of each subject, in order. */
  ghost function FirstOnly(stream: seq<Measurement>): seq<Measurement> {
    if stream == [] then []
    else
      var k := |stream| - 1;
      FirstOnly(stream[..k]) + if stream[k].subject in SubjectsOf(stream[..k]) then [] else [stream[k]]
  }

  // ---------------------------------------------------------------- operations as steps

  datatype Op =
    | DoAddVariant(request: VariantRequest)
    | DoUpdate(update: Update)
    | DoStart(codeVersion: string, now: int)
    | DoStop(now: int)
    | DoAssign(subject: string)
    | DoRecord(subject: string, measures: Measures, now: int)

  function Attempt(e: Experiment, op: Op, env: Env): Result<Experiment, Error> {
    match op
    case DoAddVariant(r) => AddedVariant(e, r, env)
    case DoUpdate(u) => Updated(e, u)
    case DoStart(v, now) => Started(e, v, now)
    case DoStop(now) => StoppedAt(e, now)
    case DoAssign(s) => Assigned(e, s, env)
    case DoRecord(s, m, now) => Recorded(e, s, m, now, env)
  }

  /** An operation that raises changes nothing. */
  function Applied(e: Experiment, op: Op, env: Env): Experiment {
    match Attempt(e, op, env) case Ok(after) => after case Err(_) => e
  }

  function RunOf(e: Experiment, ops: seq<Op>, env: Env): Experiment
    decreases |ops|
  {
    if ops == [] then e else RunOf(Applied(e, ops[0], env), ops[1..], env)
  }

  // ---------------------------------------------------------------- what every step keeps

  ghost predicate VariantsOk(e: Experiment) {
    && (forall i :: 0 <= i < |e.variants| ==> e.variants[i].id < e.nextId)
    && (forall i, j :: 0 <= i < j < |e.variants| ==> e.variants[i].id != e.variants[j].id)
  }

  ghost predicate AssignmentsOk(e: Experiment) {
    && UniqueSubjects(e.assignments)
    && forall i :: 0 <= i < |e.assignments| ==> HasVariant(e, e.assignments[i].body)
  }

  /** Every observation is of its subject's variant. */
  ghost predicate ObservationsOk(e: Experiment) {
    && UniqueSubjects(e.observations)
    && (forall i :: 0 <= i < |e.observations| ==>
          Lookup(e.assignments, e.observations[i].subject) == Some(e.observations[i].body.variantId))
  }

  ghost predicate StatusOk(e: Experiment) {
    && e.status != Archived
    && (e.status == Draft ==> e.observations == [] && e.snapshot == None && e.startedAt == None)
    && (e.status != Draft ==>
         && e.variants != [] && e.startedAt.Some? && e.codeVersion.Some?
         && e.snapshot == Some(SnapshotOf(e, e.codeVersion.value)))
    && (e.status == Stopped <==> e.stoppedAt.Some?)
  }

  /** One assignment and one observation per subject, the observation of the assigned variant, none in
      draft, and outside draft the stored snapshot is the live configuration and variant list. */
  ghost predicate Inv(e: Experiment) {
    VariantsOk(e) && AssignmentsOk(e) && ObservationsOk(e) && StatusOk(e)
  }

  lemma AddVariantKeeps(e: Experiment, r: VariantRequest, env: Env)
    requires Inv(e) && AddedVariant(e, r, env).Ok?
    ensures Inv(AddedVariant(e, r, env).value)
  {
    var after := AddedVariant(e, r, env).value;
    forall i | 0 <= i < |after.assignments| ensures HasVariant(after, after.assignments[i].body) {
      assert HasVariant(e, e.assignments[i].body);
      var j :| 0 <= j < |e.variants| && e.variants[j].id == e.assignments[i].body;
      assert after.variants[j].id == e.assignments[i].body;
    }
  }

  lemma AssignKeeps(e: Experiment, s: string, env: Env)
    requires Inv(e) && Assigned(e, s, env).Ok?
    ensures var after := Assigned(e, s, env).value;
      && Inv(after)
      && Lookup(after.assignments, s).Some?
      && (forall t :: Lookup(e.assignments, t).Some? ==> Lookup(after.assignments, t) == Lookup(e.assignments, t))
      && (forall t :: t != s ==> Lookup(after.assignments, t) == Lookup(e.assignments, t))
  {
    var after := Assigned(e, s, env).value;
    if Lookup(e.assignments, s).None? {
      var id := Hashed(e, s, env);
      assert after.assignments == Upsert(e.assignments, s, id);
      forall t ensures Lookup(after.assignments, t) == if t == s then Some(id) else Lookup(e.assignments, t) {
        UpsertLookup(e.assignments, s, id, t);
      }
      NewAssignmentOk(e, s, id);
      hide Lookup, Upsert, Find, AssignmentsOk, HasVariant;
      ObservationsStay(e, after);
    }
  }

  lemma NewAssignmentOk(e: Experiment, s: string, id: nat)
    requires AssignmentsOk(e) && Lookup(e.assignments, s).None? && HasVariant(e, id)
    ensures AssignmentsOk(e.(assignments := e.assignments + [Row(s, id)]))
  {
    UpsertIsUnique(e.assignments, s, id);
    hide UniqueSubjects;
    var after := e.(assignments := e.assignments + [Row(s, id)]);
    SameVariants(e, after, id);
    forall i | 0 <= i < |after.assignments| ensures HasVariant(after, after.assignments[i].body) {
      if i < |e.assignments| { SameVariants(e, after, e.assignments[i].body); }
    }
  }

  lemma SameVariants(e: Experiment, after: Experiment, id: nat)
    requires after.variants == e.variants && HasVariant(e, id)
    ensures HasVariant(after, id)
  {
  }

  lemma ObservationsStay(e: Experiment, after: Experiment)
    requires ObservationsOk(e) && after.observations == e.observations
    requires forall t :: Lookup(e.assignments, t).Some? ==> Lookup(after.assignments, t) == Lookup(e.assignments, t)
    ensures ObservationsOk(after)
  {
    hide Lookup, UniqueSubjects;
  }

  lemma UpsertKeepsObservations(e: Experiment, s: string, o: Observed)
    requires ObservationsOk(e) && Lookup(e.assignments, s) == Some(o.variantId)
    ensures ObservationsOk(e.(observations := Upsert(e.observations, s, o)))
  {
    hide Lookup, Find;
    UpsertIsUnique(e.observations, s, o);
    hide UniqueSubjects;
  }

  lemma RecordKeeps(e: Experiment, s: string, m: Measures, now: int, env: Env)
    requires Inv(e) && Recorded(e, s, m, now, env).Ok?
    ensures Inv(Recorded(e, s, m, now, env).value)
  {
    AssignKeeps(e, s, env);
    var a := Assigned(e, s, env).value;
    ObservedIsAssigned(a, s);
    var o := Observed(Lookup(a.assignments, s).value, m, now);
    hide Lookup, Find, Upsert, VariantsOk, AssignmentsOk, ObservationsOk, Assigned;
    var after := a.(observations := Upsert(a.observations, s, o));
    assert Recorded(e, s, m, now, env) == Ok(after);
    SameAssignments(a, after);
    UpsertKeepsObservations(a, s, o);
    assert e.status == Running || e.status == Stopped;
    AssignKeepsStatus(e, s, env);
  }

  lemma AssignKeepsStatus(e: Experiment, s: string, env: Env)
    requires Assigned(e, s, env).Ok?
    ensures var a := Assigned(e, s, env).value; a == e.(assignments := a.assignments)
  {
  }

  /** A subject already observed is observed under its assigned variant. */
  lemma ObservedIsAssigned(e: Experiment, s: string)
    requires Inv(e)
    ensures Lookup(e.observations, s).Some? ==>
      Lookup(e.assignments, s) == Some(Lookup(e.observations, s).value.variantId)
  {
  }

  lemma StepKeepsInv(e: Experiment, op: Op, env: Env)
    requires Inv(e)
    ensures Inv(Applied(e, op, env))
  {
    if Attempt(e, op, env).Ok? {
      match op
      case DoAddVariant(r) => AddVariantKeeps(e, r, env);
      case DoUpdate(u) => SameTables(e, Applied(e, op, env));
      case DoStart(v, now) => SameTables(e, Applied(e, op, env));
      case DoStop(now) => SameTables(e, Applied(e, op, env));
      case DoAssign(s) => AssignKeeps(e, s, env);
      case DoRecord(s, m, now) => RecordKeeps(e, s, m, now, env);
    }
  }

  lemma SameAssignments(e: Experiment, after: Experiment)
    requires VariantsOk(e) && AssignmentsOk(e)
    requires after.variants == e.variants && after.nextId == e.nextId && after.assignments == e.assignments
    ensures VariantsOk(after) && AssignmentsOk(after)
  {
    forall i | 0 <= i < |after.assignments| ensures HasVariant(after, after.assignments[i].body) {
      assert HasVariant(e, e.assignments[i].body);
    }
  }

  lemma SameTables(e: Experiment, after: Experiment)
    requires VariantsOk(e) && AssignmentsOk(e) && ObservationsOk(e)
    requires after.variants == e.variants && after.nextId == e.nextId
    requires after.assignments == e.assignments && after.observations == e.observations
    ensures VariantsOk(after) && AssignmentsOk(after) && ObservationsOk(after)
  {
    SameAssignments(e, after);
  }

  // ---------------------------------------------------------------- every reachable state

  lemma AddToDraftKeeps(e: Experiment, r: VariantRequest, key: Option<string>)
    requires Inv(e) && e.status == Draft && e.assignments == []
    ensures Inv(WithVariant(e, r).(config := e.config.(controlKey := key)))
  {
  }

  lemma {:induction false} CreateAllKeeps(e: Experiment, rs: seq<VariantRequest>)
    requires Inv(e) && e.status == Draft && e.assignments == []
    ensures var after := CreateAll(e, rs);
      Inv(after) && after.status == Draft && after.assignments == [] && |after.variants| == |e.variants| + |rs|
  {
    if rs != [] {
      hide Inv;
      var before, r := CreateAll(e, rs[..|rs| - 1]), rs[|rs| - 1];
      CreateAllKeeps(e, rs[..|rs| - 1]);
      AddToDraftKeeps(before, r, CreateOne(before, r).config.controlKey);
    }
  }

  lemma BlankIsInv(config: Config)
    ensures Inv(Blank(config))
  {
  }

  lemma CreatedIsInv(config: Config, rs: seq<VariantRequest>, env: Env, enabled: bool)
    requires Created(config, rs, env, enabled).Ok?
    ensures Inv(Created(config, rs, env, enabled).value)
    ensures Created(config, rs, env, enabled).value.status == Draft
  {
    hide Inv, CreateAll, ControlFirst, KeyCount;
    BlankIsInv(config);
    CreateAllKeeps(Blank(config), ControlFirst(rs));
    var made := CreateAll(Blank(config), ControlFirst(rs));
    if Truthy(made.config.controlKey) {
      var control := VariantRequest(made.config.controlKey.value, "Control", "{}", true);
      AddToDraftKeeps(made, control, made.config.controlKey);
    }
  }

  ghost function Rank(s: Status): nat {
    match s case Draft => 0 case Running => 1 case Stopped => 2 case Archived => 3
  }

  ghost predicate RowsForward(a: seq<Row<Observed>>, b: seq<Row<Observed>>) {
    && |a| <= |b|
    && forall i :: 0 <= i < |a| ==> b[i].subject == a[i].subject && b[i].body.variantId == a[i].body.variantId
  }

  /** Status never moves back, assignments only grow, and no observation row ever changes its subject
      or variant. */
  ghost predicate Forward(a: Experiment, b: Experiment) {
    && Rank(a.status) <= Rank(b.status)
    && a.assignments <= b.assignments
    && RowsForward(a.observations, b.observations)
    && (a.status != Draft ==> b.variants == a.variants && b.config == a.config)
  }

  lemma UpsertIsForward(rows: seq<Row<Observed>>, s: string, o: Observed)
    requires Lookup(rows, s).Some? ==> Lookup(rows, s).value.variantId == o.variantId
    ensures RowsForward(rows, Upsert(rows, s, o))
  {
    var i := Find(rows, s);
    assert i.Some? ==> Lookup(rows, s) == Some(rows[i.value].body);
  }

  lemma RecordIsForward(e: Experiment, s: string, m: Measures, now: int, env: Env)
    requires Inv(e) && Recorded(e, s, m, now, env).Ok?
    ensures Forward(e, Recorded(e, s, m, now, env).value)
  {
    hide Inv, Find, Lookup, Upsert, RowsForward, HasVariant;
    var a := Assigned(e, s, env).value;
    var id := Lookup(a.assignments, s);
    var o := Observed(match Lookup(a.observations, s) case Some(o) => o.variantId case None => id.value, m, now);
    assert a.observations == e.observations;
    UpsertIsForward(e.observations, s, o);
  }

  lemma StepIsForward(e: Experiment, op: Op, env: Env)
    requires Inv(e)
    ensures Forward(e, Applied(e, op, env))
  {
    if op.DoRecord? && Attempt(e, op, env).Ok? {
      RecordIsForward(e, op.subject, op.measures, op.now, env);
    }
    hide Recorded, Find, Lookup, Upsert;
  }

  lemma {:induction false} RunKeepsInv(e: Experiment, ops: seq<Op>, env: Env)
    requires Inv(e)
    ensures Inv(RunOf(e, ops, env)) && Forward(e, RunOf(e, ops, env))
    decreases |ops|
  {
    if ops != [] {
      StepKeepsInv(e, ops[0], env);
      StepIsForward(e, ops[0], env);
      RunKeepsInv(Applied(e, ops[0], env), ops[1..], env);
    }
  }

  /** The run invariant: every experiment that the manager created and then worked on, in any way. */
  lemma ReachableIsInv(config: Config, rs: seq<VariantRequest>, env: Env, ops: seq<Op>)
    requires Created(config, rs, env, true).Ok?
    ensures var start := Created(config, rs, env, true).value;
      Inv(RunOf(start, ops, env)) && Forward(start, RunOf(start, ops, env))
  {
    CreatedIsInv(config, rs, env, true);
    RunKeepsInv(Created(config, rs, env, true).value, ops, env);
  }

  // ---------------------------------------------------------------- the control variant

  ghost predicate ControlPresent(e: Experiment) {
    Truthy(e.config.controlKey) ==>
      exists i :: 0 <= i < |e.variants| && e.variants[i].request.key == e.config.controlKey.value
  }

  lemma {:induction false} KeyCountPositive(variants: seq<Variant>, key: string)
    ensures KeyCount(variants, key) > 0 <==> exists i :: 0 <= i < |variants| && variants[i].request.key == key
  {
    if variants != [] {
      var init := variants[..|variants| - 1];
      KeyCountPositive(init, key);
      if exists i :: 0 <= i < |init| && init[i].request.key == key {
        var i :| 0 <= i < |init| && init[i].request.key == key;
        assert variants[i].request.key == key;
      }
      assert variants[|variants| - 1].request.key == key ==> KeyCount(variants, key) > 0;
    }
  }

  lemma ControlFound(e: Experiment)
    ensures Truthy(e.config.controlKey) ==> (KeyCount(e.variants, e.config.controlKey.value) > 0 <==> ControlPresent(e))
  {
    hide KeyCount;
    if Truthy(e.config.controlKey) { KeyCountPositive(e.variants, e.config.controlKey.value); }
  }

  lemma ControlAdded(e: Experiment, r: VariantRequest)
    requires e.config.controlKey == Some(r.key)
    ensures ControlPresent(WithVariant(e, r)) && |WithVariant(e, r).variants| == |e.variants| + 1
  {
    assert WithVariant(e, r).variants[|e.variants|].request == r;
  }

  /** A new experiment has the control it names, added last if no requested variant carries the key. */
  lemma CreatedHasControl(config: Config, rs: seq<VariantRequest>, env: Env)
    requires Created(config, rs, env, true).Ok?
    ensures var e := Created(config, rs, env, true).value;
      ControlPresent(e) && |rs| <= |e.variants| <= env.maxVariants + 1
  {
    var made := CreateAll(Blank(config), ControlFirst(rs));
    CreateAllKeeps(Blank(config), ControlFirst(rs));
    hide CreateAll, ControlFirst, Inv, KeyCount, WithVariant;
    ControlFound(made);
    if Truthy(made.config.controlKey) {
      ControlAdded(made, VariantRequest(made.config.controlKey.value, "Control", "{}", true));
    }
  }

  /** An update keeps the control present exactly when it names an existing variant: the new key is not
      checked, so an experiment can start with a control it does not have. */
  lemma UpdateKeepsControlIff(e: Experiment, u: Update)
    requires e.status == Draft && ControlPresent(e)
    ensures ControlPresent(Updated(e, u).value)
      <==> (!Truthy(u.controlKey) || KeyCount(e.variants, u.controlKey.value) > 0)
  {
    if Truthy(u.controlKey) { KeyCountPositive(e.variants, u.controlKey.value); }
  }

  // ---------------------------------------------------------------- assignment as a function of seed and subject

  /** Each subject is assigned the variant its hash picks from the current list. */
  ghost predicate Pure(e: Experiment, env: Env) {
    forall i :: 0 <= i < |e.assignments| ==>
      e.variants != [] && e.assignments[i].body == Hashed(e, e.assignments[i].subject, env)
  }

  lemma SameIdSamePlace(e: Experiment, i: nat, j: nat)
    requires VariantsOk(e) && i < |e.variants| && j < |e.variants| && e.variants[i].id == e.variants[j].id
    ensures i == j
  {
  }

  /** Every subject assigned so far hashes to the same place among n + 1 variants as among n. */
  ghost predicate HashesStay(e: Experiment, env: Env) {
    forall i :: 0 <= i < |e.assignments| ==> SamePlace(e, e.assignments[i].subject, env)
  }

  ghost predicate SamePlace(e: Experiment, subject: string, env: Env) {
    AssignVariant(env.hash, subject, e.config.seed, |e.variants|)
      == AssignVariant(env.hash, subject, e.config.seed, |e.variants| + 1)
  }

  /** Assignment is allowed in draft; a variant added afterwards leaves the assignments a function of
      seed and subject exactly when no assigned subject hashes elsewhere in the longer list. */
  lemma AddVariantKeepsPureIff(e: Experiment, r: VariantRequest, env: Env)
    requires Inv(e) && Pure(e, env) && AddedVariant(e, r, env).Ok?
    ensures Pure(AddedVariant(e, r, env).value, env) <==> HashesStay(e, env)
  {
    var after := AddedVariant(e, r, env).value;
    AddVariantKeeps(e, r, env);
    forall i | 0 <= i < |e.assignments|
      ensures e.assignments[i].body == Hashed(after, e.assignments[i].subject, env)
        <==> SamePlace(e, e.assignments[i].subject, env)
    {
      var was := AssignVariant(env.hash, e.assignments[i].subject, e.config.seed, |e.variants|);
      var now := AssignVariant(env.hash, e.assignments[i].subject, e.config.seed, |e.variants| + 1);
      assert e.assignments[i].body == e.variants[was].id == after.variants[was].id;
      if after.variants[was].id == after.variants[now].id { SameIdSamePlace(after, was, now); }
    }
  }

  lemma SamePure(e: Experiment, after: Experiment, env: Env)
    requires Pure(e, env) && after.assignments == e.assignments
    requires after.variants == e.variants && after.config.seed == e.config.seed
    ensures Pure(after, env)
  {
    hide AssignVariant;
    forall i | 0 <= i < |after.assignments|
      ensures after.variants != [] && after.assignments[i].body == Hashed(after, after.assignments[i].subject, env)
    {
      assert e.assignments[i].body == Hashed(e, e.assignments[i].subject, env);
    }
  }

  lemma AssignKeepsPure(e: Experiment, s: string, env: Env)
    requires Pure(e, env) && Assigned(e, s, env).Ok?
    ensures Pure(Assigned(e, s, env).value, env)
  {
    hide AssignVariant, Lookup, HasVariant;
    var after := Assigned(e, s, env).value;
    forall i | 0 <= i < |after.assignments|
      ensures after.variants != [] && after.assignments[i].body == Hashed(after, after.assignments[i].subject, env)
    {
      if i < |e.assignments| { assert e.assignments[i].body == Hashed(e, e.assignments[i].subject, env); }
    }
  }

  /** Every other operation keeps them pure, so from a start without assignments they stay so for good. */
  lemma StepKeepsPure(e: Experiment, op: Op, env: Env)
    requires Inv(e) && Pure(e, env) && (e.status == Draft ==> !op.DoAddVariant?)
    ensures Pure(Applied(e, op, env), env)
  {
    hide Pure, Inv, Assigned, Lookup, Upsert;
    var after := Applied(e, op, env);
    match op
    case DoAssign(s) =>
      if Assigned(e, s, env).Ok? { AssignKeepsPure(e, s, env); }
    case DoRecord(s, m, now) =>
      if Recorded(e, s, m, now, env).Ok? {
        AssignKeepsPure(e, s, env);
        SamePure(Assigned(e, s, env).value, after, env);
      }
    case DoAddVariant(_) =>
    case DoUpdate(_) => SamePure(e, after, env);
    case DoStart(_, _) => SamePure(e, after, env);
    case DoStop(_) => SamePure(e, after, env);
  }

  lemma {:induction false} StartedStaysPure(e: Experiment, ops: seq<Op>, env: Env)
    requires Inv(e) && e.status != Draft && Pure(e, env)
    ensures Pure(RunOf(e, ops, env), env)
    decreases |ops|
  {
    if ops != [] {
      StepKeepsInv(e, ops[0], env);
      StepIsForward(e, ops[0], env);
      StepKeepsPure(e, ops[0], env);
      StartedStaysPure(Applied(e, ops[0], env), ops[1..], env);
    }
  }

  // ---------------------------------------------------------------- examples

  const FIRST: VariantRequest := VariantRequest("a", "A", "{}", true)
  const SECOND: VariantRequest := VariantRequest("b", "B", "{}", false)

  const PLAIN: Config :=
    Config("x", "ab_test", None, None, Winner.Conversion, 0.05, 100, 42, None)

  /** Every subject hashes to 1. */
  const ONE_ENV: Env := Env((_, _) => 1, 20, 1000)

  lemma FirstCreated()
    ensures Created(PLAIN, [FIRST], ONE_ENV, true)
      == Ok(Blank(PLAIN.(controlKey := Some("a"))).(variants := [Variant(0, FIRST)], nextId := 1))
  {
    assert ControlFirst([FIRST]) == [FIRST];
    assert [FIRST][..0] == [];
    assert CreateAll(Blank(PLAIN), []) == Blank(PLAIN);
    assert KeyCount([], "a") == 0;
    assert [Variant(0, FIRST)][..0] == [];
  }

  /** A subject assigned in draft to the only variant; once there is a second, its hash picks that one. */
  lemma DraftAssignmentNeedNotBePure()
    ensures var start := Created(PLAIN, [FIRST], ONE_ENV, true);
      start.Ok? && !Pure(RunOf(start.value, [DoAssign("s"), DoAddVariant(SECOND)], ONE_ENV), ONE_ENV)
  {
    FirstCreated();
    var e := Created(PLAIN, [FIRST], ONE_ENV, true).value;
    var ops := [DoAssign("s"), DoAddVariant(SECOND)];
    CreatedIsInv(PLAIN, [FIRST], ONE_ENV, true);
    var one := Applied(e, ops[0], ONE_ENV);
    assert one == e.(assignments := [Row("s", 0)]);
    assert KeyCount(e.variants, "b") == 0 by { assert e.variants[..0] == []; assert "a"[0] == 'a' && "b"[0] == 'b'; }
    var two := Applied(one, ops[1], ONE_ENV);
    assert two == one.(variants := [Variant(0, FIRST), Variant(1, SECOND)], nextId := 2);
    assert ops[1..] == [DoAddVariant(SECOND)] && ops[1..][1..] == [];
    hide Applied;
    assert RunOf(one, ops[1..], ONE_ENV) == RunOf(two, [], ONE_ENV) == two;
    assert RunOf(e, ops, ONE_ENV) == two;
    assert two.assignments[0] == Row("s", 0) && Hashed(two, "s", ONE_ENV) == 1;
  }

  /** A control nobody created is accepted, and the experiment starts with it. */
  lemma ControlNeedNotExist()
    ensures var start := Created(PLAIN, [FIRST], ONE_ENV, true);
      start.Ok? &&
      var e := RunOf(start.value, [DoUpdate(Update(None, None, None, Some("z"))), DoStart("v1", 0)], ONE_ENV);
      e.status == Running && e.config.controlKey == Some("z") && !ControlPresent(e)
  {
    FirstCreated();
    var e := Created(PLAIN, [FIRST], ONE_ENV, true).value;
    var ops := [DoUpdate(Update(None, None, None, Some("z"))), DoStart("v1", 0)];
    var one := Applied(e, ops[0], ONE_ENV);
    var two := Applied(one, ops[1], ONE_ENV);
    assert ops[1..] == [DoStart("v1", 0)] && ops[1..][1..] == [];
    assert RunOf(one, ops[1..], ONE_ENV) == two;
    assert "a"[0] == 'a' && "z"[0] == 'z';
  }
}
