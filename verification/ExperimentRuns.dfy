/** Reproducibility of experiments (app/experiments/manager.py). */
module ExperimentRuns {
  // The outcome of assigning and recording depends on which subjects were touched, not on order or
  // repetition.

  import opened Experiments
  import opened Wrappers

  // ---------------------------------------------------------------- assignment

  ghost function Touched(ops: seq<Op>): set<string> {
    if ops == [] then {}
    else
      (if ops[0].DoAssign? || ops[0].DoRecord? then {ops[0].subject} else {}) + Touched(ops[1..])
  }

  /** The assignment of a subject once it and others have been touched. */
  ghost function AssignmentAfter(e: Experiment, touched: set<string>, env: Env, t: string): Option<nat>
    requires e.variants != []
  {
    if Lookup(e.assignments, t).Some? then Lookup(e.assignments, t)
    else if t in touched then Some(Hashed(e, t, env))
    else None
  }

  lemma TouchAssigns(e: Experiment, s: string, env: Env, t: string)
    requires Inv(e) && e.status != Draft
    ensures Assigned(e, s, env).Ok?
    ensures Lookup(Assigned(e, s, env).value.assignments, t) == AssignmentAfter(e, {s}, env, t)
  {
    var i := Find(e.assignments, s);
    if i.Some? {
      assert HasVariant(e, e.assignments[i.value].body);
    } else {
      UpsertLookup(e.assignments, s, Hashed(e, s, env), t);
    }
  }

  lemma StepAssigns(e: Experiment, op: Op, env: Env, t: string)
    requires Inv(e) && e.status != Draft
    ensures Lookup(Applied(e, op, env).assignments, t) == AssignmentAfter(e, Touched([op]), env, t)
  {
    assert Touched([op]) == if op.DoAssign? || op.DoRecord? then {op.subject} else {} by {
      assert [op][1..] == [];
    }
    if op.DoAssign? || op.DoRecord? { TouchAssigns(e, op.subject, env, t); }
    hide Lookup, Touched, HasVariant;
  }

  /** Whatever is done to a started experiment, in whatever order: a subject that was assigned keeps its
      variant, a touched one gets the variant it hashes to, and no other is assigned. */
  lemma {:induction false} FinalAssignment(e: Experiment, ops: seq<Op>, env: Env, t: string)
    requires Inv(e) && e.status != Draft
    ensures Lookup(RunOf(e, ops, env).assignments, t) == AssignmentAfter(e, Touched(ops), env, t)
    decreases |ops|
  {
    if ops != [] {
      var next := Applied(e, ops[0], env);
      StepKeepsInv(e, ops[0], env);
      StepIsForward(e, ops[0], env);
      StepAssigns(e, ops[0], env, t);
      FinalAssignment(next, ops[1..], env, t);
      assert [ops[0]][1..] == [];
      assert Touched(ops) == Touched([ops[0]]) + Touched(ops[1..]);
      hide Lookup, Inv, Touched, Applied;
      assert Hashed(next, t, env) == Hashed(e, t, env);
    }
  }

  /** Two runs that touch the same subjects end with the same assignments. */
  lemma OrderDoesNotMatter(e: Experiment, a: seq<Op>, b: seq<Op>, env: Env)
    requires Inv(e) && e.status != Draft && Touched(a) == Touched(b)
    ensures forall t :: Lookup(RunOf(e, a, env).assignments, t) == Lookup(RunOf(e, b, env).assignments, t)
  {
    forall t ensures Lookup(RunOf(e, a, env).assignments, t) == Lookup(RunOf(e, b, env).assignments, t) {
      FinalAssignment(e, a, env, t);
      FinalAssignment(e, b, env, t);
    }
  }

  // ---------------------------------------------------------------- what decides the variant

  /** Touched by anything, a subject that had no variant ends with the one at the position that the hash of
      the experiment's seed and the subject leaves modulo the number of variants. */
  lemma SeedDecides(e: Experiment, ops: seq<Op>, env: Env, t: string)
    requires Inv(e) && e.status != Draft && Lookup(e.assignments, t).None? && t in Touched(ops)
    ensures e.variants != []
    ensures Lookup(RunOf(e, ops, env).assignments, t) == Some(e.variants[env.hash(e.config.seed, t) % |e.variants|].id)
  {
    FinalAssignment(e, ops, env, t);
    hide Lookup, RunOf, Touched;
  }

  ghost predicate AtPosition(e: Experiment, after: Experiment, t: string, p: nat) {
    p < |e.variants| && Lookup(after.assignments, t) == Some(e.variants[p].id)
  }

  /** The run of `ops` leaves the subject at position `p` of the variants. */
  ghost predicate EndsAt(e: Experiment, ops: seq<Op>, env: Env, t: string, p: nat) {
    AtPosition(e, RunOf(e, ops, env), t, p)
  }

  /** The experiment is started, the subject has no variant yet, and the run touches it. */
  ghost predicate IsNew(e: Experiment, ops: seq<Op>, t: string) {
    Inv(e) && e.status != Draft && Lookup(e.assignments, t).None? && t in Touched(ops)
  }

  lemma SeedGivesPosition(e: Experiment, ops: seq<Op>, env: Env, t: string, p: nat)
    requires IsNew(e, ops, t) && p < |e.variants| && env.hash(e.config.seed, t) == p
    ensures EndsAt(e, ops, env, t, p)
  {
    SeedDecides(e, ops, env, t);
    assert p % |e.variants| == p;
    hide Inv, Lookup, RunOf, Touched;
  }

  /** Every position is reached by some hash. */
  lemma EveryPositionIsReached(e: Experiment, ops: seq<Op>, env: Env, t: string, p: nat)
    requires IsNew(e, ops, t) && p < |e.variants|
    ensures exists hash :: EndsAt(e, ops, env.(hash := hash), t, p)
  {
    hide IsNew, EndsAt;
    var hash: (nat, string) -> nat := (_, _) => p;
    SeedGivesPosition(e, ops, env.(hash := hash), t, p);
  }

  /** Experiments with one seed and equally many variants give a subject the same position, whatever else
      differs between them. */
  lemma SameSeedSamePosition(a: Experiment, b: Experiment, opsA: seq<Op>, opsB: seq<Op>, env: Env, t: string)
    requires IsNew(a, opsA, t) && IsNew(b, opsB, t)
    requires a.config.seed == b.config.seed && |a.variants| == |b.variants|
    ensures exists p :: EndsAt(a, opsA, env, t, p) && EndsAt(b, opsB, env, t, p)
  {
    SeedDecides(a, opsA, env, t);
    SeedDecides(b, opsB, env, t);
    hide Inv, Lookup, RunOf, Touched;
    var p := env.hash(a.config.seed, t) % |a.variants|;
    assert EndsAt(a, opsA, env, t, p) && EndsAt(b, opsB, env, t, p);
  }

  /** Different seeds are told apart: with two variants or more some hash gives them different positions. */
  lemma SeedsAreToldApart(a: Experiment, b: Experiment, opsA: seq<Op>, opsB: seq<Op>, env: Env, t: string)
    requires IsNew(a, opsA, t) && IsNew(b, opsB, t)
    requires a.config.seed != b.config.seed && |a.variants| == |b.variants| >= 2
    ensures exists hash :: EndsAt(a, opsA, env.(hash := hash), t, 0) && EndsAt(b, opsB, env.(hash := hash), t, 1)
  {
    hide IsNew, EndsAt;
    var hash: (nat, string) -> nat := (seed, _) => if seed == a.config.seed then 0 else 1;
    SeedGivesPosition(a, opsA, env.(hash := hash), t, 0);
    SeedGivesPosition(b, opsB, env.(hash := hash), t, 1);
  }

  // ---------------------------------------------------------------- observation

  ghost function MeasuresOf(e: Experiment, t: string): Option<Measures> {
    match Lookup(e.observations, t) case None => None case Some(o) => Some(o.measures)
  }

  ghost function LastMeasures(stream: seq<Measurement>, t: string): Option<Measures> {
    if stream == [] then None
    else
      var last := stream[|stream| - 1];
      if last.subject == t then Some(last.measures) else LastMeasures(stream[..|stream| - 1], t)
  }

  ghost function FirstMeasures(stream: seq<Measurement>, t: string): Option<Measures> {
    if stream == [] then None
    else
      var last := stream[|stream| - 1];
      match FirstMeasures(stream[..|stream| - 1], t)
      case Some(m) => Some(m)
      case None => if last.subject == t then Some(last.measures) else None
  }

  ghost function Override<T>(a: Option<T>, b: Option<T>): Option<T> { if b.Some? then b else a }

  /** Recording writes the subject's observation and no other. */
  lemma RecordStores(e: Experiment, s: string, m: Measures, now: int, env: Env, t: string)
    requires Inv(e) && e.status != Draft
    ensures var r := Recorded(e, s, m, now, env);
      && r.Ok? && Inv(r.value) && r.value.status == e.status
      && var (was, stored) := (Lookup(e.observations, t), Lookup(r.value.observations, t));
         if t == s then stored.Some? && stored.value.measures == m && stored.value.recordedAt == now else stored == was
  {
    TouchAssigns(e, s, env, s);
    RecordKeeps(e, s, m, now, env);
    var a := Assigned(e, s, env).value;
    ObservedIsAssigned(e, s);
    UpsertLookup(e.observations, s, Observed(Lookup(a.assignments, s).value, m, now), t);
    hide Find, Upsert, Inv;
  }

  lemma RecordMeasures(e: Experiment, s: string, m: Measures, now: int, env: Env, t: string)
    requires Inv(e) && e.status != Draft
    ensures var r := Recorded(e, s, m, now, env);
      && r.Ok? && Inv(r.value) && r.value.status == e.status
      && MeasuresOf(r.value, t) == (if t == s then Some(m) else MeasuresOf(e, t))
  {
    RecordStores(e, s, m, now, env, t);
    hide Recorded, Lookup, Inv;
  }

  /** After a stream each subject holds its last measurement; others hold what they held. */
  lemma {:induction false} LastWins(e: Experiment, stream: seq<Measurement>, times: nat -> int, env: Env, t: string)
    requires Inv(e) && e.status != Draft
    ensures var r := RecordedAll(e, stream, times, env);
      && r.Ok? && Inv(r.value) && r.value.status == e.status
      && MeasuresOf(r.value, t) == Override(MeasuresOf(e, t), LastMeasures(stream, t))
  {
    if stream != [] {
      var k := |stream| - 1;
      LastWins(e, stream[..k], times, env, t);
      var before := RecordedAll(e, stream[..k], times, env).value;
      RecordMeasures(before, stream[k].subject, stream[k].measures, times(k), env, t);
      hide MeasuresOf, Recorded, Inv;
    }
  }

  ghost predicate SameExceptTimes(a: seq<Row<Observed>>, b: seq<Row<Observed>>) {
    && |a| == |b|
    && forall i :: 0 <= i < |a| ==>
         && a[i].subject == b[i].subject
         && a[i].body.variantId == b[i].body.variantId
         && a[i].body.measures == b[i].body.measures
  }

  ghost predicate AllObserved(e: Experiment, stream: seq<Measurement>) {
    forall k :: 0 <= k < |stream| ==> MeasuresOf(e, stream[k].subject).Some?
  }

  lemma {:induction false} LastMeasuresExist(stream: seq<Measurement>, k: nat)
    requires k < |stream|
    ensures LastMeasures(stream, stream[k].subject).Some?
    decreases |stream|
  {
    if k < |stream| - 1 { LastMeasuresExist(stream[..|stream| - 1], k); }
  }

  /** Recording subjects that have a row already adds no row and no assignment. */
  lemma {:induction false} NoNewRows(e: Experiment, stream: seq<Measurement>, times: nat -> int, env: Env)
    requires Inv(e) && e.status != Draft && AllObserved(e, stream)
    ensures var r := RecordedAll(e, stream, times, env);
      && r.Ok? && Inv(r.value) && r.value.status == e.status
      && |r.value.observations| == |e.observations|
      && r.value.assignments == e.assignments
      && RowsForward(e.observations, r.value.observations)
  {
    if stream != [] {
      var k := |stream| - 1;
      var s := stream[k].subject;
      NoNewRows(e, stream[..k], times, env);
      var before := RecordedAll(e, stream[..k], times, env).value;
      LastWins(e, stream[..k], times, env, s);
      assert MeasuresOf(before, s).Some?;
      NoNewRow(before, s, stream[k].measures, times(k), env);
      hide MeasuresOf, Recorded, Inv, Lookup;
    }
  }

  lemma NoNewRow(e: Experiment, s: string, m: Measures, now: int, env: Env)
    requires Inv(e) && e.status != Draft && MeasuresOf(e, s).Some?
    ensures var r := Recorded(e, s, m, now, env);
      && r.Ok? && Inv(r.value) && r.value.status == e.status
      && |r.value.observations| == |e.observations|
      && r.value.assignments == e.assignments
      && RowsForward(e.observations, r.value.observations)
  {
    RecordMeasures(e, s, m, now, env, s);
    ObservedIsAssigned(e, s);
    RecordIsForward(e, s, m, now, env);
    AlreadyThere(e, s, m, now, env);
    hide Inv, Recorded;
  }

  lemma AlreadyThere(e: Experiment, s: string, m: Measures, now: int, env: Env)
    requires Recorded(e, s, m, now, env).Ok? && Lookup(e.assignments, s).Some? && Lookup(e.observations, s).Some?
    ensures var after := Recorded(e, s, m, now, env).value;
      after.assignments == e.assignments && |after.observations| == |e.observations|
  {
  }

  /** Replaying a whole stream changes nothing but the times of its observations. */
  lemma ReplayIsIdempotent(e: Experiment, stream: seq<Measurement>, times: nat -> int, again: nat -> int, env: Env)
    requires Inv(e) && e.status != Draft
    ensures var once := RecordedAll(e, stream, times, env);
      once.Ok? &&
      var twice := RecordedAll(once.value, stream, again, env);
      && twice.Ok?
      && twice.value.assignments == once.value.assignments
      && SameExceptTimes(once.value.observations, twice.value.observations)
      && twice.value == once.value.(observations := twice.value.observations)
  {
    LastWins(e, stream, times, env, "");
    var once := RecordedAll(e, stream, times, env).value;
    forall k | 0 <= k < |stream| ensures MeasuresOf(once, stream[k].subject).Some? {
      LastWins(e, stream, times, env, stream[k].subject);
      LastMeasuresExist(stream, k);
    }
    NoNewRows(once, stream, again, env);
    OnlyTablesChange(once, stream, again, env);
    var twice := RecordedAll(once, stream, again, env).value;
    forall i | 0 <= i < |once.observations|
      ensures once.observations[i].body.measures == twice.observations[i].body.measures
    {
      var t := once.observations[i].subject;
      LastWins(e, stream, times, env, t);
      LastWins(once, stream, again, env, t);
      LookupIs(once.observations, i);
      LookupIs(twice.observations, i);
    }
  }

  lemma {:induction false} OnlyTablesChange(e: Experiment, stream: seq<Measurement>, times: nat -> int, env: Env)
    requires RecordedAll(e, stream, times, env).Ok?
    ensures var after := RecordedAll(e, stream, times, env).value;
      after == e.(assignments := after.assignments, observations := after.observations)
  {
    if stream != [] { OnlyTablesChange(e, stream[..|stream| - 1], times, env); }
  }

  // ---------------------------------------------------------------- batches

  /** A batch keeps the first measurement of each subject. */
  ghost function RecordedMany(e: Experiment, batch: seq<Measurement>, times: nat -> int, env: Env)
      : Result<Experiment, Error> {
    if |batch| > env.maxBatch then Err(Invalid) else RecordedAll(e, FirstOnly(batch), times, env)
  }

  lemma {:induction false} FirstOnlyKeepsFirst(stream: seq<Measurement>, t: string)
    ensures LastMeasures(FirstOnly(stream), t) == FirstMeasures(stream, t)
    ensures FirstMeasures(stream, t).Some? <==> t in SubjectsOf(stream)
  {
    if stream != [] {
      var init, x := stream[..|stream| - 1], stream[|stream| - 1];
      FirstOnlyKeepsFirst(init, t);
      FirstOnlyKeepsFirst(init, x.subject);
      SubjectsGrow(stream);
      if x.subject !in SubjectsOf(init) {
        assert (FirstOnly(init) + [x])[..|FirstOnly(init)|] == FirstOnly(init);
      } else {
        assert FirstOnly(stream) == FirstOnly(init);
      }
    }
  }

  lemma SubjectsGrow(stream: seq<Measurement>)
    requires stream != []
    ensures SubjectsOf(stream) == SubjectsOf(stream[..|stream| - 1]) + {stream[|stream| - 1].subject}
  {
    var init := stream[..|stream| - 1];
    forall s | s in SubjectsOf(init) ensures s in SubjectsOf(stream) {
      var k :| 0 <= k < |init| && init[k].subject == s;
      assert stream[k].subject == s;
    }
    forall s | s in SubjectsOf(stream) && s != stream[|stream| - 1].subject ensures s in SubjectsOf(init) {
      var k :| 0 <= k < |stream| && stream[k].subject == s;
      assert init[k].subject == s;
    }
  }

  ghost predicate Agree(a: Experiment, b: Experiment, t: string) { MeasuresOf(a, t) == MeasuresOf(b, t) }

  ghost predicate FirstIsLast(batch: seq<Measurement>, t: string) { FirstMeasures(batch, t) == LastMeasures(batch, t) }

  lemma BatchAgreesAtIff(e: Experiment, batch: seq<Measurement>, times: nat -> int, env: Env, t: string)
    requires Inv(e) && e.status != Draft && |batch| <= env.maxBatch
    ensures var many := RecordedMany(e, batch, times, env);
      var stream := RecordedAll(e, batch, times, env);
      && many.Ok? && stream.Ok?
      && (Agree(many.value, stream.value, t) <==> FirstIsLast(batch, t))
  {
    hide MeasuresOf, RecordedAll, FirstOnly, FirstMeasures, LastMeasures, Inv;
    LastWins(e, FirstOnly(batch), times, env, t);
    LastWins(e, batch, times, env, t);
    FirstOnlyKeepsFirst(batch, t);
    BothMeasured(batch, t);
  }

  /** In a batch the first measurement of a subject wins; the same measurements recorded one by one let
      the last win. The two leave the same measures exactly when every subject's first and last agree. */
  lemma BatchAgreesWithStreamIff(e: Experiment, batch: seq<Measurement>, times: nat -> int, env: Env)
    requires Inv(e) && e.status != Draft && |batch| <= env.maxBatch
    ensures var many := RecordedMany(e, batch, times, env);
      var stream := RecordedAll(e, batch, times, env);
      && many.Ok? && stream.Ok?
      && ((forall t :: Agree(many.value, stream.value, t)) <==> (forall t :: FirstIsLast(batch, t)))
  {
    hide RecordedAll, RecordedMany, Agree, FirstIsLast, Inv;
    BatchAgreesAtIff(e, batch, times, env, "");
    var many := RecordedMany(e, batch, times, env).value;
    var stream := RecordedAll(e, batch, times, env).value;
    forall t ensures Agree(many, stream, t) <==> FirstIsLast(batch, t) {
      BatchAgreesAtIff(e, batch, times, env, t);
    }
  }

  lemma {:induction false} BothMeasured(stream: seq<Measurement>, t: string)
    ensures FirstMeasures(stream, t).Some? <==> LastMeasures(stream, t).Some?
  {
    if stream != [] { BothMeasured(stream[..|stream| - 1], t); }
  }

  /** A batch larger than the limit is refused whole; any other one succeeds on a started experiment. */
  lemma BatchRefusedIff(e: Experiment, batch: seq<Measurement>, times: nat -> int, env: Env, t: string)
    requires Inv(e) && e.status != Draft
    ensures RecordedMany(e, batch, times, env).Ok? <==> |batch| <= env.maxBatch
    ensures |batch| <= env.maxBatch ==>
      MeasuresOf(RecordedMany(e, batch, times, env).value, t) == Override(MeasuresOf(e, t), FirstMeasures(batch, t))
  {
    LastWins(e, FirstOnly(batch), times, env, t);
    FirstOnlyKeepsFirst(batch, t);
  }

  const SUCCESS: Measures := Measures(true, None, None, None, None, None)
  const FAILURE: Measures := Measures(false, None, None, None, None, None)

  /** A subject measured twice: the batch stores the first measurement, the stream the second. */
  lemma BatchNeedNotAgree(e: Experiment, times: nat -> int, env: Env)
    requires Inv(e) && e.status != Draft && env.maxBatch >= 2
    ensures var twice := [Measurement("s", SUCCESS), Measurement("s", FAILURE)];
      var (many, stream) := (RecordedMany(e, twice, times, env), RecordedAll(e, twice, times, env));
      && many.Ok? && MeasuresOf(many.value, "s") == Some(SUCCESS)
      && stream.Ok? && MeasuresOf(stream.value, "s") == Some(FAILURE)
  {
    hide Inv, RecordedAll, MeasuresOf;
    var twice := [Measurement("s", SUCCESS), Measurement("s", FAILURE)];
    var once := [Measurement("s", SUCCESS)];
    assert twice[..1] == once && once[..0] == [];
    assert FirstMeasures([], "s") == None;
    assert FirstMeasures(once, "s") == Some(SUCCESS);
    assert FirstMeasures(twice, "s") == Some(SUCCESS) && LastMeasures(twice, "s") == Some(FAILURE);
    hide FirstMeasures, LastMeasures;
    BatchRefusedIff(e, twice, times, env, "s");
    LastWins(e, twice, times, env, "s");
  }
}
