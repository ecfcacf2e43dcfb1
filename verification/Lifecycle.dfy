/** What becomes of what is asked (app/experiments/manager.py). */
module Lifecycle {
  import opened Experiments
  import opened VariantKeys
  import opened Wrappers

  // ---------------------------------------------------------------- creation

  ghost predicate HasKey(variants: seq<Variant>, key: string) {
    exists i :: 0 <= i < |variants| && variants[i].request.key == key
  }

  /** The requested variants in order, but the first one marked as control before the others. */
  ghost predicate InOrder(rs: seq<VariantRequest>, made: seq<Variant>) {
    && |made| == |rs|
    && match FirstControl(rs)
       case None => forall k :: 0 <= k < |rs| ==> made[k].request == rs[k]
       case Some(i) =>
         && made[0].request == rs[i]
         && (forall k :: 0 <= k < i ==> made[k + 1].request == rs[k])
         && (forall k :: i < k < |rs| ==> made[k].request == rs[k])
  }

  /** The configuration asked for, under which a control key is only filled in where none was given. */
  ghost predicate IsAsked(config: Config, rs: seq<VariantRequest>, made: Config) {
    && made == config.(controlKey := made.controlKey)
    && (Truthy(config.controlKey) || FirstControl(rs).None? ==> made.controlKey == config.controlKey)
    && (match FirstControl(rs)
        case None => true
        case Some(i) => !Truthy(config.controlKey) && rs[i].key != "" ==> made.controlKey == Some(rs[i].key))
  }

  lemma ControlComesFirst(rs: seq<VariantRequest>, made: seq<Variant>)
    requires Requests(made) == ControlFirst(rs)
    ensures InOrder(rs, made)
  {
    match FirstControl(rs)
    case None =>
      forall k | 0 <= k < |rs| ensures made[k].request == rs[k] { assert Requests(made)[k] == rs[k]; }
    case Some(i) =>
      var moved := [rs[i]] + rs[..i] + rs[i + 1..];
      assert |moved| == |rs| && Requests(made) == moved;
      forall k | 0 <= k < i ensures made[k + 1].request == rs[k] { assert moved[k + 1] == rs[k]; }
      forall k | i < k < |rs| ensures made[k].request == rs[k] { assert moved[k] == rs[k]; }
      assert moved[0] == rs[i];
  }

  /** Only the control key changes while variants are created; a key once there stays. */
  lemma {:induction false} KeyStays(config: Config, rs: seq<VariantRequest>)
    ensures var made := CreateAll(Blank(config), rs).config;
      && made == config.(controlKey := made.controlKey)
      && (Truthy(config.controlKey) ==> made.controlKey == config.controlKey)
  {
    if rs != [] { KeyStays(config, rs[..|rs| - 1]); }
  }

  lemma {:induction false} NoControlNoKey(config: Config, rs: seq<VariantRequest>)
    requires forall j :: 0 <= j < |rs| ==> !rs[j].isControl
    ensures CreateAll(Blank(config), rs).config == config
  {
    if rs != [] { NoControlNoKey(config, rs[..|rs| - 1]); }
  }

  lemma {:induction false} FirstGivesKey(config: Config, rs: seq<VariantRequest>)
    requires rs != [] && rs[0].isControl && rs[0].key != "" && !Truthy(config.controlKey)
    ensures CreateAll(Blank(config), rs).config.controlKey == Some(rs[0].key)
  {
    if |rs| > 1 {
      FirstGivesKey(config, rs[..|rs| - 1]);
    } else {
      assert rs[..0] == [];
    }
  }

  lemma CreatedConfig(config: Config, rs: seq<VariantRequest>)
    ensures IsAsked(config, rs, CreateAll(Blank(config), ControlFirst(rs)).config)
  {
    KeyStays(config, ControlFirst(rs));
    match FirstControl(rs)
    case None => NoControlNoKey(config, rs);
    case Some(i) =>
      if !Truthy(config.controlKey) && rs[i].key != "" { FirstGivesKey(config, ControlFirst(rs)); }
  }

  /** `after` is the draft `made`, and one more variant, called "Control", exactly if `made` names a control
      that none of its variants is. */
  ghost predicate IsCompleted(made: Experiment, after: Experiment) {
    && after.config == made.config && after.status == Draft
    && after.assignments == [] && after.observations == []
    && after.startedAt == None && after.stoppedAt == None && after.codeVersion == None
    && if Truthy(made.config.controlKey) && !HasKey(made.variants, made.config.controlKey.value) then
         && |after.variants| == |made.variants| + 1 && after.variants[..|made.variants|] == made.variants
         && after.variants[|made.variants|].request
            == VariantRequest(made.config.controlKey.value, "Control", "{}", true)
       else after.variants == made.variants
  }

  ghost predicate ControlIsClear(made: Experiment) {
    Truthy(made.config.controlKey) ==> KeyCount(made.variants, made.config.controlKey.value) <= 1
  }

  lemma CreatedCompletes(config: Config, rs: seq<VariantRequest>, env: Env, enabled: bool)
    ensures var made := CreateAll(Blank(config), ControlFirst(rs));
      var r := Created(config, rs, env, enabled);
      && (r.Ok? <==> enabled && |rs| <= env.maxVariants && ControlIsClear(made))
      && (r.Ok? ==> IsCompleted(made, r.value))
  {
    NothingElse(config, ControlFirst(rs));
    var made := CreateAll(Blank(config), ControlFirst(rs));
    hide CreateAll, ControlFirst, KeyCount;
    if Truthy(made.config.controlKey) { KeyCountPositive(made.variants, made.config.controlKey.value); }
  }

  /** A new experiment is what was asked for: its configuration, its variants in order, and perhaps one more
      for the control. It is refused exactly when creation is switched off, when there are too many
      variants, or when two carry the key of the control. */
  lemma CreatedAsAsked(config: Config, rs: seq<VariantRequest>, env: Env, enabled: bool)
    ensures var made := CreateAll(Blank(config), ControlFirst(rs));
      var r := Created(config, rs, env, enabled);
      && InOrder(rs, made.variants) && IsAsked(config, rs, made.config)
      && (r.Ok? <==> enabled && |rs| <= env.maxVariants && ControlIsClear(made))
      && (r.Ok? ==> IsCompleted(made, r.value))
  {
    hide InOrder, IsAsked, CreateAll, ControlFirst, Created, IsCompleted, ControlIsClear;
    CreateAllRequests(config, ControlFirst(rs));
    ControlComesFirst(rs, CreateAll(Blank(config), ControlFirst(rs)).variants);
    CreatedConfig(config, rs);
    CreatedCompletes(config, rs, env, enabled);
  }

  lemma {:induction false} NothingElse(config: Config, rs: seq<VariantRequest>)
    ensures var made := CreateAll(Blank(config), rs);
      made == Blank(made.config).(variants := made.variants, nextId := |rs|)
  {
    if rs != [] { NothingElse(config, rs[..|rs| - 1]); }
  }

  // ---------------------------------------------------------------- variants added later

  /** A variant is added exactly in draft, below the limit, under a key that is not taken, and not as a
      second control. It comes last, and it names the control if it is marked as one. */
  lemma AddedIff(e: Experiment, r: VariantRequest, env: Env)
    ensures var after := AddedVariant(e, r, env);
      && (after.Ok? <==>
            && e.status == Draft && |e.variants| < env.maxVariants && !HasKey(e.variants, r.key)
            && !(r.isControl && Truthy(e.config.controlKey)))
      && (after.Ok? ==>
            && after.value.variants == e.variants + [Variant(e.nextId, r)] && after.value.nextId == e.nextId + 1
            && after.value.config == e.config.(controlKey := if r.isControl then Some(r.key) else e.config.controlKey)
            && after.value.status == e.status && after.value.assignments == e.assignments)
  {
    KeyCountPositive(e.variants, r.key);
    hide KeyCount;
  }

  // ---------------------------------------------------------------- updates

  function UpdatedAll(e: Experiment, us: seq<Update>): Result<Experiment, Error> {
    if us == [] then Ok(e)
    else match UpdatedAll(e, us[..|us| - 1])
      case Err(error) => Err(error)
      case Ok(before) => Updated(before, us[|us| - 1])
  }

  /** The value given last, or the one from the start. */
  ghost function LastGiven<T>(us: seq<Update>, field: Update -> Option<T>, start: T): T {
    if us == [] then start
    else match field(us[|us| - 1])
      case Some(x) => x
      case None => LastGiven(us[..|us| - 1], field, start)
  }

  ghost function Optional<T>(given: Option<T>): Option<Option<T>> {
    match given case None => None case Some(x) => Some(Some(x))
  }

  /** After any number of updates in draft every field holds the value given last, and what cannot be given
      stays as it was. */
  lemma {:induction false} LastUpdateWins(e: Experiment, us: seq<Update>)
    requires e.status == Draft
    ensures var after := UpdatedAll(e, us);
      && after.Ok? && after.value == e.(config := after.value.config)
      && after.value.config == e.config.(
           name := LastGiven(us, (u: Update) => u.name, e.config.name),
           description := LastGiven(us, (u: Update) => Optional(u.description), e.config.description),
           hypothesis := LastGiven(us, (u: Update) => Optional(u.hypothesis), e.config.hypothesis),
           controlKey := LastGiven(us, (u: Update) => Optional(u.controlKey), e.config.controlKey))
  {
    if us != [] { LastUpdateWins(e, us[..|us| - 1]); }
  }

  /** An update is refused exactly outside draft. */
  lemma UpdateRefusedIff(e: Experiment, u: Update)
    ensures Updated(e, u) == Err(Conflict) <==> e.status != Draft
  {
  }

  // ---------------------------------------------------------------- starting and stopping

  /** The status moves only from draft, or running again, to running, and from running to stopped. The times
      and the code version are those of the last start and of the stop. */
  lemma StatusMoves(e: Experiment, op: Op, env: Env)
    ensures var after := Applied(e, op, env);
      var starts := op.DoStart? && (e.status == Draft || e.status == Running) && e.variants != [];
      var stops := op.DoStop? && e.status == Running;
      && after.status == (if starts then Running else if stops then Stopped else e.status)
      && after.startedAt == (if starts then Some(op.now) else e.startedAt)
      && after.codeVersion == (if starts then Some(op.codeVersion) else e.codeVersion)
      && after.stoppedAt == (if stops then Some(op.now) else e.stoppedAt)
  {
    hide Lookup, Upsert, Find, HasVariant, KeyCount;
  }

  /** In every state outside draft the snapshot tells the configuration and the variants, entry by entry. */
  lemma SnapshotIsFaithful(e: Experiment)
    requires Inv(e) && e.status != Draft
    ensures e.snapshot.Some? && e.codeVersion.Some?
    ensures var s, c := e.snapshot.value, e.config;
      && s.name == c.name && s.kind == c.kind && s.metric == c.metric && s.alpha == c.alpha
      && s.minSampleSize == c.minSampleSize && s.seed == c.seed && s.controlKey == c.controlKey
      && s.codeVersion == e.codeVersion.value
      && |s.variants| == |e.variants| && (forall i :: 0 <= i < |e.variants| ==> s.variants[i] == e.variants[i].request)
  {
  }
}
