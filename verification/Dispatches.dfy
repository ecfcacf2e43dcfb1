/** Dispatches that overlap (app/events/bus.py). */
module Dispatches {
  // Handlers are awaited, so several publishes and workers can be under way at once. A step is what one
  // of them does between two awaits; a run is any interleaving of steps. `EventBus.Published` is the run
  // of a dispatch that nothing interrupts.

  import opened Sequences
  import opened Wrappers
  import opened DeadLetters
  import opened EventBus

  datatype Phase = Between | Calling(calls: nat)

  /** One dispatch over its snapshot `ids`; the turns before `next` have come. */
  datatype Flight = Flight(event: Event, ids: seq<nat>, next: nat, phase: Phase, ended: bool)

  datatype Turn = Turn(flight: nat, position: nat, entry: nat)

  /** How a delivery ended: well, with a dead letter, or with its task cancelled. */
  datatype Fate = Done | Buried(letter: Record) | Abandoned

  datatype Ended = Ended(turn: Turn, calls: nat, fate: Fate)

  /** The bus, its dispatches, the deliveries begun and ended, and what was done to the dead letters. */
  datatype System = System(
    bus: BusState, flights: seq<Flight>, begun: seq<Turn>, log: seq<Ended>, queueOps: seq<QueueOp>)

  datatype Action =
    | Begin(event: Event)
    | TakeTurn(flight: nat)
    | Answer(flight: nat, outcome: Outcome)
    | Finish(flight: nat)
    | Abandon(flight: nat)
    | Join(eventType: string, entry: HandlerEntry)
    | Leave(ids: set<nat>)
    | Clear(filter: Option<string>)
    | Shut

  function NewSystem(cap: nat): System { System(BusState([], map[], [], cap, 0, false), [], [], [], []) }

  predicate UnderWay(w: System, f: nat) { f < |w.flights| && !w.flights[f].ended }

  predicate InCall(w: System, f: nat) { UnderWay(w, f) && w.flights[f].phase.Calling? && w.flights[f].next > 0 }

  function CurrentTurn(w: System, f: nat): Turn
    requires f < |w.flights| && 0 < w.flights[f].next <= |w.flights[f].ids|
  {
    var flight := w.flights[f];
    Turn(f, flight.next - 1, flight.ids[flight.next - 1])
  }

  // ---------------------------------------------------------------- what every step keeps

  ghost predicate FlightOk(flight: Flight, entries: seq<HandlerEntry>) {
    && ValidIds(flight.ids, entries) && flight.next <= |flight.ids|
    && (flight.phase.Calling? ==>
         && flight.next > 0 && !flight.ended
         && 1 <= flight.phase.calls <= MaxCalls(entries[flight.ids[flight.next - 1]].maxRetries))
  }

  /** The turn came, in this dispatch and to this subscriber. */
  ghost predicate HasCome(w: System, t: Turn) {
    && t.flight < |w.flights|
    && t.position < w.flights[t.flight].next <= |w.flights[t.flight].ids|
    && t.entry == w.flights[t.flight].ids[t.position]
  }

  ghost predicate IsCurrent(w: System, t: Turn) {
    && HasCome(w, t) && w.flights[t.flight].phase.Calling? && t.position == w.flights[t.flight].next - 1
  }

  ghost predicate HasEnded(w: System, t: Turn) { exists k :: 0 <= k < |w.log| && w.log[k].turn == t }

  /** An ended delivery made one to max_retries + 1 calls, and its letter names it. */
  ghost predicate EndedOk(w: System, d: Ended) {
    && HasCome(w, d.turn) && d.turn.entry < |w.bus.entries|
    && 1 <= d.calls <= MaxCalls(w.bus.entries[d.turn.entry].maxRetries)
    && (d.fate.Buried? ==>
         d.fate.letter == Record(w.flights[d.turn.flight].event, w.bus.entries[d.turn.entry].name, d.calls))
  }

  ghost predicate FlightsOk(w: System) { forall f :: 0 <= f < |w.flights| ==> FlightOk(w.flights[f], w.bus.entries) }

  ghost predicate LogOk(w: System) {
    && (forall k :: 0 <= k < |w.log| ==> EndedOk(w, w.log[k]))
    && (forall j, k :: 0 <= j < k < |w.log| ==> w.log[j].turn != w.log[k].turn)
  }

  /** Every delivery begun is under way or has ended, and not both; none is begun twice. */
  ghost predicate BegunOk(w: System) {
    && NoDuplicates(w.begun)
    && (forall t :: t in w.begun ==> HasCome(w, t))
    && (forall t :: t in w.begun <==> IsCurrent(w, t) || HasEnded(w, t))
    && (forall t :: !(IsCurrent(w, t) && HasEnded(w, t)))
  }

  /** The dead letters written, in order. */
  ghost function LettersIn(log: seq<Ended>): seq<Record> {
    if log == [] then []
    else
      var d := log[|log| - 1];
      LettersIn(log[..|log| - 1]) + if d.fate.Buried? then [d.fate.letter] else []
  }

  ghost predicate QueueOk(w: System) {
    && w.bus.letters == After(w.queueOps, w.bus.cap).retained
    && Puts(w.queueOps) == LettersIn(w.log)
  }

  ghost predicate Inv(w: System) {
    ValidState(w.bus) && FlightsOk(w) && LogOk(w) && BegunOk(w) && QueueOk(w)
  }

  // ---------------------------------------------------------------- the steps

  ghost function Turned(w: System, f: nat): System
    requires Inv(w) && UnderWay(w, f) && w.flights[f].phase.Between? && w.flights[f].next < |w.flights[f].ids|
  {
    assert FlightOk(w.flights[f], w.bus.entries);
    var flight := w.flights[f];
    var id := flight.ids[flight.next];
    if WillDeliver(w.bus, id, flight.event) then
      w.(flights := w.flights[f := flight.(next := flight.next + 1, phase := Calling(1))],
         begun := w.begun + [Turn(f, flight.next, id)])
    else w.(flights := w.flights[f := flight.(next := flight.next + 1)])
  }

  /** The delivery under way in `f` ends. */
  ghost function Concluded(w: System, f: nat, fate: Fate, ended: bool): System
    requires Inv(w) && InCall(w, f)
  {
    assert FlightOk(w.flights[f], w.bus.entries);
    var flight := w.flights[f];
    var after := w.(flights := w.flights[f := flight.(phase := Between, ended := ended)],
                    log := w.log + [Ended(CurrentTurn(w, f), flight.phase.calls, fate)]);
    match fate
    case Buried(letter) =>
      after.(bus := w.bus.(letters := LastN(w.bus.letters + [letter], w.bus.cap)),
             queueOps := w.queueOps + [PutOp(letter)])
    case _ => after
  }

  /** The letter of the delivery under way. */
  ghost function LetterOf(w: System, f: nat): Record
    requires Inv(w) && InCall(w, f)
  {
    assert FlightOk(w.flights[f], w.bus.entries);
    Record(w.flights[f].event, w.bus.entries[CurrentTurn(w, f).entry].name, w.flights[f].phase.calls)
  }

  ghost function Answered(w: System, f: nat, outcome: Outcome): System
    requires Inv(w) && InCall(w, f)
  {
    assert FlightOk(w.flights[f], w.bus.entries);
    var flight := w.flights[f];
    var n := flight.phase.calls;
    match outcome
    case Succeeds => Concluded(w, f, Done, false)
    case Terminal => Concluded(w, f, Buried(LetterOf(w, f)), false)
    case Raises =>
      if n > w.bus.entries[CurrentTurn(w, f).entry].maxRetries then Concluded(w, f, Buried(LetterOf(w, f)), false)
      else w.(flights := w.flights[f := flight.(phase := Calling(n + 1))])
  }

  /** One step; a step that cannot be taken changes nothing. */
  ghost function Applied(w: System, a: Action): System
    requires Inv(w)
  {
    match a
    case Begin(event) =>
      if w.bus.closed then w
      else w.(flights := w.flights + [Flight(event, Subscribers(w.bus, event.eventType), 0, Between, false)])
    case TakeTurn(f) =>
      if UnderWay(w, f) && w.flights[f].phase.Between? && w.flights[f].next < |w.flights[f].ids| then Turned(w, f)
      else w
    case Answer(f, outcome) => if InCall(w, f) then Answered(w, f, outcome) else w
    case Finish(f) =>
      if UnderWay(w, f) && w.flights[f].phase.Between? && w.flights[f].next == |w.flights[f].ids| then
        w.(flights := w.flights[f := w.flights[f].(ended := true)],
           bus := w.bus.(publishCount := w.bus.publishCount + 1))
      else w
    case Abandon(f) => if InCall(w, f) then Concluded(w, f, Abandoned, true) else w
    case Join(t, entry) => w.(bus := StepOf(w.bus, Subscribe(t, entry)).state)
    case Leave(ids) => w.(bus := w.bus.(entries := Deactivate(w.bus.entries, ids)))
    case Clear(t) => w.(bus := StepOf(w.bus, Purge(t)).state, queueOps := w.queueOps + [PurgeOp(t)])
    case Shut => w.(bus := StepOf(w.bus, Close).state)
  }

  // ---------------------------------------------------------------- each step keeps the invariant

  /** Same retry limits and names, perhaps more entries. */
  ghost predicate Extends(a: seq<HandlerEntry>, b: seq<HandlerEntry>) {
    |a| <= |b| && forall i :: 0 <= i < |a| ==> b[i].name == a[i].name && b[i].maxRetries == a[i].maxRetries
  }

  lemma OtherBusKeeps(w: System, bus: BusState)
    requires Inv(w) && ValidState(bus) && Extends(w.bus.entries, bus.entries)
    requires bus.letters == w.bus.letters && bus.cap == w.bus.cap
    ensures Inv(w.(bus := bus))
  {
    var after := w.(bus := bus);
    forall f | 0 <= f < |w.flights| ensures FlightOk(after.flights[f], bus.entries) {
      assert FlightOk(w.flights[f], w.bus.entries);
    }
    forall k | 0 <= k < |w.log| ensures EndedOk(after, after.log[k]) { assert EndedOk(w, w.log[k]); }
    forall t ensures IsCurrent(after, t) == IsCurrent(w, t) && HasEnded(after, t) == HasEnded(w, t) { }
    assert QueueOk(after);
  }

  lemma BeginKeeps(w: System, event: Event)
    requires Inv(w) && !w.bus.closed
    ensures Inv(Applied(w, Begin(event)))
  {
    var after := Applied(w, Begin(event));
    forall f | 0 <= f < |after.flights| ensures FlightOk(after.flights[f], w.bus.entries) {
      if f < |w.flights| { assert FlightOk(w.flights[f], w.bus.entries); }
    }
    forall k | 0 <= k < |w.log| ensures EndedOk(after, after.log[k]) { assert EndedOk(w, w.log[k]); }
    forall t ensures IsCurrent(after, t) == IsCurrent(w, t) && HasEnded(after, t) == HasEnded(w, t) { }
    forall t | t in w.begun ensures HasCome(after, t) { assert HasCome(w, t); }
  }

  /** What a change of dispatch `f` alone must respect. */
  ghost predicate Advances(w: System, f: nat, flight: Flight) {
    && f < |w.flights|
    && flight.ids == w.flights[f].ids && flight.event == w.flights[f].event && w.flights[f].next <= flight.next
    && FlightOk(flight, w.bus.entries)
  }

  lemma AdvanceKeepsParts(w: System, f: nat, flight: Flight)
    requires Inv(w) && Advances(w, f, flight)
    ensures var after := w.(flights := w.flights[f := flight]);
      && FlightsOk(after) && LogOk(after) && QueueOk(after)
      && (forall t :: HasCome(w, t) ==> HasCome(after, t))
      && (forall t :: HasEnded(after, t) == HasEnded(w, t))
      && (forall t: Turn :: t.flight != f ==> IsCurrent(after, t) == IsCurrent(w, t))
  {
    var after := w.(flights := w.flights[f := flight]);
    forall g | 0 <= g < |after.flights| ensures FlightOk(after.flights[g], w.bus.entries) {
      assert FlightOk(w.flights[g], w.bus.entries);
    }
    forall t | HasCome(w, t) ensures HasCome(after, t) { }
    forall k | 0 <= k < |w.log| ensures EndedOk(after, after.log[k]) {
      assert EndedOk(w, w.log[k]);
      assert HasCome(after, w.log[k].turn);
    }
  }

  /** A turn passes, a call is retried, or the dispatch finishes: the delivery under way stays the same. */
  lemma SameDeliveryKeeps(w: System, f: nat, flight: Flight)
    requires Inv(w) && Advances(w, f, flight)
    requires flight.phase.Calling? <==> w.flights[f].phase.Calling?
    requires flight.phase.Calling? ==> flight.next == w.flights[f].next
    ensures Inv(w.(flights := w.flights[f := flight]))
  {
    hide LogOk, QueueOk, FlightsOk, FlightOk;
    AdvanceKeepsParts(w, f, flight);
    var after := w.(flights := w.flights[f := flight]);
    forall t ensures IsCurrent(after, t) == IsCurrent(w, t) { }
  }

  lemma TurnedIs(w: System, f: nat, called: Flight)
    requires Inv(w) && UnderWay(w, f) && w.flights[f].phase.Between? && w.flights[f].next < |w.flights[f].ids|
    requires var flight := w.flights[f]; called == flight.(next := flight.next + 1, phase := Calling(1))
    ensures Advances(w, f, called) && Advances(w, f, called.(phase := Between))
    ensures var t0 := Turn(f, called.next - 1, called.ids[called.next - 1]);
      || Turned(w, f) == w.(flights := w.flights[f := called], begun := w.begun + [t0])
      || Turned(w, f) == w.(flights := w.flights[f := called.(phase := Between)])
  {
    FlightIsOk(w, f);
    hide Inv;
  }

  lemma CallBegins(w: System, f: nat)
    requires Inv(w) && UnderWay(w, f) && w.flights[f].phase.Between? && w.flights[f].next < |w.flights[f].ids|
    ensures Inv(Turned(w, f))
  {
    var called := w.flights[f].(next := w.flights[f].next + 1, phase := Calling(1));
    hide Inv, Turned, Advances;
    TurnedIs(w, f, called);
    if Turned(w, f) == w.(flights := w.flights[f := called.(phase := Between)]) {
      SameDeliveryKeeps(w, f, called.(phase := Between));
    } else {
      CallStarts(w, f, called);
    }
  }

  lemma CallStarts(w: System, f: nat, called: Flight)
    requires Inv(w) && Advances(w, f, called) && called.phase.Calling?
    requires w.flights[f].phase.Between? && called.next == w.flights[f].next + 1
    ensures var t0 := Turn(f, called.next - 1, called.ids[called.next - 1]);
      Inv(w.(flights := w.flights[f := called], begun := w.begun + [t0]))
  {
    hide LogOk, BegunOk, FlightsOk, QueueOk;
    var next := w.(flights := w.flights[f := called]);
    var t0 := Turn(f, called.next - 1, called.ids[called.next - 1]);
    AdvanceKeepsParts(w, f, called);
    CallIsBegun(w, f, called, t0);
    MoreBegun(next, w.begun + [t0]);
  }

  lemma MoreBegun(w: System, begun: seq<Turn>)
    requires FlightsOk(w) && LogOk(w) && QueueOk(w)
    ensures var after := w.(begun := begun); FlightsOk(after) && LogOk(after) && QueueOk(after)
  {
    var after := w.(begun := begun);
    forall k | 0 <= k < |w.log| ensures EndedOk(after, after.log[k]) { assert EndedOk(w, w.log[k]); }
  }

  lemma CallIsBegun(w: System, f: nat, called: Flight, t0: Turn)
    requires Inv(w) && Advances(w, f, called) && t0.flight == f && called.phase.Calling?
    requires w.flights[f].phase.Between? && called.next == w.flights[f].next + 1
    requires t0.position == w.flights[f].next && t0.entry == called.ids[t0.position]
    ensures BegunOk(w.(flights := w.flights[f := called], begun := w.begun + [t0]))
  {
    var next := w.(flights := w.flights[f := called]);
    AdvanceKeepsParts(w, f, called);
    assert !HasCome(w, t0) && IsCurrent(next, t0);
    forall t | t != t0 ensures IsCurrent(next, t) == IsCurrent(w, t) { }
    forall k | 0 <= k < |w.log| ensures HasCome(w, w.log[k].turn) { assert EndedOk(w, w.log[k]); }
    BegunGrows(w, next, t0);
  }

  lemma BegunGrows(w: System, next: System, t0: Turn)
    requires BegunOk(w) && next.begun == w.begun && !HasCome(w, t0) && IsCurrent(next, t0)
    requires forall k :: 0 <= k < |w.log| ==> HasCome(w, w.log[k].turn)
    requires forall t :: HasCome(w, t) ==> HasCome(next, t)
    requires forall t :: HasEnded(next, t) == HasEnded(w, t)
    requires forall t :: t != t0 ==> IsCurrent(next, t) == IsCurrent(w, t)
    ensures BegunOk(next.(begun := w.begun + [t0]))
  {
  }

  lemma BegunSettles(w: System, next: System, d: Ended)
    requires BegunOk(w) && next.begun == w.begun && next.log == w.log && IsCurrent(w, d.turn)
    requires forall t :: HasCome(w, t) ==> HasCome(next, t)
    requires forall t :: IsCurrent(next, t) <==> t != d.turn && IsCurrent(w, t)
    ensures BegunOk(next.(log := w.log + [d]))
  {
    var after := next.(log := w.log + [d]);
    assert after.log[|w.log|] == d;
    forall t ensures HasEnded(after, t) <==> t == d.turn || HasEnded(w, t) {
      if HasEnded(w, t) {
        var k :| 0 <= k < |w.log| && w.log[k].turn == t;
        assert after.log[k].turn == t;
      }
    }
  }

  lemma LogSettles(w: System, next: System, d: Ended)
    requires LogOk(next) && next.log == w.log && EndedOk(next, d) && !HasEnded(w, d.turn)
    ensures LogOk(next.(log := w.log + [d]))
  {
    var after := next.(log := w.log + [d]);
    forall k | 0 <= k < |after.log| ensures EndedOk(after, after.log[k]) {
      if k < |w.log| { assert EndedOk(next, w.log[k]); }
    }
  }

  /** The delivery under way in `f` ends, its dead letter not yet written. */
  ghost function Unwritten(w: System, f: nat, fate: Fate, ended: bool): System
    requires Inv(w) && InCall(w, f)
  {
    assert FlightOk(w.flights[f], w.bus.entries);
    w.(flights := w.flights[f := w.flights[f].(phase := Between, ended := ended)],
       log := w.log + [Ended(CurrentTurn(w, f), w.flights[f].phase.calls, fate)])
  }

  lemma UnwrittenKeeps(w: System, f: nat, fate: Fate, ended: bool)
    requires Inv(w) && InCall(w, f) && (fate.Buried? ==> fate.letter == LetterOf(w, f))
    ensures var after := Unwritten(w, f, fate, ended);
      ValidState(after.bus) && FlightsOk(after) && LogOk(after) && BegunOk(after)
  {
    var flight := w.flights[f];
    assert FlightOk(flight, w.bus.entries);
    var ending := flight.(phase := Between, ended := ended);
    var next := w.(flights := w.flights[f := ending]);
    var d := Ended(CurrentTurn(w, f), flight.phase.calls, fate);
    AdvanceKeepsParts(w, f, ending);
    assert IsCurrent(w, d.turn);
    assert ValidIds(flight.ids, w.bus.entries);
    assert EndedOk(next, d);
    LogSettles(w, next, d);
    forall t ensures IsCurrent(next, t) <==> t != d.turn && IsCurrent(w, t) { }
    BegunSettles(w, next, d);
  }

  lemma LettersGrow(log: seq<Ended>, d: Ended)
    ensures LettersIn(log + [d]) == LettersIn(log) + if d.fate.Buried? then [d.fate.letter] else []
  {
    assert (log + [d])[..|log|] == log;
  }

  lemma QueueGrows(ops: seq<QueueOp>, op: QueueOp, cap: nat)
    ensures After(ops + [op], cap) == DeadLetters.Applied(After(ops, cap), op, cap)
    ensures Puts(ops + [op]) == Puts(ops) + if op.PutOp? then [op.record] else []
  {
    assert (ops + [op])[..|ops|] == ops;
  }

  lemma ConcludeKeeps(w: System, f: nat, fate: Fate, ended: bool)
    requires Inv(w) && InCall(w, f) && (fate.Buried? ==> fate.letter == LetterOf(w, f))
    ensures Inv(Concluded(w, f, fate, ended))
  {
    assert FlightOk(w.flights[f], w.bus.entries);
    hide LogOk, BegunOk, FlightsOk, HasEnded, IsCurrent;
    var unwritten, after := Unwritten(w, f, fate, ended), Concluded(w, f, fate, ended);
    UnwrittenKeeps(w, f, fate, ended);
    var d := Ended(CurrentTurn(w, f), w.flights[f].phase.calls, fate);
    LettersGrow(w.log, d);
    if fate.Buried? {
      QueueGrows(w.queueOps, PutOp(fate.letter), w.bus.cap);
      SameButLetters(unwritten, after);
    }
  }

  lemma SameButLetters(a: System, b: System)
    requires FlightsOk(a) && LogOk(a) && BegunOk(a)
    requires b == a.(bus := a.bus.(letters := b.bus.letters), queueOps := b.queueOps)
    ensures FlightsOk(b) && LogOk(b) && BegunOk(b)
  {
    forall k | 0 <= k < |b.log| ensures EndedOk(b, b.log[k]) { assert EndedOk(a, a.log[k]); }
    forall t
      ensures IsCurrent(a, t) == IsCurrent(b, t) && HasEnded(a, t) == HasEnded(b, t)
      ensures HasCome(a, t) == HasCome(b, t)
    {
    }
  }

  lemma RetryKeeps(w: System, f: nat)
    requires Inv(w) && InCall(w, f) && LetterOf(w, f).attempts <= w.bus.entries[CurrentTurn(w, f).entry].maxRetries
    ensures Inv(Answered(w, f, Raises))
  {
    hide LogOk, BegunOk, FlightsOk, QueueOk;
    FlightIsOk(w, f);
    var flight := w.flights[f];
    SameDeliveryKeeps(w, f, flight.(phase := Calling(flight.phase.calls + 1)));
  }

  lemma AnswerKeeps(w: System, f: nat, outcome: Outcome)
    requires Inv(w) && InCall(w, f)
    ensures Inv(Answered(w, f, outcome))
  {
    FlightIsOk(w, f);
    hide Inv, Concluded;
    match outcome
    case Succeeds => ConcludeKeeps(w, f, Done, false);
    case Terminal => ConcludeKeeps(w, f, Buried(LetterOf(w, f)), false);
    case Raises =>
      if w.flights[f].phase.calls > w.bus.entries[CurrentTurn(w, f).entry].maxRetries {
        ConcludeKeeps(w, f, Buried(LetterOf(w, f)), false);
      } else {
        RetryKeeps(w, f);
      }
  }

  lemma FinishKeeps(w: System, f: nat)
    requires Inv(w) && UnderWay(w, f) && w.flights[f].phase.Between?
    ensures Inv(Applied(w, Finish(f)))
  {
    hide LogOk, BegunOk, FlightsOk;
    var flight := w.flights[f];
    assert FlightOk(flight, w.bus.entries) by { assert FlightsOk(w); FlightIsOk(w, f); }
    SameDeliveryKeeps(w, f, flight.(ended := true));
    var next := w.(flights := w.flights[f := flight.(ended := true)]);
    OtherBusKeeps(next, w.bus.(publishCount := w.bus.publishCount + 1));
  }

  lemma FlightIsOk(w: System, f: nat)
    requires FlightsOk(w) && f < |w.flights|
    ensures FlightOk(w.flights[f], w.bus.entries)
  {
  }

  lemma ClearKeeps(w: System, t: Option<string>)
    requires Inv(w)
    ensures Inv(Applied(w, Clear(t)))
  {
    hide LogOk, BegunOk, FlightsOk;
    QueueGrows(w.queueOps, PurgeOp(t), w.bus.cap);
    SameButLetters(w, Applied(w, Clear(t)));
  }

  lemma JoinKeeps(w: System, t: string, entry: HandlerEntry)
    requires Inv(w)
    ensures Inv(Applied(w, Join(t, entry)))
  {
    hide LogOk, BegunOk, FlightsOk, QueueOk;
    StepAccounted(w.bus, Subscribe(t, entry));
    OtherBusKeeps(w, StepOf(w.bus, Subscribe(t, entry)).state);
  }

  /** Every step, of whichever dispatch or caller, keeps the invariant. */
  lemma StepKeepsInv(w: System, a: Action)
    requires Inv(w)
    ensures Inv(Applied(w, a))
  {
    hide LogOk, BegunOk, FlightsOk, QueueOk, Turned, Answered, Concluded;
    match a
    case Begin(event) => if !w.bus.closed { BeginKeeps(w, event); }
    case TakeTurn(f) =>
      if UnderWay(w, f) && w.flights[f].phase.Between? && w.flights[f].next < |w.flights[f].ids| { CallBegins(w, f); }
    case Answer(f, outcome) => if InCall(w, f) { AnswerKeeps(w, f, outcome); }
    case Finish(f) => if UnderWay(w, f) && w.flights[f].phase.Between? { FinishKeeps(w, f); }
    case Abandon(f) => if InCall(w, f) { ConcludeKeeps(w, f, Abandoned, true); }
    case Join(t, entry) => JoinKeeps(w, t, entry);
    case Leave(ids) =>
      OtherBusKeeps(w, w.bus.(entries := Deactivate(w.bus.entries, ids)));
    case Clear(t) => ClearKeeps(w, t);
    case Shut => OtherBusKeeps(w, w.bus.(closed := true));
  }

  // ---------------------------------------------------------------- every interleaving

  ghost function RunOf(w: System, steps: seq<Action>): System
    requires Inv(w)
    decreases |steps|
  {
    if steps == [] then w
    else
      StepKeepsInv(w, steps[0]);
      RunOf(Applied(w, steps[0]), steps[1..])
  }

  lemma {:induction false} RunKeepsInv(w: System, steps: seq<Action>)
    requires Inv(w)
    ensures Inv(RunOf(w, steps))
    decreases |steps|
  {
    if steps != [] {
      StepKeepsInv(w, steps[0]);
      RunKeepsInv(Applied(w, steps[0]), steps[1..]);
    }
  }

  lemma NewIsInv(cap: nat)
    ensures Inv(NewSystem(cap))
  {
  }

  /** Conservation in every interleaving of dispatches from a new bus: a delivery begun is either under
      way or has ended, once; it ended well, abandoned, or with one dead letter that names it; and every
      dead letter is retained, was evicted by capacity, or was purged. */
  lemma OverlapConserved(cap: nat, steps: seq<Action>)
    ensures Inv(NewSystem(cap))
    ensures var w := RunOf(NewSystem(cap), steps);
      && BegunOk(w) && LogOk(w) && w.bus.cap == cap
      && multiset(LettersIn(w.log)) == Total(After(w.queueOps, cap))
      && w.bus.letters == After(w.queueOps, cap).retained
      && |w.bus.letters| <= cap
  {
    NewIsInv(cap);
    hide Inv;
    RunKeepsInv(NewSystem(cap), steps);
    CapStays(NewSystem(cap), steps);
    var w := RunOf(NewSystem(cap), steps);
    LettersConserved(w.queueOps, cap);
    assert Inv(w);
    InvGives(w);
  }

  lemma InvGives(w: System)
    requires Inv(w)
    ensures BegunOk(w) && LogOk(w) && QueueOk(w)
  {
  }

  lemma CapStaysOnce(w: System, a: Action)
    requires Inv(w)
    ensures Applied(w, a).bus.cap == w.bus.cap
  {
    hide Inv;
  }

  lemma {:induction false} CapStays(w: System, steps: seq<Action>)
    requires Inv(w)
    ensures RunOf(w, steps).bus.cap == w.bus.cap
    decreases |steps|
  {
    if steps != [] {
      StepKeepsInv(w, steps[0]);
      hide Inv, Applied;
      CapStaysOnce(w, steps[0]);
      CapStays(Applied(w, steps[0]), steps[1..]);
    }
  }

  // ---------------------------------------------------------------- unsubscribing

  /** `b` begins what `a` began and perhaps more, but nothing more for subscription `id`. */
  ghost predicate BeginsNone(a: seq<Turn>, b: seq<Turn>, id: nat) {
    a <= b && forall k :: |a| <= k < |b| ==> b[k].entry != id
  }

  lemma StepBeginsNone(w: System, a: Action, id: nat)
    requires Inv(w) && id < |w.bus.entries| && !w.bus.entries[id].active
    ensures var after := Applied(w, a);
      && id < |after.bus.entries| && !after.bus.entries[id].active
      && BeginsNone(w.begun, after.begun, id)
  {
    hide Inv;
  }

  /** Unsubscribing is for good, whatever is under way: from then on no dispatch begins a delivery to
      that subscription, not even one whose snapshot lists it. */
  lemma {:induction false} NoneBegunOnceLeft(w: System, steps: seq<Action>, id: nat)
    requires Inv(w) && id < |w.bus.entries| && !w.bus.entries[id].active
    ensures BeginsNone(w.begun, RunOf(w, steps).begun, id)
    decreases |steps|
  {
    if steps != [] {
      StepKeepsInv(w, steps[0]);
      StepBeginsNone(w, steps[0], id);
      hide Inv, Applied;
      NoneBegunOnceLeft(Applied(w, steps[0]), steps[1..], id);
    }
  }

  lemma LeftForGood(w: System, ids: set<nat>, steps: seq<Action>, id: nat)
    requires Inv(w) && id < |w.bus.entries| && id in ids
    ensures Inv(Applied(w, Leave(ids)))
    ensures BeginsNone(w.begun, RunOf(Applied(w, Leave(ids)), steps).begun, id)
  {
    StepKeepsInv(w, Leave(ids));
    NoneBegunOnceLeft(Applied(w, Leave(ids)), steps, id);
    hide Inv, RunOf;
  }

  /** A new bus is open and empty. Who joins an open bus is last in the snapshot of every later dispatch of
      that type, and nobody else's subscription changes. */
  lemma NewIsOpen(cap: nat)
    ensures var w := NewSystem(cap);
      !w.bus.closed && w.bus.publishCount == 0 && w.bus.cap == cap && w.bus.letters == [] && w.begun == []
  {
  }

  lemma JoinedIsListed(w: System, t: string, entry: HandlerEntry, event: Event)
    requires Inv(w) && !w.bus.closed
    ensures Inv(Applied(w, Join(t, entry)))
    ensures var after := Applied(Applied(w, Join(t, entry)), Begin(event));
      && after.bus.entries == w.bus.entries + [entry]
      && |after.flights| == |w.flights| + 1
      && after.flights[|w.flights|] == Flight(event, after.flights[|w.flights|].ids, 0, Between, false)
      && after.flights[|w.flights|].ids
           == Subscribers(w.bus, event.eventType) + if event.eventType == t then [|w.bus.entries|] else []
  {
    StepKeepsInv(w, Join(t, entry));
    hide Inv;
  }

  // ---------------------------------------------------------------- closing and cancelling

  /** A closed bus lets nobody in. */
  ghost predicate NobodyNew(a: System, b: System) {
    a.bus.closed && b.bus.closed && |b.flights| == |a.flights| && |b.bus.entries| == |a.bus.entries|
  }

  lemma StepLetsNobodyIn(w: System, a: Action)
    requires Inv(w) && w.bus.closed
    ensures NobodyNew(w, Applied(w, a))
  {
    hide Inv;
  }

  lemma {:induction false} NobodyEnters(w: System, steps: seq<Action>)
    requires Inv(w) && w.bus.closed
    ensures NobodyNew(w, RunOf(w, steps))
    decreases |steps|
  {
    if steps != [] {
      StepKeepsInv(w, steps[0]);
      StepLetsNobodyIn(w, steps[0]);
      hide Inv, Applied;
      NobodyEnters(Applied(w, steps[0]), steps[1..]);
    }
  }

  /** Closing is for good: no later step begins a dispatch or adds a subscription. What is under way stays as
      it is. */
  lemma ClosedForGood(w: System, steps: seq<Action>)
    requires Inv(w)
    ensures Inv(Applied(w, Shut))
    ensures Applied(w, Shut).flights == w.flights && Applied(w, Shut).bus.entries == w.bus.entries
    ensures NobodyNew(Applied(w, Shut), RunOf(Applied(w, Shut), steps))
  {
    StepKeepsInv(w, Shut);
    NobodyEnters(Applied(w, Shut), steps);
    hide Inv, RunOf;
  }

  /** Dispatch `f` begins no delivery from `a` to `b`. */
  ghost predicate OverIn(a: System, b: System, f: nat) {
    && f < |b.flights| && b.flights[f].ended
    && a.begun <= b.begun && forall k :: |a.begun| <= k < |b.begun| ==> b.begun[k].flight != f
  }

  lemma StepStaysOver(w: System, a: Action, f: nat)
    requires Inv(w) && f < |w.flights| && w.flights[f].ended
    ensures OverIn(w, Applied(w, a), f)
  {
    hide Inv;
  }

  lemma {:induction false} EndedStaysOver(w: System, steps: seq<Action>, f: nat)
    requires Inv(w) && f < |w.flights| && w.flights[f].ended
    ensures OverIn(w, RunOf(w, steps), f)
    decreases |steps|
  {
    if steps != [] {
      StepKeepsInv(w, steps[0]);
      StepStaysOver(w, steps[0], f);
      hide Inv, Applied;
      EndedStaysOver(Applied(w, steps[0]), steps[1..], f);
    }
  }

  /** A dispatch cancelled in a call abandons that delivery without a dead letter, and begins no other. */
  lemma AbandonedForGood(w: System, f: nat, steps: seq<Action>)
    requires Inv(w) && InCall(w, f)
    ensures Inv(Applied(w, Abandon(f))) && w.flights[f].next <= |w.flights[f].ids|
    ensures var after := Applied(w, Abandon(f));
      && after.log == w.log + [Ended(CurrentTurn(w, f), w.flights[f].phase.calls, Abandoned)]
      && after.bus == w.bus && after.queueOps == w.queueOps
      && OverIn(w, RunOf(after, steps), f)
  {
    FlightIsOk(w, f);
    StepKeepsInv(w, Abandon(f));
    EndedStaysOver(Applied(w, Abandon(f)), steps, f);
    hide Inv, RunOf;
  }

  // ---------------------------------------------------------------- a dispatch by itself

  lemma {:induction false} RunAppend(w: System, a: seq<Action>, b: seq<Action>)
    requires Inv(w)
    ensures Inv(RunOf(w, a)) && RunOf(w, a + b) == RunOf(RunOf(w, a), b)
    decreases |a|
  {
    RunKeepsInv(w, a);
    if a == [] {
      assert a + b == b;
    } else {
      StepKeepsInv(w, a[0]);
      hide Inv, Applied;
      assert (a + b)[1..] == a[1..] + b;
      RunAppend(Applied(w, a[0]), a[1..], b);
    }
  }

  lemma RunOne(w: System, a: Action)
    requires Inv(w)
    ensures Inv(Applied(w, a)) && RunOf(w, [a]) == Applied(w, a)
  {
    StepKeepsInv(w, a);
    hide Inv, Applied;
    assert [a][1..] == [];
  }

  lemma RunTwo(w: System, a: Action, b: Action)
    requires Inv(w)
    ensures Inv(Applied(w, a)) && Inv(Applied(Applied(w, a), b))
    ensures RunOf(w, [a, b]) == Applied(Applied(w, a), b)
  {
    RunOne(w, a);
    hide Inv, Applied;
    RunOne(Applied(w, a), b);
    assert [a, b][1..] == [b];
  }

  /** The steps of one delivery after `attempts` calls, its handler switching subscriptions off in its
      last call. */
  ghost function DeliverySteps(f: nat, maxRetries: int, b: Behaviour, attempts: nat): seq<Action>
    decreases if maxRetries > attempts then maxRetries - attempts else 0
  {
    var n := attempts + 1;
    if b.script(n) == Raises && n <= maxRetries then [Answer(f, Raises)] + DeliverySteps(f, maxRetries, b, n)
    else [Leave(b.unsubscribes), Answer(f, b.script(n))]
  }

  /** The system after a delivery in `f` ended as `d`. */
  ghost function Delivering(w: System, f: nat, d: Delivered, off: set<nat>): System
    requires Inv(w) && InCall(w, f)
  {
    FlightIsOk(w, f);
    var flight, turn := w.flights[f], CurrentTurn(w, f);
    var letter := Record(flight.event, w.bus.entries[turn.entry].name, d.calls);
    System(Settled(w.bus, turn.entry, flight.event, d, off), w.flights[f := flight.(phase := Between)], w.begun,
           w.log + [Ended(turn, d.calls, if d.ok then Done else Buried(letter))],
           if d.ok then w.queueOps else w.queueOps + [PutOp(letter)])
  }

  lemma LastAnswer(w: System, left: System, f: nat, b: Behaviour)
    requires Inv(w) && InCall(w, f) && Inv(left)
    requires left == w.(bus := w.bus.(entries := Deactivate(w.bus.entries, b.unsubscribes)))
    requires var n := w.flights[f].phase.calls;
      b.script(n) == Raises ==> n > w.bus.entries[CurrentTurn(w, f).entry].maxRetries
    ensures var n := w.flights[f].phase.calls;
      Answered(left, f, b.script(n)) == Delivering(w, f, Delivered(n, b.script(n) == Succeeds), b.unsubscribes)
  {
    FlightIsOk(w, f);
    var entry := CurrentTurn(w, f).entry;
    assert entry < |w.bus.entries|;
    hide Inv, FlightOk, CurrentTurn, LastN, MaxCalls;
    assert CurrentTurn(left, f) == CurrentTurn(w, f) by { SameTurn(w, left, f); }
    assert LetterOf(left, f) == LetterOf(w, f);
  }

  lemma SameTurn(a: System, b: System, f: nat)
    requires f < |a.flights| && 0 < a.flights[f].next <= |a.flights[f].ids| && b.flights == a.flights
    ensures CurrentTurn(b, f) == CurrentTurn(a, f)
  {
  }

  lemma LastCall(w: System, f: nat, b: Behaviour, maxRetries: int)
    requires Inv(w) && InCall(w, f) && CurrentTurn(w, f).entry < |w.bus.entries|
    requires maxRetries == w.bus.entries[CurrentTurn(w, f).entry].maxRetries
    requires var n := w.flights[f].phase.calls; n > 0 && (b.script(n) == Raises ==> n > maxRetries)
    ensures var n := w.flights[f].phase.calls;
      RunOf(w, [Leave(b.unsubscribes), Answer(f, b.script(n))])
        == Delivering(w, f, Delivered(n, b.script(n) == Succeeds), b.unsubscribes)
  {
    var n := w.flights[f].phase.calls;
    RunTwo(w, Leave(b.unsubscribes), Answer(f, b.script(n)));
    var left := Applied(w, Leave(b.unsubscribes));
    LeaveIs(w, b.unsubscribes);
    hide Inv, RunOf, Applied, Answered, Delivering, CurrentTurn;
    AnswerIs(left, f, b.script(n));
    LastAnswer(w, left, f, b);
  }

  lemma LeaveIs(w: System, ids: set<nat>)
    requires Inv(w)
    ensures Applied(w, Leave(ids)) == w.(bus := w.bus.(entries := Deactivate(w.bus.entries, ids)))
  {
  }

  lemma AnswerIs(w: System, f: nat, outcome: Outcome)
    requires Inv(w) && InCall(w, f)
    ensures Applied(w, Answer(f, outcome)) == Answered(w, f, outcome)
  {
  }

  lemma RetryIs(w: System, f: nat)
    requires Inv(w) && InCall(w, f) && CurrentTurn(w, f).entry < |w.bus.entries|
    requires w.flights[f].phase.calls <= w.bus.entries[CurrentTurn(w, f).entry].maxRetries
    ensures var flight := w.flights[f];
      Applied(w, Answer(f, Raises)) == w.(flights := w.flights[f := flight.(phase := Calling(flight.phase.calls + 1))])
  {
    hide Inv;
  }

  lemma {:induction false} DeliveryRuns(w: System, f: nat, b: Behaviour, maxRetries: int, attempts: nat)
    requires Inv(w) && InCall(w, f) && CurrentTurn(w, f).entry < |w.bus.entries|
    requires maxRetries == w.bus.entries[CurrentTurn(w, f).entry].maxRetries
    requires w.flights[f].phase == Calling(attempts + 1)
    ensures RunOf(w, DeliverySteps(f, maxRetries, b, attempts))
      == Delivering(w, f, DeliverFrom(maxRetries, b.script, attempts), b.unsubscribes)
    decreases if maxRetries > attempts then maxRetries - attempts else 0
  {
    var n := attempts + 1;
    if b.script(n) == Raises && n <= maxRetries {
      RunOne(w, Answer(f, Raises));
      var next := Applied(w, Answer(f, Raises));
      RetryIs(w, f);
      hide Inv, RunOf, Applied, Delivering;
      DeliveryRuns(next, f, b, maxRetries, n);
      RunAppend(w, [Answer(f, Raises)], DeliverySteps(f, maxRetries, b, n));
      SameDelivering(w, next, f, DeliverFrom(maxRetries, b.script, n), b.unsubscribes);
    } else {
      LastCall(w, f, b, maxRetries);
    }
  }

  lemma SameDelivering(w: System, next: System, f: nat, d: Delivered, off: set<nat>)
    requires Inv(w) && InCall(w, f) && Inv(next) && InCall(next, f)
    requires next == w.(flights := w.flights[f := w.flights[f].(phase := next.flights[f].phase)])
    ensures Delivering(next, f, d, off) == Delivering(w, f, d, off)
  {
    FlightIsOk(w, f);
    hide LogOk, BegunOk, FlightsOk, QueueOk, FlightOk;
    assert next.flights[f := w.flights[f].(phase := Between)] == w.flights[f := w.flights[f].(phase := Between)];
  }

  /** The steps of one turn of a dispatch. */
  ghost function TurnSteps(s: BusState, id: nat, event: Event, b: Behaviour, f: nat): seq<Action>
    requires id < |s.entries|
  {
    [TakeTurn(f)] + if WillDeliver(s, id, event) then DeliverySteps(f, s.entries[id].maxRetries, b, 0) else []
  }

  /** The steps of a dispatch from position `i` of its snapshot. */
  ghost function DispatchSteps(
    s: BusState, ids: seq<nat>, event: Event, behave: nat -> Behaviour, i: nat, f: nat): seq<Action>
    requires i <= |ids| && ValidIds(ids, s.entries)
    decreases |ids| - i
  {
    if i == |ids| then [Finish(f)]
    else
      TurnThenRest(s, ids, event, behave, i);
      TurnSteps(s, ids[i], event, behave(i), f)
      + DispatchSteps(EventBus.Turn(s, ids[i], event, behave(i), i).0, ids, event, behave, i + 1, f)
  }

  ghost predicate Records(d: Ended, delivery: Delivery, f: nat) {
    && d.turn == Turn(f, delivery.position, delivery.entry) && d.calls == delivery.calls
    && (if delivery.ok then d.fate.Done? else d.fate.Buried?)
  }

  /** `b` has ended the deliveries of `made` in dispatch `f`, after those in `a`. */
  ghost predicate LogsAll(a: seq<Ended>, b: seq<Ended>, made: seq<Delivery>, f: nat) {
    && |b| == |a| + |made| && b[..|a|] == a
    && forall k :: 0 <= k < |made| ==> Records(b[|a| + k], made[k], f)
  }

  lemma LogsMore(a: seq<Ended>, b: seq<Ended>, c: seq<Ended>, first: seq<Delivery>, rest: seq<Delivery>, f: nat)
    requires LogsAll(a, b, first, f) && LogsAll(b, c, rest, f)
    ensures LogsAll(a, c, first + rest, f)
  {
    hide Records;
    assert c[..|a|] == c[..|b|][..|a|];
    forall k | 0 <= k < |first + rest| ensures Records(c[|a| + k], (first + rest)[k], f) {
      if k < |first| {
        assert c[..|b|][|a| + k] == b[|a| + k];
        assert Records(b[|a| + k], first[k], f);
      } else {
        assert Records(c[|b| + (k - |first|)], rest[k - |first|], f);
      }
    }
  }

  /** Dispatch `f` is at position `i` of its snapshot, between two turns. */
  ghost predicate At(w: System, f: nat, event: Event, ids: seq<nat>, i: nat) {
    f < |w.flights| && w.flights[f] == Flight(event, ids, i, Between, false)
  }

  /** `after` is where the turn at position `i` leads from `w`. */
  ghost predicate Leads(
    w: System, after: System, ids: seq<nat>, event: Event, f: nat, i: nat, t: (BusState, seq<Delivery>))
  {
    after.bus == t.0 && At(after, f, event, ids, i + 1) && LogsAll(w.log, after.log, t.1, f)
  }

  lemma TurnIsTaken(w: System, ids: seq<nat>, event: Event, b: Behaviour, i: nat, f: nat)
    requires Inv(w) && i < |ids| && ValidIds(ids, w.bus.entries) && At(w, f, event, ids, i)
    ensures var taken := Applied(w, TakeTurn(f));
      if WillDeliver(w.bus, ids[i], event) then
        && taken.flights == w.flights[f := Flight(event, ids, i + 1, Calling(1), false)]
        && taken.bus == w.bus && taken.log == w.log
        && InCall(taken, f) && CurrentTurn(taken, f) == Turn(f, i, ids[i])
      else Leads(w, taken, ids, event, f, i, EventBus.Turn(w.bus, ids[i], event, b, i))
  {
    hide Inv;
  }

  lemma DeliveryLeads(w: System, taken: System, ids: seq<nat>, event: Event, b: Behaviour, i: nat, f: nat)
    requires i < |ids| && ValidIds(ids, w.bus.entries) && At(w, f, event, ids, i)
    requires WillDeliver(w.bus, ids[i], event) && Inv(taken) && InCall(taken, f)
    requires taken.flights == w.flights[f := Flight(event, ids, i + 1, Calling(1), false)]
    requires taken.bus == w.bus && taken.log == w.log && CurrentTurn(taken, f) == Turn(f, i, ids[i])
    ensures var d := DeliverFrom(w.bus.entries[ids[i]].maxRetries, b.script, 0);
      Leads(w, Delivering(taken, f, d, b.unsubscribes), ids, event, f, i, EventBus.Turn(w.bus, ids[i], event, b, i))
  {
    hide Inv, DeliverFrom, Settled, CurrentTurn;
  }

  /** The steps after the turn is taken lead from `taken` to the system after the delivery. */
  lemma CallRuns(w: System, taken: System, f: nat, b: Behaviour, maxRetries: int)
    requires Inv(w) && taken == Applied(w, TakeTurn(f)) && Inv(taken) && InCall(taken, f)
    requires CurrentTurn(taken, f).entry < |taken.bus.entries| && taken.flights[f].phase == Calling(1)
    requires maxRetries == taken.bus.entries[CurrentTurn(taken, f).entry].maxRetries
    ensures RunOf(w, [TakeTurn(f)] + DeliverySteps(f, maxRetries, b, 0))
      == Delivering(taken, f, DeliverFrom(maxRetries, b.script, 0), b.unsubscribes)
  {
    hide Inv, RunOf, Applied, DeliverFrom, DeliverySteps, Delivering, CurrentTurn;
    RunOne(w, TakeTurn(f));
    DeliveryRuns(taken, f, b, maxRetries, 0);
    RunAppend(w, [TakeTurn(f)], DeliverySteps(f, maxRetries, b, 0));
  }

  lemma TurnRuns(w: System, ids: seq<nat>, event: Event, b: Behaviour, i: nat, f: nat)
    requires Inv(w) && i < |ids| && ValidIds(ids, w.bus.entries) && At(w, f, event, ids, i)
    ensures var after := RunOf(w, TurnSteps(w.bus, ids[i], event, b, f));
      && Inv(after)
      && Leads(w, after, ids, event, f, i, EventBus.Turn(w.bus, ids[i], event, b, i))
  {
    hide Inv, RunOf, DeliverFrom, DeliverySteps, Delivering, Applied, EventBus.Turn, CurrentTurn, Leads;
    RunOne(w, TakeTurn(f));
    TurnIsTaken(w, ids, event, b, i, f);
    RunKeepsInv(w, TurnSteps(w.bus, ids[i], event, b, f));
    var taken := Applied(w, TakeTurn(f));
    if WillDeliver(w.bus, ids[i], event) {
      DeliveryLeads(w, taken, ids, event, b, i, f);
      CallRuns(w, taken, f, b, w.bus.entries[ids[i]].maxRetries);
    } else {
      assert [TakeTurn(f)] + [] == [TakeTurn(f)];
    }
  }

  lemma {:induction false} DispatchRuns(
    w: System, ids: seq<nat>, event: Event, behave: nat -> Behaviour, i: nat, f: nat)
    requires Inv(w) && i <= |ids| && ValidIds(ids, w.bus.entries) && At(w, f, event, ids, i)
    ensures var (bus, made) := DispatchFrom(w.bus, ids, event, behave, i);
      var after := RunOf(w, DispatchSteps(w.bus, ids, event, behave, i, f));
      && after.bus == bus.(publishCount := w.bus.publishCount + 1)
      && LogsAll(w.log, after.log, made, f)
      && f < |after.flights| && after.flights[f].ended
    decreases |ids| - i
  {
    if i == |ids| {
      FinishRuns(w, event, ids, f);
      hide Inv, RunOf;
    } else {
      var t := EventBus.Turn(w.bus, ids[i], event, behave(i), i);
      var first := TurnSteps(w.bus, ids[i], event, behave(i), f);
      TurnThenRest(w.bus, ids, event, behave, i);
      TurnRuns(w, ids, event, behave(i), i, f);
      StepsUnroll(w.bus, ids, event, behave, i, f);
      var next := RunOf(w, first);
      var rest := DispatchSteps(t.0, ids, event, behave, i + 1, f);
      hide Inv, RunOf, DeliverFrom, EventBus.Turn, TurnSteps, DispatchSteps, DispatchFrom, LogsAll;
      DispatchRuns(next, ids, event, behave, i + 1, f);
      RunAppend(w, first, rest);
      LogsMore(w.log, next.log, RunOf(next, rest).log, t.1, DispatchFrom(t.0, ids, event, behave, i + 1).1, f);
    }
  }

  lemma FinishRuns(w: System, event: Event, ids: seq<nat>, f: nat)
    requires Inv(w) && At(w, f, event, ids, |ids|)
    ensures var after := RunOf(w, [Finish(f)]);
      && after.bus == w.bus.(publishCount := w.bus.publishCount + 1)
      && after.log == w.log && f < |after.flights| && after.flights[f].ended
  {
    RunOne(w, Finish(f));
    hide Inv, RunOf;
  }

  /** The first turn of the steps that are left, and the rest of them. */
  lemma StepsUnroll(s: BusState, ids: seq<nat>, event: Event, behave: nat -> Behaviour, i: nat, f: nat)
    requires i < |ids| && ValidIds(ids, s.entries)
    ensures var t := EventBus.Turn(s, ids[i], event, behave(i), i);
      && ValidIds(ids, t.0.entries) && t.0.publishCount == s.publishCount
      && DispatchSteps(s, ids, event, behave, i, f)
        == TurnSteps(s, ids[i], event, behave(i), f) + DispatchSteps(t.0, ids, event, behave, i + 1, f)
  {
    TurnThenRest(s, ids, event, behave, i);
    hide TurnSteps, DispatchFrom;
  }

  /** A dispatch that nothing interrupts is one run of the system: it leaves the bus that
      `EventBus.Published` describes, with the same deliveries. */
  lemma AloneIsPublished(w: System, event: Event, behave: nat -> Behaviour)
    requires Inv(w) && !w.bus.closed
    ensures exists steps ::
      var after := RunOf(w, [Begin(event)] + steps);
      && after.bus == Published(w.bus, event, behave).state
      && LogsAll(w.log, after.log, Published(w.bus, event, behave).deliveries, |w.flights|)
  {
    var f, ids := |w.flights|, Subscribers(w.bus, event.eventType);
    RunOne(w, Begin(event));
    var begun := Applied(w, Begin(event));
    var steps := DispatchSteps(w.bus, ids, event, behave, 0, f);
    assert begun.bus == w.bus && At(begun, f, event, ids, 0);
    hide Inv, RunOf, Applied, DispatchSteps, DispatchFrom, LogsAll;
    DispatchRuns(begun, ids, event, behave, 0, f);
    RunAppend(w, [Begin(event)], steps);
  }
}
