/** Who receives an event, by priority and type (app/events/bus.py). */
module Filters {
  import opened DeadLetters
  import opened EventBus
  import opened Sequences
  import opened Wrappers

  import Dispatches

  /** The subscription takes events of this priority: it has no filter, or a filter that lists it. */
  ghost predicate Takes(e: HandlerEntry, priority: int) {
    e.priorityFilter.None? || priority in e.priorityFilter.value
  }

  // ---------------------------------------------------------------- one publish

  lemma DispatchFacts(s: BusState, event: Event, behave: nat -> Behaviour)
    requires ValidState(s) && !s.closed
    ensures var ids, log := Subscribers(s, event.eventType), Published(s, event, behave).deliveries;
      && (forall p: nat :: p < |ids| ==>
            (Handled(log, p) <==> WillDeliver(s, ids[p], event) && !SwitchedOff(log, behave, 0, p, ids[p])))
      && (forall k :: 0 <= k < |log| ==> log[k].position < |ids| && log[k].entry == ids[log[k].position] < |s.entries|)
      && (forall k :: 0 <= k < |log| ==> log[k].event == event)
      && (forall k, m :: 0 <= k < m < |log| ==> log[k].position < log[m].position)
  {
    var ids := Subscribers(s, event.eventType);
    var log := Published(s, event, behave).deliveries;
    DispatchIsExact(s, ids, event, behave, 0);
    forall k | 0 <= k < |log|
      ensures log[k].position < |ids| && log[k].entry == ids[log[k].position] < |s.entries| && log[k].event == event
    {
      DispatchDelivers(s, ids, event, behave, 0, k);
    }
  }

  /** Every delivery goes to an active subscription of the event's type whose filter, if it has one, lists
      the event's priority. */
  lemma DeliveriesRespectFilters(s: BusState, event: Event, behave: nat -> Behaviour, k: nat)
    requires ValidState(s) && k < |Published(s, event, behave).deliveries|
    ensures var d := Published(s, event, behave).deliveries[k];
      && !s.closed && d.event == event
      && event.eventType in s.subscribers && d.position < |s.subscribers[event.eventType]|
      && d.entry == s.subscribers[event.eventType][d.position] < |s.entries|
      && s.entries[d.entry].active
      && (s.entries[d.entry].priorityFilter.None? || event.priority in s.entries[d.entry].priorityFilter.value)
  {
    DispatchFacts(s, event, behave);
    var log := Published(s, event, behave).deliveries;
    assert Handled(log, log[k].position);
  }

  /** Exactly the active subscriptions of the type that take the priority, and that no earlier handler of
      this dispatch switched off, are handled; each once. */
  lemma TakersAreHandled(s: BusState, event: Event, behave: nat -> Behaviour, p: nat)
    requires ValidState(s) && !s.closed && event.eventType in s.subscribers && p < |s.subscribers[event.eventType]|
    ensures var id, log := s.subscribers[event.eventType][p], Published(s, event, behave).deliveries;
      && id < |s.entries|
      && (Handled(log, p) <==>
            && s.entries[id].active
            && (s.entries[id].priorityFilter.None? || event.priority in s.entries[id].priorityFilter.value)
            && !SwitchedOff(log, behave, 0, p, id))
      && (forall j, k :: 0 <= j < k < |log| ==> !(log[j].position == p == log[k].position))
  {
    DispatchFacts(s, event, behave);
    assert Subscribers(s, event.eventType) == s.subscribers[event.eventType];
  }

  /** Of two subscriptions with complementary filters, both active and not switched off, exactly one gets
      the event. */
  lemma ComplementaryFilters(s: BusState, event: Event, behave: nat -> Behaviour, p: nat, q: nat)
    requires ValidState(s) && !s.closed && event.eventType in s.subscribers
    requires var ids := s.subscribers[event.eventType];
      && p < |ids| && q < |ids|
      && s.entries[ids[p]].active && s.entries[ids[q]].active
      && (Takes(s.entries[ids[p]], event.priority) <==> !Takes(s.entries[ids[q]], event.priority))
    requires var ids, log := s.subscribers[event.eventType], Published(s, event, behave).deliveries;
      !SwitchedOff(log, behave, 0, p, ids[p]) && !SwitchedOff(log, behave, 0, q, ids[q])
    ensures var log := Published(s, event, behave).deliveries; Handled(log, p) <==> !Handled(log, q)
  {
    TakersAreHandled(s, event, behave, p);
    TakersAreHandled(s, event, behave, q);
  }

  /** A new subscription is served: it is the last of its type, and gets every event of that type it takes,
      unless a handler before it switches it off. Other types have the subscribers they had. */
  lemma NewSubscriptionIsServed(s: BusState, t: string, entry: HandlerEntry, event: Event, behave: nat -> Behaviour)
    requires ValidState(s) && !s.closed && entry.active && Takes(entry, event.priority)
    ensures var after := StepOf(s, Subscribe(t, entry)).state;
      && ValidState(after) && t in after.subscribers && |after.subscribers[t]| > 0
      && var p := |after.subscribers[t]| - 1;
         var log := Published(after, event, behave).deliveries;
         && after.subscribers[t][p] == |s.entries|
         && (event.eventType == t ==> Handled(log, p) || SwitchedOff(log, behave, 0, p, |s.entries|))
         && (event.eventType != t ==> Subscribers(after, event.eventType) == Subscribers(s, event.eventType))
  {
    StepAccounted(s, Subscribe(t, entry));
    var after := StepOf(s, Subscribe(t, entry)).state;
    if event.eventType == t { TakersAreHandled(after, event, behave, |after.subscribers[t]| - 1); }
    hide Published, Takes;
  }

  // ---------------------------------------------------------------- wider filters

  /** The same subscriptions, each taking at least the priorities it took. */
  ghost predicate Widens(a: seq<HandlerEntry>, b: seq<HandlerEntry>) {
    && |a| == |b|
    && (forall i :: 0 <= i < |a| ==> b[i] == a[i].(priorityFilter := b[i].priorityFilter))
    && (forall i, priority :: 0 <= i < |a| && Takes(a[i], priority) ==> Takes(b[i], priority))
  }

  /** A handler that runs only since the filters were widened switches off a later subscriber that was
      handled before. */
  ghost predicate NewcomerSwitchesOff(ids: seq<nat>, was: seq<Delivery>, now: seq<Delivery>, behave: nat -> Behaviour) {
    exists q, p :: 0 <= q < p < |ids| && CrowdsOut(ids, was, now, behave, q, p)
  }

  ghost predicate CrowdsOut(ids: seq<nat>, was: seq<Delivery>, now: seq<Delivery>, behave: nat -> Behaviour,
    q: nat, p: nat)
    requires p < |ids|
  {
    Handled(now, q) && !Handled(was, q) && Handled(was, p) && ids[p] in behave(q).unsubscribes
  }

  /** A delivery that is gone was crowded out. */
  lemma GoneIsCrowdedOut(s: BusState, ids: seq<nat>, was: seq<Delivery>, now: seq<Delivery>, event: Event,
                         behave: nat -> Behaviour, p: nat)
    requires p < |ids| && Handled(was, p) && !Handled(now, p)
    requires !SwitchedOff(was, behave, 0, p, ids[p]) && SwitchedOff(now, behave, 0, p, ids[p])
    ensures NewcomerSwitchesOff(ids, was, now, behave)
  {
    hide Handled;
    var q :| 0 <= q < p && Handled(now, q) && ids[p] in behave(q).unsubscribes;
    assert CrowdsOut(ids, was, now, behave, q, p);
  }

  /** Wider filters take no delivery away, exactly when no newcomer switches one of its receivers off. */
  lemma WideningKeepsIff(s: BusState, wide: BusState, event: Event, behave: nat -> Behaviour)
    requires ValidState(s) && !s.closed && wide == s.(entries := wide.entries) && Widens(s.entries, wide.entries)
    ensures ValidState(wide)
    ensures var ids := Subscribers(s, event.eventType);
      var was, now := Published(s, event, behave).deliveries, Published(wide, event, behave).deliveries;
      (forall p: nat :: p < |ids| && Handled(was, p) ==> Handled(now, p))
        <==> !NewcomerSwitchesOff(ids, was, now, behave)
  {
    var ids := Subscribers(s, event.eventType);
    var was, now := Published(s, event, behave).deliveries, Published(wide, event, behave).deliveries;
    DispatchFacts(s, event, behave);
    DispatchFacts(wide, event, behave);
    assert Subscribers(wide, event.eventType) == ids;
    forall p: nat | p < |ids| && WillDeliver(s, ids[p], event) ensures WillDeliver(wide, ids[p], event) {
      assert Takes(s.entries[ids[p]], event.priority);
    }
    hide Published, Handled, Widens, WillDeliver, Takes;
    if !NewcomerSwitchesOff(ids, was, now, behave) {
      forall p: nat | p < |ids| && Handled(was, p) ensures Handled(now, p) {
        if !Handled(now, p) { GoneIsCrowdedOut(s, ids, was, now, event, behave, p); }
      }
    } else {
      var q, p :| 0 <= q < p < |ids| && CrowdsOut(ids, was, now, behave, q, p);
      assert SwitchedOff(now, behave, 0, p, ids[p]);
    }
  }

  /** In particular wider filters take nothing away when no handler unsubscribes anyone. */
  lemma WideningKeepsDeliveries(s: BusState, wide: BusState, event: Event, behave: nat -> Behaviour)
    requires ValidState(s) && !s.closed && wide == s.(entries := wide.entries) && Widens(s.entries, wide.entries)
    requires forall q :: behave(q).unsubscribes == {}
    ensures ValidState(wide)
    ensures forall p: nat ::
      p < |Subscribers(s, event.eventType)| && Handled(Published(s, event, behave).deliveries, p) ==>
      Handled(Published(wide, event, behave).deliveries, p)
  {
    WideningKeepsIff(s, wide, event, behave);
    hide Published, Handled, Widens;
  }

  const URGENT: HandlerEntry := HandlerEntry("urgent", 0, Some({0}), true)
  const ANY: HandlerEntry := HandlerEntry("any", 0, None, true)

  const CHOOSY: BusState := BusState([URGENT, ANY], map["price" := [0, 1]], [], 10, 0, false)
  const OPEN: BusState := CHOOSY.(entries := [URGENT.(priorityFilter := None), ANY])

  lemma ChoosyServesAny(event: Event, behave: nat -> Behaviour)
    requires event.eventType == "price" && event.priority == 5
    ensures ValidState(CHOOSY)
    ensures var log := Published(CHOOSY, event, behave).deliveries; !Handled(log, 0) && Handled(log, 1)
  {
    TakersAreHandled(CHOOSY, event, behave, 0);
    TakersAreHandled(CHOOSY, event, behave, 1);
    hide Published, Handled;
  }

  lemma OpenServesFirst(event: Event, behave: nat -> Behaviour)
    requires event.eventType == "price" && event.priority == 5 && behave(0).unsubscribes == {1}
    ensures ValidState(OPEN)
    ensures var log := Published(OPEN, event, behave).deliveries; Handled(log, 0) && !Handled(log, 1)
  {
    TakersAreHandled(OPEN, event, behave, 0);
    TakersAreHandled(OPEN, event, behave, 1);
    hide Published, Handled;
    assert SwitchedOff(Published(OPEN, event, behave).deliveries, behave, 0, 1, 1);
  }

  /** An example: the first subscriber takes urgent events only, and its handler switches the second off.
      Without its filter it takes the normal event away from the second. */
  lemma WideningCanRemove(event: Event, behave: nat -> Behaviour)
    requires event.eventType == "price" && event.priority == 5 && behave(0).unsubscribes == {1}
    ensures ValidState(CHOOSY) && ValidState(OPEN) && Widens(CHOOSY.entries, OPEN.entries)
    ensures Handled(Published(CHOOSY, event, behave).deliveries, 1)
    ensures !Handled(Published(OPEN, event, behave).deliveries, 1)
  {
    ChoosyServesAny(event, behave);
    OpenServesFirst(event, behave);
    hide Published, Handled;
  }

  // ---------------------------------------------------------------- whole runs

  ghost predicate SameFilters(a: seq<HandlerEntry>, b: seq<HandlerEntry>) {
    |a| <= |b| && forall i :: 0 <= i < |a| ==> b[i].priorityFilter == a[i].priorityFilter
  }

  ghost predicate AllTaken(log: seq<Delivery>, entries: seq<HandlerEntry>) {
    forall k :: 0 <= k < |log| ==> log[k].entry < |entries| && Takes(entries[log[k].entry], log[k].event.priority)
  }

  ghost predicate Respects(s: BusState, r: Step) {
    SameFilters(s.entries, r.state.entries) && AllTaken(r.deliveries, r.state.entries)
  }

  lemma PublishRespects(s: BusState, event: Event, behave: nat -> Behaviour)
    requires ValidState(s)
    ensures Respects(s, Published(s, event, behave))
  {
    var r := Published(s, event, behave);
    if !s.closed {
      forall i: nat | i < |s.entries|
        ensures i < |r.state.entries| && r.state.entries[i].priorityFilter == s.entries[i].priorityFilter
      {
        PublishSwitchesOff(s, event, behave, i);
      }
      if s.entries == [] { PublishKeepsNone(s, event, behave); } else { PublishSwitchesOff(s, event, behave, 0); }
      forall k: nat | k < |r.deliveries|
        ensures r.deliveries[k].entry < |s.entries|
          && Takes(s.entries[r.deliveries[k].entry], r.deliveries[k].event.priority)
      {
        DeliveriesRespectFilters(s, event, behave, k);
      }
    }
    hide Published;
  }

  lemma ThenRespects(s: BusState, first: Step, rest: Step)
    requires Respects(s, first) && Respects(first.state, rest)
    ensures Respects(s, Then(first, rest))
  {
  }

  lemma {:induction false} AllRespect(s: BusState, events: seq<Event>, behaves: nat -> nat -> Behaviour, k: nat)
    requires ValidState(s)
    ensures Respects(s, PublishedAll(s, events, behaves, k))
    decreases |events|
  {
    if events != [] {
      var first := Published(s, events[0], behaves(k));
      PublishedIsValid(s, events[0], behaves(k));
      PublishRespects(s, events[0], behaves(k));
      hide Published, Respects;
      AllRespect(first.state, events[1..], behaves, k + 1);
      ThenRespects(s, first, PublishedAll(first.state, events[1..], behaves, k + 1));
    }
  }

  lemma StepRespects(s: BusState, op: BusOp)
    requires ValidState(s)
    ensures Respects(s, StepOf(s, op))
  {
    match op
    case Publish(event, behave) => PublishRespects(s, event, behave);
    case Replay(t, behaves) =>
      AllRespect(s.(letters := Kept(s.letters, t)), EventsOf(Picked(Reversed(s.letters), t)), behaves, 0);
      hide PublishedAll, Kept, Picked, Reversed;
    case Subscribe(_, _) =>
    case Unsubscribe(_) =>
    case Purge(_) =>
    case Close =>
  }

  /** Over every run: no filter ever changes, and every delivery went to a subscription that takes the
      priority of its event. */
  lemma {:induction false} RunRespectsFilters(s: BusState, ops: seq<BusOp>)
    requires ValidState(s)
    ensures var r := RunOf(s, ops);
      && SameFilters(s.entries, r.state.entries)
      && (forall k :: 0 <= k < |r.deliveries| ==>
            var d := r.deliveries[k];
            && d.entry < |r.state.entries|
            && var filter := r.state.entries[d.entry].priorityFilter;
               (filter.None? || d.event.priority in filter.value))
    decreases |ops|
  {
    RunRespects(s, ops);
    hide RunOf;
    assert Respects(s, RunOf(s, ops));
  }

  lemma {:induction false} RunRespects(s: BusState, ops: seq<BusOp>)
    requires ValidState(s)
    ensures Respects(s, RunOf(s, ops))
    decreases |ops|
  {
    if ops != [] {
      var first := StepOf(s, ops[0]);
      StepAccounted(s, ops[0]);
      StepRespects(s, ops[0]);
      hide StepOf, Respects;
      RunRespects(first.state, ops[1..]);
      ThenRespects(s, first, RunOf(first.state, ops[1..]));
    }
  }

  // ---------------------------------------------------------------- unsubscribing

  /** Subscription `id` stays switched off and gets nothing. */
  ghost predicate Silent(r: Step, id: nat) {
    && id < |r.state.entries| && !r.state.entries[id].active
    && (forall k :: 0 <= k < |r.deliveries| ==> r.deliveries[k].entry != id)
  }

  ghost predicate IsOff(s: BusState, id: nat) { id < |s.entries| && !s.entries[id].active }

  lemma PublishIsSilent(s: BusState, event: Event, behave: nat -> Behaviour, id: nat)
    requires ValidState(s) && IsOff(s, id)
    ensures Silent(Published(s, event, behave), id)
  {
    var r := Published(s, event, behave);
    if !s.closed {
      PublishSwitchesOff(s, event, behave, id);
      forall k: nat | k < |r.deliveries| ensures r.deliveries[k].entry != id {
        DeliveriesRespectFilters(s, event, behave, k);
      }
    }
    hide Published;
  }

  lemma ThenIsSilent(first: Step, rest: Step, id: nat)
    requires Silent(first, id) && Silent(rest, id)
    ensures Silent(Then(first, rest), id)
  {
  }

  lemma {:induction false} AllAreSilent(s: BusState, events: seq<Event>, behaves: nat -> nat -> Behaviour, k: nat,
    id: nat)
    requires ValidState(s) && IsOff(s, id)
    ensures Silent(PublishedAll(s, events, behaves, k), id)
    decreases |events|
  {
    if events != [] {
      var first := Published(s, events[0], behaves(k));
      PublishedIsValid(s, events[0], behaves(k));
      PublishIsSilent(s, events[0], behaves(k), id);
      hide Published;
      AllAreSilent(first.state, events[1..], behaves, k + 1, id);
      ThenIsSilent(first, PublishedAll(first.state, events[1..], behaves, k + 1), id);
    }
  }

  lemma StepIsSilent(s: BusState, op: BusOp, id: nat)
    requires ValidState(s) && IsOff(s, id)
    ensures Silent(StepOf(s, op), id)
  {
    match op
    case Publish(event, behave) => PublishIsSilent(s, event, behave, id);
    case Replay(t, behaves) =>
      AllAreSilent(s.(letters := Kept(s.letters, t)), EventsOf(Picked(Reversed(s.letters), t)), behaves, 0, id);
      hide PublishedAll, Kept, Picked, Reversed;
    case Subscribe(_, _) =>
    case Unsubscribe(_) =>
    case Purge(_) =>
    case Close =>
  }

  lemma {:induction false} RunIsSilent(s: BusState, ops: seq<BusOp>, id: nat)
    requires ValidState(s) && IsOff(s, id)
    ensures Silent(RunOf(s, ops), id)
    decreases |ops|
  {
    if ops != [] {
      var first := StepOf(s, ops[0]);
      StepAccounted(s, ops[0]);
      StepIsSilent(s, ops[0], id);
      hide StepOf;
      RunIsSilent(first.state, ops[1..], id);
      ThenIsSilent(first, RunOf(first.state, ops[1..]), id);
    }
  }

  /** Unsubscribing is for good: no operation after it, in any sequence, delivers anything there, and no
      other subscription changes by it. */
  lemma UnsubscribedGetsNothing(s: BusState, id: nat, ops: seq<BusOp>)
    requires ValidState(s) && id < |s.entries|
    ensures var after := StepOf(s, Unsubscribe(id)).state;
      && ValidState(after) && Silent(RunOf(after, ops), id) && |after.entries| == |s.entries|
      && forall i :: 0 <= i < |s.entries| && i != id ==> after.entries[i] == s.entries[i]
  {
    StepAccounted(s, Unsubscribe(id));
    RunIsSilent(StepOf(s, Unsubscribe(id)).state, ops, id);
    hide RunOf;
  }

  // ---------------------------------------------------------------- closing

  /** The bus is closed, delivered nothing, and has the subscriptions it had, some perhaps switched off. */
  ghost predicate IsDead(s: BusState, r: Step) {
    && r.state.closed && r.deliveries == []
    && |r.state.entries| == |s.entries| && r.state.subscribers == s.subscribers
    && r.state.publishCount == s.publishCount
  }

  lemma {:induction false} AllAreDead(s: BusState, events: seq<Event>, behaves: nat -> nat -> Behaviour, k: nat)
    requires ValidState(s) && s.closed
    ensures IsDead(s, PublishedAll(s, events, behaves, k))
    decreases |events|
  {
    if events != [] { AllAreDead(s, events[1..], behaves, k + 1); }
  }

  lemma StepIsDead(s: BusState, op: BusOp)
    requires ValidState(s) && s.closed
    ensures IsDead(s, StepOf(s, op))
  {
    if op.Replay? {
      AllAreDead(s.(letters := Kept(s.letters, op.filter)), EventsOf(Picked(Reversed(s.letters), op.filter)),
                 op.behaves, 0);
      hide PublishedAll, Kept, Picked, Reversed;
    }
  }

  lemma {:induction false} RunIsDead(s: BusState, ops: seq<BusOp>)
    requires ValidState(s) && s.closed
    ensures IsDead(s, RunOf(s, ops))
    decreases |ops|
  {
    if ops != [] {
      StepAccounted(s, ops[0]);
      StepIsDead(s, ops[0]);
      hide StepOf;
      RunIsDead(StepOf(s, ops[0]).state, ops[1..]);
    }
  }

  /** Closing is for good: no operation after it, in any sequence, delivers anything, subscribes anyone, or
      counts as a publish. */
  lemma ClosedDeliversNothing(s: BusState, ops: seq<BusOp>)
    requires ValidState(s)
    ensures var after := StepOf(s, Close).state;
      ValidState(after) && IsDead(s, RunOf(after, ops)) && after.entries == s.entries && after.letters == s.letters
  {
    StepAccounted(s, Close);
    RunIsDead(StepOf(s, Close).state, ops);
    hide RunOf;
  }

  // ---------------------------------------------------------------- overlapping dispatches

  /** Every delivery begun is of an event that its subscription takes. */
  ghost predicate BegunTaken(w: Dispatches.System) {
    forall k :: 0 <= k < |w.begun| ==> TurnTaken(w, w.begun[k])
  }

  ghost predicate TurnTaken(w: Dispatches.System, t: Dispatches.Turn) {
    && t.flight < |w.flights| && t.entry < |w.bus.entries|
    && Takes(w.bus.entries[t.entry], w.flights[t.flight].event.priority)
  }

  ghost predicate SameEvents(a: seq<Dispatches.Flight>, b: seq<Dispatches.Flight>) {
    |a| <= |b| && forall i :: 0 <= i < |a| ==> b[i].event == a[i].event
  }

  lemma StepKeepsEvents(w: Dispatches.System, a: Dispatches.Action)
    requires Dispatches.Inv(w)
    ensures var after := Dispatches.Applied(w, a);
      SameEvents(w.flights, after.flights) && SameFilters(w.bus.entries, after.bus.entries)
  {
    hide Dispatches.Inv;
  }

  lemma StepBeginsTaken(w: Dispatches.System, a: Dispatches.Action)
    requires Dispatches.Inv(w)
    ensures var after := Dispatches.Applied(w, a);
      || after.begun == w.begun
      || (exists t :: after.begun == w.begun + [t] && TurnTaken(after, t))
  {
    if a.TakeTurn? {
      var f := a.flight;
      if f < |w.flights| && w.flights[f].next < |w.flights[f].ids| {
        Dispatches.FlightIsOk(w, f);
        var t := Dispatches.Turn(f, w.flights[f].next, w.flights[f].ids[w.flights[f].next]);
        hide Dispatches.Inv;
        assert Dispatches.Applied(w, a).begun == w.begun || Dispatches.Applied(w, a).begun == w.begun + [t];
      }
    }
    hide Dispatches.Inv;
  }

  lemma BegunStaysTaken(w: Dispatches.System, after: Dispatches.System)
    requires BegunTaken(w) && SameEvents(w.flights, after.flights) && SameFilters(w.bus.entries, after.bus.entries)
    requires after.begun == w.begun || exists t :: after.begun == w.begun + [t] && TurnTaken(after, t)
    ensures BegunTaken(after)
  {
    forall k | 0 <= k < |w.begun| ensures TurnTaken(after, w.begun[k]) { assert TurnTaken(w, w.begun[k]); }
  }

  /** In every interleaving too, a delivery is begun only of an event that its subscription takes. */
  lemma {:induction false} OverlapRespectsFilters(w: Dispatches.System, steps: seq<Dispatches.Action>)
    requires Dispatches.Inv(w) && BegunTaken(w)
    ensures BegunTaken(Dispatches.RunOf(w, steps))
    decreases |steps|
  {
    if steps != [] {
      Dispatches.StepKeepsInv(w, steps[0]);
      StepKeepsEvents(w, steps[0]);
      StepBeginsTaken(w, steps[0]);
      hide Dispatches.Inv, Dispatches.Applied, BegunTaken;
      BegunStaysTaken(w, Dispatches.Applied(w, steps[0]));
      OverlapRespectsFilters(Dispatches.Applied(w, steps[0]), steps[1..]);
    }
  }
}
