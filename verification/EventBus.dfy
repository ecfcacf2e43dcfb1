/** Local delivery on the event bus (app/events/bus.py). */
module EventBus {
  // Retries, dead letters and replay. What a handler does is an input: how each call ends, and which
  // subscriptions it switches off meanwhile.

  import opened Sequences
  import opened Wrappers
  import opened DeadLetters

  /** One handler call: it returns, raises `EventHandlerError`, or raises anything else. */
  datatype Outcome = Succeeds | Terminal | Raises

  datatype Behaviour = Behaviour(script: nat -> Outcome, unsubscribes: set<nat>)

  datatype HandlerEntry = HandlerEntry(
    name: string, maxRetries: int, priorityFilter: Option<set<int>>, active: bool)

  datatype BusError = Closed

  function Matches(e: HandlerEntry, priority: int): bool {
    match e.priorityFilter case None => true case Some(ps) => priority in ps
  }

  // ---------------------------------------------------------------- one delivery

  datatype Delivered = Delivered(calls: nat, ok: bool)

  /** The retry loop after `attempts` calls have raised. */
  function DeliverFrom(maxRetries: int, script: nat -> Outcome, attempts: nat): Delivered
    decreases if maxRetries > attempts then maxRetries - attempts else 0
  {
    var n := attempts + 1;
    match script(n)
    case Succeeds => Delivered(n, true)
    case Terminal => Delivered(n, false)
    case Raises => if n > maxRetries then Delivered(n, false) else DeliverFrom(maxRetries, script, n)
  }

  function MaxCalls(maxRetries: int): nat { if maxRetries < 0 then 1 else maxRetries + 1 }

  lemma {:induction false} DeliverFromEnds(maxRetries: int, script: nat -> Outcome, attempts: nat)
    requires attempts < MaxCalls(maxRetries)
    ensures var d := DeliverFrom(maxRetries, script, attempts);
      && attempts < d.calls <= MaxCalls(maxRetries)
      && (forall n :: attempts < n < d.calls ==> script(n) == Raises)
      && (d.ok <==> script(d.calls) == Succeeds)
      && (script(d.calls) == Raises ==> d.calls == MaxCalls(maxRetries))
    decreases MaxCalls(maxRetries) - attempts
  {
    if script(attempts + 1) == Raises && attempts + 1 <= maxRetries {
      DeliverFromEnds(maxRetries, script, attempts + 1);
    }
  }

  /** A delivery ends after at least one and at most max_retries + 1 calls: in success at the first
      call that returns, in the dead letter queue at the first terminal error or when the last
      allowed call still raises. A negative limit allows one call, like none. */
  lemma DeliveryEndsOnce(maxRetries: int, script: nat -> Outcome)
    ensures var d := DeliverFrom(maxRetries, script, 0);
      var allowed := if maxRetries < 0 then 1 else maxRetries + 1;
      && 1 <= d.calls <= allowed
      && (forall n :: 1 <= n < d.calls ==> script(n) == Raises)
      && (d.ok <==> script(d.calls) == Succeeds)
      && (!d.ok <==> script(d.calls) == Terminal || (script(d.calls) == Raises && d.calls == allowed))
  {
    DeliverFromEnds(maxRetries, script, 0);
  }

  // ---------------------------------------------------------------- one dispatch

  datatype BusState = BusState(
    entries: seq<HandlerEntry>, subscribers: map<string, seq<nat>>, letters: seq<Record>, cap: nat,
    publishCount: nat, closed: bool)

  /** A delivery made by a dispatch: to the subscriber at `position` of the snapshot. */
  datatype Delivery = Delivery(event: Event, position: nat, entry: nat, calls: nat, ok: bool)

  ghost predicate ValidIds(ids: seq<nat>, entries: seq<HandlerEntry>) {
    forall i :: 0 <= i < |ids| ==> ids[i] < |entries|
  }

  function Subscribers(s: BusState, eventType: string): seq<nat> {
    if eventType in s.subscribers then s.subscribers[eventType] else []
  }

  function Deactivate(entries: seq<HandlerEntry>, ids: set<nat>): (es: seq<HandlerEntry>)
    ensures |es| == |entries|
    ensures forall i :: 0 <= i < |entries| ==> es[i] == entries[i].(active := entries[i].active && i !in ids)
  {
    seq(|entries|, i requires 0 <= i < |entries| => entries[i].(active := entries[i].active && i !in ids))
  }

  /** What one delivery leaves behind: switched-off subscriptions and perhaps a dead letter. */
  function Settled(s: BusState, entry: nat, event: Event, d: Delivered, off: set<nat>): BusState
    requires entry < |s.entries|
  {
    var letters :=
      if d.ok then s.letters else LastN(s.letters + [Record(event, s.entries[entry].name, d.calls)], s.cap);
    s.(letters := letters, entries := Deactivate(s.entries, off))
  }

  function WillDeliver(s: BusState, entry: nat, event: Event): bool
    requires entry < |s.entries|
  {
    s.entries[entry].active && Matches(s.entries[entry], event.priority)
  }

  /** The dispatch loop from position `i` of the snapshot `ids`. */
  function DispatchFrom(s: BusState, ids: seq<nat>, event: Event, behave: nat -> Behaviour, i: nat)
      : (r: (BusState, seq<Delivery>))
    requires i <= |ids| && ValidIds(ids, s.entries)
    ensures |r.0.entries| == |s.entries|
    decreases |ids| - i
  {
    if i == |ids| then (s, [])
    else if WillDeliver(s, ids[i], event) then
      var d := DeliverFrom(s.entries[ids[i]].maxRetries, behave(i).script, 0);
      var (after, log) := DispatchFrom(Settled(s, ids[i], event, d, behave(i).unsubscribes), ids, event, behave, i + 1);
      (after, [Delivery(event, i, ids[i], d.calls, d.ok)] + log)
    else DispatchFrom(s, ids, event, behave, i + 1)
  }

  /** One turn of the loop. */
  function Turn(s: BusState, entry: nat, event: Event, behaviour: Behaviour, i: nat): (BusState, seq<Delivery>)
    requires entry < |s.entries|
  {
    if WillDeliver(s, entry, event) then
      var d := DeliverFrom(s.entries[entry].maxRetries, behaviour.script, 0);
      (Settled(s, entry, event, d, behaviour.unsubscribes), [Delivery(event, i, entry, d.calls, d.ok)])
    else (s, [])
  }

  lemma TurnThenRest(s: BusState, ids: seq<nat>, event: Event, behave: nat -> Behaviour, i: nat)
    requires i < |ids| && ValidIds(ids, s.entries)
    ensures var t := Turn(s, ids[i], event, behave(i), i);
      && |t.0.entries| == |s.entries|
      && var rest := DispatchFrom(t.0, ids, event, behave, i + 1);
         DispatchFrom(s, ids, event, behave, i) == (rest.0, t.1 + rest.1)
  {
    if !WillDeliver(s, ids[i], event) {
      var rest := DispatchFrom(s, ids, event, behave, i + 1);
      assert [] + rest.1 == rest.1;
    }
  }

  ghost predicate Handled(log: seq<Delivery>, p: nat) {
    exists k :: 0 <= k < |log| && log[k].position == p
  }

  /** Some earlier handler of the same dispatch switched subscriber `id` off. */
  ghost predicate SwitchedOff(log: seq<Delivery>, behave: nat -> Behaviour, from: nat, p: nat, id: nat) {
    exists q :: from <= q < p && Handled(log, q) && id in behave(q).unsubscribes
  }

  /** Exactly the subscribers active and matching at their turn are handled: those active at the start
      that no earlier handler of this dispatch switched off. Each gets one delivery, in order. */
  lemma {:induction false} DispatchIsExact(s: BusState, ids: seq<nat>, event: Event, behave: nat -> Behaviour, i: nat)
    requires i <= |ids| && ValidIds(ids, s.entries)
    ensures var log := DispatchFrom(s, ids, event, behave, i).1;
      && (forall p :: i <= p < |ids| ==>
           (Handled(log, p) <==> WillDeliver(s, ids[p], event) && !SwitchedOff(log, behave, i, p, ids[p])))
      && (forall k :: 0 <= k < |log| ==> i <= log[k].position < |ids|)
      && (forall k, m :: 0 <= k < m < |log| ==> log[k].position < log[m].position)
    decreases |ids| - i
  {
    if i < |ids| {
      var log := DispatchFrom(s, ids, event, behave, i).1;
      if WillDeliver(s, ids[i], event) {
        var d := DeliverFrom(s.entries[ids[i]].maxRetries, behave(i).script, 0);
        var next := Settled(s, ids[i], event, d, behave(i).unsubscribes);
        var rest := DispatchFrom(next, ids, event, behave, i + 1).1;
        DispatchIsExact(next, ids, event, behave, i + 1);
        var first := Delivery(event, i, ids[i], d.calls, d.ok);
        assert log == [first] + rest;
        HandledCons(first, rest);
        forall p | i <= p < |ids|
          ensures Handled(log, p) <==> WillDeliver(s, ids[p], event) && !SwitchedOff(log, behave, i, p, ids[p])
        {
          if p > i {
            assert WillDeliver(next, ids[p], event)
              <==> WillDeliver(s, ids[p], event) && ids[p] !in behave(i).unsubscribes;
            SwitchedOffCons(first, rest, behave, i, p, ids[p]);
          }
        }
      } else {
        DispatchIsExact(s, ids, event, behave, i + 1);
        assert !Handled(log, i);
        forall p | i <= p < |ids|
          ensures SwitchedOff(log, behave, i, p, ids[p]) <==> SwitchedOff(log, behave, i + 1, p, ids[p])
        {
        }
      }
    }
  }

  lemma HandledCons(first: Delivery, rest: seq<Delivery>)
    ensures forall p :: Handled([first] + rest, p) <==> p == first.position || Handled(rest, p)
  {
    var log := [first] + rest;
    forall p ensures Handled(log, p) <==> p == first.position || Handled(rest, p) {
      if p == first.position { assert log[0].position == p; }
      if Handled(rest, p) {
        var k :| 0 <= k < |rest| && rest[k].position == p;
        assert log[k + 1].position == p;
      }
    }
  }

  lemma SwitchedOffCons(first: Delivery, rest: seq<Delivery>, behave: nat -> Behaviour, i: nat, p: nat, id: nat)
    requires first.position == i < p
    requires forall k :: 0 <= k < |rest| ==> i < rest[k].position
    ensures SwitchedOff([first] + rest, behave, i, p, id)
        <==> id in behave(i).unsubscribes || SwitchedOff(rest, behave, i + 1, p, id)
  {
    HandledCons(first, rest);
    if id in behave(i).unsubscribes {
      assert Handled([first] + rest, i);
    }
    if SwitchedOff(rest, behave, i + 1, p, id) {
      var q :| i + 1 <= q < p && Handled(rest, q) && id in behave(q).unsubscribes;
      assert Handled([first] + rest, q);
    }
    if SwitchedOff([first] + rest, behave, i, p, id) {
      var q :| i <= q < p && Handled([first] + rest, q) && id in behave(q).unsubscribes;
      if q > i { assert Handled(rest, q); }
    }
  }

  /** Every delivery of a dispatch goes to the subscriber at its position and is one full delivery. */
  lemma {:induction false} DispatchDelivers(
    s: BusState, ids: seq<nat>, event: Event, behave: nat -> Behaviour, i: nat, k: nat)
    requires i <= |ids| && ValidIds(ids, s.entries)
    requires k < |DispatchFrom(s, ids, event, behave, i).1|
    ensures var d := DispatchFrom(s, ids, event, behave, i).1[k];
      && d.event == event && d.position < |ids| && d.entry == ids[d.position]
      && Delivered(d.calls, d.ok) == DeliverFrom(s.entries[d.entry].maxRetries, behave(d.position).script, 0)
    decreases |ids| - i
  {
    if WillDeliver(s, ids[i], event) {
      var d := DeliverFrom(s.entries[ids[i]].maxRetries, behave(i).script, 0);
      if k > 0 {
        DispatchDelivers(Settled(s, ids[i], event, d, behave(i).unsubscribes), ids, event, behave, i + 1, k - 1);
      }
    } else {
      DispatchDelivers(s, ids, event, behave, i + 1, k);
    }
  }

  // ---------------------------------------------------------------- the letters a dispatch writes

  ghost predicate KnownEntries(log: seq<Delivery>, n: nat) {
    forall k :: 0 <= k < |log| ==> log[k].entry < n
  }

  /** The dead letters of a log, in order. */
  ghost function LettersOf(log: seq<Delivery>, entries: seq<HandlerEntry>, event: Event): seq<QueueOp>
    requires KnownEntries(log, |entries|)
  {
    if log == [] then []
    else
      (if log[0].ok then [] else [PutOp(Record(event, entries[log[0].entry].name, log[0].calls))])
      + LettersOf(log[1..], entries, event)
  }

  /** What a queue holding `letters` holds after `ops`. */
  ghost function LettersAfter(letters: seq<Record>, ops: seq<QueueOp>, cap: nat): seq<Record>
    decreases |ops|
  {
    if ops == [] then letters
    else
      var next := match ops[0]
        case PutOp(r) => LastN(letters + [r], cap)
        case PurgeOp(t) => Kept(letters, t);
      LettersAfter(next, ops[1..], cap)
  }

  lemma {:induction false} SameNames(log: seq<Delivery>, a: seq<HandlerEntry>, b: seq<HandlerEntry>, event: Event)
    requires |a| == |b| && forall i :: 0 <= i < |a| ==> a[i].name == b[i].name
    requires KnownEntries(log, |a|)
    ensures LettersOf(log, a, event) == LettersOf(log, b, event)
    decreases |log|
  {
    if log != [] { SameNames(log[1..], a, b, event); }
  }

  lemma LogEntriesValid(s: BusState, ids: seq<nat>, event: Event, behave: nat -> Behaviour, i: nat)
    requires i <= |ids| && ValidIds(ids, s.entries)
    ensures KnownEntries(DispatchFrom(s, ids, event, behave, i).1, |s.entries|)
  {
    var log := DispatchFrom(s, ids, event, behave, i).1;
    forall k | 0 <= k < |log| ensures log[k].entry < |s.entries| {
      DispatchDelivers(s, ids, event, behave, i, k);
    }
  }

  /** A dispatch changes the queue by exactly the letters of its failed deliveries. */
  lemma {:induction false} DispatchWritesLetters(
    s: BusState, ids: seq<nat>, event: Event, behave: nat -> Behaviour, i: nat)
    requires i <= |ids| && ValidIds(ids, s.entries)
    ensures var (after, log) := DispatchFrom(s, ids, event, behave, i);
      && KnownEntries(log, |s.entries|)
      && after.letters == LettersAfter(s.letters, LettersOf(log, s.entries, event), s.cap)
      && after == s.(letters := after.letters, entries := after.entries)
    decreases |ids| - i
  {
    LogEntriesValid(s, ids, event, behave, i);
    if i < |ids| {
      if WillDeliver(s, ids[i], event) {
        var d := DeliverFrom(s.entries[ids[i]].maxRetries, behave(i).script, 0);
        var next := Settled(s, ids[i], event, d, behave(i).unsubscribes);
        var rest := DispatchFrom(next, ids, event, behave, i + 1).1;
        DispatchWritesLetters(next, ids, event, behave, i + 1);
        SameNames(rest, s.entries, next.entries, event);
        var log := DispatchFrom(s, ids, event, behave, i).1;
        assert log[1..] == rest;
        var tail := LettersOf(rest, s.entries, event);
        if d.ok {
          assert LettersOf(log, s.entries, event) == tail;
        } else {
          var put := PutOp(Record(event, s.entries[ids[i]].name, d.calls));
          assert LettersOf(log, s.entries, event) == [put] + tail;
          assert ([put] + tail)[1..] == tail;
        }
      } else {
        DispatchWritesLetters(s, ids, event, behave, i + 1);
      }
    }
  }

  // ---------------------------------------------------------------- bus operations

  datatype BusOp =
    | Subscribe(eventType: string, entry: HandlerEntry)
    | Unsubscribe(id: nat)
    | Publish(event: Event, behave: nat -> Behaviour)
    | Purge(filter: Option<string>)
    | Replay(filter: Option<string>, behaves: nat -> nat -> Behaviour)
    | Close

  /** The state after an operation, the deliveries it made, and what it did to the dead letters. */
  datatype Step = Step(state: BusState, deliveries: seq<Delivery>, queueOps: seq<QueueOp>)

  ghost predicate ValidState(s: BusState) {
    forall t :: t in s.subscribers ==> ValidIds(s.subscribers[t], s.entries)
  }

  /** `_dispatch_local`: refused on a closed bus, otherwise one pass over a snapshot. */
  ghost function Published(s: BusState, event: Event, behave: nat -> Behaviour): Step
    requires ValidState(s)
  {
    if s.closed then Step(s, [], [])
    else
      var ids := Subscribers(s, event.eventType);
      var r := DispatchFrom(s, ids, event, behave, 0);
      LogEntriesValid(s, ids, event, behave, 0);
      Step(r.0.(publishCount := s.publishCount + 1), r.1, LettersOf(r.1, s.entries, event))
  }

  lemma PublishedIsValid(s: BusState, event: Event, behave: nat -> Behaviour)
    requires ValidState(s)
    ensures var r := Published(s, event, behave);
      && ValidState(r.state)
      && r.state.letters == LettersAfter(s.letters, r.queueOps, s.cap)
      && r.state.cap == s.cap && r.state.closed == s.closed && r.state.subscribers == s.subscribers
      && PutsIn(r.queueOps) == Failures(r.deliveries)
  {
    if !s.closed {
      var ids := Subscribers(s, event.eventType);
      DispatchWritesLetters(s, ids, event, behave, 0);
      LettersCount(DispatchFrom(s, ids, event, behave, 0).1, s.entries, event);
    }
  }

  function Failures(log: seq<Delivery>): nat {
    if log == [] then 0 else (if log[0].ok then 0 else 1) + Failures(log[1..])
  }

  function Successes(log: seq<Delivery>): nat {
    if log == [] then 0 else (if log[0].ok then 1 else 0) + Successes(log[1..])
  }

  ghost function PutsIn(ops: seq<QueueOp>): nat {
    if ops == [] then 0 else (if ops[0].PutOp? then 1 else 0) + PutsIn(ops[1..])
  }

  lemma {:induction false} PutsInAppend(a: seq<QueueOp>, b: seq<QueueOp>)
    ensures PutsIn(a + b) == PutsIn(a) + PutsIn(b)
  {
    if a == [] {
      assert a + b == b;
    } else {
      assert (a + b)[1..] == a[1..] + b;
      PutsInAppend(a[1..], b);
    }
  }

  lemma {:induction false} LettersCount(log: seq<Delivery>, entries: seq<HandlerEntry>, event: Event)
    requires KnownEntries(log, |entries|)
    ensures PutsIn(LettersOf(log, entries, event)) == Failures(log)
  {
    if log != [] {
      var rest := LettersOf(log[1..], entries, event);
      LettersCount(log[1..], entries, event);
      if !log[0].ok {
        var put := PutOp(Record(event, entries[log[0].entry].name, log[0].calls));
        assert ([put] + rest)[1..] == rest;
      } else {
        assert LettersOf(log, entries, event) == rest;
      }
    }
  }

  /** Publishes `events` in turn; on a closed bus the first one already raises. */
  ghost function PublishedAll(s: BusState, events: seq<Event>, behaves: nat -> nat -> Behaviour, k: nat): Step
    requires ValidState(s)
    decreases |events|
  {
    if events == [] then Step(s, [], [])
    else
      var first := Published(s, events[0], behaves(k));
      PublishedIsValid(s, events[0], behaves(k));
      var rest := PublishedAll(first.state, events[1..], behaves, k + 1);
      Step(rest.state, first.deliveries + rest.deliveries, first.queueOps + rest.queueOps)
  }

  ghost function EventsOf(records: seq<Record>): (es: seq<Event>)
    ensures |es| == |records| && forall i :: 0 <= i < |records| ==> es[i] == records[i].event
  {
    seq(|records|, i requires 0 <= i < |records| => records[i].event)
  }

  ghost function StepOf(s: BusState, op: BusOp): Step
    requires ValidState(s)
  {
    match op
    case Subscribe(t, entry) =>
      if s.closed then Step(s, [], [])
      else
        var ids := Subscribers(s, t) + [|s.entries|];
        Step(s.(entries := s.entries + [entry], subscribers := s.subscribers[t := ids]), [], [])
    case Unsubscribe(id) => Step(s.(entries := Deactivate(s.entries, {id})), [], [])
    case Publish(event, behave) => Published(s, event, behave)
    case Purge(t) => Step(s.(letters := Kept(s.letters, t)), [], [PurgeOp(t)])
    case Replay(t, behaves) =>
      var events := EventsOf(Picked(Reversed(s.letters), t));
      var purged := s.(letters := Kept(s.letters, t));
      var r := PublishedAll(purged, events, behaves, 0);
      Step(r.state, r.deliveries, [PurgeOp(t)] + r.queueOps)
    case Close => Step(s.(closed := true), [], [])
  }

  /** What every operation keeps: subscriptions stay valid, the dead letters are what the queue
      operations make of them, and each failed delivery puts exactly one letter. */
  ghost predicate Accounted(s: BusState, r: Step) {
    && ValidState(r.state)
    && r.state.cap == s.cap
    && r.state.letters == LettersAfter(s.letters, r.queueOps, s.cap)
    && PutsIn(r.queueOps) == Failures(r.deliveries)
  }

  lemma {:induction false} LettersAfterAppend(letters: seq<Record>, a: seq<QueueOp>, b: seq<QueueOp>, cap: nat)
    ensures LettersAfter(letters, a + b, cap) == LettersAfter(LettersAfter(letters, a, cap), b, cap)
    decreases |a|
  {
    if a == [] {
      assert a + b == b;
    } else {
      assert (a + b)[1..] == a[1..] + b;
      var next := match a[0] case PutOp(r) => LastN(letters + [r], cap) case PurgeOp(t) => Kept(letters, t);
      LettersAfterAppend(next, a[1..], b, cap);
    }
  }

  lemma {:induction false} OutcomesAppend(a: seq<Delivery>, b: seq<Delivery>)
    ensures Failures(a + b) == Failures(a) + Failures(b)
    ensures Successes(a + b) == Successes(a) + Successes(b)
    ensures Successes(a) + Failures(a) == |a|
  {
    if a == [] {
      assert a + b == b;
    } else {
      assert (a + b)[1..] == a[1..] + b;
      OutcomesAppend(a[1..], b);
    }
  }

  ghost function Then(first: Step, rest: Step): Step {
    Step(rest.state, first.deliveries + rest.deliveries, first.queueOps + rest.queueOps)
  }

  lemma AccountedThen(s: BusState, first: Step, rest: Step)
    requires Accounted(s, first) && Accounted(first.state, rest)
    ensures Accounted(s, Then(first, rest))
  {
    LettersAfterAppend(s.letters, first.queueOps, rest.queueOps, s.cap);
    OutcomesAppend(first.deliveries, rest.deliveries);
    PutsInAppend(first.queueOps, rest.queueOps);
  }

  lemma {:induction false} PublishedAllAccounted(
    s: BusState, events: seq<Event>, behaves: nat -> nat -> Behaviour, k: nat)
    requires ValidState(s)
    ensures var r := PublishedAll(s, events, behaves, k);
      && Accounted(s, r)
      && r.state.closed == s.closed
      && r.state.publishCount == s.publishCount + if s.closed then 0 else |events|
    decreases |events|
  {
    if events != [] {
      var first := Published(s, events[0], behaves(k));
      PublishedIsValid(s, events[0], behaves(k));
      PublishedAllAccounted(first.state, events[1..], behaves, k + 1);
      AccountedThen(s, first, PublishedAll(first.state, events[1..], behaves, k + 1));
    }
  }

  lemma StepAccounted(s: BusState, op: BusOp)
    requires ValidState(s)
    ensures Accounted(s, StepOf(s, op))
  {
    match op
    case Subscribe(t, entry) =>
    case Unsubscribe(id) =>
    case Publish(event, behave) => PublishedIsValid(s, event, behave);
    case Purge(t) => PurgeStep(s, t);
    case Replay(t, behaves) =>
      var purged := s.(letters := Kept(s.letters, t));
      var events := EventsOf(Picked(Reversed(s.letters), t));
      PurgeStep(s, t);
      PublishedAllAccounted(purged, events, behaves, 0);
      AccountedThen(s, Step(purged, [], [PurgeOp(t)]), PublishedAll(purged, events, behaves, 0));
      var log := PublishedAll(purged, events, behaves, 0).deliveries;
      assert [] + log == log;
    case Close =>
  }

  lemma PurgeStep(s: BusState, t: Option<string>)
    requires ValidState(s)
    ensures Accounted(s, Step(s.(letters := Kept(s.letters, t)), [], [PurgeOp(t)]))
  {
    assert LettersAfter(Kept(s.letters, t), [], s.cap) == Kept(s.letters, t);
    assert [PurgeOp(t)][1..] == [];
  }

  // ---------------------------------------------------------------- whole runs

  ghost function RunOf(s: BusState, ops: seq<BusOp>): Step
    requires ValidState(s)
    decreases |ops|
  {
    if ops == [] then Step(s, [], [])
    else
      var first := StepOf(s, ops[0]);
      StepAccounted(s, ops[0]);
      Then(first, RunOf(first.state, ops[1..]))
  }

  lemma {:induction false} RunAccounted(s: BusState, ops: seq<BusOp>)
    requires ValidState(s)
    ensures Accounted(s, RunOf(s, ops))
    decreases |ops|
  {
    if ops != [] {
      var first := StepOf(s, ops[0]);
      StepAccounted(s, ops[0]);
      RunAccounted(first.state, ops[1..]);
      AccountedThen(s, first, RunOf(first.state, ops[1..]));
    }
  }

  lemma {:induction false} QueueMatchesLedger(ops: seq<QueueOp>, cap: nat)
    ensures LettersAfter([], ops, cap) == After(ops, cap).retained
    ensures PutsIn(ops) == |Puts(ops)|
  {
    if ops != [] {
      var init, op := ops[..|ops| - 1], ops[|ops| - 1];
      QueueMatchesLedger(init, cap);
      assert ops == init + [op];
      LettersAfterAppend([], init, [op], cap);
      PutsInAppend(init, [op]);
      assert [op][1..] == [];
    }
  }

  /** Conservation over every run of a new bus: each delivery ended either in success or in exactly
      one dead letter, and every dead letter is retained, was evicted by capacity, or was purged. */
  lemma DeliveriesConserved(cap: nat, ops: seq<BusOp>)
    ensures var s := BusState([], map[], [], cap, 0, false);
      var r := RunOf(s, ops);
      var ledger := After(r.queueOps, cap);
      && |r.deliveries| == Successes(r.deliveries) + Failures(r.deliveries)
      && Failures(r.deliveries) == |ledger.retained| + |ledger.evicted| + |ledger.purged|
      && r.state.letters == ledger.retained
      && |r.state.letters| <= cap
  {
    var s := BusState([], map[], [], cap, 0, false);
    var r := RunOf(s, ops);
    RunAccounted(s, ops);
    QueueMatchesLedger(r.queueOps, cap);
    CountsConserved(r.queueOps, cap);
    LettersConserved(r.queueOps, cap);
    OutcomesAppend(r.deliveries, []);
  }

  /** Replay takes every retained letter of the type off the queue. On an open bus each of their events
      is published again, once; on a closed bus none is, and they are gone. */
  lemma ReplayPublishesOnce(s: BusState, t: Option<string>, behaves: nat -> nat -> Behaviour)
    requires ValidState(s)
    ensures var r := StepOf(s, Replay(t, behaves));
      && r.state.publishCount == s.publishCount + (if s.closed then 0 else |Picked(s.letters, t)|)
      && (Failures(r.deliveries) == 0 ==> r.state.letters == Kept(s.letters, t))
      && (s.closed ==> r.deliveries == [])
  {
    hide PublishedAll, Reversed, PutsIn, Failures;
    var purged := s.(letters := Kept(s.letters, t));
    var events := EventsOf(Picked(Reversed(s.letters), t));
    PublishedAllAccounted(purged, events, behaves, 0);
    var r := PublishedAll(purged, events, behaves, 0);
    ReversedPicksAsMany(s.letters, t);
    OnlyPuts(purged, events, behaves, 0);
    EveryPutCounts(r.queueOps);
    hide Kept, Picked, EventsOf;
    assert r.queueOps == [] ==> LettersAfter(purged.letters, r.queueOps, s.cap) == purged.letters;
  }

  const LETTER: Record := Record(Event("1", "price", 0, ""), "notify", 4)

  /** A bus with one subscriber and one dead letter of its. */
  const WITH_LETTER: BusState :=
    BusState([HandlerEntry("notify", 3, None, true)], map["price" := [0]], [LETTER], 10, 1, false)

  /** An example: a replay delivers the letter again; on the closed bus it delivers nothing, and the
      letter is gone. */
  lemma ClosedReplayLosesLetter(b: Behaviour)
    requires b.script(1) == Succeeds
    ensures ValidState(WITH_LETTER)
    ensures var r := StepOf(WITH_LETTER, Replay(None, _ => _ => b));
      r.deliveries == [Delivery(LETTER.event, 0, 0, 1, true)] && r.state.letters == []
    ensures var r := StepOf(WITH_LETTER.(closed := true), Replay(None, _ => _ => b));
      r.deliveries == [] && r.state.letters == []
  {
    var s, event := WITH_LETTER.(letters := []), LETTER.event;
    PurgeAllKeepsNone([LETTER]);
    assert Reversed([LETTER]) == [LETTER];
    assert EventsOf([LETTER]) == [event];
    assert Subscribers(s, event.eventType) == [0];
    var after := Settled(s, 0, event, Delivered(1, true), b.unsubscribes);
    assert DispatchFrom(after, [0], event, _ => b, 1) == (after, []);
    assert DispatchFrom(s, [0], event, _ => b, 0) == (after, [Delivery(event, 0, 0, 1, true)] + []);
    PublishesOne(s, event, _ => _ => b);
    PublishesOne(s.(closed := true), event, _ => _ => b);
    hide PublishedAll, DispatchFrom, LettersOf;
  }

  lemma PublishesOne(s: BusState, event: Event, behaves: nat -> nat -> Behaviour)
    requires ValidState(s)
    ensures var r, all := Published(s, event, behaves(0)), PublishedAll(s, [event], behaves, 0);
      all.state == r.state && all.deliveries == r.deliveries
  {
    PublishedIsValid(s, event, behaves(0));
    assert [event][1..] == [];
    hide Published;
  }

  /** The deliveries of `PublishedAll`, event by event. */
  ghost function LogsOf(s: BusState, events: seq<Event>, behaves: nat -> nat -> Behaviour, k: nat)
      : (logs: seq<seq<Delivery>>)
    requires ValidState(s)
    ensures |logs| == |events|
    decreases |events|
  {
    if events == [] then []
    else
      var first := Published(s, events[0], behaves(k));
      PublishedIsValid(s, events[0], behaves(k));
      [first.deliveries] + LogsOf(first.state, events[1..], behaves, k + 1)
  }

  lemma {:induction false} LogsMakeTheRun(s: BusState, events: seq<Event>, behaves: nat -> nat -> Behaviour, k: nat)
    requires ValidState(s)
    ensures Flatten(LogsOf(s, events, behaves, k)) == PublishedAll(s, events, behaves, k).deliveries
    decreases |events|
  {
    if events != [] {
      var first := Published(s, events[0], behaves(k));
      PublishedIsValid(s, events[0], behaves(k));
      hide Published;
      LogsMakeTheRun(first.state, events[1..], behaves, k + 1);
      var logs := LogsOf(s, events, behaves, k);
      assert logs[1..] == LogsOf(first.state, events[1..], behaves, k + 1);
    }
  }

  /** The buses before, between and after the publishes of `PublishedAll`. */
  ghost function StatesOf(s: BusState, events: seq<Event>, behaves: nat -> nat -> Behaviour, k: nat)
      : (states: seq<BusState>)
    requires ValidState(s)
    ensures |states| == |events| + 1 && states[0] == s
    decreases |events|
  {
    if events == [] then [s]
    else
      PublishedIsValid(s, events[0], behaves(k));
      [s] + StatesOf(Published(s, events[0], behaves(k)).state, events[1..], behaves, k + 1)
  }

  /** One publish, from `before` to `after`. */
  ghost predicate IsPublish(
    before: BusState, after: BusState, log: seq<Delivery>, event: Event, behave: nat -> Behaviour)
  {
    && ValidState(before)
    && log == Published(before, event, behave).deliveries
    && after == Published(before, event, behave).state
  }

  lemma ChainUnrolls(s: BusState, events: seq<Event>, behaves: nat -> nat -> Behaviour, k: nat, i: nat)
    requires ValidState(s) && i < |events|
    ensures var first := Published(s, events[0], behaves(k));
      && ValidState(first.state) && IsPublish(s, first.state, LogsOf(s, events, behaves, k)[0], events[0], behaves(k))
      && StatesOf(s, events, behaves, k)[i + 1] == StatesOf(first.state, events[1..], behaves, k + 1)[i]
      && (i > 0 ==>
           LogsOf(s, events, behaves, k)[i] == LogsOf(first.state, events[1..], behaves, k + 1)[i - 1])
  {
    hide Published;
    PublishedIsValid(s, events[0], behaves(k));
  }

  lemma {:induction false} StatesAreChained(
    s: BusState, events: seq<Event>, behaves: nat -> nat -> Behaviour, k: nat, i: nat)
    requires ValidState(s) && i < |events|
    ensures var states := StatesOf(s, events, behaves, k);
      IsPublish(states[i], states[i + 1], LogsOf(s, events, behaves, k)[i], events[i], behaves(k + i))
    decreases |events|
  {
    ChainUnrolls(s, events, behaves, k, i);
    hide Published, IsPublish, StatesOf, LogsOf, ValidState;
    if i > 0 {
      ChainUnrolls(s, events, behaves, k, i - 1);
      StatesAreChained(Published(s, events[0], behaves(k)).state, events[1..], behaves, k + 1, i - 1);
    }
  }

  lemma {:induction false} LastState(s: BusState, events: seq<Event>, behaves: nat -> nat -> Behaviour, k: nat)
    requires ValidState(s)
    ensures StatesOf(s, events, behaves, k)[|events|] == PublishedAll(s, events, behaves, k).state
    decreases |events|
  {
    if events != [] {
      ChainUnrolls(s, events, behaves, k, |events| - 1);
      hide Published, StatesOf, ValidState;
      LastState(Published(s, events[0], behaves(k)).state, events[1..], behaves, k + 1);
    }
  }

  /** The publishes of a replay: each starts from the bus that the one before left. */
  ghost predicate Unfolds(states: seq<BusState>, logs: seq<seq<Delivery>>, records: seq<Record>,
                          behaves: nat -> nat -> Behaviour) {
    && |logs| == |records| && |states| == |records| + 1
    && forall i: nat :: i < |records| ==> IsPublish(states[i], states[i + 1], logs[i], records[i].event, behaves(i))
  }

  /** A replay of `s` seen publish by publish. */
  ghost predicate IsReplay(s: BusState, t: Option<string>, behaves: nat -> nat -> Behaviour,
                           states: seq<BusState>, logs: seq<seq<Delivery>>)
    requires ValidState(s)
  {
    && Unfolds(states, logs, Picked(Reversed(s.letters), t), behaves)
    && states[0] == s.(letters := Kept(s.letters, t))
    && states[|states| - 1] == StepOf(s, Replay(t, behaves)).state
    && Flatten(logs) == StepOf(s, Replay(t, behaves)).deliveries
  }

  /** A replay publishes the event of each retained letter, newest first, from the bus that the publish
      before it left; the first from the purged bus. Nothing else is delivered. */
  lemma ReplayDeliversItsLetters(s: BusState, t: Option<string>, behaves: nat -> nat -> Behaviour)
    requires ValidState(s)
    ensures exists states, logs :: IsReplay(s, t, behaves, states, logs)
  {
    hide PublishedAll, StatesOf, LogsOf, Flatten, IsPublish, Reversed, Picked, Kept;
    var purged := s.(letters := Kept(s.letters, t));
    var records := Picked(Reversed(s.letters), t);
    var events := EventsOf(records);
    var states, logs := StatesOf(purged, events, behaves, 0), LogsOf(purged, events, behaves, 0);
    LogsMakeTheRun(purged, events, behaves, 0);
    LastState(purged, events, behaves, 0);
    forall i: nat | i < |records|
      ensures IsPublish(states[i], states[i + 1], logs[i], records[i].event, behaves(i))
    {
      StatesAreChained(purged, events, behaves, 0, i);
    }
    assert IsReplay(s, t, behaves, states, logs);
  }

  // ---------------------------------------------------------------- whom a replay reaches

  /** A handler of this dispatch switched subscription `id` off. */
  ghost predicate SwitchesOff(log: seq<Delivery>, behave: nat -> Behaviour, id: nat) {
    exists q :: Handled(log, q) && id in behave(q).unsubscribes
  }

  ghost predicate OffAfter(a: HandlerEntry, b: HandlerEntry, off: bool) { b == a.(active := a.active && !off) }

  lemma SwitchesOffCons(first: Delivery, rest: seq<Delivery>, behave: nat -> Behaviour, id: nat)
    ensures SwitchesOff([first] + rest, behave, id)
        <==> id in behave(first.position).unsubscribes || SwitchesOff(rest, behave, id)
  {
    HandledCons(first, rest);
    if SwitchesOff(rest, behave, id) {
      var q :| Handled(rest, q) && id in behave(q).unsubscribes;
      assert Handled([first] + rest, q);
    }
    if id in behave(first.position).unsubscribes { assert Handled([first] + rest, first.position); }
  }

  /** A dispatch changes a subscription only by switching it off, and only if one of its handlers does. */
  lemma {:induction false} DispatchSwitchesOff(
    s: BusState, ids: seq<nat>, event: Event, behave: nat -> Behaviour, i: nat, id: nat)
    requires i <= |ids| && ValidIds(ids, s.entries) && id < |s.entries|
    ensures var (after, log) := DispatchFrom(s, ids, event, behave, i);
      OffAfter(s.entries[id], after.entries[id], SwitchesOff(log, behave, id))
    decreases |ids| - i
  {
    if i < |ids| {
      if WillDeliver(s, ids[i], event) {
        var d := DeliverFrom(s.entries[ids[i]].maxRetries, behave(i).script, 0);
        var next := Settled(s, ids[i], event, d, behave(i).unsubscribes);
        DispatchSwitchesOff(next, ids, event, behave, i + 1, id);
        var rest := DispatchFrom(next, ids, event, behave, i + 1).1;
        SwitchesOffCons(Delivery(event, i, ids[i], d.calls, d.ok), rest, behave, id);
      } else {
        DispatchSwitchesOff(s, ids, event, behave, i + 1, id);
      }
    }
  }

  /** A handler of one of the first `n` dispatches switched subscription `id` off. */
  ghost predicate SwitchedBefore(logs: seq<seq<Delivery>>, behaves: nat -> nat -> Behaviour, n: nat, id: nat) {
    exists j: nat :: j < n && j < |logs| && SwitchesOff(logs[j], behaves(j), id)
  }

  lemma PublishSwitchesOff(s: BusState, event: Event, behave: nat -> Behaviour, id: nat)
    requires ValidState(s) && !s.closed && id < |s.entries|
    ensures var r := Published(s, event, behave);
      && |r.state.entries| == |s.entries|
      && OffAfter(s.entries[id], r.state.entries[id], SwitchesOff(r.deliveries, behave, id))
  {
    DispatchSwitchesOff(s, Subscribers(s, event.eventType), event, behave, 0, id);
  }

  ghost predicate StillSubscribed(s: BusState, now: BusState, logs: seq<seq<Delivery>>,
                                  behaves: nat -> nat -> Behaviour, i: nat, id: nat) {
    && ValidState(now) && !now.closed && now.subscribers == s.subscribers && |now.entries| == |s.entries|
    && (id < |s.entries| ==> OffAfter(s.entries[id], now.entries[id], SwitchedBefore(logs, behaves, i, id)))
  }

  lemma StillAfter(s: BusState, before: BusState, after: BusState, logs: seq<seq<Delivery>>, event: Event,
                   behaves: nat -> nat -> Behaviour, i: nat, id: nat)
    requires i < |logs| && StillSubscribed(s, before, logs, behaves, i, id)
    requires IsPublish(before, after, logs[i], event, behaves(i))
    ensures StillSubscribed(s, after, logs, behaves, i + 1, id)
  {
    hide Published, SwitchesOff;
    PublishedIsValid(before, event, behaves(i));
    if id < |s.entries| { PublishSwitchesOff(before, event, behaves(i), id); }
    assert SwitchedBefore(logs, behaves, i + 1, id)
      <==> SwitchedBefore(logs, behaves, i, id) || SwitchesOff(logs[i], behaves(i), id);
    if before.entries == [] { PublishKeepsNone(before, event, behaves(i)); }
    else { PublishSwitchesOff(before, event, behaves(i), 0); }
  }

  lemma PublishKeepsNone(s: BusState, event: Event, behave: nat -> Behaviour)
    requires ValidState(s) && s.entries == []
    ensures Published(s, event, behave).state.entries == []
  {
  }

  lemma {:induction false} SubscribedSoFar(
    s: BusState, states: seq<BusState>, logs: seq<seq<Delivery>>, records: seq<Record>,
    behaves: nat -> nat -> Behaviour, i: nat, id: nat)
    requires Unfolds(states, logs, records, behaves) && i <= |logs|
    requires ValidState(states[0]) && !states[0].closed
    requires states[0].subscribers == s.subscribers && states[0].entries == s.entries
    ensures StillSubscribed(s, states[i], logs, behaves, i, id)
  {
    hide IsPublish, SwitchesOff;
    if i > 0 {
      SubscribedSoFar(s, states, logs, records, behaves, i - 1, id);
      assert IsPublish(states[i - 1], states[i - 1 + 1], logs[i - 1], records[i - 1].event, behaves(i - 1));
      StillAfter(s, states[i - 1], states[i], logs, records[i - 1].event, behaves, i - 1, id);
    }
  }

  /** `log` is one delivery of `event`, in order of subscription, to exactly the subscribers of `s` that
      are active and match, and that no handler switched off before their turn. */
  ghost predicate Reaches(s: BusState, logs: seq<seq<Delivery>>, event: Event, behaves: nat -> nat -> Behaviour, i: nat)
    requires ValidState(s) && i < |logs|
  {
    var ids, log := Subscribers(s, event.eventType), logs[i];
    && (forall k :: 0 <= k < |log| ==> IsDelivery(log[k], s, ids, event, behaves(i)))
    && (forall k, m :: 0 <= k < m < |log| ==> log[k].position < log[m].position)
    && (forall p: nat :: p < |ids| ==>
          (Handled(log, p) <==>
            && WillDeliver(s, ids[p], event)
            && !SwitchedBefore(logs, behaves, i, ids[p])
            && !SwitchedOff(log, behaves(i), 0, p, ids[p])))
  }

  ghost predicate IsDelivery(d: Delivery, s: BusState, ids: seq<nat>, event: Event, behave: nat -> Behaviour) {
    && d.event == event && d.position < |ids| && d.entry == ids[d.position] && d.entry < |s.entries|
    && Delivered(d.calls, d.ok) == DeliverFrom(s.entries[d.entry].maxRetries, behave(d.position).script, 0)
  }

  /** Who gets a replayed letter, from the bus before the replay alone: every subscriber active and
      matching then, unless a handler that this replay ran earlier switched it off. */
  lemma ReplayReachesSubscribers(s: BusState, t: Option<string>, behaves: nat -> nat -> Behaviour,
                                 states: seq<BusState>, logs: seq<seq<Delivery>>, i: nat)
    requires ValidState(s) && !s.closed && IsReplay(s, t, behaves, states, logs) && i < |logs|
    ensures Reaches(s, logs, Picked(Reversed(s.letters), t)[i].event, behaves, i)
  {
    hide Picked, Reversed, Kept, StepOf, Flatten, DispatchFrom, SwitchedBefore, SwitchedOff, Handled;
    var records := Picked(Reversed(s.letters), t);
    var event, now, log := records[i].event, states[i], logs[i];
    var ids := Subscribers(s, event.eventType);
    SubscribedSoFar(s, states, logs, records, behaves, i, 0);
    assert IsPublish(now, states[i + 1], log, event, behaves(i));
    DispatchIsExact(now, ids, event, behaves(i), 0);
    forall k | 0 <= k < |log| ensures IsDelivery(log[k], s, ids, event, behaves(i)) {
      DispatchDelivers(now, ids, event, behaves(i), 0, k);
      SubscribedSoFar(s, states, logs, records, behaves, i, ids[log[k].position]);
    }
    forall p: nat | p < |ids|
      ensures WillDeliver(now, ids[p], event)
        <==> WillDeliver(s, ids[p], event) && !SwitchedBefore(logs, behaves, i, ids[p])
    {
      SubscribedSoFar(s, states, logs, records, behaves, i, ids[p]);
    }
  }

  lemma {:induction false} EveryPutCounts(ops: seq<QueueOp>)
    requires forall op :: op in ops ==> op.PutOp?
    ensures PutsIn(ops) == |ops|
  {
    if ops != [] { EveryPutCounts(ops[1..]); }
  }

  lemma {:induction false} OnlyPutsInLetters(log: seq<Delivery>, entries: seq<HandlerEntry>, event: Event)
    requires KnownEntries(log, |entries|)
    ensures forall op :: op in LettersOf(log, entries, event) ==> op.PutOp?
  {
    if log != [] { OnlyPutsInLetters(log[1..], entries, event); }
  }

  lemma {:induction false} OnlyPuts(s: BusState, events: seq<Event>, behaves: nat -> nat -> Behaviour, k: nat)
    requires ValidState(s)
    ensures var r := PublishedAll(s, events, behaves, k);
      (forall op :: op in r.queueOps ==> op.PutOp?) && (s.closed ==> r.deliveries == [])
    decreases |events|
  {
    if events != [] {
      var first := Published(s, events[0], behaves(k));
      PublishedIsValid(s, events[0], behaves(k));
      if !s.closed {
        LogEntriesValid(s, Subscribers(s, events[0].eventType), events[0], behaves(k), 0);
        OnlyPutsInLetters(first.deliveries, s.entries, events[0]);
      }
      OnlyPuts(first.state, events[1..], behaves, k + 1);
    }
  }

  lemma {:induction false} PickedAppend(a: seq<Record>, b: seq<Record>, t: Option<string>)
    ensures |Picked(a + b, t)| == |Picked(a, t)| + |Picked(b, t)|
  {
    if a == [] {
      assert a + b == b;
    } else {
      assert (a + b)[1..] == a[1..] + b;
      PickedAppend(a[1..], b, t);
    }
  }

  lemma {:induction false} ReversedPicksAsMany(records: seq<Record>, t: Option<string>)
    ensures |Picked(Reversed(records), t)| == |Picked(records, t)|
  {
    if records != [] {
      ReversedPicksAsMany(records[1..], t);
      PickedAppend(Reversed(records[1..]), [records[0]], t);
      PickedAppend([records[0]], records[1..], t);
      assert records == [records[0]] + records[1..];
    }
  }

  ghost predicate SameBus(a: BusState, b: BusState) {
    b == a.(letters := b.letters, entries := b.entries)
  }

  /** With `log` behind it, a dispatch at position `i` ends as `whole`. */
  ghost predicate LeadsTo(s: BusState, ids: seq<nat>, event: Event, behave: nat -> Behaviour, i: nat,
                          log: seq<Delivery>, whole: (BusState, seq<Delivery>)) {
    && i <= |ids| && ValidIds(ids, s.entries)
    && whole.0 == DispatchFrom(s, ids, event, behave, i).0
    && whole.1 == log + DispatchFrom(s, ids, event, behave, i).1
  }

  lemma LeadsOn(s: BusState, ids: seq<nat>, event: Event, behave: nat -> Behaviour, i: nat,
                log: seq<Delivery>, whole: (BusState, seq<Delivery>))
    requires i < |ids| && LeadsTo(s, ids, event, behave, i, log, whole)
    ensures var t := Turn(s, ids[i], event, behave(i), i);
      LeadsTo(t.0, ids, event, behave, i + 1, log + t.1, whole)
  {
    TurnThenRest(s, ids, event, behave, i);
    var t := Turn(s, ids[i], event, behave(i), i);
    var rest := DispatchFrom(t.0, ids, event, behave, i + 1);
    assert log + (t.1 + rest.1) == (log + t.1) + rest.1;
  }

  /** Publishing the events from `i` on ends in `whole`. */
  ghost predicate LeavesToPublish(
    s: BusState, events: seq<Event>, i: nat, behaves: nat -> nat -> Behaviour, whole: BusState)
  {
    i <= |events| && ValidState(s) && PublishedAll(s, events[i..], behaves, i).state == whole
  }

  lemma AllLeft(s: BusState, events: seq<Event>, behaves: nat -> nat -> Behaviour)
    requires ValidState(s)
    ensures LeavesToPublish(s, events, 0, behaves, PublishedAll(s, events, behaves, 0).state)
  {
    assert events[0..] == events;
  }

  lemma ReplayEndsAs(s: BusState, t: Option<string>, behaves: nat -> nat -> Behaviour)
    requires ValidState(s)
    ensures var purged := s.(letters := Kept(s.letters, t));
      && ValidState(purged)
      && StepOf(s, Replay(t, behaves)).state
        == PublishedAll(purged, EventsOf(Picked(Reversed(s.letters), t)), behaves, 0).state
  {
  }

  lemma PublishesNext(s: BusState, events: seq<Event>, i: nat, behaves: nat -> nat -> Behaviour, whole: BusState)
    requires i < |events| && LeavesToPublish(s, events, i, behaves, whole)
    ensures !s.closed ==> LeavesToPublish(Published(s, events[i], behaves(i)).state, events, i + 1, behaves, whole)
    ensures s.closed ==> s == whole
    ensures Published(s, events[i], behaves(i)).state.closed == s.closed
  {
    assert events[i..][1..] == events[i + 1..];
    PublishedIsValid(s, events[i], behaves(i));
    hide Published;
    if s.closed { ClosedPublishesNothing(s, events[i..], behaves, i); }
  }

  lemma AllPublished(s: BusState, events: seq<Event>, behaves: nat -> nat -> Behaviour, whole: BusState)
    requires LeavesToPublish(s, events, |events|, behaves, whole)
    ensures s == whole
  {
  }

  lemma NonePickedIff(records: seq<Record>, t: Option<string>)
    ensures Picked(Reversed(records), t) == [] <==> Picked(records, t) == []
  {
    ReversedPicksAsMany(records, t);
  }

  // ---------------------------------------------------------------- the object

  class InMemoryEventBus {
    const dlq: DeadLetterQueue
    const defaultMaxRetries: int
    var entries: seq<HandlerEntry>
    var subscribers: map<string, seq<nat>>
    var publishCount: nat
    var closed: bool

    ghost function State(): BusState
      reads this, dlq
    {
      BusState(entries, subscribers, dlq.records, dlq.cap, publishCount, closed)
    }

    ghost predicate Valid()
      reads this, dlq
    {
      dlq.Valid() && ValidState(State())
    }

    constructor (dlq: DeadLetterQueue, defaultMaxRetries: int)
      requires dlq.Valid()
      ensures Valid() && this.dlq == dlq && this.defaultMaxRetries == defaultMaxRetries
      ensures State() == BusState([], map[], dlq.records, dlq.cap, 0, false)
    {
      this.dlq := dlq;
      this.defaultMaxRetries := defaultMaxRetries;
      entries, subscribers, publishCount, closed := [], map[], 0, false;
    }

    method SubscribeHandler(eventType: string, name: string, maxRetries: Option<int>, filter: Option<set<int>>)
      returns (r: Result<nat, BusError>)
      requires Valid()
      modifies this
      ensures Valid()
      ensures r == if old(closed) then Err(Closed) else Ok(|old(entries)|)
      ensures var retries := match maxRetries case Some(m) => m case None => defaultMaxRetries;
        var entry := HandlerEntry(name, retries, filter, true);
        State() == StepOf(old(State()), Subscribe(eventType, entry)).state
    {
      if closed {
        return Err(Closed);
      }
      var retries := match maxRetries case Some(m) => m case None => defaultMaxRetries;
      var id := |entries|;
      var ids := if eventType in subscribers then subscribers[eventType] else [];
      entries := entries + [HandlerEntry(name, retries, filter, true)];
      subscribers := subscribers[eventType := ids + [id]];
      r := Ok(id);
    }

    method UnsubscribeHandler(id: nat)
      requires Valid()
      modifies this`entries
      ensures Valid()
      ensures State() == StepOf(old(State()), Unsubscribe(id)).state
    {
      entries := Deactivate(entries, {id});
    }

    /** The retry loop of one delivery. */
    method Deliver(entry: nat, event: Event, behaviour: Behaviour) returns (d: Delivered)
      requires Valid() && entry < |entries|
      modifies this`entries, dlq
      ensures Valid()
      ensures d == DeliverFrom(old(entries[entry].maxRetries), behaviour.script, 0)
      ensures State() == Settled(old(State()), entry, event, d, behaviour.unsubscribes)
    {
      var maxRetries := entries[entry].maxRetries;
      var attempts: nat := 0;
      while true
        invariant DeliverFrom(maxRetries, behaviour.script, attempts) == DeliverFrom(maxRetries, behaviour.script, 0)
        invariant attempts < MaxCalls(maxRetries)
        decreases MaxCalls(maxRetries) - attempts
      {
        attempts := attempts + 1;
        match behaviour.script(attempts) {
          case Succeeds =>
            d := Delivered(attempts, true);
            break;
          case Terminal =>
            d := Delivered(attempts, false);
            break;
          case Raises =>
            if attempts > maxRetries {
              d := Delivered(attempts, false);
              break;
            }
        }
      }
      if !d.ok {
        dlq.Put(Record(event, entries[entry].name, d.calls));
      }
      entries := Deactivate(entries, behaviour.unsubscribes);
    }

    method TakeTurn(entry: nat, event: Event, behaviour: Behaviour, i: nat) returns (made: seq<Delivery>)
      requires Valid() && entry < |entries|
      modifies this`entries, dlq
      ensures Valid() && |entries| == |old(entries)|
      ensures (State(), made) == Turn(old(State()), entry, event, behaviour, i)
      ensures SameBus(old(State()), State())
    {
      made := [];
      if entries[entry].active && Matches(entries[entry], event.priority) {
        var d := Deliver(entry, event, behaviour);
        made := [Delivery(event, i, entry, d.calls, d.ok)];
      }
    }

    /** Local dispatch: refused when closed, else every subscriber of the snapshot in turn. */
    method Dispatch(event: Event, behave: nat -> Behaviour) returns (r: Result<seq<Delivery>, BusError>)
      requires Valid()
      modifies this, dlq
      ensures Valid()
      ensures r.Err? <==> old(closed)
      ensures State() == Published(old(State()), event, behave).state
      ensures r.Ok? ==> r.value == Published(old(State()), event, behave).deliveries
    {
      if closed {
        return Err(Closed);
      }
      ghost var start := State();
      var ids := if event.eventType in subscribers then subscribers[event.eventType] else [];
      var log: seq<Delivery> := [];
      PublishedIsValid(start, event, behave);
      ghost var whole := DispatchFrom(start, ids, event, behave, 0);
      assert [] + whole.1 == whole.1;
      for i := 0 to |ids|
        invariant Valid() && |entries| == |start.entries| && SameBus(start, State())
        invariant LeadsTo(State(), ids, event, behave, i, log, whole)
      {
        ghost var before := State();
        var made := TakeTurn(ids[i], event, behave(i), i);
        LeadsOn(before, ids, event, behave, i, log, whole);
        log := log + made;
      }
      publishCount := publishCount + 1;
      r := Ok(log);
    }

    /** `publish` without a broker; a priority given here replaces the event's own. */
    method PublishEvent(event: Event, priority: Option<int>, behave: nat -> Behaviour)
      returns (r: Result<string, BusError>)
      requires Valid()
      modifies this, dlq
      ensures Valid()
      ensures var e := if priority.Some? then event.(priority := priority.value) else event;
        State() == Published(old(State()), e, behave).state
      ensures r == if old(closed) then Err(Closed) else Ok(event.id)
    {
      var e := if priority.Some? then event.(priority := priority.value) else event;
      var log := Dispatch(e, behave);
      r := if log.Ok? then Ok(event.id) else Err(Closed);
    }

    /** Takes the retained letters (of a type) off the queue and publishes their events again, newest first. */
    method ReplayDeadLetters(filter: Option<string>, behaves: nat -> nat -> Behaviour)
      returns (r: Result<nat, BusError>)
      requires Valid()
      modifies this, dlq
      ensures Valid()
      ensures State() == StepOf(old(State()), Replay(filter, behaves)).state
      ensures r.Ok? ==> r.value == |Picked(old(dlq.records), filter)|
      ensures r.Err? <==> old(closed) && Picked(old(dlq.records), filter) != []
    {
      ghost var start := State();
      var records := Picked(dlq.List(), filter);
      ReversedPicksAsMany(dlq.records, filter);
      NonePickedIff(dlq.records, filter);
      ReplayEndsAs(start, filter, behaves);
      hide PublishedAll, Picked, Reversed, Kept, Published, StepOf, LeavesToPublish, ValidState;
      ghost var events := EventsOf(records);
      var _ := dlq.Purge(filter);
      ghost var purged := State();
      assert purged == start.(letters := Kept(start.letters, filter));
      ghost var whole := PublishedAll(purged, events, behaves, 0).state;
      AllLeft(purged, events, behaves);
      for i := 0 to |records|
        invariant Valid() && closed == start.closed && (closed ==> i == 0)
        invariant LeavesToPublish(State(), events, i, behaves, whole)
      {
        PublishesNext(State(), events, i, behaves, whole);
        var id := PublishEvent(records[i].event, None, behaves(i));
        if id.Err? {
          return Err(Closed);
        }
      }
      AllPublished(State(), events, behaves, whole);
      r := Ok(|records|);
    }

    method CloseBus()
      requires Valid()
      modifies this`closed
      ensures Valid()
      ensures State() == StepOf(old(State()), Close).state
    {
      closed := true;
    }
  }

  lemma {:induction false} ClosedPublishesNothing(
    s: BusState, events: seq<Event>, behaves: nat -> nat -> Behaviour, k: nat)
    requires ValidState(s) && s.closed
    ensures PublishedAll(s, events, behaves, k).state == s
    decreases |events|
  {
    if events != [] { ClosedPublishesNothing(s, events[1..], behaves, k + 1); }
  }
}
