/** Background publishing (app/events/bus.py): events wait in a priority queue of
    (priority, sequence number, event) tuples that the workers empty. Numbers are handed out in order of
    publishing, so no two tuples tie and the events themselves are never compared. */
module BackgroundQueue {
  import DeadLetters
  import opened SelectionQueue
  import opened Sequences
  import opened StableSorting
  import opened Wrappers

  datatype Entry = Entry(priority: int, number: nat, event: DeadLetters.Event)

  datatype QueueError = Closed | NotStarted

  /** A lower priority value is more urgent. */
  function Urgency(e: Entry): real { -(e.priority as real) }

  /** Tuple order; the events themselves would only be compared if both numbers agreed. */
  predicate Before(a: Entry, b: Entry) {
    a.priority < b.priority || (a.priority == b.priority && a.number < b.number)
  }

  /** The sequence numbers of what was ever put are 0, 1, 2, ... */
  ghost predicate Numbered(ops: seq<Op<Entry>>) {
    forall k :: 0 <= k < |PutsOf(ops)| ==> PutsOf(ops)[k].number == k
  }

  ghost predicate Ascending(queue: seq<Entry>, next: nat) {
    && (forall i, j :: 0 <= i < j < |queue| ==> queue[i].number < queue[j].number)
    && (forall i :: 0 <= i < |queue| ==> queue[i].number < next)
  }

  /** Entries of one priority leave in numeric order. */
  ghost predicate InTurn(taken: seq<Entry>) {
    forall i, j :: 0 <= i < j < |taken| && taken[i].priority == taken[j].priority ==> taken[i].number < taken[j].number
  }

  ghost predicate NotOvertaken(taken: seq<Entry>, queue: seq<Entry>) {
    forall t, q :: t in taken && q in queue && t.priority == q.priority ==> t.number < q.number
  }

  ghost predicate InOrder(r: Run<Entry>, next: nat) {
    && Ascending(r.queue, next) && InTurn(r.taken) && NotOvertaken(r.taken, r.queue)
    && forall t :: t in r.taken ==> t.number < next
  }

  /** What the heap hands out: the least tuple. */
  ghost predicate IsLeast(queue: seq<Entry>, i: nat) {
    i < |queue| && forall j :: 0 <= j < |queue| && j != i ==> Before(queue[i], queue[j])
  }

  lemma LeastIsFirstMax(queue: seq<Entry>, i: nat)
    requires forall i, j :: 0 <= i < j < |queue| ==> queue[i].number < queue[j].number
    ensures IsLeast(queue, i) <==> IsFirstMax(queue, Urgency, i)
  {
    if IsFirstMax(queue, Urgency, i) {
      forall j | 0 <= j < |queue| && j != i ensures Before(queue[i], queue[j]) {
        assert j < i ==> Urgency(queue[j]) < Urgency(queue[i]);
        assert Urgency(queue[j]) <= Urgency(queue[i]);
      }
    }
    if IsLeast(queue, i) {
      forall j | 0 <= j < |queue|
        ensures j < i ==> Urgency(queue[j]) < Urgency(queue[i])
        ensures Urgency(queue[j]) <= Urgency(queue[i])
      {
        assert j != i ==> Before(queue[i], queue[j]);
      }
    }
  }

  lemma RestFollows(queue: seq<Entry>, i: nat, next: nat)
    requires Ascending(queue, next) && IsLeast(queue, i)
    ensures Ascending(RemoveAt(queue, i), next)
    ensures forall q :: q in RemoveAt(queue, i) ==> q in queue && Before(queue[i], q)
  {
    var rest := RemoveAt(queue, i);
    forall q | q in rest ensures q in queue && Before(queue[i], q) {
      var j :| 0 <= j < |rest| && rest[j] == q;
      assert q == queue[if j < i then j else j + 1];
    }
  }

  lemma MovesInOrder(taken: seq<Entry>, queue: seq<Entry>, x: Entry, rest: seq<Entry>)
    requires InTurn(taken) && NotOvertaken(taken, queue) && x in queue
    requires forall q :: q in rest ==> q in queue && Before(x, q)
    ensures InTurn(taken + [x]) && NotOvertaken(taken + [x], rest)
  {
    assert forall t :: t in taken + [x] <==> t in taken || t == x;
    JoinsInTurn(taken, x);
  }

  lemma TakeStaysInOrder(r: Run<Entry>, next: nat)
    requires InOrder(r, next) && r.queue != []
    ensures InOrder(Stepped(r, Take, Urgency), next)
  {
    var i := FirstMax(r.queue, Urgency);
    var x, rest := r.queue[i], RemoveAt(r.queue, i);
    LeastIsFirstMax(r.queue, i);
    hide IsFirstMax, Urgency, Before, IsLeast;
    RestFollows(r.queue, i, next);
    MovesInOrder(r.taken, r.queue, x, rest);
    hide InTurn, NotOvertaken;
    assert forall t :: t in r.taken + [x] <==> t in r.taken || t == x;
  }

  lemma JoinsInTurn(taken: seq<Entry>, x: Entry)
    requires InTurn(taken) && NotOvertaken(taken, [x])
    ensures InTurn(taken + [x])
  {
    assert x in [x];
    forall i, j | 0 <= i < j < |taken + [x]| && (taken + [x])[i].priority == (taken + [x])[j].priority
      ensures (taken + [x])[i].number < (taken + [x])[j].number
    {
      assert taken[i] in taken;
    }
  }

  /** In every reachable state numbers never repeat and entries of one priority are handed out in the
      order they were published. */
  lemma {:induction false} RunsInOrder(ops: seq<Op<Entry>>)
    requires Numbered(ops)
    ensures InOrder(After(ops, Urgency), |PutsOf(ops)|)
  {
    if ops != [] {
      var init, op := ops[..|ops| - 1], ops[|ops| - 1];
      assert Numbered(init) by {
        forall k | 0 <= k < |PutsOf(init)| ensures PutsOf(init)[k].number == k {
          assert PutsOf(ops)[k] == PutsOf(init)[k];
        }
      }
      RunsInOrder(init);
      var r := After(init, Urgency);
      match op
      case Put(x) =>
        assert PutsOf(ops)[|PutsOf(init)|] == x;
      case Take =>
        if r.queue != [] { TakeStaysInOrder(r, |PutsOf(init)|); }
    }
  }

  /** Whatever puts and gets came before, the next get hands out the one entry whose (priority, number)
      is least, and no two waiting entries agree in both, so events are never compared. */
  lemma EachGetIsLeast(ops: seq<Op<Entry>>)
    requires Numbered(ops) && After(ops, Urgency).queue != []
    ensures var queue := After(ops, Urgency).queue;
      && (exists i: nat ::
            IsLeast(queue, i) && After(ops + [Take], Urgency).taken == After(ops, Urgency).taken + [queue[i]])
      && (forall i, j :: 0 <= i < j < |queue| ==> Before(queue[i], queue[j]) || Before(queue[j], queue[i]))
  {
    var queue := After(ops, Urgency).queue;
    RunsInOrder(ops);
    LeastIsFirstMax(queue, FirstMax(queue, Urgency));
    assert (ops + [Take])[..|ops|] == ops;
    assert After(ops + [Take], Urgency) == Stepped(After(ops, Urgency), Take, Urgency);
  }

  lemma DrainedInTupleOrder(queue: seq<Entry>, taken: seq<Entry>)
    requires Descending(queue, Urgency) && InTurn(taken + queue)
    ensures forall i, j :: 0 <= i < j < |queue| ==> Before(queue[i], queue[j])
  {
    forall i, j | 0 <= i < j < |queue| ensures Before(queue[i], queue[j]) {
      assert queue[i] == (taken + queue)[|taken| + i] && queue[j] == (taken + queue)[|taken| + j];
      assert Urgency(queue[i]) >= Urgency(queue[j]);
    }
  }

  lemma DrainKeepsItems(ops: seq<Op<Entry>>)
    ensures var r := After(ops, Urgency);
      multiset(r.taken + SortDescending(r.queue, Urgency)) == multiset(PutsOf(ops))
  {
    var r := After(ops, Urgency);
    SortIsStable(r.queue, Urgency);
    StableSortPermutes(SortDescending(r.queue, Urgency), r.queue, Urgency);
    hide SortDescending, After;
    ItemsConserved(ops, Urgency);
    Joined(r.taken, SortDescending(r.queue, Urgency));
    Joined(r.taken, r.queue);
  }

  /** One entry, the least, was taken out of the queue. */
  ghost predicate LeastTaken(before: seq<Entry>, event: DeadLetters.Event, after: seq<Entry>) {
    exists i: nat :: IsLeast(before, i) && event == before[i].event && after == RemoveAt(before, i)
  }

  /** What the queue hands out, and what it keeps. */
  function HandedOut(queue: seq<Entry>): (DeadLetters.Event, seq<Entry>)
    requires queue != []
  {
    var i := FirstMax(queue, Urgency);
    (queue[i].event, RemoveAt(queue, i))
  }

  predicate IsMostUrgent(queue: seq<Entry>, i: int) {
    && 0 <= i < |queue|
    && (forall j :: 0 <= j < |queue| ==> queue[i].priority <= queue[j].priority)
    && (forall j :: 0 <= j < i ==> queue[i].priority < queue[j].priority)
  }

  /** No event that waits has a lower priority number than the one handed out, and of those with the same
      number it is the one queued first. */
  lemma MostUrgentIsHandedOut(queue: seq<Entry>)
    requires queue != []
    ensures exists i :: IsMostUrgent(queue, i) && HandedOut(queue) == (queue[i].event, queue[..i] + queue[i + 1..])
  {
    var i := FirstMax(queue, Urgency);
    forall j | 0 <= j < |queue| ensures queue[i].priority <= queue[j].priority {
      assert Urgency(queue[j]) <= Urgency(queue[i]);
    }
    forall j | 0 <= j < i ensures queue[i].priority < queue[j].priority {
      assert Urgency(queue[j]) < Urgency(queue[i]);
    }
    assert IsMostUrgent(queue, i);
  }

  lemma GetIsRecorded(ops: seq<Op<Entry>>)
    requires Numbered(ops) && After(ops, Urgency).queue != []
    ensures var queue := After(ops, Urgency).queue;
      && LeastTaken(queue, HandedOut(queue).0, HandedOut(queue).1)
      && After(ops + [Take], Urgency).queue == HandedOut(queue).1
    ensures PutsOf(ops + [Take]) == PutsOf(ops) && Numbered(ops + [Take])
  {
    var queue := After(ops, Urgency).queue;
    RunsInOrder(ops);
    LeastIsFirstMax(queue, FirstMax(queue, Urgency));
    assert (ops + [Take])[..|ops|] == ops;
  }

  /** Once publishing stops, the workers receive what waits as a stable sort by priority, in strict
      tuple order, and in the end every published entry exactly once. */
  lemma WorkersDrainInOrder(ops: seq<Op<Entry>>, gets: nat)
    requires Numbered(ops) && gets >= |After(ops, Urgency).queue|
    ensures var r := After(ops, Urgency);
      var sorted := SortDescending(r.queue, Urgency);
      && Taken(r, Urgency, gets) == Run([], r.taken + sorted)
      && multiset(r.taken + sorted) == multiset(PutsOf(ops))
      && (forall i, j :: 0 <= i < j < |sorted| ==> Before(sorted[i], sorted[j]))
  {
    var r := After(ops, Urgency);
    RunsInOrder(ops);
    DrainAfterPuts(r, Urgency, gets);
    TakenStaysInOrder(r, gets, |PutsOf(ops)|);
    SortIsStable(r.queue, Urgency);
    DrainKeepsItems(ops);
    hide SortDescending, After, Taken, Drained, WithKey, PutsOf;
    DrainedInTupleOrder(SortDescending(r.queue, Urgency), r.taken);
  }

  lemma {:induction false} TakenStaysInOrder(r: Run<Entry>, takes: nat, next: nat)
    requires InOrder(r, next)
    ensures InOrder(Taken(r, Urgency, takes), next)
    decreases takes
  {
    if takes > 0 {
      if r.queue != [] { TakeStaysInOrder(r, next); }
      TakenStaysInOrder(Stepped(r, Take, Urgency), takes - 1, next);
    }
  }

  /** The background part of the bus. `history` lists the puts and gets so far. */
  class BackgroundBus {
    var closed: bool
    var started: bool
    var workers: nat
    var nextSeq: nat
    var queue: seq<Entry>
    ghost var history: seq<Op<Entry>>

    ghost predicate Valid()
      reads this
    {
      && Numbered(history) && nextSeq == |PutsOf(history)|
      && queue == After(history, Urgency).queue
      && (!started ==> history == [])
      && (!started || closed ==> workers == 0)
    }

    constructor ()
      ensures Valid() && !closed && !started && workers == 0 && history == []
    {
      closed, started, workers, nextSeq, queue := false, false, 0, 0, [];
      history := [];
    }

    /** Starts the workers once; asking again starts no more. */
    method StartBackground(numWorkers: int) returns (r: Result<bool, QueueError>)
      requires Valid()
      modifies this`started, this`workers
      ensures Valid()
      ensures r == if closed then Err(Closed) else Ok(!old(started))
      ensures started == (old(started) || !closed)
      ensures workers == if closed || old(started) || numWorkers < 0 then old(workers) else numWorkers
    {
      if closed {
        return Err(Closed);
      }
      if started {
        return Ok(false);
      }
      started := true;
      workers := if numWorkers < 0 then 0 else numWorkers;
      r := Ok(true);
    }

    /** Numbers the event and queues it; a priority given here replaces the event's own. */
    method PublishAsync(event: DeadLetters.Event, priority: Option<int>) returns (r: Result<nat, QueueError>)
      requires Valid()
      modifies this`nextSeq, this`queue, this`history
      ensures Valid()
      ensures r == if started then Ok(old(nextSeq)) else Err(NotStarted)
      ensures !started ==> history == old(history)
      ensures started ==>
        var e := if priority.Some? then event.(priority := priority.value) else event;
        history == old(history) + [Put(Entry(e.priority, old(nextSeq), e))]
    {
      if !started {
        return Err(NotStarted);
      }
      var e := if priority.Some? then event.(priority := priority.value) else event;
      var entry := Entry(e.priority, nextSeq, e);
      r := Ok(nextSeq);
      queue, nextSeq := queue + [entry], nextSeq + 1;
      history := history + [Put(entry)];
      assert history[..|history| - 1] == old(history);
    }

    /** A worker's get: the least tuple, or nothing while the queue is empty or no worker is there. */
    method Get() returns (e: Option<DeadLetters.Event>)
      requires Valid()
      modifies this`queue, this`history
      ensures Valid()
      ensures e.None? <==> old(queue) == [] || workers == 0
      ensures e.None? ==> history == old(history) && queue == old(queue)
      ensures e.Some? ==> history == old(history) + [Take]
      ensures e.Some? ==> LeastTaken(old(queue), e.value, queue)
    {
      if queue == [] || workers == 0 {
        return None;
      }
      GetIsRecorded(history);
      hide HandedOut, LeastTaken, After, PutsOf, Numbered;
      var handed := HandedOut(queue);
      e := Some(handed.0);
      queue := handed.1;
      history := history + [Take];
    }

    /** The workers are cancelled; what waits stays in the queue, where nothing takes it any more. */
    method Close()
      requires Valid()
      modifies this`closed, this`workers
      ensures Valid() && closed && workers == 0
    {
      if closed {
        return;
      }
      closed := true;
      workers := 0;
    }
  }
}
