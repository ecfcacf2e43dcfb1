/** The Redis-backed task queue (app/agent/queue.py). */
module TaskQueue {
  // One list per priority level, pushed and popped at the head, a pending set, a running set, counters,
  // and the stored task data.

  import opened Sequences
  import opened Wrappers

  const LEVELS: nat := 11

  /** Task priorities are validated to lie between 0 and 10. */
  type Level = p: int | 0 <= p < LEVELS

  datatype Status = Pending | Running | Success | Failed | Retrying | Cancelled

  datatype Task = Task(
    id: string, priority: Level, status: Status, retryCount: nat, maxRetries: nat,
    workerId: Option<string>, result: Option<string>, error: Option<string>)

  datatype Store = Store(
    tasks: map<string, Task>, lists: seq<seq<string>>, pending: set<string>, running: set<string>,
    enqueued: nat, completed: nat, failed: nat, retries: map<string, Task>, delays: map<string, nat>)

  function EmptyStore(): Store {
    Store(map[], seq(LEVELS, _ => []), {}, {}, 0, 0, 0, map[], map[])
  }

  // ---------------------------------------------------------------- what each operation does

  function Enqueued(s: Store, task: Task): Store
    requires |s.lists| == LEVELS
  {
    s.(tasks := s.tasks[task.id := task],
       lists := s.lists[task.priority := [task.id] + s.lists[task.priority]],
       pending := s.pending + {task.id},
       enqueued := s.enqueued + 1)
  }

  /** The list a blocking pop over all levels takes from: the first that is not empty. */
  function FirstLevel(lists: seq<seq<string>>): (r: Option<nat>)
    ensures r.Some? ==> r.value < |lists| && lists[r.value] != [] && forall q :: 0 <= q < r.value ==> lists[q] == []
    ensures r.None? ==> forall q :: 0 <= q < |lists| ==> lists[q] == []
  {
    if lists == [] then None
    else if lists[0] != [] then Some(0)
    else match FirstLevel(lists[1..])
      case None => None
      case Some(p) => Some(p + 1)
  }

  function Popped(lists: seq<seq<string>>, p: nat): seq<seq<string>>
    requires p < |lists| && lists[p] != []
  {
    lists[p := lists[p][1..]]
  }

  function Started(t: Task, worker: string): Task { t.(status := Running, workerId := Some(worker)) }

  function Dequeued(s: Store, worker: string): (Store, Option<Task>) {
    match FirstLevel(s.lists)
    case None => (s, None)
    case Some(p) =>
      var id := s.lists[p][0];
      var popped := s.(lists := Popped(s.lists, p));
      if id !in s.tasks then (popped, None)
      else
        var t := Started(s.tasks[id], worker);
        (popped.(tasks := s.tasks[id := t], pending := s.pending - {id}, running := s.running + {id}), Some(t))
  }

  function Completed(s: Store, id: string, result: Option<string>): Store {
    if id !in s.tasks then s
    else
      s.(tasks := s.tasks[id := s.tasks[id].(status := Success, result := result)],
         running := s.running - {id}, completed := s.completed + 1)
  }

  /** The retry branch writes two other keys; the stored task and the running set stay as they are. */
  function Reported(s: Store, id: string, error: string, shouldRetry: bool): (Store, Option<Task>) {
    if id !in s.tasks then (s, None)
    else
      var t := s.tasks[id].(retryCount := s.tasks[id].retryCount + 1, error := Some(error));
      if shouldRetry && t.retryCount < t.maxRetries then
        var again := t.(status := Retrying);
        (s.(retries := s.retries[id := again], delays := s.delays[id := t.retryCount * 10]), Some(again))
      else
        var over := t.(status := Failed);
        (s.(tasks := s.tasks[id := over], running := s.running - {id}, failed := s.failed + 1), Some(over))
  }

  function CancelledIn(s: Store, id: string): (Store, bool) {
    if id !in s.tasks || s.tasks[id].status != Pending then (s, false)
    else (s.(tasks := s.tasks[id := s.tasks[id].(status := Cancelled)], pending := s.pending - {id}), true)
  }

  function Cleared(s: Store): (Store, nat) {
    if s.pending == {} then (s, 0)
    else (s.(tasks := s.tasks - s.pending, pending := {}, lists := seq(LEVELS, _ => [])), |s.pending|)
  }

  // ---------------------------------------------------------------- the object

  class RedisTaskQueue {
    var tasks: map<string, Task>
    var lists: seq<seq<string>>
    var pending: set<string>
    var running: set<string>
    var enqueued: nat
    var completed: nat
    var failed: nat
    var retries: map<string, Task>
    var delays: map<string, nat>

    ghost function Contents(): Store
      reads this
    {
      Store(tasks, lists, pending, running, enqueued, completed, failed, retries, delays)
    }

    ghost predicate Valid()
      reads this
    {
      |lists| == LEVELS
    }

    constructor ()
      ensures Valid() && Contents() == EmptyStore()
    {
      tasks, lists, pending, running := map[], seq(LEVELS, _ => []), {}, {};
      enqueued, completed, failed, retries, delays := 0, 0, 0, map[], map[];
    }

    /** A task without an id gets the `generated` one. */
    method Enqueue(task: Task, generated: string) returns (id: string)
      requires Valid()
      modifies this
      ensures Valid()
      ensures id == if task.id == "" then generated else task.id
      ensures Contents() == Enqueued(old(Contents()), task.(id := id))
    {
      id := if task.id == "" then generated else task.id;
      var t := task.(id := id);
      tasks := tasks[id := t];
      lists := lists[t.priority := [id] + lists[t.priority]];
      pending := pending + {id};
      enqueued := enqueued + 1;
    }

    method Dequeue(worker: string) returns (task: Option<Task>)
      requires Valid()
      modifies this
      ensures Valid()
      ensures (Contents(), task) == Dequeued(old(Contents()), worker)
    {
      var level := FirstLevel(lists);
      if level == None {
        return None;
      }
      var id := lists[level.value][0];
      lists := Popped(lists, level.value);
      if id !in tasks {
        return None;
      }
      var t := tasks[id].(status := Running, workerId := Some(worker));
      pending := pending - {id};
      running := running + {id};
      tasks := tasks[id := t];
      task := Some(t);
    }

    method Complete(id: string, result: Option<string>)
      requires Valid()
      modifies this
      ensures Valid()
      ensures Contents() == Completed(old(Contents()), id, result)
    {
      if id !in tasks {
        return;
      }
      tasks := tasks[id := tasks[id].(status := Success, result := result)];
      running := running - {id};
      completed := completed + 1;
    }

    method Fail(id: string, error: string, shouldRetry: bool) returns (task: Option<Task>)
      requires Valid()
      modifies this
      ensures Valid()
      ensures (Contents(), task) == Reported(old(Contents()), id, error, shouldRetry)
    {
      if id !in tasks {
        return None;
      }
      var t := tasks[id];
      t := t.(retryCount := t.retryCount + 1, error := Some(error));
      if shouldRetry && t.retryCount < t.maxRetries {
        t := t.(status := Retrying);
        retries := retries[id := t];
        delays := delays[id := t.retryCount * 10];
      } else {
        t := t.(status := Failed);
        tasks := tasks[id := t];
        running := running - {id};
        failed := failed + 1;
      }
      task := Some(t);
    }

    method Cancel(id: string) returns (done: bool)
      requires Valid()
      modifies this
      ensures Valid()
      ensures (Contents(), done) == CancelledIn(old(Contents()), id)
    {
      if id !in tasks || tasks[id].status != Pending {
        return false;
      }
      tasks := tasks[id := tasks[id].(status := Cancelled)];
      pending := pending - {id};
      done := true;
    }

    method Clear() returns (count: nat)
      requires Valid()
      modifies this
      ensures Valid()
      ensures (Contents(), count) == Cleared(old(Contents()))
    {
      count := |pending|;
      if pending != {} {
        tasks := tasks - pending;
        pending := {};
        lists := seq(LEVELS, _ => []);
      }
    }
  }

  // ---------------------------------------------------------------- where every id is

  datatype Place = InList | Working | Finished | GivenUp | Dropped

  /** The store, and where each id ever enqueued has got to. */
  datatype Book = Book(store: Store, places: map<string, Place>)

  datatype Op =
    | DoEnqueue(task: Task)
    | DoDequeue(worker: string)
    | DoComplete(id: string, result: Option<string>)
    | DoFail(id: string, error: string, shouldRetry: bool)
    | DoCancel(id: string)
    | DoClear

  ghost function Listed(lists: seq<seq<string>>): set<string> {
    set p: nat, id | p < |lists| && id in lists[p] :: id
  }

  ghost function At(places: map<string, Place>, p: Place): set<string> {
    set id | id in places && places[id] == p
  }

  ghost function AllDropped(places: map<string, Place>): map<string, Place> {
    map id | id in places :: if places[id] == InList then Dropped else places[id]
  }

  ghost function Applied(b: Book, op: Op): (after: Book)
    requires |b.store.lists| == LEVELS
    ensures |after.store.lists| == LEVELS
  {
    var s := b.store;
    match op
    case DoEnqueue(t) => Book(Enqueued(s, t), b.places[t.id := InList])
    case DoDequeue(w) =>
      var r := Dequeued(s, w);
      Book(r.0, if r.1.Some? then b.places[r.1.value.id := Working] else b.places)
    case DoComplete(id, r) =>
      Book(Completed(s, id, r), if id in s.tasks then b.places[id := Finished] else b.places)
    case DoFail(id, e, again) =>
      var r := Reported(s, id, e, again);
      Book(r.0, if r.1.Some? && r.1.value.status == Failed then b.places[id := GivenUp] else b.places)
    case DoCancel(id) => b.(store := CancelledIn(s, id).0)
    case DoClear => Book(Cleared(s).0, if s.pending == {} then b.places else AllDropped(b.places))
  }

  /** Ids are fresh, tasks come in pending, and only running (or unknown) ids are reported on. */
  ghost predicate Allowed(b: Book, op: Op) {
    match op
    case DoEnqueue(t) => t.id !in b.places && t.status == Pending
    case DoComplete(id, _) => id in b.store.running || id !in b.store.tasks
    case DoFail(id, _, _) => id in b.store.running || id !in b.store.tasks
    case _ => true
  }

  /** A listed id stands once, in the list of its task's level. */
  ghost predicate Filed(s: Store) {
    && |s.lists| == LEVELS
    && (forall p: nat, id :: p < LEVELS && id in s.lists[p] ==> id in s.tasks && s.tasks[id].priority == p)
    && (forall p: nat :: p < LEVELS ==> NoDuplicates(s.lists[p]))
  }

  /** The stored status agrees with where the id is. */
  ghost predicate Agrees(t: Task, id: string, place: Place) {
    && t.id == id
    && match place
       case InList => t.status == Pending || t.status == Cancelled
       case Working => t.status == Running
       case Finished => t.status == Success
       case GivenUp => t.status == Failed
       case Dropped => t.status == Cancelled
  }

  ghost predicate Known(b: Book) {
    forall id :: id in b.store.tasks ==> id in b.places && Agrees(b.store.tasks[id], id, b.places[id])
  }

  ghost predicate Located(b: Book) {
    && Listed(b.store.lists) == At(b.places, InList)
    && b.store.running == At(b.places, Working)
    && (forall id :: id in b.store.pending <==> id in b.store.tasks && b.store.tasks[id].status == Pending)
    && (forall id :: id in b.places && (b.places[id] == InList || b.places[id] == Working) ==> id in b.store.tasks)
  }

  ghost predicate Counted(b: Book) {
    && b.store.enqueued == |b.places|
    && b.store.completed == |At(b.places, Finished)|
    && b.store.failed == |At(b.places, GivenUp)|
  }

  ghost predicate Inv(b: Book) {
    Filed(b.store) && Known(b) && Located(b) && Counted(b)
  }

  lemma ListedPush(lists: seq<seq<string>>, p: nat, id: string)
    requires p < |lists|
    ensures Listed(lists[p := [id] + lists[p]]) == Listed(lists) + {id}
  {
    var after := lists[p := [id] + lists[p]];
    assert id in after[p];
    forall x | x in Listed(lists) ensures x in Listed(after) {
      var q: nat :| q < |lists| && x in lists[q];
      assert x in after[q];
    }
    forall x | x in Listed(after) && x != id ensures x in Listed(lists) {
      var q: nat :| q < |after| && x in after[q];
      assert x in lists[q];
    }
  }

  lemma TailMembers(ids: seq<string>)
    requires ids != [] && NoDuplicates(ids)
    ensures NoDuplicates(ids[1..])
    ensures forall x :: x in ids[1..] <==> x in ids && x != ids[0]
  {
    forall x | x in ids && x != ids[0] ensures x in ids[1..] {
      var k :| 0 <= k < |ids| && ids[k] == x;
      assert ids[1..][k - 1] == x;
    }
  }

  /** Popping takes the head out of its list and out of all lists. */
  lemma PopMembers(s: Store, p: nat, q: nat, x: string)
    requires Filed(s) && p < LEVELS && s.lists[p] != [] && q < LEVELS
    ensures x in Popped(s.lists, p)[q] <==> x in s.lists[q] && x != s.lists[p][0]
  {
    TailMembers(s.lists[p]);
    assert s.lists[p][0] in s.lists[p];
    if q != p && x in s.lists[q] {
      assert s.tasks[x].priority == q;
    }
  }

  lemma ListedPop(s: Store, p: nat)
    requires Filed(s) && p < LEVELS && s.lists[p] != []
    ensures Listed(Popped(s.lists, p)) == Listed(s.lists) - {s.lists[p][0]}
    ensures s.lists[p][0] in Listed(s.lists)
  {
    var after, head := Popped(s.lists, p), s.lists[p][0];
    assert head in s.lists[p];
    forall x | x in Listed(s.lists) - {head} ensures x in Listed(after) {
      var q: nat :| q < |s.lists| && x in s.lists[q];
      PopMembers(s, p, q, x);
      assert x in after[q];
    }
    forall x | x in Listed(after) ensures x in Listed(s.lists) - {head} {
      var q: nat :| q < |after| && x in after[q];
      PopMembers(s, p, q, x);
      assert x in s.lists[q];
    }
  }

  lemma NothingListed(lists: seq<seq<string>>)
    requires forall q :: 0 <= q < |lists| ==> lists[q] == []
    ensures Listed(lists) == {}
  {
  }

  lemma Grown(places: map<string, Place>, id: string, to: Place)
    ensures |places[id := to]| == |places| + if id in places then 0 else 1
  {
    assert places[id := to].Keys == places.Keys + {id};
    assert |places[id := to].Keys| == |places[id := to]|;
    assert |places.Keys| == |places|;
  }

  lemma Entered(places: map<string, Place>, id: string, to: Place)
    ensures At(places[id := to], to) == At(places, to) + {id}
  {
  }

  lemma Left(places: map<string, Place>, id: string, to: Place, p: Place)
    requires p != to
    ensures At(places[id := to], p) == At(places, p) - {id}
  {
  }

  /** `after` is `b` with the id moved to another place and its data replaced. */
  ghost predicate IsMove(b: Book, id: string, t: Task, to: Place, after: Book) {
    && after.places == b.places[id := to]
    && after.store.tasks == b.store.tasks[id := t]
    && Agrees(t, id, to)
    && (id in b.places ==> b.places[id] != to && (b.places[id] == InList || b.places[id] == Working))
  }

  lemma MoveKnown(b: Book, id: string, t: Task, to: Place, after: Book)
    requires Known(b) && IsMove(b, id, t, to, after)
    ensures Known(after)
  {
  }

  function Updated(ids: set<string>, id: string, member: bool): set<string> {
    if member then ids + {id} else ids - {id}
  }

  lemma MovePlaces(places: map<string, Place>, id: string, to: Place, p: Place)
    ensures At(places[id := to], p) == Updated(At(places, p), id, p == to)
  {
    if p == to { Entered(places, id, to); } else { Left(places, id, to, p); }
  }

  lemma MoveLocated(b: Book, id: string, t: Task, to: Place, after: Book)
    requires Located(b) && IsMove(b, id, t, to, after)
    requires Listed(after.store.lists) == Updated(Listed(b.store.lists), id, to == InList)
    requires after.store.running == Updated(b.store.running, id, to == Working)
    requires after.store.pending == Updated(b.store.pending, id, t.status == Pending)
    ensures Located(after)
  {
    hide Listed, At;
    MovePlaces(b.places, id, to, InList);
    MovePlaces(b.places, id, to, Working);
  }

  lemma MoveCounted(b: Book, id: string, t: Task, to: Place, after: Book)
    requires Counted(b) && IsMove(b, id, t, to, after)
    requires after.store.enqueued == b.store.enqueued + if id in b.places then 0 else 1
    requires after.store.completed == b.store.completed + if to == Finished then 1 else 0
    requires after.store.failed == b.store.failed + if to == GivenUp then 1 else 0
    ensures Counted(after)
  {
    assert id !in At(b.places, Finished) && id !in At(b.places, GivenUp);
    Grown(b.places, id, to);
    MovePlaces(b.places, id, to, Finished);
    MovePlaces(b.places, id, to, GivenUp);
    hide At;
  }

  lemma EnqueueKeeps(b: Book, t: Task)
    requires Inv(b) && Allowed(b, DoEnqueue(t))
    ensures Inv(Applied(b, DoEnqueue(t)))
  {
    var after := Applied(b, DoEnqueue(t));
    ListedPush(b.store.lists, t.priority, t.id);
    PushStaysFiled(b, t);
    hide Filed, Listed, At, NoDuplicates, Known, Located, Counted;
    MoveKnown(b, t.id, t, InList, after);
    MoveLocated(b, t.id, t, InList, after);
    MoveCounted(b, t.id, t, InList, after);
  }

  lemma ListedSomewhere(lists: seq<seq<string>>, p: nat, id: string)
    requires p < |lists| && id in lists[p]
    ensures id in Listed(lists)
  {
  }

  lemma PushStaysFiled(b: Book, t: Task)
    requires Filed(b.store) && Located(b) && t.id !in b.places
    ensures Filed(Enqueued(b.store, t))
  {
    var s, after := b.store, Enqueued(b.store, t);
    assert t.id !in Listed(s.lists);
    forall p: nat, id | p < LEVELS && id in after.lists[p] ensures id in after.tasks && after.tasks[id].priority == p {
      if id in s.lists[p] { assert id in Listed(s.lists); }
    }
    forall p: nat | p < LEVELS ensures NoDuplicates(after.lists[p]) {
      if p == t.priority {
        if t.id in s.lists[p] { ListedSomewhere(s.lists, p, t.id); }
        assert after.lists[p] == [t.id] + s.lists[p];
        AppendDistinct([t.id], s.lists[p]);
      } else {
        assert after.lists[p] == s.lists[p];
      }
    }
  }

  lemma PoppedStaysFiled(s: Store, p: nat, after: Store)
    requires Filed(s) && p < LEVELS && s.lists[p] != [] && after.lists == Popped(s.lists, p)
    requires forall x :: x in s.tasks ==> x in after.tasks && after.tasks[x].priority == s.tasks[x].priority
    ensures Filed(after)
  {
    TailMembers(s.lists[p]);
    forall q: nat, x | q < LEVELS && x in after.lists[q] ensures x in after.tasks && after.tasks[x].priority == q {
      PopMembers(s, p, q, x);
      assert x in s.lists[q];
      assert x in s.tasks && s.tasks[x].priority == q;
    }
  }

  lemma PopStaysFiled(s: Store, p: nat, worker: string)
    requires Filed(s) && FirstLevel(s.lists) == Some(p)
    ensures Filed(Dequeued(s, worker).0)
  {
    assert s.lists[p][0] in s.lists[p];
    PoppedStaysFiled(s, p, Dequeued(s, worker).0);
  }

  lemma HeadIsKnown(b: Book, p: nat)
    requires Filed(b.store) && Known(b) && Located(b) && p < LEVELS && b.store.lists[p] != []
    ensures var id := b.store.lists[p][0];
      id in b.store.tasks && id in b.places && b.places[id] == InList && b.store.tasks[id].id == id
  {
    ListedPop(b.store, p);
    assert b.store.lists[p][0] in At(b.places, InList);
  }

  lemma DequeueKeeps(b: Book, w: string)
    requires Inv(b)
    ensures Inv(Applied(b, DoDequeue(w)))
  {
    match FirstLevel(b.store.lists)
    case None =>
    case Some(p) =>
      var id := b.store.lists[p][0];
      var after := Applied(b, DoDequeue(w));
      ListedPop(b.store, p);
      PopStaysFiled(b.store, p, w);
      HeadIsKnown(b, p);
      var t := Started(b.store.tasks[id], w);
      hide Filed, Listed, At, NoDuplicates, Known, Located, Counted;
      MoveKnown(b, id, t, Working, after);
      MoveLocated(b, id, t, Working, after);
      MoveCounted(b, id, t, Working, after);
  }

  lemma ReportedIsWorking(b: Book, id: string)
    requires Known(b) && Located(b) && id in b.store.running
    ensures id in b.places && b.places[id] == Working
    ensures id in b.store.tasks && b.store.tasks[id].status == Running && b.store.tasks[id].id == id
    ensures id !in Listed(b.store.lists) && id !in b.store.pending
  {
    assert id in At(b.places, Working);
  }

  /** A report that ends a running task moves its id for good. */
  lemma EndKeeps(b: Book, id: string, t: Task, to: Place, after: Book)
    requires Inv(b) && id in b.store.running && t.priority == b.store.tasks[id].priority
    requires to == Finished || to == GivenUp
    requires Agrees(t, id, to)
    requires after.places == b.places[id := to]
    requires after.store == b.store.(
        tasks := b.store.tasks[id := t], running := b.store.running - {id},
        completed := b.store.completed + if to == Finished then 1 else 0,
        failed := b.store.failed + if to == GivenUp then 1 else 0)
    ensures Inv(after)
  {
    ReportedIsWorking(b, id);
    assert Filed(after.store) by { hide NoDuplicates; }
    hide Filed, Listed, At, NoDuplicates, Known, Located, Counted;
    MoveKnown(b, id, t, to, after);
    MoveLocated(b, id, t, to, after);
    MoveCounted(b, id, t, to, after);
  }

  lemma CompleteKeeps(b: Book, id: string, result: Option<string>)
    requires Inv(b) && Allowed(b, DoComplete(id, result))
    ensures Inv(Applied(b, DoComplete(id, result)))
  {
    var after := Applied(b, DoComplete(id, result));
    if id in b.store.tasks {
      ReportedIsWorking(b, id);
      EndKeeps(b, id, after.store.tasks[id], Finished, after);
    }
  }

  lemma FailKeeps(b: Book, id: string, error: string, again: bool)
    requires Inv(b) && Allowed(b, DoFail(id, error, again))
    ensures Inv(Applied(b, DoFail(id, error, again)))
  {
    var after := Applied(b, DoFail(id, error, again));
    if id in b.store.tasks {
      ReportedIsWorking(b, id);
      hide Inv, Agrees;
      if again && b.store.tasks[id].retryCount + 1 < b.store.tasks[id].maxRetries {
        RetryKeysKeep(b, after);
      } else {
        AgreesGivenUp(b.store.tasks[id], id, error);
        EndKeeps(b, id, after.store.tasks[id], GivenUp, after);
      }
    }
  }

  lemma AgreesGivenUp(t: Task, id: string, error: string)
    requires t.id == id
    ensures Agrees(t.(retryCount := t.retryCount + 1, error := Some(error)).(status := Failed), id, GivenUp)
  {
  }

  lemma RetryKeysKeep(b: Book, after: Book)
    requires Inv(b) && after.places == b.places
    requires after.store == b.store.(retries := after.store.retries, delays := after.store.delays)
    ensures Inv(after)
  {
    hide Listed, At, NoDuplicates, Agrees;
  }

  lemma CancelKeeps(b: Book, id: string)
    requires Inv(b)
    ensures Inv(Applied(b, DoCancel(id)))
  {
    hide Listed, At, NoDuplicates;
  }

  lemma DroppedAt(places: map<string, Place>)
    ensures At(AllDropped(places), InList) == {}
    ensures forall p :: p != InList && p != Dropped ==> At(AllDropped(places), p) == At(places, p)
    ensures |AllDropped(places)| == |places|
  {
    assert AllDropped(places).Keys == places.Keys;
    assert |AllDropped(places).Keys| == |AllDropped(places)| && |places.Keys| == |places|;
  }

  lemma ClearKeeps(b: Book)
    requires Inv(b)
    ensures Inv(Applied(b, DoClear))
  {
    NothingListed(seq(LEVELS, _ => []));
    DroppedAt(b.places);
    hide Listed, At;
  }

  /** What every step keeps: each id ever enqueued is in exactly one of the lists, the running set, the
      completed, the failed, and the dropped ids; the counters count them; pending ids are listed. */
  lemma StepKeepsInv(b: Book, op: Op)
    requires Inv(b) && Allowed(b, op)
    ensures Inv(Applied(b, op))
  {
    match op
    case DoEnqueue(t) => EnqueueKeeps(b, t);
    case DoDequeue(w) => DequeueKeeps(b, w);
    case DoComplete(id, r) => CompleteKeeps(b, id, r);
    case DoFail(id, e, again) => FailKeeps(b, id, e, again);
    case DoCancel(id) => CancelKeeps(b, id);
    case DoClear => ClearKeeps(b);
  }

  // ---------------------------------------------------------------- whole runs

  ghost function RunOf(b: Book, ops: seq<Op>): (after: Book)
    requires |b.store.lists| == LEVELS
    ensures |after.store.lists| == LEVELS
    decreases |ops|
  {
    if ops == [] then b else RunOf(Applied(b, ops[0]), ops[1..])
  }

  ghost predicate AllAllowed(b: Book, ops: seq<Op>)
    requires |b.store.lists| == LEVELS
    decreases |ops|
  {
    ops != [] ==> Allowed(b, ops[0]) && AllAllowed(Applied(b, ops[0]), ops[1..])
  }

  lemma {:induction false} RunKeepsInv(b: Book, ops: seq<Op>)
    requires Inv(b) && AllAllowed(b, ops)
    ensures Inv(RunOf(b, ops))
    decreases |ops|
  {
    if ops != [] {
      StepKeepsInv(b, ops[0]);
      RunKeepsInv(Applied(b, ops[0]), ops[1..]);
    }
  }

  lemma EmptyIsInv()
    ensures Inv(Book(EmptyStore(), map[]))
  {
    NothingListed(EmptyStore().lists);
  }

  lemma {:induction false} FlattenMembers(lists: seq<seq<string>>)
    ensures Members(Flatten(lists)) == Listed(lists)
  {
    if lists != [] {
      FlattenMembers(lists[1..]);
      forall x ensures x in Flatten(lists) <==> x in Listed(lists) {
        if x in Listed(lists) {
          var q: nat :| q < |lists| && x in lists[q];
          if q > 0 { assert x in lists[1..][q - 1]; }
          assert x in lists[0] || x in Members(Flatten(lists[1..]));
        }
        if x in Flatten(lists) && x !in lists[0] {
          assert x in Members(Flatten(lists[1..]));
          var q: nat :| q < |lists[1..]| && x in lists[1..][q];
          assert x in lists[q + 1];
        }
      }
    }
  }

  lemma {:induction false} FlattenIsDistinct(lists: seq<seq<string>>)
    requires forall p :: 0 <= p < |lists| ==> NoDuplicates(lists[p])
    requires forall p, q, x :: 0 <= p < |lists| && 0 <= q < |lists| && x in lists[p] && x in lists[q] ==> p == q
    ensures NoDuplicates(Flatten(lists))
  {
    if lists != [] {
      var rest := Flatten(lists[1..]);
      FlattenIsDistinct(lists[1..]);
      FlattenMembers(lists[1..]);
      forall x | x in rest ensures x !in lists[0] {
        assert x in Members(rest);
        var q: nat :| q < |lists[1..]| && x in lists[1..][q];
        assert x in lists[q + 1];
      }
      AppendDistinct(lists[0], rest);
    }
  }

  lemma AppendDistinct(a: seq<string>, b: seq<string>)
    requires NoDuplicates(a) && NoDuplicates(b) && forall x :: x in b ==> x !in a
    ensures NoDuplicates(a + b)
  {
    forall i, j | 0 <= i < j < |a + b| ensures (a + b)[i] != (a + b)[j] {
      if i < |a| <= j { assert (a + b)[j] == b[j - |a|] && b[j - |a|] in b; }
    }
  }

  /** The ids standing in the lists, in the order in which they would be popped. */
  ghost function Waiting(s: Store): seq<string> { Flatten(s.lists) }

  lemma WaitingCount(s: Store)
    requires Filed(s)
    ensures |Listed(s.lists)| == |Waiting(s)| && NoDuplicates(Waiting(s)) && Members(Waiting(s)) == Listed(s.lists)
  {
    forall p, q, x | 0 <= p < LEVELS && 0 <= q < LEVELS && x in s.lists[p] && x in s.lists[q] ensures p == q {
      assert s.tasks[x].priority == p;
    }
    FlattenIsDistinct(s.lists);
    FlattenMembers(s.lists);
    CountMembers(Waiting(s));
  }

  lemma PlacesCover(places: map<string, Place>)
    ensures var a, b, c, d, e :=
        At(places, InList), At(places, Working), At(places, Finished), At(places, GivenUp), At(places, Dropped);
      places.Keys == a + b + c + d + e && a !! b !! c !! d !! e
  {
  }

  lemma PlacesAddUp(places: map<string, Place>)
    ensures |places| == |At(places, InList)| + |At(places, Working)| + |At(places, Finished)|
                        + |At(places, GivenUp)| + |At(places, Dropped)|
  {
    PlacesCover(places);
    hide At;
    FiveParts(At(places, InList), At(places, Working), At(places, Finished), At(places, GivenUp), At(places, Dropped));
    assert |places.Keys| == |places|;
  }

  lemma FiveParts<T>(a: set<T>, b: set<T>, c: set<T>, d: set<T>, e: set<T>)
    requires a !! b !! c !! d !! e
    ensures |a + b + c + d + e| == |a| + |b| + |c| + |d| + |e|
  {
    assert |a + b| == |a| + |b|;
    assert |a + b + c| == |a + b| + |c|;
    assert |a + b + c + d| == |a + b + c| + |d|;
  }

  ghost predicate AddsUp(s: Store, dropped: nat) {
    s.enqueued == |Waiting(s)| + |s.running| + s.completed + s.failed + dropped
  }

  /** Conservation in every reachable state: what was enqueued waits in one list slot, runs, was
      completed, failed for good, or was dropped by a clear; depth counts only ids that still wait. */
  lemma TasksConserved(ops: seq<Op>)
    requires AllAllowed(Book(EmptyStore(), map[]), ops)
    ensures var b := RunOf(Book(EmptyStore(), map[]), ops);
      && Inv(b)
      && AddsUp(b.store, |At(b.places, Dropped)|)
      && NoDuplicates(Waiting(b.store))
      && b.store.pending <= Members(Waiting(b.store))
      && b.store.running !! Members(Waiting(b.store))
  {
    var b := RunOf(Book(EmptyStore(), map[]), ops);
    EmptyIsInv();
    RunKeepsInv(Book(EmptyStore(), map[]), ops);
    WaitingCount(b.store);
    PlacesAddUp(b.places);
    forall id | id in b.store.pending ensures id in At(b.places, InList) {
      assert Agrees(b.store.tasks[id], id, b.places[id]);
    }
    hide Listed, Flatten;
  }

  /** Completing an id keeps the account exactly when the id is running or unknown: a second report, or
      one on a task that still waits, makes the counters claim more than was ever enqueued. */
  lemma CompletionAddsUpIff(b: Book, id: string, result: Option<string>)
    requires Inv(b)
    ensures AddsUp(Completed(b.store, id, result), |At(b.places, Dropped)|)
        <==> id in b.store.running || id !in b.store.tasks
  {
    WaitingCount(b.store);
    PlacesAddUp(b.places);
    assert b.store.running - {id} == b.store.running || id in b.store.running;
    hide Listed, Flatten, At;
  }

  /** Reporting a failure keeps it exactly when the id is running or unknown, or the report is not the
      last one the task's own limit allows. */
  lemma FailureAddsUpIff(b: Book, id: string, error: string, shouldRetry: bool)
    requires Inv(b)
    ensures AddsUp(Reported(b.store, id, error, shouldRetry).0, |At(b.places, Dropped)|)
        <==> (id in b.store.running || id !in b.store.tasks
          || (shouldRetry && b.store.tasks[id].retryCount + 1 < b.store.tasks[id].maxRetries))
  {
    WaitingCount(b.store);
    PlacesAddUp(b.places);
    assert b.store.running - {id} == b.store.running || id in b.store.running;
    hide Listed, Flatten, At;
  }

  const SAMPLE: Task := Task("t", 0, Pending, 0, 3, None, None, None)

  const SAMPLE_RUN: seq<Op> := [DoEnqueue(SAMPLE), DoDequeue("w"), DoComplete("t", None)]

  /** A task enqueued, dequeued and completed. */
  lemma SampleRuns()
    ensures AllAllowed(Book(EmptyStore(), map[]), SAMPLE_RUN)
    ensures var s := RunOf(Book(EmptyStore(), map[]), SAMPLE_RUN).store;
      && "t" !in s.running && "t" in s.tasks
      && s.tasks["t"].retryCount == 0 && s.tasks["t"].maxRetries == 3
  {
    var b0, ops := Book(EmptyStore(), map[]), SAMPLE_RUN;
    var b1 := Applied(b0, ops[0]);
    assert b1.store.lists[0] == ["t"] + [] == ["t"];
    FirstIsZero(b1.store.lists);
    var b2 := Applied(b1, ops[1]);
    assert b2.store.tasks["t"] == Started(SAMPLE, "w") && b2.store.running == {"t"};
    var b3 := Applied(b2, ops[2]);
    assert "t" in b3.store.tasks && "t" !in b3.store.running;
    assert ops[1..] == [ops[1], ops[2]] && ops[1..][1..] == [ops[2]] && ops[1..][1..][1..] == [];
    hide Applied, Inv;
    assert AllAllowed(b2, ops[1..][1..]) && AllAllowed(b1, ops[1..]) && AllAllowed(b0, ops);
    assert RunOf(b2, ops[1..][1..]) == b3 && RunOf(b1, ops[1..]) == b3 && RunOf(b0, ops) == b3;
  }

  /** An example: a task enqueued, dequeued and completed once is accounted for; its completion reported
      a second time is not. */
  lemma SecondCompletionMiscounts()
    ensures var b := RunOf(Book(EmptyStore(), map[]), SAMPLE_RUN);
      && AddsUp(b.store, |At(b.places, Dropped)|)
      && !AddsUp(Completed(b.store, "t", None), |At(b.places, Dropped)|)
  {
    SampleRuns();
    TasksConserved(SAMPLE_RUN);
    CompletionAddsUpIff(RunOf(Book(EmptyStore(), map[]), SAMPLE_RUN), "t", None);
  }

  /** Nor is a failure without retry reported after the completion; one that is to be retried changes
      nothing that counts. */
  lemma LateFailureMiscounts()
    ensures var b := RunOf(Book(EmptyStore(), map[]), SAMPLE_RUN);
      && AddsUp(b.store, |At(b.places, Dropped)|)
      && !AddsUp(Reported(b.store, "t", "e", false).0, |At(b.places, Dropped)|)
      && AddsUp(Reported(b.store, "t", "e", true).0, |At(b.places, Dropped)|)
  {
    SampleRuns();
    TasksConserved(SAMPLE_RUN);
    FailureAddsUpIff(RunOf(Book(EmptyStore(), map[]), SAMPLE_RUN), "t", "e", false);
    FailureAddsUpIff(RunOf(Book(EmptyStore(), map[]), SAMPLE_RUN), "t", "e", true);
  }

  lemma FirstIsZero(lists: seq<seq<string>>)
    requires lists != [] && lists[0] != []
    ensures FirstLevel(lists) == Some(0)
  {
  }

  /** A dequeued id never stands in a list again. */
  lemma {:induction false} NeverListedAgain(b: Book, ops: seq<Op>, id: string)
    requires Inv(b) && AllAllowed(b, ops) && id in b.places && b.places[id] != InList
    ensures var after := RunOf(b, ops); id in after.places && id !in Listed(after.store.lists)
    decreases |ops|
  {
    if ops == [] {
      assert id !in At(b.places, InList);
    } else {
      var next := Applied(b, ops[0]);
      StepKeepsInv(b, ops[0]);
      LeavesListForGood(b, ops[0], id);
      NeverListedAgain(next, ops[1..], id);
    }
  }

  lemma LeavesListForGood(b: Book, op: Op, id: string)
    requires Inv(b) && Allowed(b, op) && id in b.places && b.places[id] != InList
    ensures var next := Applied(b, op); id in next.places && next.places[id] != InList
  {
    hide Inv;
  }

  // ---------------------------------------------------------------- retries

  /** A failure report is final exactly when no retry is wanted or the stored count leaves none. */
  lemma FinalIff(s: Store, id: string, error: string, shouldRetry: bool)
    requires id in s.tasks
    ensures var (after, task) := Reported(s, id, error, shouldRetry);
      && (after.failed == s.failed + 1 <==> !shouldRetry || s.tasks[id].retryCount + 1 >= s.tasks[id].maxRetries)
      && (after.failed != s.failed + 1 ==> after == s.(retries := after.retries, delays := after.delays))
      && task.Some? && task.value.retryCount == s.tasks[id].retryCount + 1
  {
  }

  function FailedRepeatedly(s: Store, id: string, error: string, n: nat): Store {
    if n == 0 then s else Reported(FailedRepeatedly(s, id, error, n - 1), id, error, true).0
  }

  /** The count a retry computes is not stored with the task, so it never grows: a task that may be
      retried once is retried however often it fails, always as attempt one more than it came with,
      after the same delay, and never leaves the running set. */
  lemma {:induction false} RetriesNeverRunOut(s: Store, id: string, error: string, n: nat)
    requires id in s.tasks && s.tasks[id].retryCount + 1 < s.tasks[id].maxRetries
    ensures var after := FailedRepeatedly(s, id, error, n);
      && after == s.(retries := after.retries, delays := after.delays)
      && (n > 0 ==>
           && id in after.retries
           && after.retries[id] == s.tasks[id].(retryCount := s.tasks[id].retryCount + 1, error := Some(error),
                                                status := Retrying)
           && id in after.delays && after.delays[id] == (s.tasks[id].retryCount + 1) * 10)
  {
    if n > 0 { RetriesNeverRunOut(s, id, error, n - 1); }
  }

  /** However often failures are reported with a retry wanted, none is final exactly when the stored
      count leaves room for one retry; else the first already is. */
  lemma RetriesForeverIff(s: Store, id: string, error: string)
    requires id in s.tasks
    ensures (forall n: nat :: FailedRepeatedly(s, id, error, n).failed == s.failed)
        <==> s.tasks[id].retryCount + 1 < s.tasks[id].maxRetries
  {
    if s.tasks[id].retryCount + 1 < s.tasks[id].maxRetries {
      forall n: nat ensures FailedRepeatedly(s, id, error, n).failed == s.failed {
        RetriesNeverRunOut(s, id, error, n);
      }
    } else {
      FinalIff(s, id, error, true);
      assert FailedRepeatedly(s, id, error, 0) == s;
      assert FailedRepeatedly(s, id, error, 1).failed == s.failed + 1;
    }
  }

  /** An example: of a task with three retries a hundred failures are reported, and none is final; of one
      with a single retry already the first is. */
  lemma HundredFailuresRetry()
    ensures var s := Enqueued(EmptyStore(), SAMPLE); FailedRepeatedly(s, "t", "e", 100).failed == 0
    ensures var s := Enqueued(EmptyStore(), SAMPLE.(maxRetries := 1)); FailedRepeatedly(s, "t", "e", 1).failed == 1
  {
    RetriesNeverRunOut(Enqueued(EmptyStore(), SAMPLE), "t", "e", 100);
    var s := Enqueued(EmptyStore(), SAMPLE.(maxRetries := 1));
    assert FailedRepeatedly(s, "t", "e", 0) == s;
    hide FailedRepeatedly;
    OneFailure(s);
  }

  lemma OneFailure(s: Store)
    requires "t" in s.tasks && s.tasks["t"].retryCount == 0 && s.tasks["t"].maxRetries == 1
    ensures FailedRepeatedly(s, "t", "e", 1).failed == s.failed + 1
  {
    assert FailedRepeatedly(s, "t", "e", 0) == s;
  }

  /** Final failure, and deletion of the data, happen once. */
  ghost predicate IsOver(b: Book, id: string) {
    id in b.places && (id in b.store.tasks ==> b.store.tasks[id].status == Failed)
  }

  lemma OverInOneStep(b: Book, op: Op, id: string)
    requires Inv(b) && Allowed(b, op) && IsOver(b, id)
    ensures IsOver(Applied(b, op), id)
  {
    hide Counted;
    assert id !in b.store.running && id !in Listed(b.store.lists) by {
      assert id !in At(b.places, Working) && id !in At(b.places, InList);
    }
    match op
    case DoDequeue(w) =>
      match FirstLevel(b.store.lists) {
        case None =>
        case Some(p) => HeadIsKnown(b, p); ListedPop(b.store, p);
      }
    case DoEnqueue(_) =>
    case DoComplete(_, _) =>
    case DoFail(_, _, _) =>
    case DoCancel(_) =>
    case DoClear =>
  }

  lemma {:induction false} StaysOver(b: Book, ops: seq<Op>, id: string)
    requires Inv(b) && AllAllowed(b, ops) && IsOver(b, id)
    ensures IsOver(RunOf(b, ops), id)
    decreases |ops|
  {
    if ops != [] {
      StepKeepsInv(b, ops[0]);
      OverInOneStep(b, ops[0], id);
      StaysOver(Applied(b, ops[0]), ops[1..], id);
    }
  }

  ghost predicate SameAllowance(a: Task, b: Task) { a.retryCount == b.retryCount && a.maxRetries == b.maxRetries }

  lemma FrozenInOneStep(b: Book, op: Op, id: string)
    requires Inv(b) && Allowed(b, op) && id in b.store.tasks
    ensures var next := Applied(b, op);
      IsOver(next, id) || (id in next.store.tasks && SameAllowance(next.store.tasks[id], b.store.tasks[id]))
  {
    hide Counted, Filed, Listed, At;
    assert id in b.places;
  }

  /** No run changes the stored count or limit of a task that has not failed for good: whether it can
      ever run out of retries was settled when it was enqueued. */
  lemma {:induction false} StoredCountFrozen(b: Book, ops: seq<Op>, id: string)
    requires Inv(b) && AllAllowed(b, ops) && id in b.store.tasks
    ensures var after := RunOf(b, ops);
      IsOver(after, id) || (id in after.store.tasks && SameAllowance(after.store.tasks[id], b.store.tasks[id]))
    decreases |ops|
  {
    if ops != [] {
      var next := Applied(b, ops[0]);
      StepKeepsInv(b, ops[0]);
      FrozenInOneStep(b, ops[0], id);
      hide Inv, Applied, Allowed;
      if IsOver(next, id) {
        StaysOver(next, ops[1..], id);
      } else {
        StoredCountFrozen(next, ops[1..], id);
      }
    }
  }

  // ---------------------------------------------------------------- what the stored data tells

  datatype Ending = Going | Succeeded(result: Option<string>) | GaveUp(error: string)

  /** What the callers of the queue know of a task: what was enqueued, whether it was called off, which worker
      was given it, and how it was reported to end. */
  datatype Story = Story(asked: Task, calledOff: bool, worker: Option<string>, ending: Ending)

  /** The stories after an operation, told by its arguments and by what it returned. */
  ghost function Told(stories: map<string, Story>, b: Book, op: Op): map<string, Story>
    requires |b.store.lists| == LEVELS
  {
    match op
    case DoEnqueue(t) => stories[t.id := Story(t, false, None, Going)]
    case DoDequeue(w) =>
      (match Dequeued(b.store, w).1
       case None => stories
       case Some(t) => if t.id in stories then stories[t.id := stories[t.id].(worker := Some(w))] else stories)
    case DoComplete(id, r) =>
      if id in b.store.tasks && id in stories then stories[id := stories[id].(ending := Succeeded(r))] else stories
    case DoFail(id, e, again) =>
      (match Reported(b.store, id, e, again).1
       case None => stories
       case Some(t) =>
         if t.status == Failed && id in stories then stories[id := stories[id].(ending := GaveUp(e))] else stories)
    case DoCancel(id) =>
      if CancelledIn(b.store, id).1 && id in stories then stories[id := stories[id].(calledOff := true)] else stories
    case DoClear => stories
  }

  ghost function StoriesOf(stories: map<string, Story>, b: Book, ops: seq<Op>): map<string, Story>
    requires |b.store.lists| == LEVELS
    decreases |ops|
  {
    if ops == [] then stories else StoriesOf(Told(stories, b, ops[0]), Applied(b, ops[0]), ops[1..])
  }

  /** Called off or not, a task runs once a worker was given it. */
  ghost function StatusIn(story: Story): Status {
    match story.ending
    case Succeeded(_) => Success
    case GaveUp(_) => Failed
    case Going => if story.worker.Some? then Running else if story.calledOff then Cancelled else Pending
  }

  /** The stored data agree with the story: the task asked for, the worker who was given it last, the result
      of its completion, and the error and one more attempt for its final failure. */
  ghost predicate Tells(t: Task, story: Story) {
    && t.id == story.asked.id && t.priority == story.asked.priority && t.maxRetries == story.asked.maxRetries
    && t.workerId == (if story.worker.Some? then story.worker else story.asked.workerId)
    && t.result == (if story.ending.Succeeded? then story.ending.result else story.asked.result)
    && t.error == (if story.ending.GaveUp? then Some(story.ending.error) else story.asked.error)
    && t.retryCount == story.asked.retryCount + (if story.ending.GaveUp? then 1 else 0)
    && t.status == StatusIn(story)
  }

  ghost predicate AllTell(s: Store, stories: map<string, Story>) {
    forall id :: id in s.tasks ==> id in stories && Tells(s.tasks[id], stories[id])
  }

  lemma DequeueTells(b: Book, worker: string, stories: map<string, Story>)
    requires |b.store.lists| == LEVELS && AllTell(b.store, stories)
    requires var r := Dequeued(b.store, worker);
      r.1.Some? ==>
        var id := r.1.value.id;
        && id in b.store.tasks && r.1.value == Started(b.store.tasks[id], worker)
        && (b.store.tasks[id].status == Pending || b.store.tasks[id].status == Cancelled)
        && r.0.tasks == b.store.tasks[id := r.1.value]
    requires Dequeued(b.store, worker).1.None? ==> Dequeued(b.store, worker).0.tasks == b.store.tasks
    ensures AllTell(Applied(b, DoDequeue(worker)).store, Told(stories, b, DoDequeue(worker)))
  {
    hide Dequeued;
  }

  lemma DequeuedFacts(b: Book, worker: string)
    requires Inv(b)
    ensures var r := Dequeued(b.store, worker);
      match r.1
      case None => r.0.tasks == b.store.tasks
      case Some(t) =>
        && t.id in b.store.tasks && t == Started(b.store.tasks[t.id], worker)
        && (b.store.tasks[t.id].status == Pending || b.store.tasks[t.id].status == Cancelled)
        && r.0.tasks == b.store.tasks[t.id := t]
  {
    match FirstLevel(b.store.lists)
    case None =>
    case Some(p) =>
      var id := b.store.lists[p][0];
      assert id in b.store.lists[p];
      assert id in Listed(b.store.lists);
      NotOver(b, id);
      hide Inv, Listed;
  }

  lemma CompleteTells(b: Book, id: string, r: Option<string>, stories: map<string, Story>)
    requires |b.store.lists| == LEVELS && AllTell(b.store, stories)
    requires id in b.store.tasks ==> b.store.tasks[id].status == Running
    ensures AllTell(Applied(b, DoComplete(id, r)).store, Told(stories, b, DoComplete(id, r)))
  {
  }

  lemma FailTells(b: Book, id: string, e: string, again: bool, stories: map<string, Story>)
    requires |b.store.lists| == LEVELS && AllTell(b.store, stories)
    requires id in b.store.tasks ==> b.store.tasks[id].status == Running
    ensures AllTell(Applied(b, DoFail(id, e, again)).store, Told(stories, b, DoFail(id, e, again)))
  {
  }

  lemma QuietTells(b: Book, op: Op, stories: map<string, Story>)
    requires |b.store.lists| == LEVELS && AllTell(b.store, stories)
    requires op.DoCancel? || op.DoClear? || (op.DoEnqueue? && op.task.status == Pending)
    ensures AllTell(Applied(b, op).store, Told(stories, b, op))
  {
  }

  lemma StepTells(b: Book, op: Op, stories: map<string, Story>)
    requires Inv(b) && Allowed(b, op) && AllTell(b.store, stories)
    ensures AllTell(Applied(b, op).store, Told(stories, b, op))
  {
    match op
    case DoDequeue(w) =>
      DequeuedFacts(b, w);
      hide Inv, AllTell, Applied, Told, Dequeued;
      DequeueTells(b, w, stories);
    case DoComplete(id, r) =>
      if id in b.store.tasks { StillGoing(b, id); }
      hide Inv, AllTell, Applied, Told;
      CompleteTells(b, id, r, stories);
    case DoFail(id, e, again) =>
      if id in b.store.tasks { StillGoing(b, id); }
      hide Inv, AllTell, Applied, Told;
      FailTells(b, id, e, again, stories);
    case _ =>
      hide Inv, AllTell, Applied, Told;
      QuietTells(b, op, stories);
  }

  lemma StillGoing(b: Book, id: string)
    requires Inv(b) && id in b.store.running
    ensures id in b.store.tasks && b.store.tasks[id].status == Running
  {
    assert id in At(b.places, Working);
  }

  lemma NotOver(b: Book, id: string)
    requires Inv(b) && id in Listed(b.store.lists)
    ensures id in b.store.tasks && b.store.tasks[id].id == id
    ensures b.store.tasks[id].status == Pending || b.store.tasks[id].status == Cancelled
  {
    assert id in At(b.places, InList);
  }

  /** Over every run from an empty store: what is stored of a task is what its callers know of it. */
  lemma {:induction false} StoredDataTellStory(b: Book, ops: seq<Op>, stories: map<string, Story>)
    requires Inv(b) && AllAllowed(b, ops) && AllTell(b.store, stories)
    ensures AllTell(RunOf(b, ops).store, StoriesOf(stories, b, ops))
    decreases |ops|
  {
    if ops != [] {
      StepTells(b, ops[0], stories);
      StepKeepsInv(b, ops[0]);
      hide Inv, Applied, Allowed, Told, AllTell;
      StoredDataTellStory(Applied(b, ops[0]), ops[1..], Told(stories, b, ops[0]));
    }
  }

  /** A cancellation says whether it called a task off: exactly if the task was pending, and otherwise nothing
      changes. */
  lemma CancelSaysSo(s: Store, id: string)
    ensures var (after, done) := CancelledIn(s, id);
      && (done <==> after != s) && (done <==> id in s.tasks && s.tasks[id].status == Pending)
      && after == s.(tasks := after.tasks, pending := after.pending)
  {
    var (after, done) := CancelledIn(s, id);
    if done { assert after.tasks[id].status != s.tasks[id].status; }
  }

  /** A clear forgets exactly the pending tasks and says how many; if there were any, no list holds anything
      any more, and otherwise nothing changes. */
  lemma ClearForgetsPending(b: Book)
    requires Inv(b)
    ensures var (after, count) := Cleared(b.store);
      && count == |b.store.pending|
      && after.tasks.Keys == b.store.tasks.Keys - b.store.pending
      && (forall id :: id in after.tasks ==> after.tasks[id] == b.store.tasks[id] && after.tasks[id].status != Pending)
      && (count > 0 ==> forall worker :: Dequeued(after, worker).1.None?)
      && (count == 0 ==> after == b.store)
      && after.running == b.store.running && after.pending == {}
  {
    hide Listed, At, Counted, Filed;
    if b.store.pending != {} {
      var id :| id in b.store.pending;
      assert |b.store.pending - {id}| == |b.store.pending| - 1;
    }
  }

  // ---------------------------------------------------------------- cancellation

  /** Cancelling never changes what a dequeue hands out: the id stays in its list and the task comes
      out running, exactly as if it had not been cancelled. */
  lemma CancelledIsStillDequeued(s: Store, id: string, worker: string)
    ensures Dequeued(CancelledIn(s, id).0, worker).1 == Dequeued(s, worker).1
  {
  }

  /** Cancelling before or after a dequeue comes to the same: the dequeue returns the same task and
      leaves the same store. */
  lemma CancelCommutesWithDequeue(s: Store, id: string, worker: string)
    ensures var (after, task) := Dequeued(s, worker);
      Dequeued(CancelledIn(s, id).0, worker) == (CancelledIn(after, id).0, task)
  {
    hide FirstLevel, Popped;
    match FirstLevel(s.lists)
    case None =>
    case Some(p) =>
      var left, right := Dequeued(CancelledIn(s, id).0, worker).0, CancelledIn(Dequeued(s, worker).0, id).0;
      assert left.pending == right.pending;
      assert left.tasks == right.tasks;
  }

  /** What `n` dequeues in a row return. */
  ghost function DequeuedTasks(s: Store, worker: string, n: nat): seq<Option<Task>>
    decreases n
  {
    if n == 0 then []
    else var (after, t) := Dequeued(s, worker); [t] + DequeuedTasks(after, worker, n - 1)
  }

  /** A cancellation changes nothing that any number of later dequeues return. */
  lemma {:induction false} CancelKeepsDequeues(s: Store, id: string, worker: string, n: nat)
    ensures DequeuedTasks(CancelledIn(s, id).0, worker, n) == DequeuedTasks(s, worker, n)
    decreases n
  {
    if n > 0 {
      CancelCommutesWithDequeue(s, id, worker);
      CancelKeepsDequeues(Dequeued(s, worker).0, id, worker, n - 1);
      hide Dequeued, CancelledIn;
    }
  }

  /** An example: the only task is cancelled, and the next worker runs it. */
  lemma CancelledTaskRuns()
    ensures var (s, done) := CancelledIn(Enqueued(EmptyStore(), SAMPLE), "t");
      && done && s.tasks["t"].status == Cancelled
      && Dequeued(s, "w").1 == Some(Started(SAMPLE, "w"))
  {
    var s := CancelledIn(Enqueued(EmptyStore(), SAMPLE), "t").0;
    assert s.lists[0] == ["t"] + [] == ["t"];
    FirstIsZero(s.lists);
  }

  // ---------------------------------------------------------------- order

  lemma {:induction false} PopsTheFirst(lists: seq<seq<string>>)
    ensures match FirstLevel(lists)
      case None => Flatten(lists) == []
      case Some(p) => Flatten(lists) == [lists[p][0]] + Flatten(Popped(lists, p))
  {
    if lists != [] {
      PopsTheFirst(lists[1..]);
      match FirstLevel(lists)
      case None =>
      case Some(p) =>
        var after := Popped(lists, p);
        if p == 0 {
          assert after[1..] == lists[1..];
          assert lists[0] == [lists[0][0]] + lists[0][1..];
        } else {
          assert after[1..] == Popped(lists[1..], p - 1);
          assert after[0] == [] && lists[0] == [];
        }
    }
  }

  /** The ids handed out by `n` dequeues in a row. */
  ghost function DequeuedIds(s: Store, worker: string, n: nat): seq<string>
    decreases n
  {
    if n == 0 then []
    else
      var (after, t) := Dequeued(s, worker);
      (if t.Some? then [t.value.id] else []) + DequeuedIds(after, worker, n - 1)
  }

  ghost predicate DataKept(s: Store) {
    forall id :: id in Waiting(s) ==> id in s.tasks && s.tasks[id].id == id
  }

  /** A drain hands out exactly the waiting ids: lowest-numbered list first, each list from its head. */
  lemma {:induction false} DrainOrder(s: Store, worker: string, n: nat)
    requires DataKept(s) && n >= |Waiting(s)|
    ensures DequeuedIds(s, worker, n) == Waiting(s)
    decreases n
  {
    if n > 0 {
      var after := Dequeued(s, worker).0;
      PopsTheFirst(s.lists);
      if Waiting(s) != [] {
        var id := Waiting(s)[0];
        assert id in Waiting(s);
        assert Waiting(s) == [id] + Waiting(after);
        assert DataKept(after) by {
          forall x | x in Waiting(after) ensures x in after.tasks && after.tasks[x].id == x {
            assert x in Waiting(s);
          }
        }
      }
      DrainOrder(after, worker, n - 1);
    }
  }
}
