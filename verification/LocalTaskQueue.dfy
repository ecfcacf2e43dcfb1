/** The in-memory fallback of the task queue (app/agent/queue.py), and how its order compares with the
    order of the Redis lists. */
module LocalTaskQueue {
  import opened SelectionQueue
  import opened Sequences
  import opened StableSorting
  import opened TaskQueue
  import opened Wrappers

  function Rank(t: Task): real { t.priority as real }

  class LocalQueue {
    var queue: seq<Task>

    constructor ()
      ensures queue == []
    {
      queue := [];
    }

    /** A task without an id gets the `generated` one. */
    method EnqueueLocal(task: Task, generated: string) returns (id: string)
      modifies this
      ensures id == if task.id == "" then generated else task.id
      ensures Run(queue, []) == Stepped(Run(old(queue), []), Put(task.(id := id)), Rank)
    {
      id := if task.id == "" then generated else task.id;
      queue := queue + [task.(id := id)];
    }

    /** Scans for the first task of the highest priority number and takes it out. */
    method DequeueLocal(worker: string) returns (task: Option<Task>)
      modifies this
      ensures task.None? <==> old(queue) == []
      ensures task.None? ==> queue == old(queue)
      ensures task.Some? ==>
        exists t :: task == Some(Started(t, worker)) && Run(queue, [t]) == Stepped(Run(old(queue), []), Take, Rank)
    {
      if queue == [] {
        return None;
      }
      var best: nat := 0;
      for i := 0 to |queue|
        invariant best < |queue| && (i == 0 ==> best == 0) && (i > 0 ==> best < i)
        invariant i > 0 ==> IsFirstMax(queue[..i], Rank, best)
      {
        if queue[i].priority > queue[best].priority {
          best := i;
        }
      }
      assert queue[..|queue|] == queue;
      FirstMaxIsUnique(queue, best, FirstMax(queue, Rank));
      ghost var t := queue[best];
      task := Some(queue[best].(status := Running, workerId := Some(worker)));
      queue := RemoveAt(queue, best);
      assert Run(queue, [t]) == Stepped(Run(old(queue), []), Take, Rank);
    }

    method ClearLocal() returns (count: nat)
      modifies this
      ensures queue == [] && count == |old(queue)|
    {
      count := |queue|;
      queue := [];
    }
  }

  lemma FirstMaxIsUnique(queue: seq<Task>, i: nat, j: nat)
    requires IsFirstMax(queue, Rank, i) && IsFirstMax(queue, Rank, j)
    ensures i == j
  {
    FirstMaxBounds(queue, Rank, i, j);
    FirstMaxBounds(queue, Rank, j, i);
  }

  /** The fallback drains as a stable sort: highest priority number first, equal numbers in the order of
      arrival, every task once. */
  lemma LocalDrain(arrivals: seq<Task>)
    ensures var drained := Drained(arrivals, Rank);
      && Taken(Run(arrivals, []), Rank, |arrivals|) == Run([], drained)
      && IsStableSort(drained, arrivals, Rank)
      && multiset(drained) == multiset(arrivals)
  {
    var start: Run<Task> := Run(arrivals, []);
    DrainAfterPuts(start, Rank, |arrivals|);
    DrainIsStableSort(arrivals, Rank);
    StableSortPermutes(Drained(arrivals, Rank), arrivals, Rank);
    assert start.taken + Drained(arrivals, Rank) == Drained(arrivals, Rank);
    assert Taken(start, Rank, |arrivals|) == Run([], Drained(arrivals, Rank));
  }

  // ---------------------------------------------------------------- the same arrivals through Redis

  function EnqueuedAll(tasks: seq<Task>): (s: Store)
    ensures |s.lists| == LEVELS
  {
    if tasks == [] then EmptyStore()
    else Enqueued(EnqueuedAll(tasks[..|tasks| - 1]), tasks[|tasks| - 1])
  }

  function IdsOf(tasks: seq<Task>): (ids: seq<string>)
    ensures |ids| == |tasks| && forall i :: 0 <= i < |tasks| ==> ids[i] == tasks[i].id
  {
    seq(|tasks|, i requires 0 <= i < |tasks| => tasks[i].id)
  }

  /** The tasks of level `p`, last arrival first. */
  function Stack(tasks: seq<Task>, p: nat): seq<Task> { Reversed(WithKey(tasks, Rank, p as real)) }

  lemma StackPush(tasks: seq<Task>, t: Task, p: nat)
    ensures Stack(tasks + [t], p) == (if t.priority == p then [t] else []) + Stack(tasks, p)
  {
    WithKeyAppend(tasks, [t], Rank, p as real);
    ReversedAppend(WithKey(tasks, Rank, p as real), WithKey([t], Rank, p as real));
    assert WithKey([t], Rank, p as real) == if t.priority == p then [t] else [];
  }

  lemma OnePush(s: Store, t: Task, p: nat)
    requires |s.lists| == LEVELS && p < LEVELS
    ensures Enqueued(s, t).lists[p] == (if t.priority == p then [t.id] else []) + s.lists[p]
  {
  }

  lemma StackIds(tasks: seq<Task>, t: Task, p: nat)
    ensures IdsOf(Stack(tasks + [t], p)) == (if t.priority == p then [t.id] else []) + IdsOf(Stack(tasks, p))
  {
    StackPush(tasks, t, p);
    hide Stack;
  }

  /** Each list holds the arrivals of its level, last arrival at the head. */
  lemma {:induction false} ListsAreStacks(tasks: seq<Task>, p: nat)
    requires p < LEVELS
    ensures EnqueuedAll(tasks).lists[p] == IdsOf(Stack(tasks, p))
  {
    if tasks != [] {
      hide Stack, Enqueued, IdsOf;
      var init, t := tasks[..|tasks| - 1], tasks[|tasks| - 1];
      ListsAreStacks(init, p);
      assert tasks == init + [t];
      StackIds(init, t, p);
      OnePush(EnqueuedAll(init), t, p);
    }
  }

  /** The stacks of the levels from `p` on. */
  function Stacks(tasks: seq<Task>, p: nat): (ss: seq<seq<Task>>)
    requires p <= LEVELS
    decreases LEVELS - p
  {
    if p == LEVELS then [] else [Stack(tasks, p)] + Stacks(tasks, p + 1)
  }

  lemma StacksUnfold(tasks: seq<Task>, p: nat)
    requires p < LEVELS
    ensures Flatten(Stacks(tasks, p)) == Stack(tasks, p) + Flatten(Stacks(tasks, p + 1))
  {
    assert Stacks(tasks, p)[1..] == Stacks(tasks, p + 1);
  }

  lemma IdsAppend(a: seq<Task>, b: seq<Task>)
    ensures IdsOf(a + b) == IdsOf(a) + IdsOf(b)
  {
  }

  lemma {:induction false} FlattenIds(tasks: seq<Task>, lists: seq<seq<string>>, p: nat)
    requires p <= LEVELS && |lists| == LEVELS - p
    requires forall k :: 0 <= k < |lists| ==> lists[k] == IdsOf(Stack(tasks, p + k))
    ensures Flatten(lists) == IdsOf(Flatten(Stacks(tasks, p)))
    decreases LEVELS - p
  {
    hide Stack, IdsOf;
    if p < LEVELS {
      FlattenIds(tasks, lists[1..], p + 1);
      assert lists[0] == IdsOf(Stack(tasks, p + 0));
      StacksUnfold(tasks, p);
      IdsAppend(Stack(tasks, p), Flatten(Stacks(tasks, p + 1)));
    }
  }

  lemma {:induction false} WithKeyReversed(xs: seq<Task>, v: real)
    ensures WithKey(Reversed(xs), Rank, v) == Reversed(WithKey(xs, Rank, v))
  {
    if xs != [] {
      WithKeyReversed(xs[1..], v);
      WithKeyAppend(Reversed(xs[1..]), [xs[0]], Rank, v);
      assert WithKey([xs[0]], Rank, v) == One(xs[0], Rank, v);
      ReversedAppend(One(xs[0], Rank, v), WithKey(xs[1..], Rank, v));
    }
  }

  lemma {:induction false} WithKeyOfKey(xs: seq<Task>, u: real, v: real)
    requires forall x :: x in xs ==> Rank(x) == u
    ensures WithKey(xs, Rank, v) == if u == v then xs else []
  {
    if xs != [] { WithKeyOfKey(xs[1..], u, v); }
  }

  lemma StackMembers(tasks: seq<Task>, p: nat)
    ensures forall x :: x in Stack(tasks, p) ==> Rank(x) == p as real
  {
    WithKeyMembers(tasks, Rank, p as real);
    forall x | x in Stack(tasks, p) ensures Rank(x) == p as real {
      var i :| 0 <= i < |Stack(tasks, p)| && Stack(tasks, p)[i] == x;
      assert x in WithKey(tasks, Rank, p as real);
    }
  }

  /** `v` is one of the levels from `p` on. */
  predicate IsLevel(v: real, p: nat) { v.Floor as real == v && p <= v.Floor < LEVELS }

  lemma StackWithKey(tasks: seq<Task>, p: nat, v: real)
    ensures WithKey(Stack(tasks, p), Rank, v) == if v == p as real then Reversed(WithKey(tasks, Rank, v)) else []
  {
    StackMembers(tasks, p);
    WithKeyOfKey(Stack(tasks, p), p as real, v);
  }

  /** In the order of the stacks, the tasks of one level are its stack. */
  lemma {:induction false} StacksByLevel(tasks: seq<Task>, p: nat, v: real)
    requires p <= LEVELS
    ensures WithKey(Flatten(Stacks(tasks, p)), Rank, v)
      == if IsLevel(v, p) then Reversed(WithKey(tasks, Rank, v)) else []
    decreases LEVELS - p
  {
    if p < LEVELS {
      hide WithKey, IsLevel, Flatten, Stacks, Stack, Reversed;
      var rest := WithKey(Flatten(Stacks(tasks, p + 1)), Rank, v);
      StacksUnfold(tasks, p);
      StacksByLevel(tasks, p + 1, v);
      StackWithKey(tasks, p, v);
      WithKeyAppend(Stack(tasks, p), Flatten(Stacks(tasks, p + 1)), Rank, v);
      LevelStep(v, p);
      assert [] + rest == rest;
    }
  }

  lemma LevelStep(v: real, p: nat)
    requires p < LEVELS
    ensures IsLevel(v, p) <==> v == p as real || IsLevel(v, p + 1)
    ensures v == p as real ==> !IsLevel(v, p + 1)
  {
  }

  ghost predicate Rising(xs: seq<Task>) {
    forall i, j :: 0 <= i < j < |xs| ==> Rank(xs[i]) <= Rank(xs[j])
  }

  lemma RisingAppend(a: seq<Task>, b: seq<Task>, v: real)
    requires forall x :: x in a ==> Rank(x) == v
    requires Rising(b) && forall x :: x in b ==> v <= Rank(x)
    ensures Rising(a + b)
  {
    forall i, j | 0 <= i < j < |a + b| ensures Rank((a + b)[i]) <= Rank((a + b)[j]) {
      if i < |a| { assert a[i] in a; }
      if j < |a| { assert a[j] in a; } else { assert b[j - |a|] in b; }
    }
  }

  lemma {:induction false} StacksRise(tasks: seq<Task>, p: nat)
    requires p <= LEVELS
    ensures Rising(Flatten(Stacks(tasks, p)))
    ensures forall x :: x in Flatten(Stacks(tasks, p)) ==> p as real <= Rank(x)
    decreases LEVELS - p
  {
    if p < LEVELS {
      StacksUnfold(tasks, p);
      StacksRise(tasks, p + 1);
      StackMembers(tasks, p);
      hide Stack;
      RisingAppend(Stack(tasks, p), Flatten(Stacks(tasks, p + 1)), p as real);
    }
  }

  lemma {:induction false} NoOtherKeys(tasks: seq<Task>, v: real)
    requires !IsLevel(v, 0)
    ensures WithKey(tasks, Rank, v) == []
  {
    if tasks != [] { NoOtherKeys(tasks[1..], v); }
  }

  /** Turned round, the order of the stacks is the stable sort the fallback drains in. */
  lemma StacksReverseTheSort(tasks: seq<Task>)
    ensures Flatten(Stacks(tasks, 0)) == Reversed(Drained(tasks, Rank))
  {
    var all := Flatten(Stacks(tasks, 0));
    var turned := Reversed(all);
    forall v ensures WithKey(turned, Rank, v) == WithKey(tasks, Rank, v) {
      StacksByLevel(tasks, 0, v);
      WithKeyReversed(all, v);
      if !IsLevel(v, 0) { NoOtherKeys(tasks, v); }
      ReversedTwice(WithKey(tasks, Rank, v));
    }
    StacksRise(tasks, 0);
    assert Descending(turned, Rank);
    DrainIsStableSort(tasks, Rank);
    StableSortUnique(turned, Drained(tasks, Rank), tasks, Rank);
    ReversedTwice(all);
  }

  lemma {:induction false} EnqueuedData(tasks: seq<Task>, id: string)
    ensures var s := EnqueuedAll(tasks);
      && (id in IdsOf(tasks) ==> id in s.tasks)
      && (id in s.tasks ==> s.tasks[id].id == id)
  {
    if tasks != [] {
      var init, t := tasks[..|tasks| - 1], tasks[|tasks| - 1];
      EnqueuedData(init, id);
      assert IdsOf(tasks) == IdsOf(init) + [t.id];
    }
  }

  lemma EnqueuedKeepsData(tasks: seq<Task>)
    requires forall t :: t in Flatten(Stacks(tasks, 0)) ==> t in tasks
    requires Waiting(EnqueuedAll(tasks)) == IdsOf(Flatten(Stacks(tasks, 0)))
    ensures DataKept(EnqueuedAll(tasks))
  {
    hide Stacks, Flatten, EnqueuedAll;
    var s, all := EnqueuedAll(tasks), Flatten(Stacks(tasks, 0));
    forall id | id in Waiting(s) ensures id in s.tasks && s.tasks[id].id == id {
      var i :| 0 <= i < |all| && IdsOf(all)[i] == id;
      assert all[i] in all;
      var j :| 0 <= j < |tasks| && tasks[j] == all[i];
      assert IdsOf(tasks)[j] == id;
      EnqueuedData(tasks, id);
    }
  }

  lemma ReversedIds(tasks: seq<Task>)
    ensures IdsOf(Reversed(tasks)) == Reversed(IdsOf(tasks))
    ensures forall t :: t in Reversed(tasks) ==> t in tasks
  {
  }

  /** The two back ends serve the same arrivals in exactly opposite orders: Redis hands out the lowest
      priority number first and the last arrival first, the fallback the highest and the first. */
  lemma OppositeOrders(tasks: seq<Task>, worker: string)
    ensures DequeuedIds(EnqueuedAll(tasks), worker, |tasks|) == Reversed(IdsOf(Drained(tasks, Rank)))
  {
    var s := EnqueuedAll(tasks);
    forall q: nat | q < LEVELS ensures s.lists[q] == IdsOf(Stack(tasks, 0 + q)) {
      ListsAreStacks(tasks, q);
    }
    hide Stacks, Flatten, EnqueuedAll, Stack, IdsOf, Drained, DequeuedIds;
    FlattenIds(tasks, s.lists, 0);
    StacksReverseTheSort(tasks);
    ReversedIds(Drained(tasks, Rank));
    DrainedMembers(tasks, Rank);
    EnqueuedKeepsData(tasks);
    DrainOrder(s, worker, |tasks|);
  }

  /** With distinct ids the two back ends agree only on nothing or a single task. */
  lemma BackEndsAgreeIff(tasks: seq<Task>, worker: string)
    requires NoDuplicates(IdsOf(tasks))
    ensures DequeuedIds(EnqueuedAll(tasks), worker, |tasks|) == IdsOf(Drained(tasks, Rank)) <==> |tasks| <= 1
  {
    OppositeOrders(tasks, worker);
    LocalDrain(tasks);
    var drained := Drained(tasks, Rank);
    assert |multiset(drained)| == |drained| && |multiset(tasks)| == |tasks|;
    var ids := IdsOf(drained);
    hide EnqueuedAll, Drained, DequeuedIds, IsStableSort;
    if |tasks| > 1 {
      var last := |drained| - 1;
      if drained[0].id == drained[last].id {
        FirstIsNotLast(tasks, drained);
      }
      assert ids[0] != Reversed(ids)[0];
    }
  }

  lemma FirstIsNotLast(tasks: seq<Task>, drained: seq<Task>)
    requires NoDuplicates(IdsOf(tasks)) && multiset(drained) == multiset(tasks) && |drained| > 1
    ensures drained[0].id != drained[|drained| - 1].id
  {
    var x, y := drained[0], drained[|drained| - 1];
    assert x in multiset(drained) && y in multiset(drained);
    var i :| 0 <= i < |tasks| && tasks[i] == x;
    var j :| 0 <= j < |tasks| && tasks[j] == y;
    if x.id == y.id {
      assert IdsOf(tasks)[i] == IdsOf(tasks)[j];
      assert i == j;
      TwiceInSequence(drained);
      TasksOnce(tasks, i);
    }
  }

  lemma TwiceInSequence(s: seq<Task>)
    requires |s| > 1 && s[0] == s[|s| - 1]
    ensures multiset(s)[s[0]] >= 2
  {
    var n := |s| - 1;
    assert s == [s[0]] + s[1..n] + [s[n]];
  }

  lemma TasksOnce(tasks: seq<Task>, i: nat)
    requires NoDuplicates(IdsOf(tasks)) && i < |tasks|
    ensures multiset(tasks)[tasks[i]] == 1
  {
    var a, b := tasks[..i], tasks[i + 1..];
    assert tasks == a + [tasks[i]] + b;
    forall k | 0 <= k < |a| ensures a[k] != tasks[i] { assert IdsOf(tasks)[k] != IdsOf(tasks)[i]; }
    forall k | 0 <= k < |b| ensures b[k] != tasks[i] { assert IdsOf(tasks)[i + 1 + k] != IdsOf(tasks)[i]; }
    assert tasks[i] !in a && tasks[i] !in b;
    assert multiset(a)[tasks[i]] == 0 && multiset(b)[tasks[i]] == 0;
  }
}
