/** A queue from which every take removes the first element with the greatest key. The local task queue
    and the background event queue are both of this kind: the one scans its list for the greatest
    priority, the other's heap hands out the least tuple of a priority and a sequence number. */
module SelectionQueue {
  import opened StableSorting

  /** `i` is where the greatest key occurs first. */
  ghost predicate IsFirstMax<T>(xs: seq<T>, key: T -> real, i: nat) {
    && i < |xs|
    && (forall j :: 0 <= j < i ==> key(xs[j]) < key(xs[i]))
    && (forall j :: i <= j < |xs| ==> key(xs[j]) <= key(xs[i]))
  }

  lemma FirstMaxBounds<T>(xs: seq<T>, key: T -> real, i: nat, j: nat)
    requires IsFirstMax(xs, key, i) && j < |xs|
    ensures key(xs[j]) <= key(xs[i]) && (j < i ==> key(xs[j]) < key(xs[i]))
  {
  }

  function FirstMax<T>(xs: seq<T>, key: T -> real): (i: nat)
    requires xs != []
    ensures IsFirstMax(xs, key, i)
  {
    if |xs| == 1 then 0
    else
      var j := FirstMax(xs[1..], key);
      if key(xs[j + 1]) > key(xs[0]) then j + 1 else 0
  }

  function RemoveAt<T>(xs: seq<T>, i: nat): (ys: seq<T>)
    requires i < |xs|
    ensures |ys| == |xs| - 1
    ensures forall j :: 0 <= j < |ys| ==> ys[j] == xs[if j < i then j else j + 1]
  {
    xs[..i] + xs[i + 1..]
  }

  datatype Op<T> = Put(item: T) | Take

  datatype Run<T> = Run(queue: seq<T>, taken: seq<T>)

  function Stepped<T>(r: Run<T>, op: Op<T>, key: T -> real): Run<T> {
    match op
    case Put(x) => Run(r.queue + [x], r.taken)
    case Take =>
      if r.queue == [] then r
      else
        var i := FirstMax(r.queue, key);
        Run(RemoveAt(r.queue, i), r.taken + [r.queue[i]])
  }

  function After<T>(ops: seq<Op<T>>, key: T -> real): Run<T> {
    if ops == [] then Run([], [])
    else Stepped(After(ops[..|ops| - 1], key), ops[|ops| - 1], key)
  }

  function PutsOf<T>(ops: seq<Op<T>>): seq<T> {
    if ops == [] then []
    else
      var op := ops[|ops| - 1];
      PutsOf(ops[..|ops| - 1]) + if op.Put? then [op.item] else []
  }

  lemma {:induction false} NoneBefore<T>(xs: seq<T>, key: T -> real, v: real)
    requires forall j :: 0 <= j < |xs| ==> key(xs[j]) != v
    ensures WithKey(xs, key, v) == []
  {
    if xs != [] { NoneBefore(xs[1..], key, v); }
  }

  /** Taking the first maximum takes, of its own key, the one that came first. */
  lemma TakeSplits<T>(xs: seq<T>, key: T -> real, i: nat, v: real)
    requires IsFirstMax(xs, key, i)
    ensures WithKey(xs, key, v) == One(xs[i], key, v) + WithKey(RemoveAt(xs, i), key, v)
  {
    var before, after := xs[..i], xs[i + 1..];
    assert xs == before + ([xs[i]] + after);
    WithKeyAppend(before, [xs[i]] + after, key, v);
    WithKeyCons(xs[i], after, key, v);
    WithKeyAppend(before, after, key, v);
    if key(xs[i]) == v { NoneBefore(before, key, v); }
    SwapEmpty(One(xs[i], key, v), WithKey(before, key, v), WithKey(after, key, v));
  }

  /** First in, first out within one key, over any interleaving of puts and takes: what was put is
      what was taken followed by what waits. */
  lemma {:induction false} FifoWithinKey<T>(ops: seq<Op<T>>, key: T -> real, v: real)
    ensures var r := After(ops, key);
      WithKey(PutsOf(ops), key, v) == WithKey(r.taken, key, v) + WithKey(r.queue, key, v)
  {
    if ops != [] {
      var init, op := ops[..|ops| - 1], ops[|ops| - 1];
      var r := After(init, key);
      FifoWithinKey(init, key, v);
      match op
      case Put(x) =>
        WithKeyAppend(PutsOf(init), [x], key, v);
        WithKeyAppend(r.queue, [x], key, v);
        Associate(WithKey(r.taken, key, v), WithKey(r.queue, key, v), WithKey([x], key, v));
      case Take =>
        assert PutsOf(ops) == PutsOf(init);
        if r.queue != [] { TakeKeepsFifo(r, key, v); }
    }
  }

  lemma TakeKeepsFifo<T>(r: Run<T>, key: T -> real, v: real)
    requires r.queue != []
    ensures var next := Stepped(r, Take, key);
      WithKey(next.taken, key, v) + WithKey(next.queue, key, v) == WithKey(r.taken, key, v) + WithKey(r.queue, key, v)
  {
    var i := FirstMax(r.queue, key);
    var x := r.queue[i];
    TakeSplits(r.queue, key, i, v);
    WithKeyAppend(r.taken, [x], key, v);
    WithKeyCons(x, [], key, v);
    assert [x] + [] == [x];
    assert One(x, key, v) + [] == One(x, key, v);
    Associate(WithKey(r.taken, key, v), One(x, key, v), WithKey(RemoveAt(r.queue, i), key, v));
  }

  lemma ItemConserved<T>(ops: seq<Op<T>>, key: T -> real, x: T)
    ensures var r := After(ops, key); multiset(PutsOf(ops))[x] == multiset(r.taken + r.queue)[x]
  {
    hide WithKey, After, PutsOf;
    var r := After(ops, key);
    FifoWithinKey(ops, key, key(x));
    WithKeyAppend(r.taken, r.queue, key, key(x));
    WithKeyCounts(PutsOf(ops), key, x);
    WithKeyCounts(r.taken + r.queue, key, x);
  }

  lemma SameCounts<T>(a: seq<T>, b: seq<T>)
    requires forall x :: multiset(a)[x] == multiset(b)[x]
    ensures multiset(a) == multiset(b)
  {
  }

  /** Nothing is lost or taken twice. */
  lemma ItemsConserved<T>(ops: seq<Op<T>>, key: T -> real)
    ensures var r := After(ops, key); multiset(PutsOf(ops)) == multiset(r.taken + r.queue)
  {
    hide WithKey, After, PutsOf;
    var r := After(ops, key);
    forall x ensures multiset(PutsOf(ops))[x] == multiset(r.taken + r.queue)[x] {
      ItemConserved(ops, key, x);
    }
    SameCounts(PutsOf(ops), r.taken + r.queue);
  }

  // ---------------------------------------------------------------- draining

  /** Repeated takes until nothing is left. */
  function Drained<T>(xs: seq<T>, key: T -> real): (ys: seq<T>)
    ensures |ys| == |xs|
    decreases |xs|
  {
    if xs == [] then []
    else
      var i := FirstMax(xs, key);
      [xs[i]] + Drained(RemoveAt(xs, i), key)
  }

  lemma {:induction false} DrainedMembers<T>(xs: seq<T>, key: T -> real)
    ensures forall y :: y in Drained(xs, key) ==> y in xs
    decreases |xs|
  {
    if xs != [] {
      var rest := RemoveAt(xs, FirstMax(xs, key));
      DrainedMembers(rest, key);
      assert forall y :: y in rest ==> y in xs;
    }
  }

  lemma {:induction false} DrainIsStableSort<T>(xs: seq<T>, key: T -> real)
    ensures IsStableSort(Drained(xs, key), xs, key)
    decreases |xs|
  {
    if xs != [] {
      var i := FirstMax(xs, key);
      var rest := RemoveAt(xs, i);
      var drained := Drained(rest, key);
      DrainIsStableSort(rest, key);
      DrainedMembers(rest, key);
      forall j | 0 <= j < |drained| ensures key(xs[i]) >= key(drained[j]) {
        assert drained[j] in rest;
      }
      PrependKeepsOrder(xs[i], drained, key);
      forall v ensures WithKey(Drained(xs, key), key, v) == WithKey(xs, key, v) {
        WithKeyCons(xs[i], drained, key, v);
        TakeSplits(xs, key, i, v);
      }
    }
  }

  lemma {:induction false} TakesDrain<T>(r: Run<T>, key: T -> real, takes: nat)
    requires takes >= |r.queue|
    ensures Taken(r, key, takes) == Run([], r.taken + Drained(r.queue, key))
    decreases takes
  {
    if takes > 0 {
      var next := Stepped(r, Take, key);
      TakesDrain(next, key, takes - 1);
      if r.queue != [] {
        var x := r.queue[FirstMax(r.queue, key)];
        hide IsFirstMax;
        Associate(r.taken, [x], Drained(next.queue, key));
      }
    } else {
      assert r.taken + [] == r.taken;
    }
  }

  /** Once puts stop, the remaining takes are a stable sort of what waited: greatest key first, equal
      keys in their order of arrival; no other order is possible. */
  lemma DrainAfterPuts<T>(r: Run<T>, key: T -> real, takes: nat)
    requires takes >= |r.queue|
    ensures var end := Taken(r, key, takes);
      && end.queue == []
      && end.taken == r.taken + Drained(r.queue, key)
      && Drained(r.queue, key) == SortDescending(r.queue, key)
  {
    hide Drained, SortDescending, Taken;
    TakesDrain(r, key, takes);
    DrainIsStableSort(r.queue, key);
    SortIsStable(r.queue, key);
    StableSortUnique(Drained(r.queue, key), SortDescending(r.queue, key), r.queue, key);
  }

  function Taken<T>(r: Run<T>, key: T -> real, takes: nat): Run<T>
    decreases takes
  {
    if takes == 0 then r else Taken(Stepped(r, Take, key), key, takes - 1)
  }
}
