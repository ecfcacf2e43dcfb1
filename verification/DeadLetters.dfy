/** Events and the bounded dead letter queue (app/events/dlq.py, app/events/models.py). */
module DeadLetters {
  import opened Sequences
  import opened Wrappers

  /** A lower `priority` is more urgent. */
  datatype Event = Event(id: string, eventType: string, priority: int, payload: string)

  datatype Record = Record(event: Event, handler: string, attempts: nat)

  /** The last `n` elements. */
  function LastN<T>(s: seq<T>, n: nat): seq<T> { if |s| <= n then s else s[|s| - n..] }

  /** What is in front of the last `n` elements. */
  function Overflow<T>(s: seq<T>, n: nat): seq<T> { s[..|s| - |LastN(s, n)|] }

  ghost predicate Selected(r: Record, eventType: Option<string>) {
    eventType.None? || r.event.eventType == eventType.value
  }

  /** The records kept by, and the records removed by, a purge of `eventType` (None: of everything). */
  function Kept(records: seq<Record>, eventType: Option<string>): (ks: seq<Record>)
    ensures |ks| <= |records|
    ensures forall r :: r in ks <==> r in records && !Selected(r, eventType)
  {
    if records == [] then []
    else
      (if eventType.None? || records[0].event.eventType == eventType.value then [] else [records[0]])
      + Kept(records[1..], eventType)
  }

  function Picked(records: seq<Record>, eventType: Option<string>): (ps: seq<Record>)
    ensures forall r :: r in ps <==> r in records && Selected(r, eventType)
  {
    if records == [] then []
    else
      (if eventType.None? || records[0].event.eventType == eventType.value then [records[0]] else [])
      + Picked(records[1..], eventType)
  }

  lemma PurgeStep(records: seq<Record>, eventType: Option<string>)
    requires records != []
    ensures var r, rest, selected := records[0], records[1..], Selected(records[0], eventType);
      && Kept(records, eventType) == (if selected then Kept(rest, eventType) else [r] + Kept(rest, eventType))
      && Picked(records, eventType) == (if selected then [r] + Picked(rest, eventType) else Picked(rest, eventType))
  {
  }

  lemma {:induction false} PurgeSplits(records: seq<Record>, eventType: Option<string>)
    ensures multiset(records) == multiset(Kept(records, eventType)) + multiset(Picked(records, eventType))
    ensures |records| == |Kept(records, eventType)| + |Picked(records, eventType)|
  {
    if records != [] {
      var r, rest := records[0], records[1..];
      PurgeSplits(rest, eventType);
      PurgeStep(records, eventType);
      Joined([r], rest);
      assert records == [r] + rest;
      Joined([r], Picked(rest, eventType));
      Joined([r], Kept(rest, eventType));
      OneMore(multiset([r]), multiset(rest), multiset(Kept(rest, eventType)), multiset(Picked(rest, eventType)));
      hide Kept, Picked, Selected;
    }
  }

  lemma OneMore<T>(one: multiset<T>, all: multiset<T>, a: multiset<T>, b: multiset<T>)
    requires all == a + b
    ensures one + all == (one + a) + b == a + (one + b)
  {
  }

  /** A purge of a type removes exactly the records of that type, a purge without one removes all; the others
      stay in their order. */
  lemma PurgeRemovesItsType(records: seq<Record>, t: string)
    ensures forall r :: r in Kept(records, Some(t)) <==> r in records && r.event.eventType != t
    ensures forall r :: r in Picked(records, Some(t)) <==> r in records && r.event.eventType == t
    ensures Kept(records, None) == [] && Picked(records, None) == records
  {
    PurgeAllKeepsNone(records);
  }

  lemma {:induction false} PurgeAppends(a: seq<Record>, b: seq<Record>, eventType: Option<string>)
    ensures Kept(a + b, eventType) == Kept(a, eventType) + Kept(b, eventType)
    ensures Picked(a + b, eventType) == Picked(a, eventType) + Picked(b, eventType)
  {
    if a == [] {
      assert a + b == b;
    } else {
      assert (a + b)[1..] == a[1..] + b;
      PurgeStep(a + b, eventType);
      PurgeStep(a, eventType);
      PurgeAppends(a[1..], b, eventType);
      var r, rest, selected := a[0], a[1..], Selected(a[0], eventType);
      OneInFront(!selected, r, Kept(rest, eventType), Kept(b, eventType));
      OneInFront(selected, r, Picked(rest, eventType), Picked(b, eventType));
      hide Kept, Picked, Selected;
    }
  }

  lemma OneInFront<T>(taken: bool, r: T, a: seq<T>, b: seq<T>)
    ensures (if taken then [r] + (a + b) else a + b) == (if taken then [r] + a else a) + b
  {
    assert [r] + (a + b) == ([r] + a) + b;
  }

  lemma {:induction false} PurgeAllKeepsNone(records: seq<Record>)
    ensures Kept(records, None) == [] && Picked(records, None) == records
  {
    if records != [] { PurgeAllKeepsNone(records[1..]); }
  }

  class DeadLetterQueue {
    const cap: nat
    var records: seq<Record>

    ghost predicate Valid()
      reads this
    {
      |records| <= cap
    }

    constructor (cap: nat)
      ensures Valid() && records == [] && this.cap == cap
    {
      this.cap := cap;
      records := [];
    }

    /** Appends, then evicts the oldest records beyond the capacity. */
    method Put(record: Record)
      requires Valid()
      modifies this
      ensures Valid()
      ensures records == LastN(old(records) + [record], cap)
    {
      records := records + [record];
      ghost var all := records;
      while |records| > cap
        invariant |records| <= |all| && records == all[|all| - |records|..]
        invariant |all| >= cap ==> |records| >= cap
        invariant |all| < cap ==> records == all
        decreases |records|
      {
        records := records[1..];
      }
    }

    /** A snapshot, newest first. */
    function List(): seq<Record>
      reads this
    {
      Reversed(records)
    }

    method Purge(eventType: Option<string>) returns (count: nat)
      requires Valid()
      modifies this
      ensures Valid()
      ensures records == Kept(old(records), eventType)
      ensures count == |Picked(old(records), eventType)|
    {
      PurgeSplits(records, eventType);
      if eventType.None? {
        PurgeAllKeepsNone(records);
        count := |records|;
        records := [];
      } else {
        var before := |records|;
        records := Kept(records, eventType);
        count := before - |records|;
      }
    }
  }

  // ---------------------------------------------------------------- whole histories

  datatype QueueOp = PutOp(record: Record) | PurgeOp(eventType: Option<string>)

  /** What became of every record ever put. */
  datatype Ledger = Ledger(retained: seq<Record>, evicted: seq<Record>, purged: seq<Record>)

  ghost function Applied(l: Ledger, op: QueueOp, cap: nat): Ledger {
    match op
    case PutOp(r) =>
      var all := l.retained + [r];
      Ledger(LastN(all, cap), l.evicted + Overflow(all, cap), l.purged)
    case PurgeOp(t) => Ledger(Kept(l.retained, t), l.evicted, l.purged + Picked(l.retained, t))
  }

  ghost function After(ops: seq<QueueOp>, cap: nat): Ledger {
    if ops == [] then Ledger([], [], [])
    else Applied(After(ops[..|ops| - 1], cap), ops[|ops| - 1], cap)
  }

  ghost function Puts(ops: seq<QueueOp>): seq<Record> {
    if ops == [] then []
    else
      var op := ops[|ops| - 1];
      Puts(ops[..|ops| - 1]) + if op.PutOp? then [op.record] else []
  }

  lemma LastNSplits<T>(s: seq<T>, n: nat)
    ensures s == Overflow(s, n) + LastN(s, n)
    ensures |LastN(s, n)| == if |s| <= n then |s| else n
  {
  }

  ghost function Total(l: Ledger): multiset<Record> {
    multiset(l.retained) + multiset(l.evicted) + multiset(l.purged)
  }

  lemma Regroup<T>(kept: multiset<T>, new_: multiset<T>, evicted: multiset<T>, purged: multiset<T>,
                   out: multiset<T>, last: multiset<T>)
    requires kept + new_ == out + last
    ensures last + (evicted + out) + purged == kept + evicted + purged + new_
  {
    assert last + (evicted + out) + purged == (out + last) + evicted + purged;
    assert (kept + new_) + evicted + purged == kept + evicted + purged + new_;
  }

  lemma PutAccounts(l: Ledger, r: Record, cap: nat)
    ensures Total(Applied(l, PutOp(r), cap)) == Total(l) + multiset{r}
  {
    hide LastN, Overflow;
    var all := l.retained + [r];
    var out := Overflow(all, cap);
    LastNSplits(all, cap);
    Joined(out, LastN(all, cap));
    Joined(l.retained, [r]);
    Joined(l.evicted, out);
    Regroup(multiset(l.retained), multiset{r}, multiset(l.evicted), multiset(l.purged), multiset(out),
            multiset(LastN(all, cap)));
  }

  lemma PurgeAccounts(l: Ledger, eventType: Option<string>, cap: nat)
    ensures Total(Applied(l, PurgeOp(eventType), cap)) == Total(l)
  {
    PurgeSplits(l.retained, eventType);
    Joined(l.purged, Picked(l.retained, eventType));
  }

  /** Nothing is lost silently: what was put is retained, evicted by capacity, or purged, each record
      as often as it was put; and the queue never exceeds its capacity. */
  lemma {:induction false} LettersConserved(ops: seq<QueueOp>, cap: nat)
    ensures multiset(Puts(ops)) == Total(After(ops, cap))
    ensures |After(ops, cap).retained| <= cap
  {
    if ops != [] {
      var init, op := ops[..|ops| - 1], ops[|ops| - 1];
      var before := After(init, cap);
      LettersConserved(init, cap);
      RetainedWithinCap(before, op, cap);
      match op
      case PutOp(r) =>
        PutAccounts(before, r, cap);
        Joined(Puts(init), [r]);
        hide Total, Applied;
      case PurgeOp(t) =>
        PurgeAccounts(before, t, cap);
        assert Puts(ops) == Puts(init);
        hide Total, Applied;
    }
  }

  lemma RetainedWithinCap(l: Ledger, op: QueueOp, cap: nat)
    requires |l.retained| <= cap
    ensures |Applied(l, op, cap).retained| <= cap
  {
  }

  lemma CountsConserved(ops: seq<QueueOp>, cap: nat)
    ensures var l := After(ops, cap); |Puts(ops)| == |l.retained| + |l.evicted| + |l.purged|
  {
    var l := After(ops, cap);
    LettersConserved(ops, cap);
    assert |multiset(Puts(ops))| == |Puts(ops)|;
    assert |Total(l)| == |multiset(l.retained)| + |multiset(l.evicted)| + |multiset(l.purged)|;
    assert |multiset(l.retained)| == |l.retained| && |multiset(l.evicted)| == |l.evicted|;
    assert |multiset(l.purged)| == |l.purged|;
  }

  lemma LastNAppend<T>(evicted: seq<T>, retained: seq<T>, r: T, cap: nat)
    requires retained == LastN(evicted + retained, cap)
    ensures LastN(retained + [r], cap) == LastN(evicted + retained + [r], cap)
  {
  }

  lemma EvictedInOrder<T>(evicted: seq<T>, retained: seq<T>, r: T, cap: nat)
    ensures (evicted + Overflow(retained + [r], cap)) + LastN(retained + [r], cap) == evicted + retained + [r]
  {
    hide LastN, Overflow;
    LastNSplits(retained + [r], cap);
    assert evicted + (retained + [r]) == evicted + retained + [r];
  }

  /** Without a purge the queue is exactly the last min(cap, n) records put, in order, and everything
      older was evicted, oldest first. */
  lemma {:induction false} KeepsTheNewest(ops: seq<QueueOp>, cap: nat)
    requires forall op :: op in ops ==> op.PutOp?
    ensures var l := After(ops, cap);
      && l.retained == LastN(Puts(ops), cap)
      && l.evicted + l.retained == Puts(ops)
      && |l.retained| == if |Puts(ops)| <= cap then |Puts(ops)| else cap
  {
    LastNSplits(Puts(ops), cap);
    if ops != [] {
      var init, op := ops[..|ops| - 1], ops[|ops| - 1];
      assert op in ops;
      KeepsTheNewest(init, cap);
      var before := After(init, cap);
      hide LastN, Overflow;
      LastNAppend(before.evicted, before.retained, op.record, cap);
      EvictedInOrder(before.evicted, before.retained, op.record, cap);
    }
  }

  /** Some purge was for `r`. */
  ghost predicate WasPurged(ops: seq<QueueOp>, r: Record) {
    exists k :: 0 <= k < |ops| && ops[k].PurgeOp? && Selected(r, ops[k].eventType)
  }

  /** A record counts as purged only if some purge was for it, and as evicted only if more were put than the
      queue can hold. */
  lemma {:induction false} PurgedOrEvictedForAReason(ops: seq<QueueOp>, cap: nat)
    ensures var l := After(ops, cap);
      && (forall r :: r in l.purged ==> WasPurged(ops, r))
      && (|Puts(ops)| <= cap ==> l.evicted == [] && |l.retained| <= |Puts(ops)|)
  {
    if ops != [] {
      var init, op := ops[..|ops| - 1], ops[|ops| - 1];
      PurgedOrEvictedForAReason(init, cap);
      var before, l := After(init, cap), After(ops, cap);
      forall r | r in l.purged ensures WasPurged(ops, r) {
        if r in before.purged {
          assert WasPurged(init, r);
          var k :| 0 <= k < |init| && init[k].PurgeOp? && Selected(r, init[k].eventType);
          assert ops[k] == init[k];
        } else {
          assert op.PurgeOp? && r in Picked(before.retained, op.eventType);
          assert Selected(r, op.eventType) && ops[|ops| - 1] == op;
        }
      }
    }
  }
}
