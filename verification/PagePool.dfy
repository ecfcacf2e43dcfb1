/** The bounded page pool (app/browser/pool.py). */
module PagePool {
  // Every change of the pool happens inside one critical section of its condition variable, and the only
  // place a section gives the lock away is the wait in `checkout`. A step of the protocol below is
  // therefore one critical section up to its end or its wait. Pages are identities; clock readings and
  // page creation are inputs.

  import opened Wrappers

  type Page = nat
  type Task = nat

  datatype IdlePage = IdlePage(since: real, page: Page)

  datatype Pool = Pool(idle: seq<IdlePage>, inUse: set<Page>, maxSize: nat, maxIdle: real)

  datatype Outcome = Got(page: Page) | CreationFailed | MustWait

  function Size(pool: Pool): nat { |pool.idle| + |pool.inUse| }

  function IsFull(pool: Pool): bool { Size(pool) >= pool.maxSize }

  /** The idle pages young enough to keep at time `now`, in order. */
  function Recycle(idle: seq<IdlePage>, now: real, maxIdle: real): seq<IdlePage> {
    if idle == [] then []
    else (if now - idle[0].since > maxIdle then [] else [idle[0]]) + Recycle(idle[1..], now, maxIdle)
  }

  /** The pages idle for too long, in order: the same pass closes them. */
  function Expired(idle: seq<IdlePage>, now: real, maxIdle: real): seq<Page> {
    if idle == [] then []
    else (if now - idle[0].since > maxIdle then [idle[0].page] else []) + Expired(idle[1..], now, maxIdle)
  }

  /** Hands out the oldest idle page, or a new one while there is room; `created` is what creating
      a page would give (None: it raised). */
  function Serve(p: Pool, created: Option<Page>): (Pool, Outcome) {
    if p.idle != [] then
      var page := p.idle[0].page;
      (p.(idle := p.idle[1..], inUse := p.inUse + {page}), Got(page))
    else if !IsFull(p) then
      match created
      case Some(page) => (p.(inUse := p.inUse + {page}), Got(page))
      case None => (p, CreationFailed)
    else (p, MustWait)
  }

  /** One pass of the checkout loop. */
  function Attempt(pool: Pool, now: real, created: Option<Page>): (Pool, Outcome) {
    Serve(pool.(idle := Recycle(pool.idle, now, pool.maxIdle)), created)
  }

  function ReturnPage(pool: Pool, page: Page, now: real): Pool {
    if page in pool.inUse then
      pool.(inUse := pool.inUse - {page}, idle := pool.idle + [IdlePage(now, page)])
    else pool
  }

  function Discarded(pool: Pool, page: Page): Pool { pool.(inUse := pool.inUse - {page}) }

  function Cleared(pool: Pool): Pool { pool.(idle := [], inUse := {}) }

  function Pages(idle: seq<IdlePage>): set<Page> { set i | 0 <= i < |idle| :: idle[i].page }

  // ---------------------------------------------------------------- the object

  class PagePool {
    var idle: seq<IdlePage>
    var inUse: set<Page>
    const maxSize: nat
    const maxIdle: real

    function State(): Pool
      reads this
    {
      Pool(idle, inUse, maxSize, maxIdle)
    }

    constructor (maxSize: int, maxIdle: real)
      ensures State() == Pool([], {}, if maxSize < 1 then 1 else maxSize, maxIdle)
    {
      idle, inUse := [], {};
      this.maxSize := if maxSize < 1 then 1 else maxSize;
      this.maxIdle := maxIdle;
    }

    /** Drops, and returns for closing, the pages idle for too long. */
    method RecycleIdle(now: real) returns (closed: seq<Page>)
      modifies this`idle
      ensures idle == Recycle(old(idle), now, maxIdle)
      ensures closed == Expired(old(idle), now, maxIdle)
      ensures Pages(old(idle)) == Pages(idle) + set p | p in closed
    {
      hide Pages, Recycle, Expired;
      var keep: seq<IdlePage> := [];
      closed := [];
      NoPages(now, maxIdle);
      while idle != []
        invariant keep + Recycle(idle, now, maxIdle) == Recycle(old(idle), now, maxIdle)
        invariant closed + Expired(idle, now, maxIdle) == Expired(old(idle), now, maxIdle)
        invariant Pages(old(idle)) == Pages(keep) + Pages(idle) + set p | p in closed
        decreases |idle|
      {
        var entry := idle[0];
        PagesCons(idle);
        RecycleCons(keep, idle, now, maxIdle);
        ExpiredCons(closed, idle, now, maxIdle);
        idle := idle[1..];
        if now - entry.since > maxIdle {
          closed := closed + [entry.page];
        } else {
          PagesAppend(keep, entry);
          keep := keep + [entry];
        }
      }
      NoPages(now, maxIdle);
      assert keep + [] == keep && closed + [] == closed;
      idle := keep;
    }

    /** One pass of the checkout loop, up to its return, its exception or its wait; `closed` are the pages
        it closed on the way. */
    method CheckoutAttempt(now: real, created: Option<Page>) returns (o: Outcome, closed: seq<Page>)
      modifies this
      ensures (State(), o) == Attempt(old(State()), now, created)
      ensures closed == Expired(old(idle), now, maxIdle)
    {
      closed := RecycleIdle(now);
      if idle != [] {
        var page := idle[0].page;
        idle, inUse := idle[1..], inUse + {page};
        return Got(page), closed;
      }
      if |idle| + |inUse| < maxSize {
        match created {
          case Some(page) =>
            inUse := inUse + {page};
            return Got(page), closed;
          case None =>
            return CreationFailed, closed;
        }
      }
      return MustWait, closed;
    }

    method Checkin(page: Page, now: real)
      modifies this
      ensures State() == ReturnPage(old(State()), page, now)
    {
      if page in inUse {
        inUse := inUse - {page};
        idle := idle + [IdlePage(now, page)];
      }
    }

    method Discard(page: Page)
      modifies this
      ensures State() == Discarded(old(State()), page)
    {
      inUse := inUse - {page};
    }

    /** Empties the pool; every page it knew is to be closed. */
    method Clear() returns (toClose: set<Page>)
      modifies this
      ensures State() == Cleared(old(State()))
      ensures toClose == Pages(old(idle)) + old(inUse)
    {
      toClose := Pages(idle) + inUse;
      idle, inUse := [], {};
    }
  }

  lemma NoPages(now: real, maxIdle: real)
    ensures Pages([]) == {} && Recycle([], now, maxIdle) == [] && Expired([], now, maxIdle) == []
  {
  }

  lemma RecycleCons(keep: seq<IdlePage>, idle: seq<IdlePage>, now: real, maxIdle: real)
    requires idle != []
    ensures keep + Recycle(idle, now, maxIdle)
      == (if now - idle[0].since > maxIdle then keep else keep + [idle[0]]) + Recycle(idle[1..], now, maxIdle)
  {
  }

  lemma ExpiredCons(closed: seq<Page>, idle: seq<IdlePage>, now: real, maxIdle: real)
    requires idle != []
    ensures closed + Expired(idle, now, maxIdle)
      == (if now - idle[0].since > maxIdle then closed + [idle[0].page] else closed) + Expired(idle[1..], now, maxIdle)
  {
  }

  lemma PagesCons(idle: seq<IdlePage>)
    requires idle != []
    ensures Pages(idle) == {idle[0].page} + Pages(idle[1..])
  {
    forall p | p in Pages(idle) ensures p in {idle[0].page} + Pages(idle[1..]) {
      var i :| 0 <= i < |idle| && idle[i].page == p;
      if i > 0 { assert idle[1..][i - 1].page == p; }
    }
  }

  lemma PagesAppend(idle: seq<IdlePage>, entry: IdlePage)
    ensures Pages(idle + [entry]) == Pages(idle) + {entry.page}
  {
    var all := idle + [entry];
    forall p | p in Pages(idle) ensures p in Pages(all) {
      var i :| 0 <= i < |idle| && idle[i].page == p;
      assert all[i].page == p;
    }
    assert all[|idle|].page == entry.page;
  }

  // ---------------------------------------------------------------- the protocol

  /** A task inside `checkout` that gave the lock away in its wait. */
  datatype Waiter = Waiter(deadline: real, notified: bool)

  /** `issued` remembers every page ever handed out, and `closed` those of them that were closed; `clock`
      is the last clock reading. */
  datatype System = System(
    pool: Pool, clock: real, waiters: map<Task, Waiter>, issued: set<Page>, closed: set<Page>, timeout: real)

  /** Clock readings of one pass: when recycling, and when deciding whether to wait. */
  datatype Event =
    | Begin(task: Task, start: real, scan: real, later: real, created: Option<Page>)
    | Resume(task: Task, scan: real, later: real, created: Option<Page>)
    | Expire(task: Task)
    | CheckinOf(page: Page, now: real)
    | DiscardOf(page: Page)
    | ClearAll

  function NotifyAll(waiters: map<Task, Waiter>): map<Task, Waiter> {
    map t | t in waiters :: waiters[t].(notified := true)
  }

  ghost predicate Enabled(s: System, e: Event) {
    match e
    case Begin(t, start, scan, later, created) =>
      && t !in s.waiters && s.clock <= start <= scan <= later
      && (created.Some? ==> created.value !in s.issued)
    case Resume(t, scan, later, created) =>
      && t in s.waiters && s.waiters[t].notified && s.clock <= scan <= later
      && (created.Some? ==> created.value !in s.issued)
    case Expire(t) => t in s.waiters
    case CheckinOf(page, now) => s.clock <= now
    case DiscardOf(page) => true
    case ClearAll => true
  }

  /** A pass by task `t`: it leaves with a page or an exception, or starts to wait. */
  function PassOf(s: System, t: Task, deadline: real, scan: real, later: real, created: Option<Page>): System {
    var (pool, o) := Attempt(s.pool, scan, created);
    var expired := set p | p in Expired(s.pool.idle, scan, s.pool.maxIdle);
    var after := s.(pool := pool, clock := later, issued := s.issued + pool.inUse, closed := s.closed + expired);
    if o.MustWait? && deadline - later > 0.0 then
      after.(waiters := s.waiters[t := Waiter(deadline, false)])
    else after.(waiters := s.waiters - {t})
  }

  function Apply(s: System, e: Event): System
    requires Enabled(s, e)
  {
    match e
    case Begin(t, start, scan, later, created) => PassOf(s, t, start + s.timeout, scan, later, created)
    case Resume(t, scan, later, created) => PassOf(s, t, s.waiters[t].deadline, scan, later, created)
    case Expire(t) => s.(waiters := s.waiters - {t})
    case CheckinOf(page, now) =>
      s.(pool := ReturnPage(s.pool, page, now), clock := now, waiters := NotifyAll(s.waiters))
    case DiscardOf(page) =>
      s.(pool := Discarded(s.pool, page), closed := s.closed + ({page} * s.issued), waiters := NotifyAll(s.waiters))
    case ClearAll =>
      s.(pool := Cleared(s.pool), closed := s.closed + Pages(s.pool.idle) + s.pool.inUse,
         waiters := NotifyAll(s.waiters))
  }

  /** The page an event hands to its task. */
  function HandsOut(s: System, e: Event): Option<Page>
    requires Enabled(s, e)
  {
    match e
    case Begin(t, _, scan, _, created) =>
      var o := Attempt(s.pool, scan, created).1; if o.Got? then Some(o.page) else None
    case Resume(t, scan, _, created) =>
      var o := Attempt(s.pool, scan, created).1; if o.Got? then Some(o.page) else None
    case _ => None
  }

  ghost predicate Exhausted(pool: Pool) { pool.idle == [] && |pool.inUse| == pool.maxSize }

  /** Idle pages are distinct and queue in the order they came back. */
  ghost predicate Ordered(idle: seq<IdlePage>) {
    forall i, j :: 0 <= i < j < |idle| ==> idle[i].page != idle[j].page && idle[i].since <= idle[j].since
  }

  /** Idle pages are not in use, have been issued, and came back before `clock`. */
  ghost predicate Apart(idle: seq<IdlePage>, inUse: set<Page>, issued: set<Page>, clock: real) {
    forall e :: e in idle ==> e.page !in inUse && e.page in issued && e.since <= clock
  }

  ghost predicate PoolInv(pool: Pool, issued: set<Page>, clock: real) {
    && pool.maxSize >= 1
    && Size(pool) <= pool.maxSize
    && Ordered(pool.idle)
    && Apart(pool.idle, pool.inUse, issued, clock)
    && pool.inUse <= issued
  }

  /** No lost wake-up: a task still asleep means no page is idle and all are in use. */
  ghost predicate NoLostWakeup(s: System) {
    forall t :: t in s.waiters && !s.waiters[t].notified ==> Exhausted(s.pool)
  }

  ghost predicate Inv(s: System) {
    PoolInv(s.pool, s.issued, s.clock) && NoLostWakeup(s)
  }

  /** A freshly built pool. */
  ghost predicate Initial(s: System) {
    && s.pool.maxSize >= 1 && s.pool.idle == [] && s.pool.inUse == {}
    && s.waiters == map[] && s.issued == {} && s.closed == {}
  }

  lemma {:induction false} RecycleKeeps(idle: seq<IdlePage>, now: real, maxIdle: real)
    ensures var kept := Recycle(idle, now, maxIdle);
      && |kept| <= |idle|
      && (forall e :: e in kept <==> e in idle && now - e.since <= maxIdle)
  {
    if idle != [] { RecycleKeeps(idle[1..], now, maxIdle); }
  }

  lemma PrependOrdered(entry: IdlePage, rest: seq<IdlePage>)
    requires Ordered(rest)
    requires forall e :: e in rest ==> entry.page != e.page && entry.since <= e.since
    ensures Ordered([entry] + rest)
  {
    var all := [entry] + rest;
    forall i, j | 0 <= i < j < |all| ensures all[i].page != all[j].page && all[i].since <= all[j].since {
      assert all[j] == rest[j - 1] && rest[j - 1] in rest;
      if i > 0 { assert all[i] == rest[i - 1]; }
    }
  }

  lemma {:induction false} RecycleOrdered(idle: seq<IdlePage>, now: real, maxIdle: real)
    requires Ordered(idle)
    ensures Ordered(Recycle(idle, now, maxIdle))
  {
    if idle != [] {
      var rest := Recycle(idle[1..], now, maxIdle);
      RecycleOrdered(idle[1..], now, maxIdle);
      RecycleKeeps(idle[1..], now, maxIdle);
      forall e | e in rest ensures idle[0].page != e.page && idle[0].since <= e.since {
        var k :| 0 <= k < |idle[1..]| && idle[1..][k] == e;
        assert idle[k + 1] == e;
      }
      PrependOrdered(idle[0], rest);
      assert now - idle[0].since > maxIdle ==> Recycle(idle, now, maxIdle) == rest;
    }
  }

  lemma RecycleKeepsPool(pool: Pool, issued: set<Page>, clock: real, now: real)
    requires PoolInv(pool, issued, clock) && clock <= now
    ensures PoolInv(pool.(idle := Recycle(pool.idle, now, pool.maxIdle)), issued, now)
  {
    RecycleKeeps(pool.idle, now, pool.maxIdle);
    RecycleOrdered(pool.idle, now, pool.maxIdle);
  }

  lemma TakingKeepsPool(pool: Pool, issued: set<Page>, clock: real)
    requires PoolInv(pool, issued, clock) && pool.idle != []
    ensures PoolInv(pool.(idle := pool.idle[1..], inUse := pool.inUse + {pool.idle[0].page}), issued, clock)
  {
    assert pool.idle[0] in pool.idle;
    forall e | e in pool.idle[1..] ensures e.page != pool.idle[0].page && e in pool.idle {
      var k :| 0 <= k < |pool.idle[1..]| && pool.idle[1..][k] == e;
      assert pool.idle[k + 1] == e;
    }
  }

  lemma CreatingKeepsPool(pool: Pool, issued: set<Page>, clock: real, page: Page)
    requires PoolInv(pool, issued, clock) && !IsFull(pool) && page !in issued
    ensures PoolInv(pool.(inUse := pool.inUse + {page}), issued + {page}, clock)
  {
  }

  lemma ServeKeepsPool(p: Pool, issued: set<Page>, clock: real, created: Option<Page>)
    requires PoolInv(p, issued, clock)
    requires created.Some? ==> created.value !in issued
    ensures var after := Serve(p, created).0; PoolInv(after, issued + after.inUse, clock)
  {
    KnownPages(p, issued, clock);
    hide PoolInv;
    if p.idle != [] {
      TakingKeepsPool(p, issued, clock);
      assert issued + (p.inUse + {p.idle[0].page}) == issued;
    } else if !IsFull(p) && created.Some? {
      CreatingKeepsPool(p, issued, clock, created.value);
      assert issued + (p.inUse + {created.value}) == issued + {created.value};
    } else {
      assert issued + p.inUse == issued;
    }
  }

  lemma KnownPages(p: Pool, issued: set<Page>, clock: real)
    requires PoolInv(p, issued, clock)
    ensures p.inUse <= issued && (p.idle != [] ==> p.idle[0].page in issued)
  {
    assert p.idle != [] ==> p.idle[0] in p.idle;
  }

  lemma AttemptKeepsPool(pool: Pool, issued: set<Page>, clock: real, now: real, created: Option<Page>)
    requires PoolInv(pool, issued, clock) && clock <= now
    requires created.Some? ==> created.value !in issued
    ensures var p := Attempt(pool, now, created).0; PoolInv(p, issued + p.inUse, now)
  {
    hide PoolInv, Serve;
    RecycleKeepsPool(pool, issued, clock, now);
    ServeKeepsPool(pool.(idle := Recycle(pool.idle, now, pool.maxIdle)), issued, now, created);
  }

  /** A pass waits only on an exhausted pool, and on an exhausted pool it changes nothing. */
  lemma WaitsWhenExhausted(pool: Pool, issued: set<Page>, clock: real, now: real, created: Option<Page>)
    requires PoolInv(pool, issued, clock)
    ensures var (p, o) := Attempt(pool, now, created);
      && (o.MustWait? ==> Exhausted(p))
      && (Exhausted(pool) ==> o.MustWait? && p == pool)
  {
    RecycleKeeps(pool.idle, now, pool.maxIdle);
  }

  lemma LaterClock(pool: Pool, issued: set<Page>, clock: real, later: real)
    requires PoolInv(pool, issued, clock) && clock <= later
    ensures PoolInv(pool, issued, later)
  {
  }

  lemma ReturnKeepsPool(pool: Pool, issued: set<Page>, clock: real, page: Page, now: real)
    requires PoolInv(pool, issued, clock) && clock <= now
    ensures PoolInv(ReturnPage(pool, page, now), issued, now)
  {
    LaterClock(pool, issued, clock, now);
    if page in pool.inUse {
      var entry := IdlePage(now, page);
      var all := pool.idle + [entry];
      forall i, j | 0 <= i < j < |all| ensures all[i].page != all[j].page && all[i].since <= all[j].since {
        assert all[i] == pool.idle[i] && pool.idle[i] in pool.idle;
      }
    }
  }

  lemma PassKeepsInv(s: System, t: Task, deadline: real, scan: real, later: real, created: Option<Page>)
    requires Inv(s) && s.clock <= scan <= later && (created.Some? ==> created.value !in s.issued)
    ensures Inv(PassOf(s, t, deadline, scan, later, created))
  {
    AttemptKeepsPool(s.pool, s.issued, s.clock, scan, created);
    WaitsWhenExhausted(s.pool, s.issued, s.clock, scan, created);
    var (p, o) := Attempt(s.pool, scan, created);
    LaterClock(p, s.issued + p.inUse, scan, later);
  }

  /** Every step keeps the invariant. */
  lemma StepKeepsInv(s: System, e: Event)
    requires Inv(s) && Enabled(s, e)
    ensures Inv(Apply(s, e))
  {
    match e
    case Begin(t, start, scan, later, created) => PassKeepsInv(s, t, start + s.timeout, scan, later, created);
    case Resume(t, scan, later, created) => PassKeepsInv(s, t, s.waiters[t].deadline, scan, later, created);
    case Expire(t) =>
    case CheckinOf(page, now) => ReturnKeepsPool(s.pool, s.issued, s.clock, page, now);
    case DiscardOf(page) =>
    case ClearAll =>
  }

  // ---------------------------------------------------------------- whole runs

  ghost predicate ValidRun(s: System, es: seq<Event>)
    decreases |es|
  {
    es == [] || (Enabled(s, es[0]) && ValidRun(Apply(s, es[0]), es[1..]))
  }

  ghost function After(s: System, es: seq<Event>): System
    requires ValidRun(s, es)
    decreases |es|
  {
    if es == [] then s else After(Apply(s, es[0]), es[1..])
  }

  /** Whatever the interleaving: the bound holds, no page is both idle and in use, and a task still
      asleep means the pool is exhausted. */
  lemma {:induction false} RunKeepsInv(s: System, es: seq<Event>)
    requires Inv(s) && ValidRun(s, es)
    ensures Inv(After(s, es))
    decreases |es|
  {
    if es != [] {
      StepKeepsInv(s, es[0]);
      RunKeepsInv(Apply(s, es[0]), es[1..]);
    }
  }

  lemma ReachableIsSafe(s: System, es: seq<Event>)
    requires Initial(s) && ValidRun(s, es)
    ensures var r := After(s, es);
      && Size(r.pool) <= r.pool.maxSize
      && Pages(r.pool.idle) !! r.pool.inUse
      && |Pages(r.pool.idle)| == |r.pool.idle|
      && NoLostWakeup(r)
  {
    RunKeepsInv(s, es);
    var idle := After(s, es).pool.idle;
    assert forall i :: 0 <= i < |idle| ==> idle[i] in idle;
    DistinctPages(idle);
  }

  lemma {:induction false} DistinctPages(idle: seq<IdlePage>)
    requires forall i, j :: 0 <= i < j < |idle| ==> idle[i].page != idle[j].page
    ensures |Pages(idle)| == |idle|
  {
    if idle != [] {
      DistinctPages(idle[1..]);
      PagesCons(idle);
      assert idle[0].page !in Pages(idle[1..]);
    }
  }

  /** While there is room, every waiting task has been notified, and whichever runs next leaves with
      a page unless creating one raises. */
  lemma RoomServesEveryWaiter(s: System, t: Task, scan: real, later: real, created: Option<Page>)
    requires Inv(s) && t in s.waiters && !Exhausted(s.pool)
    requires s.clock <= scan <= later && (created.Some? ==> created.value !in s.issued)
    ensures Enabled(s, Resume(t, scan, later, created))
    ensures var e := Resume(t, scan, later, created);
      && t !in Apply(s, e).waiters
      && (created.Some? ==> HandsOut(s, e).Some? && HandsOut(s, e).value in Apply(s, e).pool.inUse)
  {
    RecycleKeeps(s.pool.idle, scan, s.pool.maxIdle);
  }

  /** `page` waited at position `i`, not too long, and everything queued before it was too old. */
  ghost predicate FirstYoung(pool: Pool, scan: real, page: Page, i: nat) {
    && i < |pool.idle| && pool.idle[i].page == page
    && scan - pool.idle[i].since <= pool.maxIdle
    && forall j :: 0 <= j < i ==> scan - pool.idle[j].since > pool.maxIdle
  }

  /** A page handed out was not in use; it is fresh, or it is the longest idle of the pages idle for
      at most `maxIdle`, older ones being closed by the same pass. */
  lemma HandedOutPageIsYoung(s: System, e: Event)
    requires Inv(s) && Enabled(s, e) && HandsOut(s, e).Some?
    ensures var page := HandsOut(s, e).value;
      && page !in s.pool.inUse && page in Apply(s, e).pool.inUse
      && (page !in s.issued || exists i :: FirstYoung(s.pool, e.scan, page, i))
  {
    if Recycle(s.pool.idle, e.scan, s.pool.maxIdle) != [] {
      var i := FirstKept(s.pool.idle, e.scan, s.pool.maxIdle);
      assert s.pool.idle[i] in s.pool.idle;
      assert FirstYoung(s.pool, e.scan, HandsOut(s, e).value, i);
    }
  }

  lemma {:induction false} FirstKept(idle: seq<IdlePage>, now: real, maxIdle: real) returns (i: nat)
    requires Recycle(idle, now, maxIdle) != []
    ensures i < |idle| && idle[i] == Recycle(idle, now, maxIdle)[0] && now - idle[i].since <= maxIdle
    ensures forall j :: 0 <= j < i ==> now - idle[j].since > maxIdle
  {
    if now - idle[0].since > maxIdle {
      i := FirstKept(idle[1..], now, maxIdle);
      i := i + 1;
    } else {
      i := 0;
    }
  }

  /** A page stays with the task it was handed to: until somebody checks it in, no step of any run
      hands it out again. */
  lemma {:induction false} NeverHeldTwice(s: System, es: seq<Event>, page: Page, k: nat)
    requires Inv(s) && ValidRun(s, es) && k < |es|
    requires page in s.issued && page !in Pages(s.pool.idle)
    requires forall i, now :: 0 <= i < |es| ==> es[i] != CheckinOf(page, now)
    ensures ValidRun(s, es[..k]) && Enabled(After(s, es[..k]), es[k])
    ensures HandsOut(After(s, es[..k]), es[k]) != Some(page)
    decreases |es|
  {
    StepKeepsInv(s, es[0]);
    StaysAway(s, es[0], page);
    if k > 0 {
      var rest := es[1..];
      forall i, now | 0 <= i < |rest| ensures rest[i] != CheckinOf(page, now) { assert rest[i] == es[i + 1]; }
      NeverHeldTwice(Apply(s, es[0]), rest, page, k - 1);
      assert es[..k][1..] == rest[..k - 1];
    }
  }

  lemma StaysAway(s: System, e: Event, page: Page)
    requires Inv(s) && Enabled(s, e) && page in s.issued && page !in Pages(s.pool.idle)
    requires forall now :: e != CheckinOf(page, now)
    ensures HandsOut(s, e) != Some(page)
    ensures page in Apply(s, e).issued && page !in Pages(Apply(s, e).pool.idle)
  {
    match e
    case Begin(t, start, scan, later, created) => KeptAway(s.pool, scan, created, page);
    case Resume(t, scan, later, created) => KeptAway(s.pool, scan, created, page);
    case Expire(t) =>
    case CheckinOf(other, now) =>
      assert other != page;
      PagesAppend(s.pool.idle, IdlePage(now, other));
    case DiscardOf(other) =>
    case ClearAll =>
  }

  lemma KeptAway(pool: Pool, now: real, created: Option<Page>, page: Page)
    requires page !in Pages(pool.idle) && created != Some(page)
    ensures Attempt(pool, now, created).1 != Got(page)
    ensures page !in Pages(Attempt(pool, now, created).0.idle)
  {
    var kept := Recycle(pool.idle, now, pool.maxIdle);
    RecycleKeeps(pool.idle, now, pool.maxIdle);
    forall i | 0 <= i < |kept| ensures kept[i].page != page {
      assert kept[i] in kept;
      var k :| 0 <= k < |pool.idle| && pool.idle[k] == kept[i];
    }
    var p := Attempt(pool, now, created).0;
    forall i | 0 <= i < |p.idle| ensures p.idle[i].page != page {
      if kept != [] { assert p.idle[i] == kept[i + 1]; }
    }
  }

  // ---------------------------------------------------------------- what becomes of every page

  ghost predicate Parts(all: set<Page>, idle: set<Page>, inUse: set<Page>, closed: set<Page>) {
    all == idle + inUse + closed && idle !! inUse && idle !! closed && inUse !! closed
  }

  /** Every page ever issued is idle, in use or closed, and only one of the three. */
  ghost predicate Accounted(s: System) { Parts(s.issued, Pages(s.pool.idle), s.pool.inUse, s.closed) }

  /** Recycling closes the pages idle for too long. */
  lemma {:induction false} ExpiredAreOld(idle: seq<IdlePage>, now: real, maxIdle: real)
    ensures forall p ::
      p in Expired(idle, now, maxIdle) <==> exists e :: e in idle && e.page == p && now - e.since > maxIdle
  {
    if idle != [] {
      var rest := idle[1..];
      ExpiredAreOld(rest, now, maxIdle);
      assert idle == [idle[0]] + rest;
      forall p
        ensures p in Expired(idle, now, maxIdle) <==> exists e :: e in idle && e.page == p && now - e.since > maxIdle
      {
        if e: IdlePage :| e in rest && e.page == p && now - e.since > maxIdle { assert e in idle; }
      }
    }
  }

  /** What recycling does not close it keeps. */
  lemma {:induction false} RecycleSplits(idle: seq<IdlePage>, now: real, maxIdle: real)
    ensures Pages(idle) == Pages(Recycle(idle, now, maxIdle)) + set p | p in Expired(idle, now, maxIdle)
  {
    if idle != [] {
      RecycleSplits(idle[1..], now, maxIdle);
      var kept, expired := Recycle(idle[1..], now, maxIdle), Expired(idle[1..], now, maxIdle);
      PagesCons(idle);
      PagesCons([idle[0]] + kept);
      assert ([idle[0]] + kept)[1..] == kept;
      assert [] + kept == kept && [] + expired == expired;
      hide Pages;
    } else {
      NoPages(now, maxIdle);
    }
  }

  lemma IdleOnce(idle: seq<IdlePage>, a: IdlePage, b: IdlePage)
    requires Ordered(idle) && a in idle && b in idle && a.page == b.page
    ensures a == b
  {
  }

  /** In an ordered queue no page is both kept and closed. */
  lemma RecycleParts(idle: seq<IdlePage>, now: real, maxIdle: real)
    requires Ordered(idle)
    ensures Pages(Recycle(idle, now, maxIdle)) !! set p | p in Expired(idle, now, maxIdle)
  {
    var kept := Recycle(idle, now, maxIdle);
    RecycleKeeps(idle, now, maxIdle);
    ExpiredAreOld(idle, now, maxIdle);
    forall p | p in Pages(kept) && p in Expired(idle, now, maxIdle) ensures false {
      var i :| 0 <= i < |kept| && kept[i].page == p;
      var e :| e in idle && e.page == p && now - e.since > maxIdle;
      assert kept[i] in kept;
      IdleOnce(idle, kept[i], e);
    }
  }

  lemma ServeAccounts(p: Pool, created: Option<Page>)
    requires forall i, j :: 0 <= i < j < |p.idle| ==> p.idle[i].page != p.idle[j].page
    ensures var (after, o) := Serve(p, created);
      match o
      case Got(page) =>
        && after.inUse == p.inUse + {page}
        && Pages(after.idle) == Pages(p.idle) - {page}
        && (if p.idle == [] then created == Some(page) else page in Pages(p.idle))
      case _ => after == p
  {
    if p.idle != [] {
      PagesCons(p.idle);
      assert p.idle[0].page !in Pages(p.idle[1..]);
    }
  }

  /** A pass that closes `expired` and then hands out `got`, if anything. */
  lemma PartsOfPass(all: set<Page>, idle: set<Page>, inUse: set<Page>, closed: set<Page>, kept: set<Page>,
                    expired: set<Page>, got: Option<Page>)
    requires Parts(all, idle, inUse, closed) && idle == kept + expired && kept !! expired
    requires got.Some? ==> got.value in kept || (kept == {} && got.value !in all)
    ensures var taken := if got.Some? then {got.value} else {};
      Parts(all + (inUse + taken), kept - taken, inUse + taken, closed + expired)
  {
  }

  ghost function Taken(o: Outcome): Option<Page> { if o.Got? then Some(o.page) else None }

  lemma ServeParts(p: Pool, created: Option<Page>, all: set<Page>)
    requires forall i, j :: 0 <= i < j < |p.idle| ==> p.idle[i].page != p.idle[j].page
    requires created.Some? ==> created.value !in all
    ensures var (after, o) := Serve(p, created);
      var got := Taken(o);
      var taken := if got.Some? then {got.value} else {};
      && (got.Some? ==> got.value in Pages(p.idle) || (Pages(p.idle) == {} && got.value !in all))
      && after.inUse == p.inUse + taken
      && Pages(after.idle) == Pages(p.idle) - taken
  {
    ServeAccounts(p, created);
    NoPages(0.0, 0.0);
    hide Pages, Serve;
  }

  lemma AttemptAccounts(pool: Pool, issued: set<Page>, clock: real, closed: set<Page>, scan: real,
    created: Option<Page>)
    requires PoolInv(pool, issued, clock) && clock <= scan && (created.Some? ==> created.value !in issued)
    requires Parts(issued, Pages(pool.idle), pool.inUse, closed)
    ensures var after := Attempt(pool, scan, created).0;
      Parts(issued + after.inUse, Pages(after.idle), after.inUse,
            closed + set p | p in Expired(pool.idle, scan, pool.maxIdle))
  {
    var kept := Recycle(pool.idle, scan, pool.maxIdle);
    var expired := set p | p in Expired(pool.idle, scan, pool.maxIdle);
    RecycleSplits(pool.idle, scan, pool.maxIdle);
    RecycleParts(pool.idle, scan, pool.maxIdle);
    RecycleKeepsPool(pool, issued, clock, scan);
    ServeParts(pool.(idle := kept), created, issued);
    hide PoolInv, Recycle, Expired, Pages, Serve, Parts;
    var taken := Taken(Attempt(pool, scan, created).1);
    PartsOfPass(issued, Pages(pool.idle), pool.inUse, closed, Pages(kept), expired, taken);
  }

  lemma PassAccounts(s: System, t: Task, deadline: real, scan: real, later: real, created: Option<Page>)
    requires Inv(s) && Accounted(s) && s.clock <= scan <= later && (created.Some? ==> created.value !in s.issued)
    ensures Accounted(PassOf(s, t, deadline, scan, later, created))
  {
    AttemptAccounts(s.pool, s.issued, s.clock, s.closed, scan, created);
    hide Parts, Attempt, Pages, Expired, PoolInv;
  }

  lemma CheckinAccounts(s: System, page: Page, now: real)
    requires Accounted(s) && s.clock <= now
    ensures Accounted(Apply(s, CheckinOf(page, now)))
  {
    if page in s.pool.inUse {
      PagesAppend(s.pool.idle, IdlePage(now, page));
      hide Pages;
    }
  }

  lemma DiscardAccountsIff(s: System, page: Page)
    requires Accounted(s)
    ensures Accounted(Apply(s, DiscardOf(page))) <==> page !in Pages(s.pool.idle)
  {
    hide Pages;
    var after := Apply(s, DiscardOf(page));
    if page in Pages(s.pool.idle) { assert page in after.closed; }
  }

  lemma ClearAccounts(s: System)
    requires Accounted(s)
    ensures Accounted(Apply(s, ClearAll))
  {
    NoPages(0.0, 0.0);
    hide Pages;
  }

  /** A step keeps the account exactly when it does not discard a page that is idle: such a page is closed
      and yet stays in the queue. */
  lemma StepAccountsIff(s: System, e: Event)
    requires Inv(s) && Accounted(s) && Enabled(s, e)
    ensures Accounted(Apply(s, e)) <==> !(e.DiscardOf? && e.page in Pages(s.pool.idle))
  {
    hide Accounted, Inv, Pages, PassOf, Recycle;
    match e
    case Begin(t, start, scan, later, created) => PassAccounts(s, t, start + s.timeout, scan, later, created);
    case Resume(t, scan, later, created) => PassAccounts(s, t, s.waiters[t].deadline, scan, later, created);
    case Expire(t) => SameAccount(s, Apply(s, e));
    case CheckinOf(page, now) => CheckinAccounts(s, page, now);
    case DiscardOf(page) => DiscardAccountsIff(s, page);
    case ClearAll => ClearAccounts(s);
  }

  lemma SameAccount(s: System, after: System)
    requires Accounted(s) && after.pool == s.pool && after.issued == s.issued && after.closed == s.closed
    ensures Accounted(after)
  {
  }

  /** No step of the run discards a page while it is idle. */
  ghost predicate DiscardsNoIdle(s: System, es: seq<Event>)
    requires ValidRun(s, es)
    decreases |es|
  {
    es != [] ==> !(es[0].DiscardOf? && es[0].page in Pages(s.pool.idle)) && DiscardsNoIdle(Apply(s, es[0]), es[1..])
  }

  /** The account holds before the run, after it, and after each of its steps. */
  ghost predicate AccountedThroughout(s: System, es: seq<Event>)
    requires ValidRun(s, es)
    decreases |es|
  {
    Accounted(s) && (es != [] ==> AccountedThroughout(Apply(s, es[0]), es[1..]))
  }

  /** No page is ever lost or counted twice, in any interleaving, exactly as long as nobody discards a page
      that is idle. */
  lemma {:induction false} PagesConservedIff(s: System, es: seq<Event>)
    requires Inv(s) && Accounted(s) && ValidRun(s, es)
    ensures AccountedThroughout(s, es) <==> DiscardsNoIdle(s, es)
    decreases |es|
  {
    if es != [] {
      StepKeepsInv(s, es[0]);
      StepAccountsIff(s, es[0]);
      var next := Apply(s, es[0]);
      hide Apply, Inv, Accounted, Pages;
      if Accounted(next) {
        PagesConservedIff(next, es[1..]);
      } else {
        assert !AccountedThroughout(next, es[1..]);
      }
    }
  }

  /** A page is closed only for being idle too long, by a discard, or by a clear. */
  lemma ClosedForAReason(s: System, e: Event, page: Page)
    requires Inv(s) && Enabled(s, e) && page in Apply(s, e).closed && page !in s.closed
    ensures || ((e.Begin? || e.Resume?)
                && exists i :: i in s.pool.idle && i.page == page && e.scan - i.since > s.pool.maxIdle)
            || e == DiscardOf(page)
            || (e.ClearAll? && (page in s.pool.inUse || page in Pages(s.pool.idle)))
  {
    if e.Begin? || e.Resume? { ExpiredAreOld(s.pool.idle, e.scan, s.pool.maxIdle); }
    hide Pages, Expired, Recycle;
  }

  /** The input for which the account fails: a page is checked out, checked in, and discarded by the caller
      that still knows it. The next checkout hands the closed page out. */
  lemma IdleDiscardIsHandedOut(s: System)
    requires Initial(s) && s.clock == 0.0 && s.pool.maxIdle >= 0.0
    ensures var es := [Begin(1, 0.0, 0.0, 0.0, Some(7)), CheckinOf(7, 0.0), DiscardOf(7)];
      && ValidRun(s, es)
      && var after := After(s, es);
         var again := Begin(2, 0.0, 0.0, 0.0, Some(8));
         && 7 in after.closed && Enabled(after, again) && HandsOut(after, again) == Some(7)
  {
    var es := [Begin(1, 0.0, 0.0, 0.0, Some(7)), CheckinOf(7, 0.0), DiscardOf(7)];
    var s1 := Apply(s, es[0]);
    SevenComesOut(s);
    var s2 := Apply(s1, es[1]);
    SevenGoesBack(s1);
    var s3 := Apply(s2, es[2]);
    assert es[1..] == [es[1], es[2]] && es[1..][1..] == [es[2]] && es[1..][1..][1..] == [];
    OneYoung(IdlePage(0.0, 7), 0.0, s.pool.maxIdle);
    assert HandsOut(s3, Begin(2, 0.0, 0.0, 0.0, Some(8))) == Some(7);
    hide Apply;
    assert ValidRun(s3, []) && ValidRun(s2, es[1..][1..]) && ValidRun(s1, es[1..]) && ValidRun(s, es);
    assert After(s3, []) == s3 && After(s2, es[1..][1..]) == s3 && After(s1, es[1..]) == s3;
  }

  lemma SevenComesOut(s: System)
    requires Initial(s) && s.clock == 0.0
    ensures var e := Begin(1, 0.0, 0.0, 0.0, Some(7));
      Enabled(s, e) && var t := Apply(s, e);
      t.pool == s.pool.(inUse := {7}) && t.issued == {7} && t.clock == 0.0 && t.waiters == map[] && t.closed == {}
  {
    NoPages(0.0, s.pool.maxIdle);
  }

  lemma SevenGoesBack(s: System)
    requires s.pool.inUse == {7} && s.pool.idle == [] && s.issued == {7} && s.clock == 0.0 && s.waiters == map[]
    ensures var t := Apply(s, CheckinOf(7, 0.0));
      t == s.(pool := s.pool.(inUse := {}, idle := [IdlePage(0.0, 7)]), waiters := t.waiters) && t.waiters == map[]
  {
    assert [] + [IdlePage(0.0, 7)] == [IdlePage(0.0, 7)];
    assert {7} - {7} == {};
  }

  lemma OneYoung(entry: IdlePage, now: real, maxIdle: real)
    requires now - entry.since <= maxIdle
    ensures Recycle([entry], now, maxIdle) == [entry]
  {
    assert [entry][1..] == [];
  }

  // ---------------------------------------------------------------- reuse

  lemma YoungIsServed(s: System, e: Event)
    requires Enabled(s, e) && (e.Begin? || e.Resume?)
    requires exists i :: i in s.pool.idle && e.scan - i.since <= s.pool.maxIdle
    ensures HandsOut(s, e).Some? && exists i :: FirstYoung(s.pool, e.scan, HandsOut(s, e).value, i)
  {
    var i :| i in s.pool.idle && e.scan - i.since <= s.pool.maxIdle;
    RecycleKeeps(s.pool.idle, e.scan, s.pool.maxIdle);
    assert i in Recycle(s.pool.idle, e.scan, s.pool.maxIdle);
    var k := FirstKept(s.pool.idle, e.scan, s.pool.maxIdle);
    hide Recycle;
    assert FirstYoung(s.pool, e.scan, HandsOut(s, e).value, k);
  }

  lemma CreatedIsServed(s: System, e: Event)
    requires Enabled(s, e) && (e.Begin? || e.Resume?)
    requires forall i :: i in s.pool.idle ==> e.scan - i.since > s.pool.maxIdle
    ensures HandsOut(s, e) == if |s.pool.inUse| < s.pool.maxSize then e.created else None
  {
    KeepsNone(s.pool.idle, e.scan, s.pool.maxIdle);
    hide Recycle;
  }

  lemma {:induction false} KeepsNone(idle: seq<IdlePage>, now: real, maxIdle: real)
    requires forall i :: i in idle ==> now - i.since > maxIdle
    ensures Recycle(idle, now, maxIdle) == []
  {
    if idle != [] { KeepsNone(idle[1..], now, maxIdle); }
  }

  /** While an idle page is young enough a pass creates none: it hands out the first young page. Only
      without one is the page it hands out a new one, the one it created. */
  lemma YoungPageComesFirst(s: System, e: Event)
    requires Enabled(s, e) && (e.Begin? || e.Resume?)
    ensures (exists i :: i in s.pool.idle && e.scan - i.since <= s.pool.maxIdle) ==>
      HandsOut(s, e).Some? && exists i :: FirstYoung(s.pool, e.scan, HandsOut(s, e).value, i)
    ensures (forall i :: i in s.pool.idle ==> e.scan - i.since > s.pool.maxIdle) ==>
      HandsOut(s, e) == if |s.pool.inUse| < s.pool.maxSize then e.created else None
  {
    hide FirstYoung, HandsOut;
    if exists i :: i in s.pool.idle && e.scan - i.since <= s.pool.maxIdle {
      YoungIsServed(s, e);
    } else {
      CreatedIsServed(s, e);
    }
  }

  /** The round trip: a page in use, checked in while nothing is idle, is what the next pass hands out if it
      comes within `maxIdle`, whatever that pass would have created. */
  lemma ReturnedPageIsReused(s: System, page: Page, now: real, e: Event)
    requires Inv(s) && page in s.pool.inUse && s.pool.idle == [] && s.clock <= now
    requires var back := Apply(s, CheckinOf(page, now));
      Enabled(back, e) && (e.Begin? || e.Resume?) && e.scan - now <= s.pool.maxIdle
    ensures HandsOut(Apply(s, CheckinOf(page, now)), e) == Some(page)
  {
    OneYoung(IdlePage(now, page), e.scan, s.pool.maxIdle);
    assert [] + [IdlePage(now, page)] == [IdlePage(now, page)];
  }

  /** A page checked in goes behind those already idle, with the time it came. */
  lemma ReturnedPageIsLast(s: System, page: Page, now: real)
    requires Inv(s) && page in s.pool.inUse && s.clock <= now
    ensures var after := Apply(s, CheckinOf(page, now)).pool;
      && |after.idle| == |s.pool.idle| + 1 && after.idle[|s.pool.idle|] == IdlePage(now, page)
      && (forall i :: 0 <= i < |s.pool.idle| ==> after.idle[i] == s.pool.idle[i])
      && page !in after.inUse
  {
  }

  // ---------------------------------------------------------------- deadlines

  /** A task that begins to wait may wait until its timeout; waiting on, it keeps that deadline. It gives up
      without a page and without an error in creating one only when the deadline has come. */
  lemma WaitsUntilDeadline(s: System, e: Event)
    requires Inv(s) && Enabled(s, e) && (e.Begin? || e.Resume?)
    ensures var after := Apply(s, e);
      var deadline := if e.Begin? then e.start + s.timeout else s.waiters[e.task].deadline;
      && (e.task in after.waiters ==> after.waiters[e.task] == Waiter(deadline, false) && e.later < deadline)
      && (e.task !in after.waiters && HandsOut(s, e).None? ==> e.created.None? || deadline <= e.later)
      && (forall t :: t != e.task ==> (t in after.waiters <==> t in s.waiters))
      && (forall t :: t != e.task && t in s.waiters ==> after.waiters[t] == s.waiters[t])
  {
    hide Recycle;
  }

  /** Returning, discarding and clearing change no deadline; they wake everyone. */
  lemma OthersKeepDeadlines(s: System, e: Event, t: Task)
    requires Enabled(s, e) && (e.CheckinOf? || e.DiscardOf? || e.ClearAll?) && t in s.waiters
    ensures t in Apply(s, e).waiters && Apply(s, e).waiters[t] == Waiter(s.waiters[t].deadline, true)
  {
  }

  /** A task whose wait times out leaves, and touches nothing else. */
  lemma ExpiredTaskLeaves(s: System, t: Task, other: Task)
    requires Enabled(s, Expire(t)) && other != t
    ensures var after := Apply(s, Expire(t));
      && t !in after.waiters && (other in after.waiters <==> other in s.waiters)
      && (other in s.waiters ==> after.waiters[other] == s.waiters[other])
      && after == s.(waiters := after.waiters)
  {
  }
}
