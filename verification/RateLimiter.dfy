/** The token bucket (app/browser/rate_limiter.py). */
module RateLimiter {
  // `acquire` holds its lock across the sleep, so calls are served one after the other; `last` is set
  // before the sleep and not after it, so the time slept is credited a second time to the next call.

  import opened RealMath
  import opened Wrappers

  datatype Bucket = Bucket(rate: real, burst: int, tokens: real, last: real)

  /** The tokens that a stretch of time is worth. */
  function Worth(time: real, rate: real): real { time * rate }

  /** Tokens credited for the time since the last call read the clock. */
  function Credit(b: Bucket, now: real): real { Worth(now - b.last, b.rate) }

  function Refilled(b: Bucket, now: real): real {
    Min(b.burst as real, b.tokens + Credit(b, now))
  }

  /** Tokens missing for a grant at `now`. */
  function Deficit(b: Bucket, now: real): real { Max(0.0, 1.0 - Refilled(b, now)) }

  /** How long a call starting at `now` sleeps. */
  function Sleep(b: Bucket, now: real): real
    requires b.rate > 0.0
  {
    if Refilled(b, now) < 1.0 then Deficit(b, now) / b.rate else 0.0
  }

  function Granted(b: Bucket, now: real): Bucket {
    b.(tokens := if Refilled(b, now) < 1.0 then 0.0 else Refilled(b, now) - 1.0, last := now)
  }

  /** `burst or (max(1, int(rate or 1)) if rate else 1)`: a missing or zero burst is derived. */
  function BurstOf(rate: Option<real>, burst: Option<int>): int {
    if burst.Some? && burst.value != 0 then burst.value
    else if rate.Some? && rate.value != 0.0 then MaxInt(1, Truncate(rate.value))
    else 1
  }

  class RateLimiter {
    const rate: Option<real>
    const burst: int
    var tokens: real
    var last: real

    function State(): Bucket
      requires rate.Some?
      reads this
    {
      Bucket(rate.value, burst, tokens, last)
    }

    constructor (ratePerSecond: Option<real>, burst: Option<int>, now: real)
      ensures rate == if ratePerSecond.Some? && ratePerSecond.value > 0.0 then ratePerSecond else None
      ensures this.burst == BurstOf(ratePerSecond, burst)
      ensures tokens == this.burst as real && last == now
    {
      rate := if ratePerSecond.Some? && ratePerSecond.value > 0.0 then ratePerSecond else None;
      this.burst := BurstOf(ratePerSecond, burst);
      tokens := BurstOf(ratePerSecond, burst) as real;
      last := now;
    }

    /** Takes a token at time `now`; the caller resumes no sooner than `now + sleep`. */
    method Acquire(now: real) returns (sleep: real)
      requires rate.Some? ==> rate.value > 0.0
      modifies this
      ensures rate.None? ==> sleep == 0.0 && tokens == old(tokens) && last == old(last)
      ensures rate.Some? ==> State() == Granted(old(State()), now) && sleep == Sleep(old(State()), now)
    {
      if rate.None? {
        return 0.0;
      }
      ghost var before := State();
      var elapsed := now - last;
      last := now;
      assert elapsed * rate.value == Credit(before, now);
      tokens := Min(burst as real, tokens + elapsed * rate.value);
      assert tokens == Refilled(before, now);
      hide Refilled, Credit;
      if tokens < 1.0 {
        var deficit := 1.0 - tokens;
        sleep := deficit / rate.value;
        tokens := 0.0;
      } else {
        tokens := tokens - 1.0;
        sleep := 0.0;
      }
    }
  }

  /** The burst is at least 1 unless the caller passed a negative one. */
  lemma BurstAtLeastOne(rate: Option<real>, burst: Option<int>)
    ensures BurstOf(rate, burst) >= 1 <==> !(burst.Some? && burst.value < 0)
  {
  }

  /** A burst that is given counts; otherwise it is what the rate yields in a whole second, and at least 1. */
  lemma BurstByDefault(rate: Option<real>, burst: Option<int>)
    ensures burst.Some? && burst.value != 0 ==> BurstOf(rate, burst) == burst.value
    ensures burst.None? || burst.value == 0 ==>
      var n := BurstOf(rate, burst);
      && n >= 1
      && (rate.Some? && rate.value >= 1.0 ==> n as real <= rate.value < n as real + 1.0)
      && (rate.None? || rate.value < 1.0 ==> n == 1)
  {
  }

  /** A refill credits the whole time since the last call, and spills only what a full bucket cannot hold. */
  lemma RefillCreditsAll(b: Bucket, now: real, elapsed: real)
    requires elapsed == now - b.last
    ensures b.tokens + elapsed * b.rate <= b.burst as real ==> Refilled(b, now) == b.tokens + elapsed * b.rate
    ensures b.tokens + elapsed * b.rate >= b.burst as real ==> Refilled(b, now) == b.burst as real
  {
    assert Credit(b, now) == Worth(elapsed, b.rate) == elapsed * b.rate;
    hide Credit, Worth;
  }

  /** A call sleeps only without a whole token, exactly until it has one, and leaves one token less. */
  lemma SleepEarnsTheToken(b: Bucket, now: real)
    requires b.rate > 0.0
    ensures Refilled(b, now) >= 1.0 ==>
      Sleep(b, now) == 0.0 && Granted(b, now).tokens + 1.0 == Refilled(b, now)
    ensures Refilled(b, now) < 1.0 ==>
      Refilled(b, now) + Sleep(b, now) * b.rate == 1.0 && Granted(b, now).tokens == 0.0
    ensures Granted(b, now) == b.(tokens := Granted(b, now).tokens, last := now)
  {
    hide Refilled;
    if Refilled(b, now) < 1.0 { DivideCancels(Deficit(b, now), b.rate); }
  }

  // ---------------------------------------------------------------- runs

  /** A served call: when it read the clock and when it returned. */
  datatype Call = Call(now: real, finish: real)

  /** Calls served in turn: the lock is free from `free` on, and each sleep takes at least as long
      as asked for. */
  ghost predicate ValidRun(b: Bucket, free: real, calls: seq<Call>)
    requires b.rate > 0.0
    decreases |calls|
  {
    calls == [] ||
    (&& free <= calls[0].now
     && calls[0].now + Sleep(b, calls[0].now) <= calls[0].finish
     && ValidRun(Granted(b, calls[0].now), calls[0].finish, calls[1..]))
  }

  ghost function After(b: Bucket, calls: seq<Call>): Bucket
    decreases |calls|
  {
    if calls == [] then b else After(Granted(b, calls[0].now), calls[1..])
  }

  ghost function Slept(b: Bucket, calls: seq<Call>): real
    requires b.rate > 0.0
    decreases |calls|
  {
    if calls == [] then 0.0
    else Sleep(b, calls[0].now) + Slept(Granted(b, calls[0].now), calls[1..])
  }

  /** The same in tokens: deficits filled by sleeping, elapsed time credited, and credit lost
      because the bucket was full. */
  ghost function Filled(b: Bucket, calls: seq<Call>): real
    decreases |calls|
  {
    if calls == [] then 0.0 else Deficit(b, calls[0].now) + Filled(Granted(b, calls[0].now), calls[1..])
  }

  ghost function Credited(b: Bucket, calls: seq<Call>): real
    decreases |calls|
  {
    if calls == [] then 0.0 else Credit(b, calls[0].now) + Credited(Granted(b, calls[0].now), calls[1..])
  }

  ghost function Spilled(b: Bucket, calls: seq<Call>): real
    decreases |calls|
  {
    if calls == [] then 0.0
    else
      b.tokens + Credit(b, calls[0].now) - Refilled(b, calls[0].now)
      + Spilled(Granted(b, calls[0].now), calls[1..])
  }

  ghost predicate Sound(b: Bucket) { b.rate > 0.0 && b.burst >= 1 && 0.0 <= b.tokens <= b.burst as real }

  ghost predicate Fresh(b: Bucket, start: real) {
    b.rate > 0.0 && b.burst >= 1 && b.tokens == b.burst as real && b.last == start
  }

  lemma GrantKeepsSound(b: Bucket, now: real)
    requires Sound(b) && b.last <= now
    ensures Sound(Granted(b, now))
  {
    hide Worth;
    WorthAdds(0.0, 0.0, b.rate);
    WorthMore(0.0, now - b.last, b.rate);
  }

  /** 0 <= tokens <= burst throughout every run. */
  lemma {:induction false} TokensInRange(b: Bucket, free: real, calls: seq<Call>)
    requires Sound(b) && b.last <= free && ValidRun(b, free, calls)
    ensures Sound(After(b, calls))
    decreases |calls|
  {
    if calls != [] {
      var g := Granted(b, calls[0].now);
      GrantKeepsSound(b, calls[0].now);
      SleepFillsDeficit(b, calls[0].now);
      TokensInRange(g, calls[0].finish, calls[1..]);
    }
  }

  lemma SleepFillsDeficit(b: Bucket, now: real)
    requires b.rate > 0.0
    ensures Sleep(b, now) >= 0.0
    ensures Worth(Sleep(b, now), b.rate) == Deficit(b, now)
  {
    hide Refilled;
    var d := Deficit(b, now);
    DivideCancels(d, b.rate);
    if Refilled(b, now) < 1.0 {
      QuotientNonNegative(d, b.rate);
    } else {
      TimesZero(b.rate, 0.0);
    }
  }

  lemma QuotientNonNegative(d: real, rate: real)
    requires d >= 0.0 && rate > 0.0
    ensures d / rate >= 0.0
  {
  }

  /** Conservation: every grant is paid for by the initial tokens, by credited time, or by a deficit
      slept off; what is not spent is still in the bucket or was spilled. */
  lemma {:induction false} TokensConserved(b: Bucket, calls: seq<Call>)
    ensures |calls| as real + After(b, calls).tokens + Spilled(b, calls)
         == b.tokens + Credited(b, calls) + Filled(b, calls)
    decreases |calls|
  {
    hide Credit;
    if calls != [] {
      TokensConserved(Granted(b, calls[0].now), calls[1..]);
    }
  }

  lemma WorthAdds(x: real, y: real, rate: real)
    ensures Worth(x + y, rate) == Worth(x, rate) + Worth(y, rate)
    ensures Worth(0.0, rate) == 0.0
  {
  }

  /** Elapsed credits telescope to the time between the first and the last clock reading. */
  lemma {:induction false} CreditsTelescope(b: Bucket, calls: seq<Call>)
    ensures After(b, calls).rate == b.rate
    ensures Credited(b, calls) == Worth(After(b, calls).last - b.last, b.rate)
    decreases |calls|
  {
    hide Worth;
    WorthAdds(0.0, 0.0, b.rate);
    if calls != [] {
      var g := Granted(b, calls[0].now);
      CreditsTelescope(g, calls[1..]);
      WorthAdds(After(b, calls).last - g.last, g.last - b.last, b.rate);
    }
  }

  lemma {:induction false} FilledBySleeping(b: Bucket, calls: seq<Call>)
    requires b.rate > 0.0
    ensures Worth(Slept(b, calls), b.rate) == Filled(b, calls)
    decreases |calls|
  {
    hide Deficit, Refilled, Sleep, Worth;
    WorthAdds(0.0, 0.0, b.rate);
    if calls != [] {
      var now := calls[0].now;
      var g := Granted(b, now);
      FilledBySleeping(g, calls[1..]);
      SleepFillsDeficit(b, now);
      WorthAdds(Sleep(b, now), Slept(g, calls[1..]), b.rate);
    }
  }

  lemma {:induction false} SpillsNonNegative(b: Bucket, calls: seq<Call>)
    ensures Spilled(b, calls) >= 0.0
    decreases |calls|
  {
    if calls != [] { SpillsNonNegative(Granted(b, calls[0].now), calls[1..]); }
  }

  ghost function Finish(free: real, calls: seq<Call>): real {
    if calls == [] then free else calls[|calls| - 1].finish
  }

  /** Sleeps happen one after the other, after `free`; so do the clock readings. */
  lemma {:induction false} SleepsFitInRun(b: Bucket, free: real, calls: seq<Call>)
    requires b.rate > 0.0 && b.last <= free && ValidRun(b, free, calls)
    ensures 0.0 <= Slept(b, calls) <= Finish(free, calls) - free
    ensures b.last <= After(b, calls).last <= Finish(free, calls)
    decreases |calls|
  {
    hide Sleep, Refilled, Deficit;
    if calls != [] {
      var g := Granted(b, calls[0].now);
      SleepFillsDeficit(b, calls[0].now);
      SleepsFitInRun(g, calls[0].finish, calls[1..]);
      assert Finish(free, calls) == Finish(calls[0].finish, calls[1..]);
    }
  }

  lemma WorthMore(x: real, y: real, rate: real)
    requires rate > 0.0 && x <= y
    ensures Worth(x, rate) <= Worth(y, rate)
  {
    assert (y - x) * rate >= 0.0;
  }

  /** From any bucket whose clock reading is no older than the run, a run that ends after time T has at
      most burst + 2 * rate * T grants. */
  lemma PromptRunBound(b: Bucket, calls: seq<Call>)
    requires Sound(b) && ValidRun(b, b.last, calls)
    ensures |calls| as real <= b.burst as real + 2.0 * Worth(Finish(b.last, calls) - b.last, b.rate)
  {
    hide Credited, Filled, Slept, Spilled, After, Finish, ValidRun, Worth;
    TokensConserved(b, calls);
    SpillsNonNegative(b, calls);
    TokensInRange(b, b.last, calls);
    CreditsTelescope(b, calls);
    FilledBySleeping(b, calls);
    SleepsFitInRun(b, b.last, calls);
    var t := Finish(b.last, calls) - b.last;
    WorthMore(After(b, calls).last - b.last, t, b.rate);
    WorthMore(Slept(b, calls), t, b.rate);
  }

  /** The bucket as a call at `now` finds it after refilling. */
  ghost function Topped(b: Bucket, now: real): Bucket { b.(tokens := Refilled(b, now), last := now) }

  lemma ToppedIsEnough(b: Bucket, now: real)
    requires Sound(b) && b.last <= now
    ensures Sound(Topped(b, now)) && Granted(Topped(b, now), now) == Granted(b, now)
    ensures Sleep(Topped(b, now), now) == Sleep(b, now)
  {
    hide Worth;
    WorthAdds(0.0, 0.0, b.rate);
    WorthMore(0.0, now - b.last, b.rate);
  }

  /** The same from any bucket in range, however old its last clock reading: what it can have gathered
      meanwhile is capped by the burst. */
  lemma RunBound(b: Bucket, free: real, calls: seq<Call>)
    requires Sound(b) && b.last <= free && ValidRun(b, free, calls)
    ensures |calls| as real <= b.burst as real + 2.0 * Worth(Finish(free, calls) - free, b.rate)
  {
    hide Worth, Granted, Sleep, Refilled;
    WorthAdds(0.0, 0.0, b.rate);
    if calls != [] {
      var now := calls[0].now;
      var full := Topped(b, now);
      ToppedIsEnough(b, now);
      assert ValidRun(full, now, calls);
      PromptRunBound(full, calls);
      WorthMore(Finish(free, calls) - now, Finish(free, calls) - free, b.rate);
    }
  }

  /** Grants completed by time `t`. */
  function GrantsBy(calls: seq<Call>, t: real): nat {
    if calls == [] then 0 else (if calls[0].finish <= t then 1 else 0) + GrantsBy(calls[1..], t)
  }

  lemma {:induction false} NoneAfter(b: Bucket, free: real, calls: seq<Call>, t: real)
    requires b.rate > 0.0 && ValidRun(b, free, calls) && free > t
    ensures GrantsBy(calls, t) == 0
    decreases |calls|
  {
    if calls != [] {
      SleepFillsDeficit(b, calls[0].now);
      NoneAfter(Granted(b, calls[0].now), calls[0].finish, calls[1..], t);
    }
  }

  /** The grants by time `t` are a prefix of the run, itself a run. */
  lemma {:induction false} GrantsArePrefix(b: Bucket, free: real, calls: seq<Call>, t: real)
    requires b.rate > 0.0 && ValidRun(b, free, calls) && free <= t
    ensures GrantsBy(calls, t) <= |calls|
    ensures ValidRun(b, free, calls[..GrantsBy(calls, t)])
    ensures Finish(free, calls[..GrantsBy(calls, t)]) <= t
    decreases |calls|
  {
    if calls != [] {
      var g := Granted(b, calls[0].now);
      var rest := calls[1..];
      if calls[0].finish <= t {
        GrantsArePrefix(g, calls[0].finish, rest, t);
        var k := GrantsBy(rest, t);
        assert calls[..k + 1][1..] == rest[..k];
      } else {
        NoneAfter(g, calls[0].finish, rest, t);
      }
    }
  }

  /** Grants by time `t` from any bucket in range. */
  lemma GrantsByBound(b: Bucket, free: real, calls: seq<Call>, t: real)
    requires Sound(b) && b.last <= free <= t && ValidRun(b, free, calls)
    ensures GrantsBy(calls, t) as real <= b.burst as real + 2.0 * Worth(t - free, b.rate)
  {
    hide ValidRun, Finish, Worth;
    GrantsArePrefix(b, free, calls, t);
    var granted := calls[..GrantsBy(calls, t)];
    RunBound(b, free, granted);
    WorthMore(Finish(free, granted) - free, t - free, b.rate);
  }

  /** In every run of a fresh limiter with burst >= 1, at most burst + 2 * rate * T grants complete
      within T of construction. */
  lemma GrantBound(b: Bucket, start: real, calls: seq<Call>, t: real)
    requires Fresh(b, start) && ValidRun(b, start, calls) && t >= 0.0
    ensures GrantsBy(calls, start + t) as real <= b.burst as real + 2.0 * Worth(t, b.rate)
  {
    hide Worth, GrantsBy;
    GrantsByBound(b, start, calls, start + t);
  }

  /** Grants completed from `t1` to `t2`. */
  function GrantsWithin(calls: seq<Call>, t1: real, t2: real): nat {
    if calls == [] then 0
    else (if t1 <= calls[0].finish <= t2 then 1 else 0) + GrantsWithin(calls[1..], t1, t2)
  }

  lemma {:induction false} LaterFinishes(b: Bucket, free: real, calls: seq<Call>, t1: real, t2: real)
    requires b.rate > 0.0 && t1 <= free && ValidRun(b, free, calls)
    ensures GrantsWithin(calls, t1, t2) == GrantsBy(calls, t2)
    decreases |calls|
  {
    if calls != [] {
      SleepFillsDeficit(b, calls[0].now);
      LaterFinishes(Granted(b, calls[0].now), calls[0].finish, calls[1..], t1, t2);
    }
  }

  /** Over every window of every run: at most 1 + burst + 2 * rate * T grants complete within any
      stretch of time T. The extra one may have begun before the window. */
  lemma {:induction false} WindowBound(b: Bucket, free: real, calls: seq<Call>, t1: real, t2: real)
    requires Sound(b) && b.last <= free && ValidRun(b, free, calls) && t1 <= t2
    ensures GrantsWithin(calls, t1, t2) as real <= 1.0 + b.burst as real + 2.0 * Worth(t2 - t1, b.rate)
    decreases |calls|
  {
    hide Worth, Granted;
    WorthAdds(0.0, 0.0, b.rate);
    WorthMore(0.0, t2 - t1, b.rate);
    if calls != [] {
      var g, rest := Granted(b, calls[0].now), calls[1..];
      FirstServed(b, free, calls);
      if calls[0].finish < t1 {
        WindowBound(g, calls[0].finish, rest, t1, t2);
      } else {
        LaterFinishes(g, calls[0].finish, rest, t1, t2);
        if calls[0].finish <= t2 {
          GrantsByBound(g, calls[0].finish, rest, t2);
          WorthMore(t2 - calls[0].finish, t2 - t1, b.rate);
        } else {
          NoneAfter(g, calls[0].finish, rest, t2);
        }
      }
    }
  }

  lemma FirstServed(b: Bucket, free: real, calls: seq<Call>)
    requires Sound(b) && b.last <= free && ValidRun(b, free, calls) && calls != []
    ensures var g := Granted(b, calls[0].now);
      && Sound(g) && g.rate == b.rate && g.burst == b.burst && g.last == calls[0].now <= calls[0].finish
      && ValidRun(g, calls[0].finish, calls[1..])
  {
    GrantKeepsSound(b, calls[0].now);
    SleepFillsDeficit(b, calls[0].now);
  }

  // ---------------------------------------------------------------- the bound is reached

  /** From an empty bucket: sleep for a token, then take the one the sleep is credited for. */
  ghost function Pairs(rate: real, t: real, k: nat): (calls: seq<Call>)
    requires rate > 0.0
    ensures |calls| == 2 * k
    decreases k
  {
    if k == 0 then []
    else [Call(t, t + 1.0 / rate), Call(t + 1.0 / rate, t + 1.0 / rate)] + Pairs(rate, t + 1.0 / rate, k - 1)
  }

  /** Time taken by `k` tokens at `rate`. */
  ghost function TimeOf(k: nat, rate: real): (t: real)
    requires rate > 0.0
  {
    if k == 0 then 0.0 else 1.0 / rate + TimeOf(k - 1, rate)
  }

  lemma {:induction false} TimeOfIsWorth(k: nat, rate: real)
    requires rate > 0.0
    ensures Worth(TimeOf(k, rate), rate) == k as real
  {
    hide Worth;
    WorthAdds(0.0, 0.0, rate);
    if k > 0 {
      TimeOfIsWorth(k - 1, rate);
      WorthAdds(1.0 / rate, TimeOf(k - 1, rate), rate);
      OneTokenTime(rate);
    }
  }

  lemma OneTokenTime(rate: real)
    requires rate > 0.0
    ensures Worth(1.0 / rate, rate) == 1.0
  {
    DivideCancels(1.0, rate);
  }

  lemma NoCalls(b: Bucket)
    requires b.rate > 0.0
    ensures ValidRun(b, b.last, [])
  {
  }

  lemma PrependCall(b: Bucket, free: real, call: Call, rest: seq<Call>)
    requires b.rate > 0.0 && free <= call.now && call.now + Sleep(b, call.now) <= call.finish
    requires ValidRun(Granted(b, call.now), call.finish, rest)
    ensures ValidRun(b, free, [call] + rest)
    ensures Finish(free, [call] + rest) == Finish(call.finish, rest)
  {
    hide Granted, Sleep;
    assert ([call] + rest)[1..] == rest;
  }

  lemma {:induction false} PairsAreValid(b: Bucket, k: nat)
    requires b.rate > 0.0 && b.burst >= 1 && b.tokens == 0.0
    ensures ValidRun(b, b.last, Pairs(b.rate, b.last, k))
    ensures Finish(b.last, Pairs(b.rate, b.last, k)) == b.last + TimeOf(k, b.rate)
    decreases k
  {
    hide Granted, Sleep, ValidRun;
    if k == 0 {
      NoCalls(b);
    } else {
      var t, d := b.last, 1.0 / b.rate;
      EmptyBucketSleeps(b);
      CreditedSleep(b, t + d);
      var b2 := b.(last := t + d);
      PairsAreValid(b2, k - 1);
      var rest := Pairs(b.rate, t + d, k - 1);
      PrependCall(b, t + d, Call(t + d, t + d), rest);
      PrependCall(b, t, Call(t, t + d), [Call(t + d, t + d)] + rest);
      assert Pairs(b.rate, t, k) == [Call(t, t + d)] + ([Call(t + d, t + d)] + rest);
    }
  }

  lemma EmptyBucketSleeps(b: Bucket)
    requires b.rate > 0.0 && b.burst >= 1 && b.tokens == 0.0
    ensures Granted(b, b.last) == b && Sleep(b, b.last) == 1.0 / b.rate
  {
    hide Worth;
    WorthAdds(0.0, 0.0, b.rate);
  }

  lemma CreditedSleep(b: Bucket, now: real)
    requires b.rate > 0.0 && b.burst >= 1 && b.tokens == 0.0 && now == b.last + 1.0 / b.rate
    ensures Granted(b, now) == b.(last := now) && Sleep(b, now) == 0.0
  {
    hide Worth;
    OneTokenTime(b.rate);
  }

  /** The initial burst, taken at once. */
  ghost function Burst(start: real, n: nat): (calls: seq<Call>)
    ensures |calls| == n
  {
    if n == 0 then [] else [Call(start, start)] + Burst(start, n - 1)
  }

  lemma BurstGrant(b: Bucket)
    requires b.rate > 0.0 && 1.0 <= b.tokens <= b.burst as real
    ensures Granted(b, b.last) == b.(tokens := b.tokens - 1.0) && Sleep(b, b.last) == 0.0
  {
    hide Worth;
    WorthAdds(0.0, 0.0, b.rate);
  }

  /** A full burst taken at once, then whatever an empty bucket can serve. */
  lemma {:induction false} BurstThen(b: Bucket, n: nat, rest: seq<Call>)
    requires b.rate > 0.0 && b.burst >= 1 && b.tokens == n as real && n <= b.burst
    requires ValidRun(b.(tokens := 0.0), b.last, rest)
    ensures ValidRun(b, b.last, Burst(b.last, n) + rest)
    ensures Finish(b.last, Burst(b.last, n) + rest) == Finish(b.last, rest)
    decreases n
  {
    hide Granted, Sleep, ValidRun, Finish;
    if n == 0 {
      assert Burst(b.last, 0) + rest == rest;
      assert b == b.(tokens := 0.0);
    } else {
      BurstGrant(b);
      BurstThen(b.(tokens := (n - 1) as real), n - 1, rest);
      var later := Burst(b.last, n - 1) + rest;
      assert Burst(b.last, n) + rest == [Call(b.last, b.last)] + later;
      PrependCall(b, b.last, Call(b.last, b.last), later);
    }
  }

  lemma BurstThenPairs(b: Bucket, n: nat, k: nat)
    requires b.rate > 0.0 && b.burst >= 1 && b.tokens == n as real && n <= b.burst
    ensures ValidRun(b, b.last, Burst(b.last, n) + Pairs(b.rate, b.last, k))
    ensures Finish(b.last, Burst(b.last, n) + Pairs(b.rate, b.last, k)) == b.last + TimeOf(k, b.rate)
  {
    hide ValidRun, Finish, Pairs, TimeOf, Burst;
    PairsAreValid(b.(tokens := 0.0), k);
    BurstThen(b, n, Pairs(b.rate, b.last, k));
  }

  /** `calls` completes exactly burst + 2 * rate * t grants within `t` of `start`. */
  ghost predicate ReachesBound(b: Bucket, start: real, t: real, calls: seq<Call>) {
    && Finish(start, calls) == start + t
    && |calls| as real == b.burst as real + 2.0 * Worth(t, b.rate)
  }

  /** The factor 2 is tight: for every rate, every burst and every k, some run reaches the bound in
      the time k tokens take. */
  lemma GrantBoundIsTight(b: Bucket, start: real, k: nat)
    requires Fresh(b, start)
    ensures exists calls :: ValidRun(b, start, calls) && ReachesBound(b, start, TimeOf(k, b.rate), calls)
  {
    var calls := Burst(start, b.burst) + Pairs(b.rate, start, k);
    BurstThenPairs(b, b.burst, k);
    TimeOfIsWorth(k, b.rate);
    assert ReachesBound(b, start, TimeOf(k, b.rate), calls);
  }

  lemma {:induction false} AllGranted(b: Bucket, free: real, calls: seq<Call>, t: real)
    requires Sound(b) && b.last <= free && ValidRun(b, free, calls) && Finish(free, calls) <= t
    ensures GrantsBy(calls, t) == |calls|
    decreases |calls|
  {
    hide Granted, Sleep;
    if calls != [] {
      FirstServed(b, free, calls);
      SleepsFitInRun(Granted(b, calls[0].now), calls[0].finish, calls[1..]);
      assert Finish(free, calls) == Finish(calls[0].finish, calls[1..]);
      AllGranted(Granted(b, calls[0].now), calls[0].finish, calls[1..], t);
    }
  }

  ghost predicate ReachesWindowBound(b: Bucket, calls: seq<Call>, t1: real, t: real) {
    GrantsWithin(calls, t1, t1 + t) as real == 1.0 + b.burst as real + 2.0 * Worth(t, b.rate)
  }

  lemma {:induction false} BurstIsEarlier(n: nat, start: real, rest: seq<Call>, t1: real, t2: real)
    requires start < t1
    ensures GrantsWithin(Burst(start, n) + rest, t1, t2) == GrantsWithin(rest, t1, t2)
  {
    var calls := Burst(start, n) + rest;
    if n == 0 {
      assert calls == rest;
    } else {
      BurstIsEarlier(n - 1, start, rest, t1, t2);
      assert calls[1..] == Burst(start, n - 1) + rest;
    }
  }

  lemma {:induction false} TimeOfGrows(k: nat, rate: real)
    requires rate > 0.0
    ensures TimeOf(k, rate) >= 0.0 && (k >= 1 ==> TimeOf(k, rate) >= 1.0 / rate > 0.0)
  {
    QuotientPositive(rate);
    if k > 0 { TimeOfGrows(k - 1, rate); }
  }

  lemma QuotientPositive(rate: real)
    requires rate > 0.0
    ensures 1.0 / rate > 0.0
  {
  }

  /** Empty at `start`, a bucket is full again once the time of `burst` tokens has passed. */
  lemma FullAgain(b: Bucket, t1: real)
    requires b.rate > 0.0 && b.burst >= 1 && b.tokens == 0.0 && t1 == b.last + TimeOf(b.burst, b.rate)
    ensures Topped(b, t1) == b.(tokens := b.burst as real, last := t1)
  {
    hide Worth, TimeOf;
    TimeOfIsWorth(b.burst, b.rate);
  }

  /** A call that finds the bucket empty and is slow to resume, then a full burst and `k` pairs. */
  ghost function SlowCalls(b: Bucket, t1: real, k: nat): seq<Call>
    requires b.rate > 0.0 && b.burst >= 0
  {
    [Call(b.last, t1)] + (Burst(t1, b.burst) + Pairs(b.rate, t1, k))
  }

  lemma SlowCallsAreValid(b: Bucket, t1: real, k: nat)
    requires b.rate > 0.0 && b.burst >= 1 && b.tokens == 0.0 && t1 == b.last + TimeOf(b.burst, b.rate)
    ensures ValidRun(b, b.last, SlowCalls(b, t1, k))
    ensures var t := TimeOf(k, b.rate);
      GrantsWithin(SlowCalls(b, t1, k), t1, t1 + t) as real == 1.0 + b.burst as real + 2.0 * Worth(t, b.rate)
  {
    hide Worth, Granted, Sleep, Pairs, TimeOf, Refilled;
    var full := b.(tokens := b.burst as real, last := t1);
    var later, calls := Burst(t1, b.burst) + Pairs(b.rate, t1, k), SlowCalls(b, t1, k);
    var t2 := t1 + TimeOf(k, b.rate);
    assert calls[0] == Call(b.last, t1) && calls[1..] == later;
    TimeOfGrows(b.burst, b.rate);
    TimeOfGrows(k, b.rate);
    TimeOfIsWorth(k, b.rate);
    BurstThenPairs(full, b.burst, k);
    EmptyBucketSleeps(b);
    FullAgain(b, t1);
    ToppedIsEnough(b, t1);
    assert later[0] == Call(t1, t1);
    assert ValidRun(b, t1, later);
    AllGranted(full, t1, later, t2);
    LaterFinishes(full, t1, later, t1, t2);
  }

  /** The window bound is tight: for every rate, burst and k, a slow sleeper, the burst that gathers
      meanwhile and `k` doubly credited sleeps complete within the time `k` tokens take. */
  lemma WindowBoundIsTight(b: Bucket, start: real, k: nat)
    requires Fresh(b, start)
    ensures exists calls, t1 :: ValidRun(b, start, calls) && ReachesWindowBound(b, calls, t1, TimeOf(k, b.rate))
  {
    hide ValidRun, GrantsWithin, TimeOf, SlowCalls, Burst;
    var empty := b.(tokens := 0.0);
    var t1 := start + TimeOf(b.burst, b.rate);
    SlowCallsAreValid(empty, t1, k);
    BurstThen(b, b.burst, SlowCalls(empty, t1, k));
    TimeOfGrows(b.burst, b.rate);
    BurstIsEarlier(b.burst, start, SlowCalls(empty, t1, k), t1, t1 + TimeOf(k, b.rate));
    assert ReachesWindowBound(b, Burst(start, b.burst) + SlowCalls(empty, t1, k), t1, TimeOf(k, b.rate));
  }

  // ---------------------------------------------------------------- the nominal rate

  /** With fewer than `m + 1` tokens to be had by `t`, at most `m` calls complete by `t`. */
  lemma {:induction false} TooFewTokens(b: Bucket, free: real, calls: seq<Call>, t: real, m: nat)
    requires Sound(b) && b.last <= free && ValidRun(b, free, calls)
    requires m as real <= b.tokens && b.tokens + Worth(t - b.last, b.rate) < m as real + 1.0
    ensures GrantsBy(calls, t) <= m
    decreases |calls|
  {
    hide Worth, Granted, Sleep, Refilled;
    if calls != [] {
      var now, g, rest := calls[0].now, Granted(b, calls[0].now), calls[1..];
      FirstServed(b, free, calls);
      if calls[0].finish > t {
        NoneAfter(g, calls[0].finish, rest, t);
      } else {
        TokenSpent(b, now, calls[0].finish, t, m);
        TooFewTokens(g, calls[0].finish, rest, t, m - 1);
      }
    }
  }

  /** A call that completes by `t` leaves one token fewer to be had by then. */
  lemma TokenSpent(b: Bucket, now: real, finish: real, t: real, m: nat)
    requires Sound(b) && b.last <= now && now + Sleep(b, now) <= finish <= t
    requires m as real <= b.tokens && b.tokens + Worth(t - b.last, b.rate) < m as real + 1.0
    ensures m >= 1
    ensures var g := Granted(b, now);
      (m - 1) as real <= g.tokens && g.tokens + Worth(t - g.last, b.rate) < m as real
  {
    hide Worth, Sleep;
    SleepFillsDeficit(b, now);
    WorthAdds(now - b.last, t - now, b.rate);
    WorthMore(Sleep(b, now), t - now, b.rate);
    WorthMore(0.0, now - b.last, b.rate);
    WorthAdds(0.0, 0.0, b.rate);
  }

  ghost predicate KeepsNominalRate(b: Bucket, start: real, t: real) {
    forall calls :: b.rate > 0.0 && ValidRun(b, start, calls) ==>
      GrantsBy(calls, start + t) as real <= b.burst as real + Worth(t, b.rate)
  }

  /** The nominal bound burst + rate * T holds exactly for stretches shorter than the time of one
      token: from then on some run exceeds it. */
  lemma NominalRateIff(b: Bucket, start: real, t: real)
    requires Fresh(b, start) && t >= 0.0
    ensures KeepsNominalRate(b, start, t) <==> Worth(t, b.rate) < 1.0
  {
    hide Worth, ValidRun, GrantsBy;
    WorthMore(0.0, t, b.rate);
    WorthAdds(0.0, 0.0, b.rate);
    if Worth(t, b.rate) < 1.0 {
      forall calls | ValidRun(b, start, calls)
        ensures GrantsBy(calls, start + t) as real <= b.burst as real + Worth(t, b.rate)
      {
        TooFewTokens(b, start, calls, start + t, b.burst);
      }
    } else {
      ExceedsNominalRate(b, start, t);
    }
  }

  lemma ExceedsNominalRate(b: Bucket, start: real, t: real)
    requires Fresh(b, start) && Worth(t, b.rate) >= 1.0
    ensures !KeepsNominalRate(b, start, t)
  {
    hide Worth, ValidRun, GrantsBy, Pairs, Burst, TimeOf, Finish;
    var k := Worth(t, b.rate).Floor;
    var calls := Burst(start, b.burst) + Pairs(b.rate, start, k);
    BurstThenPairs(b, b.burst, k);
    TimeOfIsWorth(k, b.rate);
    if TimeOf(k, b.rate) > t { WorthLess(t, TimeOf(k, b.rate), b.rate); }
    AllGranted(b, start, calls, start + t);
    assert |calls| == b.burst + 2 * k;
  }

  lemma WorthLess(x: real, y: real, rate: real)
    requires rate > 0.0 && x < y
    ensures Worth(x, rate) < Worth(y, rate)
  {
    assert (y - x) * rate > 0.0;
  }

  /** While no call but the last sleeps, the limiter also keeps to burst + rate * T. */
  lemma SteadyBoundWithoutReuse(b: Bucket, start: real, calls: seq<Call>)
    requires Fresh(b, start) && ValidRun(b, start, calls) && calls != []
    requires Slept(b, calls[..|calls| - 1]) == 0.0
    ensures |calls| as real <= b.burst as real + Worth(Finish(start, calls) - start, b.rate)
  {
    hide Worth, Credited, Filled, Spilled, Finish;
    TokensConserved(b, calls);
    SpillsNonNegative(b, calls);
    TokensInRange(b, start, calls);
    CreditsTelescope(b, calls);
    FilledBySleeping(b, calls);
    LastSleepEndsRun(b, start, calls);
    WorthAdds(After(b, calls).last - b.last, Slept(b, calls), b.rate);
    WorthMore(After(b, calls).last - b.last + Slept(b, calls), Finish(start, calls) - start, b.rate);
  }

  lemma {:induction false} LastSleepEndsRun(b: Bucket, free: real, calls: seq<Call>)
    requires b.rate > 0.0 && ValidRun(b, free, calls) && calls != []
    requires Slept(b, calls[..|calls| - 1]) == 0.0
    ensures After(b, calls).last + Slept(b, calls) <= Finish(free, calls)
    decreases |calls|
  {
    hide Sleep;
    var g := Granted(b, calls[0].now);
    SleepFillsDeficit(b, calls[0].now);
    if |calls| == 1 {
      assert calls[1..] == [];
    } else {
      var init := calls[..|calls| - 1];
      var rest := calls[1..];
      assert init[1..] == rest[..|rest| - 1];
      SleptNonNegative(g, rest[..|rest| - 1]);
      LastSleepEndsRun(g, calls[0].finish, rest);
      assert Finish(free, calls) == Finish(calls[0].finish, rest);
    }
  }

  lemma {:induction false} SleptNonNegative(b: Bucket, calls: seq<Call>)
    requires b.rate > 0.0
    ensures Slept(b, calls) >= 0.0
    decreases |calls|
  {
    hide Sleep;
    if calls != [] {
      SleepFillsDeficit(b, calls[0].now);
      SleptNonNegative(Granted(b, calls[0].now), calls[1..]);
    }
  }
}
