/** Proxy rotation and bans (app/browser/proxy.py), round-robin mode. */
module ProxyRotation {
  import opened Wrappers

  datatype ProxyConfig = ProxyConfig(url: string, username: Option<string>, password: Option<string>, enabled: bool)

  /** The dict handed to the browser. */
  datatype Served = Served(server: string, username: Option<string>, password: Option<string>)

  datatype ProxyError = Exhausted

  /** `s.rstrip("/")`. */
  function StripSlashes(s: string): (r: string)
    ensures r <= s
    ensures r == "" || r[|r| - 1] != '/'
    ensures forall i :: |r| <= i < |s| ==> s[i] == '/'
  {
    if s != "" && s[|s| - 1] == '/' then StripSlashes(s[..|s| - 1]) else s
  }

  function Url(p: ProxyConfig): string { StripSlashes(p.url) }

  function NonEmpty(s: Option<string>): Option<string> {
    if s == Some("") then None else s
  }

  function ToServed(p: ProxyConfig): Served { Served(p.url, NonEmpty(p.username), NonEmpty(p.password)) }

  function ServedUrl(p: Served): string { StripSlashes(p.server) }

  function EnabledOnly(ps: seq<ProxyConfig>): (es: seq<ProxyConfig>)
    ensures forall p :: p in es <==> p in ps && p.enabled
  {
    if ps == [] then [] else (if ps[0].enabled then [ps[0]] else []) + EnabledOnly(ps[1..])
  }

  // ---------------------------------------------------------------- bans

  datatype Bans = Bans(failures: map<string, nat>, banned: set<string>)

  function Count(failures: map<string, nat>, url: string): nat { if url in failures then failures[url] else 0 }

  function Failed(b: Bans, url: string, threshold: int): Bans {
    var n := Count(b.failures, url) + 1;
    Bans(b.failures[url := n], if n >= threshold then b.banned + {url} else b.banned)
  }

  function Succeeded(b: Bans, url: string): Bans { Bans(b.failures - {url}, b.banned - {url}) }

  datatype Report = Failure(url: string) | Success(url: string) | Reset

  function Reported(b: Bans, r: Report, threshold: int): Bans {
    match r
    case Failure(url) => Failed(b, url, threshold)
    case Success(url) => Succeeded(b, url)
    case Reset => Bans(map[], {})
  }

  /** The state after a history of reports, oldest first. */
  function AfterReports(history: seq<Report>, threshold: int): Bans {
    if history == [] then Bans(map[], {})
    else Reported(AfterReports(history[..|history| - 1], threshold), history[|history| - 1], threshold)
  }

  /** Failures of `url` since its last success and the last reset. */
  function FailuresSince(history: seq<Report>, url: string): nat {
    if history == [] then 0
    else
      var before := FailuresSince(history[..|history| - 1], url);
      match history[|history| - 1]
      case Failure(u) => if u == url then before + 1 else before
      case Success(u) => if u == url then 0 else before
      case Reset => 0
  }

  /** In every reachable state the banned urls are exactly those that have failed at least
      `threshold` times since they last succeeded or everything was reset. */
  lemma {:induction false} BannedIff(history: seq<Report>, threshold: int, url: string)
    requires threshold >= 1
    ensures url in AfterReports(history, threshold).banned <==> FailuresSince(history, url) >= threshold
    ensures Count(AfterReports(history, threshold).failures, url) == FailuresSince(history, url)
  {
    if history != [] {
      BannedIff(history[..|history| - 1], threshold, url);
    }
  }

  // ---------------------------------------------------------------- rotation

  /** The next index of `itertools.cycle(range(n))`. */
  function Succ(c: nat, n: nat): nat
    requires c < n
  {
    if c + 1 == n then 0 else c + 1
  }

  /** At most `fuel` steps from `c` to an available index. */
  function Search(avail: seq<bool>, c: nat, fuel: nat): (i: nat)
    requires c < |avail|
    ensures i < |avail|
    decreases fuel
  {
    if avail[c] || fuel == 0 then c else Search(avail, Succ(c, |avail|), fuel - 1)
  }

  function Next(avail: seq<bool>, c: nat): (i: nat)
    requires c < |avail|
    ensures i < |avail|
  {
    Search(avail, c, |avail|)
  }

  /** Indices returned by `k` calls in a row under an unchanged ban set. */
  function Picks(avail: seq<bool>, c: nat, k: nat): (ps: seq<nat>)
    requires c < |avail|
    ensures |ps| == k
    decreases k
  {
    if k == 0 then []
    else var i := Next(avail, c); [i] + Picks(avail, Succ(i, |avail|), k - 1)
  }

  /** The available indices from `lo` up to `hi`, in order. */
  function Between(avail: seq<bool>, lo: nat, hi: nat): seq<nat>
    requires lo <= hi <= |avail|
    decreases hi - lo
  {
    if lo == hi then []
    else (if avail[lo] then [lo] else []) + Between(avail, lo + 1, hi)
  }

  /** The available ones among `m` indices met going round from `c`. */
  function Window(avail: seq<bool>, c: nat, m: nat): seq<nat>
    requires c < |avail|
    decreases m
  {
    if m == 0 then []
    else (if avail[c] then [c] else []) + Window(avail, Succ(c, |avail|), m - 1)
  }

  lemma {:induction false} MoreFuel(avail: seq<bool>, c: nat, fuel: nat)
    requires c < |avail| && avail[Search(avail, c, fuel)]
    ensures Search(avail, c, fuel + 1) == Search(avail, c, fuel)
    decreases fuel
  {
    if !avail[c] && fuel > 0 { MoreFuel(avail, Succ(c, |avail|), fuel - 1); }
  }

  function Distance(n: nat, c: nat, i: nat): nat
    requires c < n && i < n
  {
    if c <= i then i - c else n - c + i
  }

  lemma {:induction false} SearchArrives(avail: seq<bool>, c: nat, fuel: nat, i: nat)
    requires c < |avail| && i < |avail| && avail[i] && Distance(|avail|, c, i) <= fuel
    ensures avail[Search(avail, c, fuel)]
    decreases fuel
  {
    if !avail[c] { SearchArrives(avail, Succ(c, |avail|), fuel - 1, i); }
  }

  /** An unavailable start does not matter: the search goes on from the next index. */
  lemma NextSkips(avail: seq<bool>, c: nat, i: nat)
    requires c < |avail| && i < |avail| && avail[i] && !avail[c]
    ensures Next(avail, c) == Next(avail, Succ(c, |avail|))
  {
    var n, d := |avail|, Succ(c, |avail|);
    assert Distance(n, d, i) <= n - 1;
    SearchArrives(avail, d, n - 1, i);
    MoreFuel(avail, d, n - 1);
  }

  lemma {:induction false} PicksAreWindow(avail: seq<bool>, c: nat, m: nat)
    requires c < |avail|
    ensures Picks(avail, c, |Window(avail, c, m)|) == Window(avail, c, m)
    decreases m
  {
    if m > 0 {
      var d := Succ(c, |avail|);
      var rest := Window(avail, d, m - 1);
      PicksAreWindow(avail, d, m - 1);
      if !avail[c] {
        assert Window(avail, c, m) == rest;
        if rest != [] {
          assert rest[0] == Next(avail, d);
          WindowMembers(avail, d, m - 1);
          assert rest[0] in rest;
          NextSkips(avail, c, rest[0]);
        }
      } else {
        assert Window(avail, c, m) == [c] + rest;
      }
    }
  }

  lemma {:induction false} WindowMembers(avail: seq<bool>, c: nat, m: nat)
    requires c < |avail|
    ensures forall i: nat :: i in Window(avail, c, m) ==> i < |avail| && avail[i]
    decreases m
  {
    if m > 0 { WindowMembers(avail, Succ(c, |avail|), m - 1); }
  }

  /** Going round once from `c` meets c..n and then 0..c. */
  lemma {:induction false} WindowUnrolls(avail: seq<bool>, c: nat, m: nat, hi: nat)
    requires c < |avail| && |avail| - c <= m && hi == m - (|avail| - c) <= |avail|
    ensures Window(avail, c, m) == Between(avail, c, |avail|) + Between(avail, 0, hi)
    decreases |avail| - c
  {
    var n := |avail|;
    if c + 1 == n {
      assert Between(avail, c, n) == if avail[c] then [c] else [];
      WindowFromZero(avail, 0, hi);
    } else {
      WindowUnrolls(avail, c + 1, m - 1, hi);
      var head: seq<nat> := if avail[c] then [c] else [];
      assert head + (Between(avail, c + 1, n) + Between(avail, 0, hi))
          == (head + Between(avail, c + 1, n)) + Between(avail, 0, hi);
    }
  }

  lemma {:induction false} WindowFromZero(avail: seq<bool>, lo: nat, hi: nat)
    requires lo <= hi <= |avail| && lo < |avail|
    ensures Window(avail, lo, hi - lo) == Between(avail, lo, hi)
    decreases hi - lo
  {
    if lo + 1 < hi {
      WindowFromZero(avail, lo + 1, hi);
    } else if lo + 1 == hi {
      assert Window(avail, Succ(lo, |avail|), 0) == [] == Between(avail, hi, hi);
    }
  }

  lemma {:induction false} BetweenSplits(avail: seq<bool>, lo: nat, mid: nat, hi: nat)
    requires lo <= mid <= hi <= |avail|
    ensures Between(avail, lo, hi) == Between(avail, lo, mid) + Between(avail, mid, hi)
    decreases mid - lo
  {
    if lo < mid {
      BetweenSplits(avail, lo + 1, mid, hi);
      var head: seq<nat> := if avail[lo] then [lo] else [];
      assert head + (Between(avail, lo + 1, mid) + Between(avail, mid, hi))
          == (head + Between(avail, lo + 1, mid)) + Between(avail, mid, hi);
    }
  }

  lemma {:induction false} BetweenMembers(avail: seq<bool>, lo: nat, hi: nat)
    requires lo <= hi <= |avail|
    ensures forall i: nat :: i in Between(avail, lo, hi) <==> lo <= i < hi && avail[i]
    ensures forall i, j :: 0 <= i < j < |Between(avail, lo, hi)| ==>
      Between(avail, lo, hi)[i] < Between(avail, lo, hi)[j]
    decreases hi - lo
  {
    if lo < hi {
      var rest := Between(avail, lo + 1, hi);
      BetweenMembers(avail, lo + 1, hi);
      forall i | 0 <= i < |rest| ensures lo < rest[i] { assert rest[i] in rest; }
    }
  }

  /** Round robin is fair: with k available proxies, any k calls in a row return each of them exactly
      once, in index order from the cursor and then from 0. */
  lemma RotationIsFair(avail: seq<bool>, c: nat)
    requires c < |avail|
    ensures var k := |Between(avail, 0, |avail|)|;
      var ps := Picks(avail, c, k);
      && ps == Between(avail, c, |avail|) + Between(avail, 0, c)
      && (forall i: nat :: i in ps <==> i < |avail| && avail[i])
      && (forall i, j :: 0 <= i < j < |ps| ==> ps[i] != ps[j])
  {
    var n := |avail|;
    WindowUnrolls(avail, c, n, c);
    PicksAreWindow(avail, c, n);
    BetweenSplits(avail, 0, c, n);
    BetweenMembers(avail, 0, c);
    BetweenMembers(avail, c, n);
    var high, low := Between(avail, c, n), Between(avail, 0, c);
    var ps := high + low;
    forall i, j | 0 <= i < j < |ps| ensures ps[i] != ps[j] {
      if i < |high| <= j {
        assert high[i] in high && low[j - |high|] in low;
      }
    }
  }

  // ---------------------------------------------------------------- a changing ban set

  /** Indices returned by calls in a row, each under its own availability. */
  function PicksUnder(avails: seq<seq<bool>>, n: nat, c: nat): (ps: seq<nat>)
    requires c < n && forall a :: a in avails ==> |a| == n
    ensures |ps| == |avails|
  {
    if avails == [] then []
    else var i := Next(avails[0], c); [i] + PicksUnder(avails[1..], n, Succ(i, n))
  }

  lemma {:induction false} SearchWithin(avail: seq<bool>, c: nat, fuel: nat, i: nat)
    requires c < |avail| && i < |avail| && avail[i] && Distance(|avail|, c, i) <= fuel
    ensures Distance(|avail|, c, Search(avail, c, fuel)) <= Distance(|avail|, c, i)
    decreases fuel
  {
    if !avail[c] { SearchWithin(avail, Succ(c, |avail|), fuel - 1, i); }
  }

  lemma {:induction false} ReachedWithin(avails: seq<seq<bool>>, n: nat, c: nat, i: nat)
    requires c < n && i < n && forall a :: a in avails ==> |a| == n && a[i]
    requires Distance(n, c, i) < |avails|
    ensures i in PicksUnder(avails, n, c)
  {
    var a, j := avails[0], Next(avails[0], c);
    SearchWithin(a, c, n, i);
    var rest := PicksUnder(avails[1..], n, Succ(j, n));
    assert PicksUnder(avails, n, c) == [j] + rest;
    if j != i { ReachedWithin(avails[1..], n, Succ(j, n), i); }
  }

  /** Nobody starves, however the bans of the others change: of any n calls in a row throughout which
      proxy `i` is available, one returns it. */
  lemma NobodyStarves(avails: seq<seq<bool>>, c: nat, i: nat)
    requires var n := |avails|; c < n && i < n && forall a :: a in avails ==> |a| == n && a[i]
    ensures i in PicksUnder(avails, |avails|, c)
  {
    ReachedWithin(avails, |avails|, c, i);
  }

  // ---------------------------------------------------------------- the object

  /** Which proxies are not banned. */
  function Availability(proxies: seq<ProxyConfig>, banned: set<string>): (avail: seq<bool>)
    ensures |avail| == |proxies|
    ensures forall i :: 0 <= i < |proxies| ==> (avail[i] <==> Url(proxies[i]) !in banned)
  {
    seq(|proxies|, i requires 0 <= i < |proxies| => Url(proxies[i]) !in banned)
  }

  class ProxyManager {
    const proxies: seq<ProxyConfig>
    const threshold: int
    var failures: map<string, nat>
    var banned: set<string>
    var cursor: nat

    ghost predicate Valid()
      reads this
    {
      && threshold >= 1
      && (proxies != [] ==> cursor < |proxies|)
      && forall u :: u in banned <==> Count(failures, u) >= threshold
    }

    function State(): Bans
      reads this
    {
      Bans(failures, banned)
    }

    constructor (configured: seq<ProxyConfig>, maxFailuresBeforeBan: int)
      requires maxFailuresBeforeBan >= 1
      ensures Valid() && proxies == EnabledOnly(configured) && threshold == maxFailuresBeforeBan
      ensures State() == Bans(map[], {}) && cursor == 0
    {
      proxies := EnabledOnly(configured);
      threshold := maxFailuresBeforeBan;
      failures, banned, cursor := map[], {}, 0;
    }

    /** The search loop: it stops within |avail| steps on the next available index and leaves the
        cursor just behind it. */
    method AdvanceTo(avail: seq<bool>, ghost target: nat) returns (index: nat, ghost steps: nat)
      requires |avail| == |proxies| && cursor < |proxies| && target < |avail| && avail[target]
      modifies this`cursor
      ensures index < |avail| && avail[index] && index == Next(avail, old(cursor))
      ensures cursor == Succ(index, |avail|)
      ensures steps == Distance(|avail|, old(cursor), index) + 1 <= |avail|
    {
      ghost var start := cursor;
      var n := |avail|;
      SearchArrives(avail, start, n, target);
      index := cursor;
      cursor := Succ(cursor, n);
      steps := 1;
      while !avail[index]
        invariant index < n && cursor == Succ(index, n)
        invariant Distance(n, start, index) == steps - 1
        invariant Distance(n, start, index) + Distance(n, index, target) == Distance(n, start, target)
        invariant Search(avail, index, n + 1 - steps) == Next(avail, start)
        decreases Distance(n, index, target)
      {
        index := cursor;
        cursor := Succ(cursor, n);
        steps := steps + 1;
      }
    }

    /** Nothing without proxies, an error when all are banned; otherwise the next unbanned proxy going
        round from the cursor. */
    method GetProxy() returns (r: Result<Option<Served>, ProxyError>)
      requires Valid()
      modifies this`cursor
      ensures Valid()
      ensures proxies == [] ==> r == Ok(None)
      ensures r == Err(Exhausted) <==> proxies != [] && forall i :: 0 <= i < |proxies| ==> Url(proxies[i]) in banned
      ensures proxies != [] && r.Ok? ==>
        var i := Next(Availability(proxies, banned), old(cursor));
        && r.value == Some(ToServed(proxies[i]))
        && Url(proxies[i]) !in banned
        && cursor == Succ(i, |proxies|)
    {
      if proxies == [] {
        return Ok(None);
      }
      var avail := Availability(proxies, banned);
      if forall i :: 0 <= i < |avail| ==> !avail[i] {
        forall i | 0 <= i < |proxies| ensures Url(proxies[i]) in banned { assert !avail[i]; }
        return Err(Exhausted);
      }
      ghost var target: nat :| target < |avail| && avail[target];
      assert Url(proxies[target]) !in banned;
      var index, _ := AdvanceTo(avail, target);
      r := Ok(Some(ToServed(proxies[index])));
    }

    method MarkFailure(proxy: Option<Served>)
      requires Valid()
      modifies this`failures, this`banned
      ensures Valid()
      ensures State() == if proxy.None? then old(State()) else Failed(old(State()), ServedUrl(proxy.value), threshold)
    {
      if proxy.Some? {
        var url := ServedUrl(proxy.value);
        failures := failures[url := Count(failures, url) + 1];
        if failures[url] >= threshold {
          banned := banned + {url};
        }
      }
    }

    method MarkSuccess(proxy: Option<Served>)
      requires Valid()
      modifies this`failures, this`banned
      ensures Valid()
      ensures State() == if proxy.None? then old(State()) else Succeeded(old(State()), ServedUrl(proxy.value))
    {
      if proxy.Some? {
        var url := ServedUrl(proxy.value);
        if url in failures {
          failures := failures - {url};
        }
        if url in banned {
          banned := banned - {url};
        }
      }
    }

    method ResetAll()
      requires Valid()
      modifies this`failures, this`banned
      ensures Valid()
      ensures State() == Bans(map[], {})
    {
      failures, banned := map[], {};
    }
  }

  /** What the browser is given leads back to the proxy it came from, so a report on a served proxy
      counts for that proxy. */
  lemma ReportsReachTheProxy(p: ProxyConfig)
    ensures ServedUrl(ToServed(p)) == Url(p)
  {
  }

  /** The browser is given the proxy's address and its credentials as they are, except that empty ones are
      left out. */
  lemma ServedAsConfigured(p: ProxyConfig)
    ensures var served := ToServed(p);
      && served.server == p.url
      && (forall x :: served.username == Some(x) <==> p.username == Some(x) && x != "")
      && (forall x :: served.password == Some(x) <==> p.password == Some(x) && x != "")
  {
  }

  lemma EnabledOne(p: ProxyConfig)
    ensures EnabledOnly([p]) == if p.enabled then [p] else []
  {
    assert EnabledOnly([p][1..]) == [];
  }

  /** The rotation holds the enabled proxies, each as often as it is configured and in that order. */
  lemma {:induction false} EnabledAppends(a: seq<ProxyConfig>, b: seq<ProxyConfig>)
    ensures EnabledOnly(a + b) == EnabledOnly(a) + EnabledOnly(b)
  {
    if a == [] {
      assert a + b == b;
    } else {
      assert (a + b)[1..] == a[1..] + b;
      EnabledAppends(a[1..], b);
    }
  }
}
