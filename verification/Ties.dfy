/** Verdicts in any order (app/experiments/engine.py). */
module Ties {
  import opened Statistics
  import opened Winner
  import opened Wrappers

  // ---------------------------------------------------------------- up to ties

  /** The entry that a verdict names as leading, which is the winner if there is one. */
  ghost predicate IsLeader(v: Verdict, stats: seq<Entry>, l: Entry) {
    l in stats && v.leading == Some(l.key) && (v.winner.Some? ==> v.winner == Some(l.key))
  }

  /** Two verdicts say the same, up to ties. */
  ghost predicate SameOutcome(va: Verdict, a: seq<Entry>, vb: Verdict, b: seq<Entry>, metric: Metric) {
    && (va.winner.Some? <==> vb.winner.Some?)
    && (va.leading.Some? <==> vb.leading.Some?)
    && (va.leading.Some? ==> exists x, y ::
          IsLeader(va, a, x) && IsLeader(vb, b, y) && ScoreOf(x, metric) == ScoreOf(y, metric))
  }

  lemma ContestIsShared(
    a: seq<Entry>, b: seq<Entry>, controlKey: Option<string>, alpha: real, metric: Metric, tests: Tests)
    requires forall e :: e in a <==> e in b
    requires forall i, j :: 0 <= i < j < |a| ==> a[i].key != a[j].key
    ensures ContestOf(a, controlKey, alpha, metric, tests) == ContestOf(b, controlKey, alpha, metric, tests)
  {
    if controlKey.Some? {
      var i, j := FindKey(a, controlKey.value), FindKey(b, controlKey.value);
      if i.Some? {
        assert a[i.value] in b;
        var k :| 0 <= k < |b| && b[k] == a[i.value];
      }
      if j.Some? {
        assert b[j.value] in a;
        var k :| 0 <= k < |a| && a[k] == b[j.value];
      }
    }
  }

  lemma TopIsShared(a: seq<Entry>, b: seq<Entry>, metric: Metric, i: nat, j: nat)
    requires forall e :: e in a ==> e in b
    requires IsTop(a, metric, i) && IsTop(b, metric, j)
    ensures ScoreOf(a[i], metric) <= ScoreOf(b[j], metric)
  {
    hide ScoreOf;
    assert a[i] in b;
    var k :| 0 <= k < |b| && b[k] == a[i];
  }

  /** The verdict is the same up to ties, in whatever order the observations were read; without a tie on
      top it is the same verdict. */
  lemma VerdictIsShared(a: seq<Entry>, b: seq<Entry>, controlKey: Option<string>, alpha: real, metric: Metric,
                        tests: Tests, va: Verdict, vb: Verdict)
    requires KeysDiffer(a) && KeysDiffer(b) && forall e :: e in a <==> e in b
    requires IsVerdict(va, a, metric, ContestOf(a, controlKey, alpha, metric, tests))
    requires IsVerdict(vb, b, metric, ContestOf(b, controlKey, alpha, metric, tests))
    ensures SameOutcome(va, a, vb, b, metric)
    ensures !TiedOnTop(a, metric, ContestOf(a, controlKey, alpha, metric, tests)) ==> va == vb
  {
    var contest := ContestOf(a, controlKey, alpha, metric, tests);
    hide IsCandidate, ScoreOf, Beats, Reasons, Crowned, ContestOf, TiedOnTop, SameOutcome;
    ContestIsShared(a, b, controlKey, alpha, metric, tests);
    SharedOutcome(a, b, controlKey, alpha, metric, tests, va, vb);
    if !TiedOnTop(a, metric, contest) {
      if contest.Some? {
        ContestEnters(a, controlKey, alpha, metric, tests);
        ContestEnters(b, controlKey, alpha, metric, tests);
      }
      NoTieNoChoice(a, b, metric, contest, va, vb);
    }
  }

  lemma SharedOutcome(a: seq<Entry>, b: seq<Entry>, controlKey: Option<string>, alpha: real, metric: Metric,
                      tests: Tests, va: Verdict, vb: Verdict)
    requires KeysDiffer(a) && KeysDiffer(b) && forall e :: e in a <==> e in b
    requires IsVerdict(va, a, metric, ContestOf(a, controlKey, alpha, metric, tests))
    requires IsVerdict(vb, b, metric, ContestOf(b, controlKey, alpha, metric, tests))
    ensures SameOutcome(va, a, vb, b, metric)
  {
    var contest := ContestOf(a, controlKey, alpha, metric, tests);
    hide IsCandidate, ScoreOf, Beats, Reasons, Crowned, ContestOf;
    ContestIsShared(a, b, controlKey, alpha, metric, tests);
    BothEmpty(a, b);
    if a == [] {
    } else if contest.Some? && HasCandidate(a, contest.value) {
      ContestEnters(a, controlKey, alpha, metric, tests);
      ContestEnters(b, controlKey, alpha, metric, tests);
      SharedWinner(a, b, contest.value, va, vb);
    } else {
      if contest.Some? { SameCandidates(b, a, contest.value); }
      assert a[0] in b;
      SharedTop(a, b, metric, va, vb);
    }
  }

  lemma BothEmpty(a: seq<Entry>, b: seq<Entry>)
    requires forall e :: e in a <==> e in b
    ensures a == [] <==> b == []
  {
    if a != [] { assert a[0] in b; }
    if b != [] { assert b[0] in a; }
  }

  lemma SharedTop(a: seq<Entry>, b: seq<Entry>, metric: Metric, va: Verdict, vb: Verdict)
    requires forall e :: e in a <==> e in b
    requires exists i: nat :: IsTop(a, metric, i) && va == Leads(a[i])
    requires exists i: nat :: IsTop(b, metric, i) && vb == Leads(b[i])
    ensures SameOutcome(va, a, vb, b, metric)
  {
    hide ScoreOf;
    var i: nat :| IsTop(a, metric, i) && va == Leads(a[i]);
    var j: nat :| IsTop(b, metric, j) && vb == Leads(b[j]);
    TopIsShared(a, b, metric, i, j);
    TopIsShared(b, a, metric, j, i);
    assert IsLeader(va, a, a[i]) && IsLeader(vb, b, b[j]);
  }

  lemma ContestEnters(stats: seq<Entry>, controlKey: Option<string>, alpha: real, metric: Metric, tests: Tests)
    requires forall i, j :: 0 <= i < j < |stats| ==> stats[i].key != stats[j].key
    requires ContestOf(stats, controlKey, alpha, metric, tests).Some?
    ensures var c := ContestOf(stats, controlKey, alpha, metric, tests).value;
      Enters(stats, c) && c.metric == metric
  {
  }

  lemma SharedWinner(a: seq<Entry>, b: seq<Entry>, c: Contest, va: Verdict, vb: Verdict)
    requires Enters(a, c) && Enters(b, c) && HasCandidate(a, c) && forall e :: e in a <==> e in b
    requires IsVerdict(va, a, c.metric, Some(c)) && IsVerdict(vb, b, c.metric, Some(c))
    ensures SameOutcome(va, a, vb, b, c.metric)
  {
    hide IsCandidate, ScoreOf, HasCandidate, IsVerdict, Enters;
    WinnerIsBest(va, a, c);
    OrderOnlyBreaksTies(a, b, c, va, vb);
    var x, y :| IsBest(va, a, c, x) && IsBest(vb, b, c, y) && ScoreOf(x, c.metric) == ScoreOf(y, c.metric);
    assert IsLeader(va, a, x) && IsLeader(vb, b, y);
  }

  // ---------------------------------------------------------------- exactly when the order matters

  ghost predicate KeysDiffer(stats: seq<Entry>) {
    forall i, j :: 0 <= i < j < |stats| ==> stats[i].key != stats[j].key
  }

  /** The entries of `a` in another order. */
  ghost predicate Reordered(a: seq<Entry>, b: seq<Entry>) { KeysDiffer(b) && forall e :: e in a <==> e in b }

  /** Whether a winner is sought among the candidates only; if there are none, every entry contends. */
  ghost predicate IsContested(stats: seq<Entry>, contest: Option<Contest>) {
    contest.Some? && HasCandidate(stats, contest.value)
  }

  ghost predicate Contends(stats: seq<Entry>, contest: Option<Contest>, e: Entry) {
    IsContested(stats, contest) ==> IsCandidate(e, contest.value)
  }

  ghost predicate TopContender(stats: seq<Entry>, metric: Metric, contest: Option<Contest>, i: nat) {
    && i < |stats| && Contends(stats, contest, stats[i])
    && forall j :: 0 <= j < |stats| && Contends(stats, contest, stats[j]) ==>
         ScoreOf(stats[j], metric) <= ScoreOf(stats[i], metric)
  }

  /** Two contenders share the top score. */
  ghost predicate TiedOnTop(stats: seq<Entry>, metric: Metric, contest: Option<Contest>) {
    exists i: nat, j: nat :: i < j && TopContender(stats, metric, contest, i) && TopContender(stats, metric, contest, j)
  }

  ghost function VerdictFor(stats: seq<Entry>, contest: Option<Contest>, e: Entry): Verdict {
    if IsContested(stats, contest) then Crowned(e, contest.value) else Leads(e)
  }

  /** The contest is among these entries, under this metric. */
  ghost predicate Suits(stats: seq<Entry>, metric: Metric, contest: Option<Contest>) {
    KeysDiffer(stats) && (contest.Some? ==> Enters(stats, contest.value) && contest.value.metric == metric)
  }

  lemma VerdictIsForTop(stats: seq<Entry>, metric: Metric, contest: Option<Contest>, v: Verdict) returns (i: nat)
    requires stats != [] && Suits(stats, metric, contest) && IsVerdict(v, stats, metric, contest)
    ensures TopContender(stats, metric, contest, i) && v == VerdictFor(stats, contest, stats[i])
  {
    hide IsCandidate, ScoreOf, Beats, Crowned, HasCandidate;
    if IsContested(stats, contest) {
      i :| IsWinner(stats, contest.value, i) && v == Crowned(stats[i], contest.value);
      WinnerIsTop(stats, metric, contest, i);
    } else {
      i :| IsTop(stats, metric, i) && v == Leads(stats[i]);
    }
  }

  lemma WinnerIsTop(stats: seq<Entry>, metric: Metric, contest: Option<Contest>, i: nat)
    requires IsContested(stats, contest) && contest.value.metric == metric && IsWinner(stats, contest.value, i)
    ensures TopContender(stats, metric, contest, i)
  {
    forall j | 0 <= j < |stats| && IsCandidate(stats[j], contest.value)
      ensures ScoreOf(stats[j], metric) <= ScoreOf(stats[i], metric)
    {
      WinnerTopsCandidates(stats, contest.value, i, j);
    }
    hide IsCandidate, ScoreOf, Beats, HasCandidate;
  }

  lemma SameContest(a: seq<Entry>, b: seq<Entry>, contest: Option<Contest>)
    requires forall e :: e in a <==> e in b
    ensures IsContested(a, contest) == IsContested(b, contest)
  {
    if contest.Some? {
      SameCandidates(a, b, contest.value);
      SameCandidates(b, a, contest.value);
    }
  }

  lemma TopElsewhere(a: seq<Entry>, b: seq<Entry>, metric: Metric, contest: Option<Contest>, j: nat) returns (i: nat)
    requires forall e :: e in a <==> e in b
    requires TopContender(b, metric, contest, j)
    ensures TopContender(a, metric, contest, i) && a[i] == b[j]
  {
    hide IsCandidate, ScoreOf, IsContested;
    SameContest(a, b, contest);
    assert b[j] in a;
    i :| 0 <= i < |a| && a[i] == b[j];
    forall k | 0 <= k < |a| && Contends(a, contest, a[k]) ensures ScoreOf(a[k], metric) <= ScoreOf(a[i], metric) {
      assert a[k] in b;
      var l :| 0 <= l < |b| && b[l] == a[k];
    }
  }

  /** Without a tie every order gives the same verdict. */
  lemma NoTieNoChoice(a: seq<Entry>, b: seq<Entry>, metric: Metric, contest: Option<Contest>, va: Verdict, vb: Verdict)
    requires Suits(a, metric, contest) && Suits(b, metric, contest) && forall e :: e in a <==> e in b
    requires IsVerdict(va, a, metric, contest) && IsVerdict(vb, b, metric, contest)
    requires !TiedOnTop(a, metric, contest)
    ensures va == vb
  {
    hide TopContender, Suits, IsVerdict, IsContested;
    BothEmpty(a, b);
    if a != [] {
      var i := VerdictIsForTop(a, metric, contest, va);
      var j := VerdictIsForTop(b, metric, contest, vb);
      var k := TopElsewhere(a, b, metric, contest, j);
      SameContest(a, b, contest);
      assert i == k;
    } else {
      EmptyVerdict(metric, contest, va);
      EmptyVerdict(metric, contest, vb);
    }
  }

  lemma EmptyVerdict(metric: Metric, contest: Option<Contest>, v: Verdict)
    requires IsVerdict(v, [], metric, contest)
    ensures v == Verdict(None, None, None, None)
  {
  }

  /** `stats` with its entry `i` moved to the front. */
  function Fronted(stats: seq<Entry>, i: nat): seq<Entry>
    requires i < |stats|
  {
    [stats[i]] + stats[..i] + stats[i + 1..]
  }

  lemma FrontedIsReordered(stats: seq<Entry>, i: nat)
    requires KeysDiffer(stats) && i < |stats|
    ensures Reordered(stats, Fronted(stats, i))
  {
    var b := Fronted(stats, i);
    forall j | 0 <= j < |stats| ensures stats[j] in b {
      assert b[if j < i then j + 1 else if j == i then 0 else j] == stats[j];
    }
  }

  /** A top contender that is listed first gets the verdict. */
  lemma ListedFirstWins(stats: seq<Entry>, metric: Metric, contest: Option<Contest>, i: nat)
    requires Suits(stats, metric, contest) && TopContender(stats, metric, contest, i)
    ensures IsVerdict(VerdictFor(stats, contest, stats[i]), Fronted(stats, i), metric, contest)
  {
    hide IsCandidate, ScoreOf, Beats, Crowned, HasCandidate;
    var b := Fronted(stats, i);
    FrontedIsReordered(stats, i);
    SameContest(stats, b, contest);
    var _ := TopElsewhere(b, stats, metric, contest, i);
    assert b[0] == stats[i];
    if IsContested(stats, contest) {
      var c := contest.value;
      forall j | 0 <= j < |b| && IsCandidate(b[j], c) ensures !Beats(b[j], b[0], c) {
        assert b[j] in stats;
        NotBeaten(b[j], b[0], c);
      }
      assert IsWinner(b, c, 0);
    } else {
      forall j | 0 <= j < |b| ensures ScoreOf(b[j], metric) <= ScoreOf(b[0], metric) { assert b[j] in stats; }
      assert IsTop(b, metric, 0);
    }
  }

  lemma NotBeaten(a: Entry, b: Entry, c: Contest)
    requires ScoreOf(a, c.metric) <= ScoreOf(b, c.metric)
    ensures !Beats(a, b, c)
  {
    hide ScoreOf, Uplift;
    UpliftFollowsScore(a, b, c);
  }

  /** Some order of reading the entries leads to verdict `v`. */
  ghost predicate IsPossible(stats: seq<Entry>, metric: Metric, contest: Option<Contest>, v: Verdict) {
    exists b :: Reordered(stats, b) && IsVerdict(v, b, metric, contest)
  }

  lemma TopIsPossible(stats: seq<Entry>, metric: Metric, contest: Option<Contest>, i: nat)
    requires Suits(stats, metric, contest) && TopContender(stats, metric, contest, i)
    ensures IsPossible(stats, metric, contest, VerdictFor(stats, contest, stats[i]))
    ensures VerdictFor(stats, contest, stats[i]).leading == Some(stats[i].key)
  {
    ListedFirstWins(stats, metric, contest, i);
    FrontedIsReordered(stats, i);
    if IsContested(stats, contest) { CrownedHasReasons(stats[i], contest.value); }
    hide IsCandidate, IsVerdict, Crowned, ScoreOf, Reordered, Fronted, HasCandidate;
    assert Reordered(stats, Fronted(stats, i));
  }

  lemma PossibleIsForTop(stats: seq<Entry>, metric: Metric, contest: Option<Contest>, v: Verdict, w: Verdict)
    requires Suits(stats, metric, contest) && !TiedOnTop(stats, metric, contest)
    requires IsPossible(stats, metric, contest, v) && IsPossible(stats, metric, contest, w)
    ensures v == w
  {
    hide IsVerdict, TiedOnTop;
    var a :| Reordered(stats, a) && IsVerdict(v, a, metric, contest);
    var b :| Reordered(stats, b) && IsVerdict(w, b, metric, contest);
    TieElsewhere(stats, a, metric, contest);
    NoTieNoChoice(a, b, metric, contest, v, w);
  }

  lemma TieElsewhere(a: seq<Entry>, b: seq<Entry>, metric: Metric, contest: Option<Contest>)
    requires KeysDiffer(a) && KeysDiffer(b) && forall e :: e in a <==> e in b
    ensures TiedOnTop(b, metric, contest) ==> TiedOnTop(a, metric, contest)
  {
    hide TopContender;
    if TiedOnTop(b, metric, contest) {
      var i: nat, j: nat :| i < j && TopContender(b, metric, contest, i) && TopContender(b, metric, contest, j);
      var k := TopElsewhere(a, b, metric, contest, i);
      var l := TopElsewhere(a, b, metric, contest, j);
      TopIsIndex(b, metric, contest, j);
      TopIsIndex(a, metric, contest, k);
      TopIsIndex(a, metric, contest, l);
      assert k != l;
      assert TopContender(a, metric, contest, if k < l then k else l);
    }
  }

  lemma TopIsIndex(stats: seq<Entry>, metric: Metric, contest: Option<Contest>, i: nat)
    requires TopContender(stats, metric, contest, i)
    ensures i < |stats|
  {
  }

  /** Some order of reading the entries leads to verdict `v`, the control looked up in that order. */
  ghost predicate CanBeRead(
    stats: seq<Entry>, controlKey: Option<string>, alpha: real, metric: Metric, tests: Tests, v: Verdict)
  {
    exists b :: Reordered(stats, b) && IsVerdict(v, b, metric, ContestOf(b, controlKey, alpha, metric, tests))
  }

  lemma ReadIsPossible(
    stats: seq<Entry>, controlKey: Option<string>, alpha: real, metric: Metric, tests: Tests, v: Verdict)
    requires KeysDiffer(stats)
    ensures CanBeRead(stats, controlKey, alpha, metric, tests, v)
      <==> IsPossible(stats, metric, ContestOf(stats, controlKey, alpha, metric, tests), v)
  {
    hide IsVerdict, ContestOf;
    forall b | Reordered(stats, b)
      ensures ContestOf(b, controlKey, alpha, metric, tests) == ContestOf(stats, controlKey, alpha, metric, tests)
    {
      ContestIsShared(stats, b, controlKey, alpha, metric, tests);
    }
  }

  /** The order in which variants are read matters exactly when two contenders share the top score:
      candidates if there are any, and otherwise any two variants. */
  lemma VerdictIsFixedIff(stats: seq<Entry>, controlKey: Option<string>, alpha: real, metric: Metric, tests: Tests)
    requires KeysDiffer(stats)
    ensures
      (forall v, w ::
        CanBeRead(stats, controlKey, alpha, metric, tests, v) && CanBeRead(stats, controlKey, alpha, metric, tests, w)
        ==> v == w)
      <==> !TiedOnTop(stats, metric, ContestOf(stats, controlKey, alpha, metric, tests))
  {
    var contest := ContestOf(stats, controlKey, alpha, metric, tests);
    if contest.Some? { ContestEnters(stats, controlKey, alpha, metric, tests); }
    hide CanBeRead, IsPossible, TopContender, ContestOf, VerdictFor, Enters;
    if TiedOnTop(stats, metric, contest) {
      var i: nat, j: nat :| i < j && TopContender(stats, metric, contest, i) && TopContender(stats, metric, contest, j);
      TopIsIndex(stats, metric, contest, j);
      TopIsPossible(stats, metric, contest, i);
      TopIsPossible(stats, metric, contest, j);
      ReadIsPossible(stats, controlKey, alpha, metric, tests, VerdictFor(stats, contest, stats[i]));
      ReadIsPossible(stats, controlKey, alpha, metric, tests, VerdictFor(stats, contest, stats[j]));
    } else {
      forall v, w |
        CanBeRead(stats, controlKey, alpha, metric, tests, v) && CanBeRead(stats, controlKey, alpha, metric, tests, w)
        ensures v == w
      {
        ReadIsPossible(stats, controlKey, alpha, metric, tests, v);
        ReadIsPossible(stats, controlKey, alpha, metric, tests, w);
        PossibleIsForTop(stats, metric, contest, v, w);
      }
    }
  }

  const TWIN_ENTRY: Entry := ProfitEntry("u", 50, 2.0)

  /** An example: of two tested variants with one mean profit, the one that is read first wins. */
  lemma FirstOfTwinsWins(v: Verdict, w: Verdict, tests: Tests)
    requires tests == Tests((_, _, _, _) => 0.01, (_, _, _, _, _, _) => 0.01)
    requires var contest := Some(Contest(CONTROL_ENTRY, 0.05, Profit, tests));
      && IsVerdict(v, [CONTROL_ENTRY, TESTED_ENTRY, TWIN_ENTRY], Profit, contest)
      && IsVerdict(w, [CONTROL_ENTRY, TWIN_ENTRY, TESTED_ENTRY], Profit, contest)
    ensures v.winner == Some("t") && w.winner == Some("u")
  {
    var c := Contest(CONTROL_ENTRY, 0.05, Profit, tests);
    TwinsAreCandidates(c);
    FirstOfTwo(v, CONTROL_ENTRY, TESTED_ENTRY, TWIN_ENTRY, c);
    FirstOfTwo(w, CONTROL_ENTRY, TWIN_ENTRY, TESTED_ENTRY, c);
  }

  lemma TwinsAreCandidates(c: Contest)
    requires c.control == CONTROL_ENTRY && c.alpha == 0.05 && c.metric == Profit
    requires c.tests == Tests((_, _, _, _) => 0.01, (_, _, _, _, _, _) => 0.01)
    ensures IsCandidate(TESTED_ENTRY, c) && IsCandidate(TWIN_ENTRY, c) && !IsCandidate(CONTROL_ENTRY, c)
    ensures ScoreOf(TESTED_ENTRY, Profit) == ScoreOf(TWIN_ENTRY, Profit)
  {
    assert "c"[0] == 'c' && "t"[0] == 't' && "u"[0] == 'u';
  }

  lemma FirstOfTwo(v: Verdict, control: Entry, a: Entry, b: Entry, c: Contest)
    requires IsVerdict(v, [control, a, b], c.metric, Some(c))
    requires IsCandidate(a, c) && IsCandidate(b, c) && !IsCandidate(control, c)
    requires ScoreOf(a, c.metric) == ScoreOf(b, c.metric)
    ensures v.winner == Some(a.key)
  {
    var stats := [control, a, b];
    NotBeaten(b, a, c);
    CrownedHasReasons(a, c);
    hide IsCandidate, ScoreOf, Beats, Crowned;
    assert stats[0] == control && stats[1] == a && stats[2] == b;
    assert HasCandidate(stats, c);
    var i: nat :| IsWinner(stats, c, i) && v == Crowned(stats[i], c);
  }
}
