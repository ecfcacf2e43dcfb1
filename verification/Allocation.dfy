/** Capital over ranked opportunities (app/finance/engine.py). */
module Allocation {
  // The greedy policies solve the fractional knapsack problem for their ranking key; `equal` gives each
  // opportunity the same share, capped by what it needs.

  import opened RealMath
  import opened Wrappers
  import opened StableSorting
  import opened Replenishment

  datatype Allotment = Allotment(
    amount: real, units: real, fraction: real, capitalEfficiency: real,
    expectedReturn: real, risk: real, orderQty: int)

  datatype Plan = Plan(
    allotments: seq<Allotment>, totalAllocated: real, expectedTotalReturn: real,
    policy: string, reserved: real)

  // ---------------------------------------------------------------- ranking

  function Evaluations(
    items: seq<Opportunity>, config: FinanceConfig, budget: real, root: real -> real): (evals: seq<Evaluation>)
    requires SquareRoot(root)
    ensures |evals| == |items|
    ensures forall i :: 0 <= i < |items| ==> evals[i] == Evaluate(items[i], config, Some(budget), root)
  {
    if items == [] then []
    else [Evaluate(items[0], config, Some(budget), root)] + Evaluations(items[1..], config, budget, root)
  }

  /** `policy or config.allocation_policy`: no policy and the empty policy both mean the default. */
  function PolicyInForce(policy: Option<string>, config: FinanceConfig): string {
    match policy
    case Some(p) => if p != "" then p else config.allocationPolicy
    case None => config.allocationPolicy
  }

  function EfficiencyKey(e: Evaluation): real { e.capitalEfficiency }

  function ConservativeKey(e: Evaluation): real { e.capitalEfficiency * (1.0 - e.risk) }

  /** What a greedy policy ranks by; any unknown policy name means efficiency. */
  function KeyOf(policy: string): Evaluation -> real {
    if policy == "conservative" then ConservativeKey else EfficiencyKey
  }

  function Ranked(evals: seq<Evaluation>, policy: string): seq<Evaluation> {
    if policy == "equal" then evals else SortDescending(evals, KeyOf(policy))
  }

  function Caps(evals: seq<Evaluation>): (caps: seq<real>)
    ensures |caps| == |evals| && forall i :: 0 <= i < |evals| ==> caps[i] == evals[i].capitalRequired
  {
    seq(|evals|, i requires 0 <= i < |evals| => evals[i].capitalRequired)
  }

  function Keys(evals: seq<Evaluation>, key: Evaluation -> real): (keys: seq<real>)
    ensures |keys| == |evals| && forall i :: 0 <= i < |evals| ==> keys[i] == key(evals[i])
  {
    seq(|evals|, i requires 0 <= i < |evals| => key(evals[i]))
  }

  // ---------------------------------------------------------------- granting

  /** One grant: the cap, the equal share if there is one, and what is left, but never below 0. */
  function Grant(cap: real, share: Option<real>, remaining: real): real {
    var limit := match share case Some(s) => Min(Min(cap, s), remaining) case None => Min(cap, remaining);
    Max(0.0, limit)
  }

  function Amounts(caps: seq<real>, share: Option<real>, remaining: real): (amounts: seq<real>)
    ensures |amounts| == |caps|
  {
    if caps == [] then []
    else
      var a := Grant(caps[0], share, remaining);
      [a] + Amounts(caps[1..], share, remaining - a)
  }

  function Share(policy: string, budget: real, n: nat): Option<real> {
    if policy == "equal" && n != 0 then Some(budget / n as real) else None
  }

  /** The amounts `AllocateOpportunities` hands out, in ranked order. */
  function AllocatedAmounts(ranked: seq<Evaluation>, policy: string, budget: real): (amounts: seq<real>)
    ensures |amounts| == |ranked|
  {
    Amounts(Caps(ranked), Share(policy, budget, |ranked|), budget)
  }

  function AllotmentOf(e: Evaluation, amount: real, budget: real): Allotment {
    var units := if e.unitCost > 0.0 then amount / e.unitCost else 0.0;
    var marginRate := if e.capitalRequired > 0.0 then e.expectedProfit / e.capitalRequired else 0.0;
    var fraction := if budget != 0.0 then amount / budget else 0.0;
    Allotment(amount, units, fraction, e.capitalEfficiency, amount * marginRate, e.risk, e.orderQty)
  }

  function AmountsOf(allotments: seq<Allotment>): (amounts: seq<real>)
    ensures |amounts| == |allotments| && forall i :: 0 <= i < |amounts| ==> amounts[i] == allotments[i].amount
  {
    seq(|allotments|, i requires 0 <= i < |allotments| => allotments[i].amount)
  }

  function ReturnsOf(allotments: seq<Allotment>): (returns_: seq<real>)
    ensures |returns_| == |allotments|
    ensures forall i :: 0 <= i < |returns_| ==> returns_[i] == allotments[i].expectedReturn
  {
    seq(|allotments|, i requires 0 <= i < |allotments| => allotments[i].expectedReturn)
  }

  /** The allocation loop. Each allotment is the one `AllocatedAmounts` names, in ranked order,
      and the totals are those of the allotments. */
  method AllocateOpportunities(
    items: seq<Opportunity>, config: FinanceConfig, budget: real, policy: Option<string>, root: real -> real)
    returns (plan: Plan)
    requires SquareRoot(root)
    ensures plan.policy == PolicyInForce(policy, config)
    ensures var ranked := Ranked(Evaluations(items, config, budget, root), plan.policy);
            var amounts := AllocatedAmounts(ranked, plan.policy, budget);
            && |plan.allotments| == |ranked|
            && (forall i :: 0 <= i < |ranked| ==> plan.allotments[i] == AllotmentOf(ranked[i], amounts[i], budget))
            && plan.totalAllocated == Sum(amounts)
            && plan.expectedTotalReturn == Sum(ReturnsOf(plan.allotments))
            && plan.totalAllocated + plan.reserved == budget
  {
    var inForce := PolicyInForce(policy, config);
    var ranked := Ranked(Evaluations(items, config, budget, root), inForce);
    var allotments := GrantInOrder(ranked, inForce, budget);
    var total := Sum(AmountsOf(allotments));
    assert AmountsOf(allotments) == AllocatedAmounts(ranked, inForce, budget);
    plan := Plan(allotments, total, Sum(ReturnsOf(allotments)), inForce, budget - total);
  }

  lemma AmountsStep(caps: seq<real>, amounts: seq<real>, i: nat, share: Option<real>, remaining: real)
    requires |caps| == |amounts| && i < |caps|
    requires amounts[i..] == Amounts(caps[i..], share, remaining)
    ensures amounts[i] == Grant(caps[i], share, remaining)
    ensures amounts[i + 1..] == Amounts(caps[i + 1..], share, remaining - amounts[i])
  {
    assert caps[i..][1..] == caps[i + 1..] && amounts[i..][1..] == amounts[i + 1..];
    assert amounts[i..][0] == amounts[i];
  }

  method GrantInOrder(ranked: seq<Evaluation>, policy: string, budget: real) returns (allotments: seq<Allotment>)
    ensures |allotments| == |ranked|
    ensures forall i :: 0 <= i < |ranked| ==>
      allotments[i] == AllotmentOf(ranked[i], AllocatedAmounts(ranked, policy, budget)[i], budget)
  {
    hide AllotmentOf, Amounts;
    var remaining := budget;
    var n := |ranked|;
    allotments := [];
    ghost var amounts := AllocatedAmounts(ranked, policy, budget);
    ghost var caps, share := Caps(ranked), Share(policy, budget, n);
    assert amounts[0..] == amounts && caps[0..] == caps;
    for i := 0 to n
      invariant |allotments| == i
      invariant amounts[i..] == Amounts(caps[i..], share, remaining)
      invariant forall j :: 0 <= j < i ==> allotments[j] == AllotmentOf(ranked[j], amounts[j], budget)
    {
      var cap := ranked[i].capitalRequired;
      var alloc;
      if policy == "equal" && n != 0 {
        var equalShare := budget / n as real;
        alloc := Min(Min(cap, equalShare), remaining);
      } else {
        alloc := Min(cap, remaining);
      }
      alloc := Max(0.0, alloc);
      AmountsStep(caps, amounts, i, share, remaining);
      assert alloc == amounts[i];
      remaining := remaining - alloc;
      allotments := allotments + [AllotmentOf(ranked[i], alloc, budget)];
    }
  }

  // ---------------------------------------------------------------- totals and feasibility

  ghost predicate NonNegative(xs: seq<real>) { forall i :: 0 <= i < |xs| ==> xs[i] >= 0.0 }

  /** `x` gives every opportunity between nothing and all it needs. */
  ghost predicate Feasible(x: seq<real>, caps: seq<real>) {
    |x| == |caps| && forall i :: 0 <= i < |x| ==> 0.0 <= x[i] <= caps[i]
  }

  lemma {:induction false} AmountsFeasible(caps: seq<real>, share: Option<real>, remaining: real)
    requires NonNegative(caps)
    ensures Feasible(Amounts(caps, share, remaining), caps)
  {
    if caps != [] {
      AmountsFeasible(caps[1..], share, remaining - Grant(caps[0], share, remaining));
    }
  }

  /** Greedy spends the whole budget unless every opportunity is fully funded first. */
  lemma {:induction false} GreedyTotal(caps: seq<real>, budget: real)
    requires NonNegative(caps)
    ensures Sum(Amounts(caps, None, budget)) == Max(0.0, Min(budget, Sum(caps)))
  {
    SumNonNegative(caps);
    if caps != [] {
      SumNonNegative(caps[1..]);
      GreedyTotal(caps[1..], budget - Grant(caps[0], None, budget));
    }
  }

  /** Under every policy nothing is overspent, exactly when the budget is not negative. */
  lemma {:induction false} NeverOverspends(caps: seq<real>, share: Option<real>, budget: real)
    ensures Sum(Amounts(caps, share, budget)) <= budget <==> budget >= 0.0
    ensures Sum(Amounts(caps, share, budget)) >= 0.0
  {
    if caps != [] {
      NeverOverspends(caps[1..], share, budget - Grant(caps[0], share, budget));
    }
  }

  // ---------------------------------------------------------------- the equal policy

  /** With `left` shares' worth of money remaining, the cap by what remains never binds. */
  lemma {:induction false} EqualShares(caps: seq<real>, share: real, remaining: real, left: real)
    requires if share >= 0.0 then left == |caps| as real * share && remaining >= left else remaining < 0.0
    ensures forall i :: 0 <= i < |caps| ==>
      Amounts(caps, Some(share), remaining)[i] == Max(0.0, Min(caps[i], share))
  {
    if caps != [] {
      var a := Grant(caps[0], Some(share), remaining);
      OneShareFewer(|caps|, share, left);
      EqualShares(caps[1..], share, remaining - a, left - share);
    }
  }

  lemma OneShareFewer(n: nat, share: real, left: real)
    requires n > 0 && share >= 0.0 ==> left == n as real * share
    ensures n > 0 && share >= 0.0 ==> left - share == (n - 1) as real * share >= 0.0
  {
  }

  /** Each opportunity gets min(what it needs, budget / n), whoever comes before it. */
  lemma EqualPolicyIsExact(evals: seq<Evaluation>, budget: real, i: nat)
    requires i < |evals|
    ensures AllocatedAmounts(Ranked(evals, "equal"), "equal", budget)[i]
         == Max(0.0, Min(evals[i].capitalRequired, budget / |evals| as real))
  {
    var share := budget / |evals| as real;
    DivideCancels(budget, |evals| as real);
    EqualShares(Caps(evals), share, budget, budget);
  }

  // ---------------------------------------------------------------- greedy is optimal

  ghost predicate DescendingReals(keys: seq<real>) {
    forall i, j :: 0 <= i < j < |keys| ==> keys[i] >= keys[j]
  }

  /** The key of the opportunity at which greedy runs out of money (`top` if it runs out before). */
  ghost function Threshold(caps: seq<real>, keys: seq<real>, r: real, top: real): real
    requires |caps| == |keys|
  {
    if caps == [] || r == 0.0 then top
    else if caps[0] == 0.0 then Threshold(caps[1..], keys[1..], r, top)
    else if caps[0] <= r then Threshold(caps[1..], keys[1..], r - caps[0], keys[0])
    else keys[0]
  }

  /** Money goes where the key is above `t` until it is fully funded, and never where it is below. */
  ghost predicate Separates(a: seq<real>, caps: seq<real>, keys: seq<real>, t: real)
    requires |a| == |caps| == |keys|
  {
    forall i :: 0 <= i < |a| ==> (keys[i] > t ==> a[i] == caps[i]) && (keys[i] < t ==> a[i] == 0.0)
  }

  lemma {:induction false} SpentOutGrantsNothing(caps: seq<real>)
    requires NonNegative(caps)
    ensures forall i :: 0 <= i < |caps| ==> Amounts(caps, None, 0.0)[i] == 0.0
  {
    if caps != [] { SpentOutGrantsNothing(caps[1..]); }
  }

  lemma {:induction false} GreedySeparates(caps: seq<real>, keys: seq<real>, r: real, top: real)
    requires |caps| == |keys| && NonNegative(caps) && DescendingReals(keys) && r >= 0.0
    requires forall i :: 0 <= i < |keys| ==> keys[i] <= top
    ensures Threshold(caps, keys, r, top) <= top
    ensures Separates(Amounts(caps, None, r), caps, keys, Threshold(caps, keys, r, top))
  {
    if caps == [] {
    } else if r == 0.0 {
      SpentOutGrantsNothing(caps);
    } else if caps[0] == 0.0 {
      GreedySeparates(caps[1..], keys[1..], r, top);
    } else if caps[0] <= r {
      GreedySeparates(caps[1..], keys[1..], r - caps[0], keys[0]);
    } else {
      SpentOutGrantsNothing(caps[1..]);
    }
  }

  ghost predicate IsShift(p: seq<real>, q: seq<real>, u: seq<real>) {
    |p| == |q| == |u| && forall i :: 0 <= i < |p| ==> p[i] == q[i] + u[i]
  }

  lemma ShiftAt(a: seq<real>, keys: seq<real>, t: real, i: nat)
    requires i < |a| == |keys|
    ensures Times(a, keys)[i] == Times(a, Shifted(keys, t))[i] + Scaled(t, a)[i]
  {
    hide Times, Scaled;
    TimesAt(a, keys, i);
    TimesAt(a, Shifted(keys, t), i);
    ScaledAt(t, a, i);
    ShiftTerm(a[i], keys[i], Shifted(keys, t)[i], t);
  }

  lemma ShiftTerm(a: real, key: real, shifted: real, t: real)
    requires shifted == key - t
    ensures a * key == a * shifted + t * a
  {
  }

  lemma ShiftedProducts(a: seq<real>, keys: seq<real>, t: real)
    requires |a| == |keys|
    ensures IsShift(Times(a, keys), Times(a, Shifted(keys, t)), Scaled(t, a))
  {
    hide Times, Scaled;
    forall i | 0 <= i < |a|
      ensures Times(a, keys)[i] == Times(a, Shifted(keys, t))[i] + Scaled(t, a)[i]
    {
      ShiftAt(a, keys, t, i);
    }
  }

  lemma ShiftedDot(a: seq<real>, keys: seq<real>, t: real)
    requires |a| == |keys|
    ensures Dot(a, keys) == Dot(a, Shifted(keys, t)) + t * Sum(a)
  {
    hide Sum, Times, Scaled;
    ShiftedProducts(a, keys, t);
    SumPointwise(Times(a, keys), Times(a, Shifted(keys, t)), Scaled(t, a));
    SumScaled(t, a);
  }

  lemma SeparatedTerm(a: real, x: real, cap: real, shifted: real)
    requires 0.0 <= x <= cap
    requires (shifted > 0.0 ==> a == cap) && (shifted < 0.0 ==> a == 0.0)
    ensures x * shifted <= a * shifted
  {
    if shifted < 0.0 {
      assert a * shifted - x * shifted == x * -shifted;
    } else {
      assert a * shifted - x * shifted == (a - x) * shifted;
    }
  }

  lemma SeparatedAt(a: seq<real>, x: seq<real>, cap: real, ks: seq<real>, i: nat)
    requires i < |a| == |x| == |ks| && 0.0 <= x[i] <= cap
    requires (ks[i] > 0.0 ==> a[i] == cap) && (ks[i] < 0.0 ==> a[i] == 0.0)
    ensures Times(x, ks)[i] <= Times(a, ks)[i]
  {
    TimesAt(a, ks, i);
    TimesAt(x, ks, i);
    SeparatedTerm(a[i], x[i], cap, ks[i]);
  }

  lemma SeparatedShiftedDots(a: seq<real>, x: seq<real>, caps: seq<real>, keys: seq<real>, t: real)
    requires |a| == |caps| == |keys| && Feasible(x, caps) && Separates(a, caps, keys, t)
    ensures Dot(x, Shifted(keys, t)) <= Dot(a, Shifted(keys, t))
  {
    hide Times;
    var ks := Shifted(keys, t);
    forall i | 0 <= i < |a| ensures Times(x, ks)[i] <= Times(a, ks)[i] {
      SeparatedAt(a, x, caps[i], ks, i);
    }
    SumMonotone(Times(x, ks), Times(a, ks));
  }

  /** The exchange argument: moving any feasible plan to a separated one gains at least `t` for
      every unit of extra money used. */
  lemma SeparatedGain(a: seq<real>, x: seq<real>, caps: seq<real>, keys: seq<real>, t: real)
    requires |a| == |caps| == |keys| && Feasible(x, caps) && Separates(a, caps, keys, t)
    ensures Dot(a, keys) - Dot(x, keys) >= t * Sum(a) - t * Sum(x)
  {
    hide Dot, Sum;
    ShiftedDot(a, keys, t);
    ShiftedDot(x, keys, t);
    SeparatedShiftedDots(a, x, caps, keys, t);
  }

  ghost function TopKey(keys: seq<real>): real { if keys == [] then 0.0 else Max(0.0, keys[0]) }

  /** No plan spending the same money earns more than greedy, whatever the signs of the keys. */
  lemma GreedyBeatsEqualSpend(caps: seq<real>, keys: seq<real>, budget: real, x: seq<real>)
    requires |caps| == |keys| && DescendingReals(keys) && Feasible(x, caps)
    requires budget >= 0.0 && Sum(x) == Sum(Amounts(caps, None, budget))
    ensures Dot(x, keys) <= Dot(Amounts(caps, None, budget), keys)
  {
    hide Dot, Sum;
    var a, t := Amounts(caps, None, budget), Threshold(caps, keys, budget, TopKey(keys));
    GreedySeparates(caps, keys, budget, TopKey(keys));
    SeparatedGain(a, x, caps, keys, t);
    SameProduct(t, Sum(a), Sum(x));
  }

  // ---------------------------------------------------------------- against every plan in budget

  /** Capital the opportunities with a non-negative key can absorb. */
  function UsefulCapital(caps: seq<real>, keys: seq<real>): real
    requires |caps| == |keys|
  {
    if caps == [] then 0.0
    else (if keys[0] >= 0.0 then caps[0] else 0.0) + UsefulCapital(caps[1..], keys[1..])
  }

  /** Greedy never reaches an opportunity with a negative key and room for money. */
  ghost predicate NoLoserFunded(caps: seq<real>, keys: seq<real>, budget: real)
    requires |caps| == |keys|
  {
    budget <= UsefulCapital(caps, keys) || forall i :: 0 <= i < |keys| && keys[i] < 0.0 ==> caps[i] == 0.0
  }

  lemma {:induction false} UsefulCapitalBounds(caps: seq<real>, keys: seq<real>)
    requires |caps| == |keys| && NonNegative(caps)
    ensures 0.0 <= UsefulCapital(caps, keys) <= Sum(caps)
    ensures (exists i :: 0 <= i < |keys| && keys[i] < 0.0 && caps[i] > 0.0) ==> UsefulCapital(caps, keys) < Sum(caps)
    ensures (forall i :: 0 <= i < |keys| ==> keys[i] < 0.0) ==> UsefulCapital(caps, keys) == 0.0
  {
    if caps != [] {
      UsefulCapitalBounds(caps[1..], keys[1..]);
      if i :| 0 <= i < |keys| && keys[i] < 0.0 && caps[i] > 0.0 {
        if i > 0 {
          assert keys[1..][i - 1] < 0.0 && caps[1..][i - 1] > 0.0;
        }
      }
    }
  }

  lemma {:induction false} ThresholdNonNegative(caps: seq<real>, keys: seq<real>, r: real, top: real)
    requires |caps| == |keys| && NonNegative(caps) && DescendingReals(keys) && r >= 0.0 && top >= 0.0
    requires NoLoserFunded(caps, keys, r)
    ensures Threshold(caps, keys, r, top) >= 0.0
  {
    UsefulCapitalBounds(caps, keys);
    if caps == [] || r == 0.0 {
    } else if caps[0] == 0.0 {
      ThresholdNonNegative(caps[1..], keys[1..], r, top);
    } else {
      assert keys[0] >= 0.0;
      if caps[0] <= r {
        ThresholdNonNegative(caps[1..], keys[1..], r - caps[0], keys[0]);
      }
    }
  }

  lemma SeparatedBeats(a: seq<real>, x: seq<real>, caps: seq<real>, keys: seq<real>, t: real)
    requires |a| == |caps| == |keys| && Feasible(x, caps) && Separates(a, caps, keys, t)
    requires t >= 0.0 && Sum(x) <= Sum(a)
    ensures Dot(x, keys) <= Dot(a, keys)
  {
    hide Dot, Sum;
    SeparatedGain(a, x, caps, keys, t);
    ScaledOrder(t, Sum(x), Sum(a));
  }

  lemma GreedyBeatsWithinBudget(caps: seq<real>, keys: seq<real>, budget: real, x: seq<real>)
    requires |caps| == |keys| && NonNegative(caps) && DescendingReals(keys) && Feasible(x, caps)
    requires budget >= 0.0 && Sum(x) <= budget && NoLoserFunded(caps, keys, budget)
    ensures Dot(x, keys) <= Dot(Amounts(caps, None, budget), keys)
  {
    GreedySeparates(caps, keys, budget, TopKey(keys));
    ThresholdNonNegative(caps, keys, budget, TopKey(keys));
    GreedyTotal(caps, budget);
    SumBelowCaps(x, caps);
    SeparatedBeats(Amounts(caps, None, budget), x, caps, keys, Threshold(caps, keys, budget, TopKey(keys)));
  }

  lemma ScaledOrder(t: real, x: real, y: real)
    requires t >= 0.0 && x <= y
    ensures t * x <= t * y
  {
  }

  lemma {:induction false} SumBelowCaps(x: seq<real>, caps: seq<real>)
    requires Feasible(x, caps)
    ensures 0.0 <= Sum(x) <= Sum(caps)
  {
    if x != [] { SumBelowCaps(x[1..], caps[1..]); }
  }

  /** The same plan with nothing for opportunities whose key is negative. */
  ghost function WithoutLosers(a: seq<real>, keys: seq<real>): (x: seq<real>)
    requires |a| == |keys|
    ensures |x| == |a| && forall i :: 0 <= i < |a| ==> x[i] == if keys[i] < 0.0 then 0.0 else a[i]
  {
    seq(|a|, i requires 0 <= i < |a| => if keys[i] < 0.0 then 0.0 else a[i])
  }

  lemma {:induction false} WinnersFitUsefulCapital(a: seq<real>, caps: seq<real>, keys: seq<real>)
    requires |a| == |keys| && Feasible(a, caps)
    requires forall i :: 0 <= i < |keys| && keys[i] < 0.0 ==> a[i] == 0.0
    ensures Sum(a) <= UsefulCapital(caps, keys)
  {
    if a != [] { WinnersFitUsefulCapital(a[1..], caps[1..], keys[1..]); }
  }

  /** `x` drops the amount `a` if the key is negative, which earns no less. */
  ghost predicate DropAt(a: real, x: real, key: real) {
    && a * key <= x * key
    && (a * key == x * key && key < 0.0 ==> a == 0.0)
  }

  lemma DroppedTerm(a: real, x: real, key: real)
    requires a >= 0.0 && x == if key < 0.0 then 0.0 else a
    ensures DropAt(a, x, key)
  {
    if key < 0.0 && a > 0.0 {
      PositiveProduct(a, -key);
      assert a * key == -(a * -key);
    }
  }

  lemma DropProducts(a: seq<real>, x: seq<real>, keys: seq<real>, i: nat)
    requires i < |a| == |x| == |keys| && DropAt(a[i], x[i], keys[i])
    ensures Times(a, keys)[i] <= Times(x, keys)[i]
    ensures Times(a, keys)[i] == Times(x, keys)[i] && keys[i] < 0.0 ==> a[i] == 0.0
  {
    TimesAt(a, keys, i);
    TimesAt(x, keys, i);
  }

  lemma DropsGain(a: seq<real>, x: seq<real>, keys: seq<real>)
    requires |a| == |x| == |keys|
    requires forall i :: 0 <= i < |a| ==> DropAt(a[i], x[i], keys[i])
    ensures Dot(a, keys) <= Dot(x, keys)
    ensures Dot(a, keys) == Dot(x, keys) ==> forall i :: 0 <= i < |a| && keys[i] < 0.0 ==> a[i] == 0.0
  {
    hide Sum, Times, DropAt;
    var p, q := Times(a, keys), Times(x, keys);
    forall i | 0 <= i < |a|
      ensures p[i] <= q[i] && (p[i] == q[i] && keys[i] < 0.0 ==> a[i] == 0.0)
    {
      DropProducts(a, x, keys, i);
    }
    SumMonotone(p, q);
  }

  lemma DroppingLosersGains(a: seq<real>, caps: seq<real>, keys: seq<real>)
    requires |a| == |keys| && Feasible(a, caps) && Sum(a) > UsefulCapital(caps, keys)
    ensures Feasible(WithoutLosers(a, keys), caps)
    ensures Sum(WithoutLosers(a, keys)) <= Sum(a)
    ensures Dot(WithoutLosers(a, keys), keys) > Dot(a, keys)
  {
    hide Times;
    var x := WithoutLosers(a, keys);
    SumMonotone(x, a);
    forall i | 0 <= i < |a| ensures DropAt(a[i], x[i], keys[i]) {
      DroppedTerm(a[i], x[i], keys[i]);
    }
    DropsGain(a, x, keys);
    if Dot(a, keys) == Dot(x, keys) {
      WinnersFitUsefulCapital(a, caps, keys);
    }
  }

  /** Greedy earns at least as much as every plan within the budget exactly when its money never
      reaches an opportunity with a negative key. */
  lemma GreedyOptimalIff(caps: seq<real>, keys: seq<real>, budget: real)
    requires |caps| == |keys| && NonNegative(caps) && DescendingReals(keys)
    ensures (forall x :: Feasible(x, caps) && Sum(x) <= budget ==>
              Dot(x, keys) <= Dot(Amounts(caps, None, budget), keys))
            <==> NoLoserFunded(caps, keys, budget)
  {
    var a := Amounts(caps, None, budget);
    UsefulCapitalBounds(caps, keys);
    if NoLoserFunded(caps, keys, budget) {
      forall x | Feasible(x, caps) && Sum(x) <= budget
        ensures Dot(x, keys) <= Dot(a, keys)
      {
        SumBelowCaps(x, caps);
        GreedyBeatsWithinBudget(caps, keys, budget, x);
      }
    } else {
      AmountsFeasible(caps, None, budget);
      GreedyTotal(caps, budget);
      assert Sum(a) > UsefulCapital(caps, keys);
      DroppingLosersGains(a, caps, keys);
      var x := WithoutLosers(a, keys);
      assert Feasible(x, caps) && Sum(x) <= budget && Dot(x, keys) > Dot(a, keys);
    }
  }

  // ---------------------------------------------------------------- the allocator as a whole

  lemma RankedFacts(items: seq<Opportunity>, config: FinanceConfig, budget: real, policy: string, root: real -> real)
    requires SquareRoot(root)
    ensures var evals := Evaluations(items, config, budget, root);
            var ranked := Ranked(evals, policy);
            && |ranked| == |items| && multiset(ranked) == multiset(evals)
            && NonNegative(Caps(ranked))
            && (policy != "equal" ==> IsStableSort(ranked, evals, KeyOf(policy))
                                      && DescendingReals(Keys(ranked, KeyOf(policy))))
  {
    var evals := Evaluations(items, config, budget, root);
    var ranked := Ranked(evals, policy);
    if policy != "equal" {
      SortIsStable(evals, KeyOf(policy));
      StableSortPermutes(ranked, evals, KeyOf(policy));
    }
    forall i | 0 <= i < |ranked| ensures Caps(ranked)[i] >= 0.0 {
      assert ranked[i] in multiset(ranked);
      assert ranked[i] in evals;
      var j :| 0 <= j < |evals| && evals[j] == ranked[i];
      CapitalWithinBudget(items[j], config, budget, root);
    }
  }

  /** Efficiency and conservative policies, any opportunities, any budget that is not negative: the
      plan spends min(budget, all capital required); no plan spending as much earns more by the
      ranking key; and no plan within the budget does, exactly when no loser is funded. */
  lemma GreedyPolicyIsOptimal(
    items: seq<Opportunity>, config: FinanceConfig, budget: real, policy: string, root: real -> real)
    requires SquareRoot(root) && policy != "equal" && budget >= 0.0
    ensures var ranked := Ranked(Evaluations(items, config, budget, root), policy);
            var caps, keys := Caps(ranked), Keys(ranked, KeyOf(policy));
            var amounts := AllocatedAmounts(ranked, policy, budget);
            && Feasible(amounts, caps)
            && Sum(amounts) == Min(budget, Sum(caps))
            && (forall x :: Feasible(x, caps) && Sum(x) == Sum(amounts) ==> Dot(x, keys) <= Dot(amounts, keys))
            && ((forall x :: Feasible(x, caps) && Sum(x) <= budget ==> Dot(x, keys) <= Dot(amounts, keys))
                <==> NoLoserFunded(caps, keys, budget))
  {
    RankedFacts(items, config, budget, policy, root);
    var ranked := Ranked(Evaluations(items, config, budget, root), policy);
    var caps, keys := Caps(ranked), Keys(ranked, KeyOf(policy));
    AmountsFeasible(caps, None, budget);
    GreedyTotal(caps, budget);
    SumNonNegative(caps);
    forall x | Feasible(x, caps) && Sum(x) == Sum(Amounts(caps, None, budget))
      ensures Dot(x, keys) <= Dot(Amounts(caps, None, budget), keys)
    {
      GreedyBeatsEqualSpend(caps, keys, budget, x);
    }
    GreedyOptimalIff(caps, keys, budget);
  }

  // ---------------------------------------------------------------- what is ranked, and what is planned

  /** Both can be compared by their return on capital. */
  ghost predicate Comparable(a: Evaluation, b: Evaluation) {
    a.capitalRequired > 0.0 && a.paybackDays > 0.0 && b.capitalRequired > 0.0 && b.paybackDays > 0.0
  }

  /** `a` returns at least as much per unit of capital and day as `b`, after the discount `keep`. */
  ghost predicate ReturnsMore(a: Evaluation, keepA: real, b: Evaluation, keepB: real) {
    a.expectedProfit * keepA * (b.capitalRequired * b.paybackDays)
      >= b.expectedProfit * keepB * (a.capitalRequired * a.paybackDays)
  }

  lemma CrossMultiplied(x: real, y: real, c: real, d: real)
    requires c > 0.0 && d > 0.0
    ensures x >= y <==> (x * c) * d >= (y * d) * c
  {
    PositiveProduct(c, d);
    assert (x * c) * d == x * (c * d) && (y * d) * c == y * (c * d);
    if x < y {
      PositiveProduct(y - x, c * d);
    } else {
      NonNegativeProduct(x - y, c * d);
    }
  }

  lemma NonNegativeProduct(a: real, b: real)
    requires a >= 0.0 && b > 0.0
    ensures a * b >= 0.0
  {
  }

  lemma KeyTimesCapital(key: real, capital: real, keep: real, profit: real)
    requires key * capital == profit
    ensures key * keep * capital == profit * keep
  {
  }

  lemma Twice(profit: real, keep: real)
    ensures profit * keep * keep == profit * (keep * keep)
  {
  }

  lemma EfficientFirst(a: Evaluation, b: Evaluation)
    requires IsRated(a) && IsRated(b) && Comparable(a, b) && a.capitalEfficiency >= b.capitalEfficiency
    ensures ReturnsMore(a, 1.0 - a.risk, b, 1.0 - b.risk)
  {
    var c, d := a.capitalRequired * a.paybackDays, b.capitalRequired * b.paybackDays;
    PositiveProduct(a.capitalRequired, a.paybackDays);
    PositiveProduct(b.capitalRequired, b.paybackDays);
    CrossMultiplied(a.capitalEfficiency, b.capitalEfficiency, c, d);
  }

  lemma ConservativeFirst(a: Evaluation, b: Evaluation)
    requires IsRated(a) && IsRated(b) && Comparable(a, b)
    requires a.capitalEfficiency * (1.0 - a.risk) >= b.capitalEfficiency * (1.0 - b.risk)
    ensures ReturnsMore(a, (1.0 - a.risk) * (1.0 - a.risk), b, (1.0 - b.risk) * (1.0 - b.risk))
  {
    var c, d := a.capitalRequired * a.paybackDays, b.capitalRequired * b.paybackDays;
    var keepA, keepB := 1.0 - a.risk, 1.0 - b.risk;
    PositiveProduct(a.capitalRequired, a.paybackDays);
    PositiveProduct(b.capitalRequired, b.paybackDays);
    KeyTimesCapital(a.capitalEfficiency, c, keepA, a.expectedProfit * keepA);
    KeyTimesCapital(b.capitalEfficiency, d, keepB, b.expectedProfit * keepB);
    Twice(a.expectedProfit, keepA);
    Twice(b.expectedProfit, keepB);
    CrossMultiplied(a.capitalEfficiency * keepA, b.capitalEfficiency * keepB, c, d);
  }

  /** Under the conservative policy the risk counts twice. */
  ghost predicate Deserves(policy: string, a: Evaluation, b: Evaluation) {
    if policy == "conservative" then
      ReturnsMore(a, (1.0 - a.risk) * (1.0 - a.risk), b, (1.0 - b.risk) * (1.0 - b.risk))
    else ReturnsMore(a, 1.0 - a.risk, b, 1.0 - b.risk)
  }

  lemma KeyDecides(policy: string, a: Evaluation, b: Evaluation)
    requires IsRated(a) && IsRated(b) && Comparable(a, b) && KeyOf(policy)(a) >= KeyOf(policy)(b)
    ensures Deserves(policy, a, b)
  {
    hide ReturnsMore, IsRated, Comparable;
    if policy == "conservative" {
      assert ConservativeKey(a) >= ConservativeKey(b);
      ConservativeFirst(a, b);
    } else {
      assert EfficiencyKey(a) >= EfficiencyKey(b);
      EfficientFirst(a, b);
    }
  }

  /** Under the efficiency policy, and under every policy name but two, an opportunity stands before
      another only if it returns at least as much per unit of capital and day after its risk; under the
      conservative policy the risk counts twice. With equal keys the one asked for first stands first. */
  lemma RankedByReturn(items: seq<Opportunity>, config: FinanceConfig, budget: real, policy: string,
                       root: real -> real, i: nat, j: nat)
    requires SquareRoot(root) && policy != "equal" && i < j < |items|
    ensures var evals := Evaluations(items, config, budget, root);
      var ranked := Ranked(evals, policy);
      && |ranked| == |items|
      && IsStableSort(ranked, evals, KeyOf(policy))
      && (Comparable(ranked[i], ranked[j]) ==> Deserves(policy, ranked[i], ranked[j]))
  {
    RankedFacts(items, config, budget, policy, root);
    RankedIsRated(items, config, budget, policy, root, i);
    RankedIsRated(items, config, budget, policy, root, j);
    hide Evaluations, Ranked, Evaluate, Deserves, IsRated, Comparable, KeyOf, DescendingReals, NonNegative;
    var ranked := Ranked(Evaluations(items, config, budget, root), policy);
    assert KeyOf(policy)(ranked[i]) >= KeyOf(policy)(ranked[j]);
    if Comparable(ranked[i], ranked[j]) { KeyDecides(policy, ranked[i], ranked[j]); }
  }

  lemma RankedIsRated(items: seq<Opportunity>, config: FinanceConfig, budget: real, policy: string,
                      root: real -> real, i: nat)
    requires SquareRoot(root) && i < |items|
    ensures var ranked := Ranked(Evaluations(items, config, budget, root), policy);
      |ranked| == |items| && IsRated(ranked[i])
  {
    hide Evaluate, IsRated, NonNegative, IsStableSort, DescendingReals;
    RankedFacts(items, config, budget, policy, root);
    var evals := Evaluations(items, config, budget, root);
    var ranked := Ranked(evals, policy);
    assert ranked[i] in multiset(ranked);
    assert ranked[i] in evals;
    var k :| 0 <= k < |evals| && evals[k] == ranked[i];
    EfficiencyIsReturnPerDay(items[k], config, Some(budget), root);
  }

  /** The equal policy leaves the opportunities as they were asked for. */
  lemma EqualKeepsOrder(items: seq<Opportunity>, config: FinanceConfig, budget: real, root: real -> real, i: nat)
    requires SquareRoot(root) && i < |items|
    ensures Ranked(Evaluations(items, config, budget, root), "equal")[i]
      == Evaluate(items[i], config, Some(budget), root)
  {
  }

  /** The policy asked for is in force; without one, or with an empty one, the configured policy. */
  lemma PolicyIsResolved(policy: string, config: FinanceConfig)
    ensures PolicyInForce(None, config) == PolicyInForce(Some(""), config) == config.allocationPolicy
    ensures policy != "" ==> PolicyInForce(Some(policy), config) == policy
  {
  }

  /** An allotment buys the units its amount pays for, is its amount's part of the budget, and returns the
      profit in proportion to the capital it gets. */
  lemma AllotmentAddsUp(e: Evaluation, amount: real, budget: real)
    ensures var a := AllotmentOf(e, amount, budget);
      && a.amount == amount && a.risk == e.risk && a.orderQty == e.orderQty
      && a.capitalEfficiency == e.capitalEfficiency
      && (if e.unitCost > 0.0 then a.units * e.unitCost == amount else a.units == 0.0)
      && (if budget != 0.0 then a.fraction * budget == amount else a.fraction == 0.0)
      && (if e.capitalRequired > 0.0 then a.expectedReturn * e.capitalRequired == amount * e.expectedProfit
          else a.expectedReturn == 0.0)
  {
    if e.unitCost > 0.0 { DivideCancels(amount, e.unitCost); }
    if budget != 0.0 { DivideCancels(amount, budget); }
    if e.capitalRequired > 0.0 {
      DivideCancels(e.expectedProfit, e.capitalRequired);
      var rate := e.expectedProfit / e.capitalRequired;
      assert amount * rate * e.capitalRequired == amount * (rate * e.capitalRequired);
    }
  }

  // ---------------------------------------------------------------- an example

  /** Ten units at 1.0 each that are expected to lose 10.0. */
  const LOSER: Opportunity :=
    Opportunity(1.0, None, 2.0, Some(Day), 7.0, None, 0.0, 0.0, Some(-10.0), Some(10.0), 0.5, Some(10))

  const DEFAULTS: FinanceConfig := FinanceConfig(0.25, 5.0, 1.65, 1000, "efficiency")

  lemma LoserEvaluated(root: real -> real)
    requires SquareRoot(root)
    ensures var e := Evaluate(LOSER, DEFAULTS, Some(100.0), root);
      e.orderQty == 10 && e.capitalRequired == 10.0 && e.capitalEfficiency < 0.0
  {
    hide EconomicOrderQty;
    EoqNonNegative(LOSER, DEFAULTS, root);
    TimesZero(root(7.0), 1.65 * 0.0);
    assert CapUnits(LOSER, DEFAULTS, Some(100.0)) == 10;
    assert OrderQty(LOSER, DEFAULTS, Some(100.0), root) == 10;
  }

  lemma DotOfOne(xs: seq<real>, ys: seq<real>)
    requires |xs| == |ys| == 1
    ensures Dot(xs, ys) == xs[0] * ys[0]
  {
    hide Times;
    var ps := Times(xs, ys);
    TimesAt(xs, ys, 0);
    assert ps[1..] == [];
    assert Sum(ps) == ps[0] + Sum(ps[1..]);
  }

  lemma TenLosersLose(none: real, ten: real, key: real)
    requires none == 0.0 && ten == 10.0 && key < 0.0
    ensures none * key > ten * key
  {
  }

  /** With money left over, greedy spends it on an opportunity that loses money; keeping it would earn
      more. */
  lemma GreedyFundsALoser(root: real -> real)
    requires SquareRoot(root)
    ensures var ranked := Ranked(Evaluations([LOSER], DEFAULTS, 100.0, root), "efficiency");
      var caps, keys := Caps(ranked), Keys(ranked, KeyOf("efficiency"));
      && AllocatedAmounts(ranked, "efficiency", 100.0) == [10.0]
      && Feasible([0.0], caps) && |keys| == 1 && Dot([0.0], keys) > Dot([10.0], keys)
  {
    hide Evaluate, Dot, Sum;
    var e := Evaluate(LOSER, DEFAULTS, Some(100.0), root);
    LoserEvaluated(root);
    assert [LOSER][1..] == [] && [e][1..] == [] && [10.0][1..] == [];
    assert Evaluations([LOSER], DEFAULTS, 100.0, root) == [e];
    assert "efficiency"[0] == 'e' && "equal"[1] == 'q' && "efficiency"[1] == 'f' && "conservative"[0] == 'c';
    var ranked := Ranked([e], "efficiency");
    assert SortDescending<Evaluation>([], EfficiencyKey) == [];
    assert ranked == [e];
    var keys := Keys(ranked, KeyOf("efficiency"));
    assert Caps(ranked) == [10.0] && keys == [e.capitalEfficiency];
    assert Amounts([], None, 90.0) == [];
    assert Amounts([10.0], None, 100.0) == [10.0];
    DotOfOne([0.0], keys);
    DotOfOne([10.0], keys);
    TenLosersLose([0.0][0], [10.0][0], keys[0]);
  }
}
