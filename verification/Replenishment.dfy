/** How much to buy and when (app/finance/engine.py): demand normalisation, safety stock,
    reorder point, economic order quantity, and the order capped by budget and limits. The square root
    is an input, so what is proved holds for any function that inverts squaring. */
module Replenishment {
  import opened RealMath
  import opened Wrappers

  /** `Unlisted` is any period name the table does not hold; its factor is 1. */
  datatype Period = Day | Week | Month | Year | Unlisted

  datatype Opportunity = Opportunity(
    unitCost: real, unitPrice: Option<real>, expectedDemand: real, period: Option<Period>,
    leadTimeDays: real, orderCost: Option<real>, currentStock: real, demandStd: real,
    expectedProfit: Option<real>, paybackDays: Option<real>, risk: real, maxUnits: Option<int>)

  datatype FinanceConfig = FinanceConfig(
    holdingCostRate: real, orderCost: real, serviceLevelZ: real,
    maxUnitsPerOrder: int, allocationPolicy: string)

  datatype Evaluation = Evaluation(
    unitCost: real, orderQty: int, capitalRequired: real, reorderPoint: real, safetyStock: real,
    daysUntilReorder: real, buyNow: bool, capitalEfficiency: real, expectedProfit: real,
    holdingCost: real, paybackDays: real, risk: real)

  function PeriodsPerDay(period: Option<Period>): real {
    match period
    case None => 1.0
    case Some(Day) => 1.0
    case Some(Week) => 1.0 / 7.0
    case Some(Month) => 1.0 / 30.0
    case Some(Year) => 1.0 / 365.0
    case Some(Unlisted) => 1.0
  }

  function DailyDemand(expectedDemand: real, period: Option<Period>): real {
    expectedDemand * PeriodsPerDay(period)
  }

  function DailyStd(demandStd: real, period: Option<Period>, root: real -> real): real
    requires SquareRoot(root)
  {
    var factor := PeriodsPerDay(period);
    var daysPerPeriod := if factor != 0.0 then 1.0 / factor else 1.0;
    if daysPerPeriod <= 1.0 then demandStd
    else PositiveRoot(root, daysPerPeriod); demandStd / root(daysPerPeriod)
  }

  function SafetyStock(z: real, stdDaily: real, leadTimeDays: real, root: real -> real): real {
    z * stdDaily * root(Max(leadTimeDays, 0.0))
  }

  function ReorderPoint(dailyDemand: real, leadTimeDays: real, safety: real): real {
    dailyDemand * leadTimeDays + safety
  }

  function EconomicOrderQty(
    dailyDemand: real, unitCost: real, orderCost: real, holdingCostRate: real, root: real -> real): real
  {
    var annualDemand := dailyDemand * 365.0;
    var holding := unitCost * holdingCostRate;
    if annualDemand <= 0.0 || holding <= 0.0 then 0.0
    else root(2.0 * annualDemand * orderCost / holding)
  }

  /** Cost per year of ordering `annualDemand` units in lots of `lot`: orders placed times their
      cost, plus holding half a lot on average. */
  function AnnualCost(annualDemand: real, orderCost: real, holding: real, lot: real): real
    requires lot > 0.0
  {
    annualDemand * orderCost / lot + holding * lot / 2.0
  }

  function DailyDemandOf(opp: Opportunity): real {
    DailyDemand(opp.expectedDemand, opp.period)
  }

  function OrderCostOf(opp: Opportunity, config: FinanceConfig): real {
    match opp.orderCost case Some(c) => c case None => config.orderCost
  }

  function EoqOf(opp: Opportunity, config: FinanceConfig, root: real -> real): real {
    EconomicOrderQty(DailyDemandOf(opp), opp.unitCost, OrderCostOf(opp, config), config.holdingCostRate, root)
  }

  function SafetyOf(opp: Opportunity, config: FinanceConfig, root: real -> real): real
    requires SquareRoot(root)
  {
    SafetyStock(config.serviceLevelZ, DailyStd(opp.demandStd, opp.period, root), opp.leadTimeDays, root)
  }

  function ReorderPointOf(opp: Opportunity, config: FinanceConfig, root: real -> real): real
    requires SquareRoot(root)
  {
    ReorderPoint(DailyDemandOf(opp), opp.leadTimeDays, SafetyOf(opp, config, root))
  }

  /** Units the budget, the order limit and the opportunity's own limit allow. */
  function CapUnits(opp: Opportunity, config: FinanceConfig, budget: Option<real>): int {
    var budgetUnits :=
      if opp.unitCost > 0.0 then
        match budget
        case None => config.maxUnitsPerOrder
        case Some(b) => if b > 0.0 then (b / opp.unitCost).Floor else 0
      else 0;
    var cap := MinInt(budgetUnits, config.maxUnitsPerOrder);
    match opp.maxUnits case Some(m) => MinInt(cap, m) case None => cap
  }

  /** Units to order now: the gap to the reorder point plus one EOQ, or the EOQ alone. */
  function Suggested(opp: Opportunity, config: FinanceConfig, root: real -> real): real
    requires SquareRoot(root)
  {
    var rop := ReorderPointOf(opp, config, root);
    var eoq := EoqOf(opp, config, root);
    if opp.currentStock <= rop then rop + eoq - opp.currentStock else eoq
  }

  function OrderQty(opp: Opportunity, config: FinanceConfig, budget: Option<real>, root: real -> real): int
    requires SquareRoot(root)
  {
    MaxInt(0, MinInt(Truncate(Suggested(opp, config, root)), CapUnits(opp, config, budget)))
  }

  /** Return per unit of capital per day, discounted by risk. */
  function CapitalEfficiency(profit: real, capital: real, payback: real, risk: real): real {
    if capital > 0.0 && payback > 0.0 then profit / capital / payback * (1.0 - risk) else 0.0
  }

  function HoldingCost(qty: int, unitCost: real, rate: real, payback: real): real {
    qty as real / 2.0 * unitCost * rate * (payback / 365.0)
  }

  function Evaluate(opp: Opportunity, config: FinanceConfig, budget: Option<real>, root: real -> real): Evaluation
    requires SquareRoot(root)
  {
    var d := DailyDemandOf(opp);
    var rop := ReorderPointOf(opp, config, root);
    var qty := OrderQty(opp, config, budget, root);
    var capital := qty as real * opp.unitCost;
    var margin := match opp.unitPrice case Some(p) => p - opp.unitCost case None => 0.0;
    var profit := match opp.expectedProfit case Some(p) => p case None => margin * qty as real;
    var daysToSell := if d > 0.0 then qty as real / d else 0.0;
    var payback := match opp.paybackDays case Some(p) => p case None => opp.leadTimeDays + daysToSell;
    var daysUntil := if d > 0.0 then Max(0.0, (opp.currentStock - rop) / d) else 0.0;
    Evaluation(opp.unitCost, qty, capital, rop, SafetyOf(opp, config, root), daysUntil,
               opp.currentStock <= rop, CapitalEfficiency(profit, capital, payback, opp.risk), profit,
               HoldingCost(qty, opp.unitCost, config.holdingCostRate, payback), payback, opp.risk)
  }

  // ---------------------------------------------------------------- EOQ minimises cost

  lemma RootOfRatio(root: real -> real, a: real, b: real)
    requires SquareRoot(root) && a > 0.0 && b > 0.0
    ensures root(a / b) > 0.0
    ensures root(a / b) * root(a / b) * b == a
  {
    assert a / b > 0.0;
    assert root(a / b) * root(a / b) == a / b;
    DivideCancels(a, b);
  }

  lemma EoqSquared(dailyDemand: real, unitCost: real, orderCost: real, rate: real, root: real -> real)
    requires SquareRoot(root)
    requires dailyDemand > 0.0 && unitCost * rate > 0.0 && orderCost > 0.0
    ensures var eoq := EconomicOrderQty(dailyDemand, unitCost, orderCost, rate, root);
            eoq > 0.0 && eoq * eoq * (unitCost * rate) == 2.0 * (dailyDemand * 365.0) * orderCost
  {
    var d, h := dailyDemand * 365.0, unitCost * rate;
    PositiveProduct(d, orderCost);
    assert 2.0 * d * orderCost == 2.0 * (d * orderCost);
    RootOfRatio(root, 2.0 * d * orderCost, h);
  }

  /** The price of moving from lot `large` to lot `small`, multiplied out. */
  lemma CostDifference(annualDemand: real, orderCost: real, holding: real, small: real, large: real)
    requires 0.0 < small && 0.0 < large
    ensures (AnnualCost(annualDemand, orderCost, holding, small) - AnnualCost(annualDemand, orderCost, holding, large))
            * (small * large)
         == (annualDemand * orderCost - holding * (small * large) / 2.0) * (large - small)
  {
    var ds := annualDemand * orderCost;
    DivideCancels(ds, small);
    DivideCancels(ds, large);
    assert ds / small * (small * large) == ds * large;
    assert ds / large * (small * large) == ds * small;
  }

  /** Between 0 and the EOQ a larger lot is always cheaper. */
  lemma CostFallsTowardsEoq(annualDemand: real, orderCost: real, holding: real, eoq: real, small: real, large: real)
    requires holding > 0.0 && 0.0 < small < large <= eoq
    requires eoq * eoq * holding == 2.0 * annualDemand * orderCost
    ensures AnnualCost(annualDemand, orderCost, holding, large) < AnnualCost(annualDemand, orderCost, holding, small)
  {
    var ds := annualDemand * orderCost;
    ProductBelowSquare(small, large, eoq);
    assert ds - holding * (small * large) / 2.0 == holding * (eoq * eoq - small * large) / 2.0;
    PositiveProduct(holding, eoq * eoq - small * large);
    PositiveProduct(ds - holding * (small * large) / 2.0, large - small);
    CostDifference(annualDemand, orderCost, holding, small, large);
    PositiveProduct(small, large);
    PositiveFactor(AnnualCost(annualDemand, orderCost, holding, small)
                   - AnnualCost(annualDemand, orderCost, holding, large), small * large);
  }

  /** Beyond the EOQ a larger lot is always dearer. */
  lemma CostRisesPastEoq(annualDemand: real, orderCost: real, holding: real, eoq: real, large: real)
    requires holding > 0.0 && 0.0 < eoq < large
    requires eoq * eoq * holding == 2.0 * annualDemand * orderCost
    ensures AnnualCost(annualDemand, orderCost, holding, eoq) < AnnualCost(annualDemand, orderCost, holding, large)
  {
    var ds := annualDemand * orderCost;
    assert eoq * large - eoq * eoq == eoq * (large - eoq);
    PositiveProduct(eoq, large - eoq);
    assert holding * (eoq * large) / 2.0 - ds == holding * (eoq * large - eoq * eoq) / 2.0;
    PositiveProduct(holding, eoq * large - eoq * eoq);
    PositiveProduct(holding * (eoq * large) / 2.0 - ds, large - eoq);
    CostDifference(annualDemand, orderCost, holding, large, eoq);
    PositiveProduct(large, eoq);
    assert large * eoq == eoq * large;
    PositiveFactor(AnnualCost(annualDemand, orderCost, holding, large)
                   - AnnualCost(annualDemand, orderCost, holding, eoq), large * eoq);
  }

  lemma ProductBelowSquare(small: real, large: real, eoq: real)
    requires 0.0 < small < large <= eoq
    ensures small * large < eoq * eoq
  {
    assert small * large < large * large;
    assert large * large <= eoq * eoq;
  }

  /** EOQ is the one cheapest lot size. */
  lemma EoqMinimisesCost(
    dailyDemand: real, unitCost: real, orderCost: real, rate: real, root: real -> real, lot: real)
    requires SquareRoot(root)
    requires dailyDemand > 0.0 && unitCost * rate > 0.0 && orderCost > 0.0 && lot > 0.0
    ensures var eoq := EconomicOrderQty(dailyDemand, unitCost, orderCost, rate, root);
            var d, h := dailyDemand * 365.0, unitCost * rate;
            && eoq > 0.0
            && (lot != eoq ==> AnnualCost(d, orderCost, h, eoq) < AnnualCost(d, orderCost, h, lot))
  {
    var eoq := EconomicOrderQty(dailyDemand, unitCost, orderCost, rate, root);
    EoqSquared(dailyDemand, unitCost, orderCost, rate, root);
    if lot < eoq {
      CostFallsTowardsEoq(dailyDemand * 365.0, orderCost, unitCost * rate, eoq, lot, eoq);
    } else if lot > eoq {
      CostRisesPastEoq(dailyDemand * 365.0, orderCost, unitCost * rate, eoq, lot);
    }
  }

  // ---------------------------------------------------------------- the recommended order

  lemma EoqNonNegative(opp: Opportunity, config: FinanceConfig, root: real -> real)
    requires SquareRoot(root) && OrderCostOf(opp, config) >= 0.0
    ensures EoqOf(opp, config, root) >= 0.0
    ensures Suggested(opp, config, root) >= 0.0
  {
    var d, h := DailyDemandOf(opp) * 365.0, opp.unitCost * config.holdingCostRate;
    if d > 0.0 && h > 0.0 {
      var s := 2.0 * d * OrderCostOf(opp, config);
      assert s >= 0.0;
      DivideCancels(s, h);
      assert s / h >= 0.0;
      assert root(s / h) >= 0.0;
    }
  }

  /** Stock above the reorder point: no smaller positive order would be cheaper per year than the
      one recommended, whatever the caps did to it. */
  lemma SmallerOrdersCostMore(
    opp: Opportunity, config: FinanceConfig, budget: Option<real>, root: real -> real, smaller: real)
    requires SquareRoot(root) && OrderCostOf(opp, config) > 0.0
    requires var e := Evaluate(opp, config, budget, root);
             !e.buyNow && 0.0 < smaller < e.orderQty as real
    ensures var e := Evaluate(opp, config, budget, root);
            var d, h := DailyDemandOf(opp) * 365.0, opp.unitCost * config.holdingCostRate;
            AnnualCost(d, OrderCostOf(opp, config), h, e.orderQty as real)
              < AnnualCost(d, OrderCostOf(opp, config), h, smaller)
  {
    hide Evaluate, EconomicOrderQty, AnnualCost;
    var e := Evaluate(opp, config, budget, root);
    var d, h := DailyDemandOf(opp) * 365.0, opp.unitCost * config.holdingCostRate;
    OrderBelowEoq(opp, config, budget, root);
    EoqSquaredOf(opp, config, root, d, h);
    CostFallsTowardsEoq(d, OrderCostOf(opp, config), h, EoqOf(opp, config, root), smaller, e.orderQty as real);
  }

  lemma EoqSquaredOf(opp: Opportunity, config: FinanceConfig, root: real -> real, d: real, h: real)
    requires SquareRoot(root) && OrderCostOf(opp, config) > 0.0
    requires d == DailyDemandOf(opp) * 365.0 > 0.0 && h == opp.unitCost * config.holdingCostRate > 0.0
    ensures var eoq := EoqOf(opp, config, root); eoq * eoq * h == 2.0 * d * OrderCostOf(opp, config)
  {
    hide EconomicOrderQty;
    EoqSquared(DailyDemandOf(opp), opp.unitCost, OrderCostOf(opp, config), config.holdingCostRate, root);
  }

  /** Above the reorder point a positive order is at most one EOQ, which is then positive. */
  lemma OrderBelowEoq(opp: Opportunity, config: FinanceConfig, budget: Option<real>, root: real -> real)
    requires SquareRoot(root) && OrderCostOf(opp, config) >= 0.0
    requires var e := Evaluate(opp, config, budget, root); !e.buyNow && 0 < e.orderQty
    ensures var e := Evaluate(opp, config, budget, root);
      && e.orderQty as real <= EoqOf(opp, config, root)
      && DailyDemandOf(opp) * 365.0 > 0.0 && opp.unitCost * config.holdingCostRate > 0.0
  {
    EoqNonNegative(opp, config, root);
  }

  /** The capital an order needs stays within the budget exactly when the budget is not negative
      (the code recommends 0 units on a negative budget, which still costs more than it). */
  lemma CapitalWithinBudget(opp: Opportunity, config: FinanceConfig, budget: real, root: real -> real)
    requires SquareRoot(root)
    ensures var capital := Evaluate(opp, config, Some(budget), root).capitalRequired;
            && 0.0 <= capital
            && (capital <= budget <==> budget >= 0.0)
  {
    var e := Evaluate(opp, config, Some(budget), root);
    QtyCostsAtMost(opp, config, budget, e.orderQty, root);
  }

  lemma QtyCostsAtMost(opp: Opportunity, config: FinanceConfig, budget: real, qty: int, root: real -> real)
    requires SquareRoot(root) && qty == OrderQty(opp, config, Some(budget), root)
    ensures 0.0 <= qty as real * opp.unitCost <= Max(0.0, budget)
  {
    if opp.unitCost > 0.0 && budget > 0.0 {
      var units := (budget / opp.unitCost).Floor;
      CostOfUnits(qty, units, opp.unitCost, budget);
    } else {
      assert CapUnits(opp, config, Some(budget)) <= 0;
    }
  }

  lemma CostOfUnits(qty: int, units: int, unitCost: real, budget: real)
    requires unitCost > 0.0 && budget > 0.0 && 0 <= qty
    requires units == (budget / unitCost).Floor && (qty <= units || qty == 0)
    ensures 0.0 <= qty as real * unitCost <= budget
  {
    DivideCancels(budget, unitCost);
    if qty > 0 {
      var q := qty as real;
      assert q <= budget / unitCost;
      assert q * unitCost <= budget / unitCost * unitCost;
    }
  }

  /** Stock at or below the reorder point: the order lifts stock above it exactly when the caps
      leave more units than the gap and the next whole unit past the gap is within one EOQ of it. */
  lemma OrderLiftsStockIff(opp: Opportunity, config: FinanceConfig, budget: Option<real>, root: real -> real)
    requires SquareRoot(root) && OrderCostOf(opp, config) >= 0.0
    requires Evaluate(opp, config, budget, root).buyNow
    ensures var e := Evaluate(opp, config, budget, root);
            var gap := e.reorderPoint - opp.currentStock;
            (opp.currentStock + e.orderQty as real > e.reorderPoint)
            <==> (CapUnits(opp, config, budget) as real > gap
                  && gap.Floor as real + 1.0 <= gap + EoqOf(opp, config, root))
  {
    EoqNonNegative(opp, config, root);
    var gap := ReorderPointOf(opp, config, root) - opp.currentStock;
    CappedFloorExceeds(gap, EoqOf(opp, config, root), CapUnits(opp, config, budget));
  }

  lemma CappedFloorExceeds(gap: real, eoq: real, cap: int)
    requires gap >= 0.0 && eoq >= 0.0
    ensures (MaxInt(0, MinInt((gap + eoq).Floor, cap)) as real > gap)
            <==> (cap as real > gap && gap.Floor as real + 1.0 <= gap + eoq)
  {
    var suggested, whole := (gap + eoq).Floor, gap.Floor;
    assert suggested as real <= gap + eoq < (suggested + 1) as real;
    assert whole as real <= gap < (whole + 1) as real;
    assert suggested as real > gap <==> suggested >= whole + 1;
    assert suggested >= whole + 1 <==> (whole + 1) as real <= gap + eoq;
  }

  /** An order no cap touches, with an EOQ of at least one unit, always lifts stock above it. */
  lemma UncappedOrderLiftsStock(opp: Opportunity, config: FinanceConfig, budget: Option<real>, root: real -> real)
    requires SquareRoot(root) && OrderCostOf(opp, config) >= 0.0
    requires var e := Evaluate(opp, config, budget, root);
             e.buyNow && EoqOf(opp, config, root) >= 1.0
             && CapUnits(opp, config, budget) as real >= e.reorderPoint + EoqOf(opp, config, root) - opp.currentStock
    ensures var e := Evaluate(opp, config, budget, root);
            opp.currentStock + e.orderQty as real > e.reorderPoint
  {
    OrderLiftsStockIff(opp, config, budget, root);
  }

  // ---------------------------------------------------------------- what the figures mean

  /** A week's demand is that of seven days, a month's of thirty, a year's of 365; every other period, and
      none, is read as a day. */
  lemma DemandFillsPeriod(demand: real)
    ensures DailyDemand(demand, None) == DailyDemand(demand, Some(Day)) == DailyDemand(demand, Some(Unlisted)) == demand
    ensures DailyDemand(demand, Some(Week)) * 7.0 == demand
    ensures DailyDemand(demand, Some(Month)) * 30.0 == demand
    ensures DailyDemand(demand, Some(Year)) * 365.0 == demand
  {
  }

  /** Variances of independent days add up to that of the period. */
  lemma VarianceFillsPeriod(std: real, root: real -> real)
    requires SquareRoot(root)
    ensures DailyStd(std, None, root) == DailyStd(std, Some(Day), root) == DailyStd(std, Some(Unlisted), root) == std
    ensures Squared(DailyStd(std, Some(Week), root)) * 7.0 == Squared(std)
    ensures Squared(DailyStd(std, Some(Month), root)) * 30.0 == Squared(std)
    ensures Squared(DailyStd(std, Some(Year), root)) * 365.0 == Squared(std)
    ensures forall p :: std >= 0.0 ==> DailyStd(std, p, root) >= 0.0
  {
    hide Squared;
    StdOverDays(std, 7.0, root);
    StdOverDays(std, 30.0, root);
    StdOverDays(std, 365.0, root);
    assert 1.0 / (1.0 / 7.0) == 7.0 && 1.0 / (1.0 / 30.0) == 30.0 && 1.0 / (1.0 / 365.0) == 365.0;
  }

  lemma StdOverDays(std: real, days: real, root: real -> real)
    requires SquareRoot(root) && days > 0.0
    ensures root(days) > 0.0
    ensures Squared(std / root(days)) * days == Squared(std)
    ensures std >= 0.0 ==> std / root(days) >= 0.0
  {
    PositiveRoot(root, days);
    var r := root(days);
    var q := std / r;
    DivideCancels(std, r);
    assert q * q * (r * r) == (q * r) * (q * r);
  }

  /** Safety stock is z standard deviations of the demand over the lead time. */
  lemma SafetyCoversLeadTime(z: real, std: real, leadTime: real, root: real -> real)
    requires SquareRoot(root)
    ensures leadTime >= 0.0 ==> Squared(SafetyStock(z, std, leadTime, root)) == Squared(z) * Squared(std) * leadTime
    ensures leadTime <= 0.0 ==> SafetyStock(z, std, leadTime, root) == 0.0
    ensures z >= 0.0 && std >= 0.0 ==> SafetyStock(z, std, leadTime, root) >= 0.0
  {
    var l := Max(leadTime, 0.0);
    var r := root(l);
    assert r >= 0.0 && r * r == l;
    SquareOfThree(z, std, r);
    if leadTime <= 0.0 {
      if r > 0.0 { ProductIsPositive(r, r, l); }
      TimesZero(z * std, r);
    }
    if z >= 0.0 && std >= 0.0 { ProductOfThree(z, std, r); }
  }

  /** The days in a period; a period that is not listed counts as a day. */
  function DaysIn(period: Option<Period>): real {
    match period
    case Some(Week) => 7.0
    case Some(Month) => 30.0
    case Some(Year) => 365.0
    case _ => 1.0
  }

  lemma DemandOverPeriod(opp: Opportunity)
    ensures DailyDemandOf(opp) * DaysIn(opp.period) == opp.expectedDemand
  {
    DemandFillsPeriod(opp.expectedDemand);
  }

  lemma StdOverPeriod(std: real, period: Option<Period>, root: real -> real)
    requires SquareRoot(root)
    ensures Squared(DailyStd(std, period, root)) * DaysIn(period) == Squared(std)
    ensures std >= 0.0 ==> DailyStd(std, period, root) >= 0.0
  {
    VarianceFillsPeriod(std, root);
    hide Squared, DailyStd;
  }

  lemma SafetyOverPeriod(opp: Opportunity, config: FinanceConfig, root: real -> real)
    requires SquareRoot(root)
    ensures opp.leadTimeDays >= 0.0 ==>
      Squared(SafetyOf(opp, config, root)) * DaysIn(opp.period)
        == Squared(config.serviceLevelZ) * Squared(opp.demandStd) * opp.leadTimeDays
    ensures opp.leadTimeDays <= 0.0 ==> SafetyOf(opp, config, root) == 0.0
    ensures config.serviceLevelZ >= 0.0 && opp.demandStd >= 0.0 ==> SafetyOf(opp, config, root) >= 0.0
  {
    var std := DailyStd(opp.demandStd, opp.period, root);
    assert SafetyOf(opp, config, root) == SafetyStock(config.serviceLevelZ, std, opp.leadTimeDays, root);
    hide Squared, SafetyStock, SafetyOf, DailyStd, DaysIn;
    StdOverPeriod(opp.demandStd, opp.period, root);
    SafetyCoversLeadTime(config.serviceLevelZ, std, opp.leadTimeDays, root);
    var z, w, l := Squared(config.serviceLevelZ), Squared(opp.demandStd), opp.leadTimeDays;
    OverPeriod(z, Squared(std), l, DaysIn(opp.period), w);
  }

  /** The safety stock is z deviations of the demand over the lead time, whatever the period the deviation
      was given for. */
  lemma SafetyFollowsPeriod(opp: Opportunity, config: FinanceConfig, budget: Option<real>, root: real -> real)
    requires SquareRoot(root)
    ensures var safety := Evaluate(opp, config, budget, root).safetyStock;
      && (opp.leadTimeDays >= 0.0 ==>
            Squared(safety) * DaysIn(opp.period)
              == Squared(config.serviceLevelZ) * Squared(opp.demandStd) * opp.leadTimeDays)
      && (opp.leadTimeDays <= 0.0 ==> safety == 0.0)
      && (config.serviceLevelZ >= 0.0 && opp.demandStd >= 0.0 ==> safety >= 0.0)
  {
    SafetyOverPeriod(opp, config, root);
    hide Squared, SafetyOf, OrderQty, ReorderPointOf, HoldingCost, CapitalEfficiency, DaysIn, DailyDemandOf;
  }

  lemma OverPeriod(z: real, daily: real, leadTime: real, days: real, whole: real)
    requires daily * days == whole
    ensures z * daily * leadTime * days == z * whole * leadTime
  {
    assert z * daily * leadTime * days == z * (daily * days) * leadTime;
  }

  lemma SquareOfThree(a: real, b: real, c: real)
    ensures Squared(a * b * c) == Squared(a) * Squared(b) * (c * c)
  {
  }

  lemma ProductOfThree(a: real, b: real, c: real)
    requires a >= 0.0 && b >= 0.0 && c >= 0.0
    ensures a * b * c >= 0.0
  {
  }

  /** Ordered at the reorder point, a delivery arrives when the lead time's demand has left the safety
      stock. Until then the stock lasts as many days as the evaluation says. */
  lemma ReorderPointLasts(opp: Opportunity, config: FinanceConfig, budget: Option<real>, root: real -> real)
    requires SquareRoot(root)
    ensures var e, d := Evaluate(opp, config, budget, root), DailyDemandOf(opp);
      && e.reorderPoint - d * opp.leadTimeDays == e.safetyStock
      && (e.buyNow <==> opp.currentStock <= e.reorderPoint)
      && (e.buyNow || d <= 0.0 ==> e.daysUntilReorder == 0.0)
      && (!e.buyNow && d > 0.0 ==> opp.currentStock - d * e.daysUntilReorder == e.reorderPoint)
  {
    hide SafetyOf, OrderQty, DailyDemandOf;
    var d, rop := DailyDemandOf(opp), ReorderPointOf(opp, config, root);
    if d > 0.0 {
      var q := (opp.currentStock - rop) / d;
      DivideCancels(opp.currentStock - rop, d);
      if opp.currentStock > rop {
        if q <= 0.0 { ProductNotPositive(q, d); }
      } else if q > 0.0 {
        PositiveProduct(q, d);
      }
    }
  }

  lemma ProductNotPositive(a: real, b: real)
    requires a <= 0.0 && b > 0.0
    ensures a * b <= 0.0
  {
  }

  /** An order costs what the opportunity says, or else what the configuration says; the economic lot is the
      lot of that cost. */
  lemma LotHasOwnOrderCost(opp: Opportunity, config: FinanceConfig, root: real -> real)
    requires SquareRoot(root) && opp.expectedDemand > 0.0 && opp.unitCost * config.holdingCostRate > 0.0
    requires opp.orderCost.Some? || config.orderCost > 0.0
    requires opp.orderCost.Some? ==> opp.orderCost.value > 0.0
    ensures var lot, yearly := EoqOf(opp, config, root), DailyDemandOf(opp) * 365.0;
      && lot > 0.0
      && lot * lot * (opp.unitCost * config.holdingCostRate)
           == 2.0 * yearly * (if opp.orderCost.Some? then opp.orderCost.value else config.orderCost)
  {
    DemandOverPeriod(opp);
    var d := DailyDemandOf(opp);
    if d <= 0.0 { ProductNotPositive(d, DaysIn(opp.period)); }
    hide DailyDemandOf, EconomicOrderQty;
    EoqSquared(d, opp.unitCost, OrderCostOf(opp, config), config.holdingCostRate, root);
  }

  /** No demand, or stock that costs nothing to hold, has no economic lot. */
  lemma NoLotWithoutCost(dailyDemand: real, unitCost: real, orderCost: real, rate: real, root: real -> real)
    requires dailyDemand <= 0.0 || unitCost * rate <= 0.0
    ensures EconomicOrderQty(dailyDemand, unitCost, orderCost, rate, root) == 0.0
  {
  }

  /** `n` units keep within the budget, the order limit and the opportunity's limit. */
  predicate WithinLimits(opp: Opportunity, config: FinanceConfig, budget: Option<real>, n: int) {
    && (budget.Some? ==> n as real * opp.unitCost <= budget.value)
    && n <= config.maxUnitsPerOrder
    && (opp.maxUnits.Some? ==> n <= opp.maxUnits.value)
  }

  /** The cap is the largest number of units within the limits. */
  lemma CapIsLargest(opp: Opportunity, config: FinanceConfig, budget: Option<real>, n: int)
    requires opp.unitCost > 0.0 && (budget.Some? ==> budget.value > 0.0)
    ensures WithinLimits(opp, config, budget, n) <==> n <= CapUnits(opp, config, budget)
  {
    if budget.Some? { FloorDivides(budget.value, opp.unitCost, n); }
  }

  lemma FloorDivides(b: real, cost: real, n: int)
    requires cost > 0.0
    ensures n as real * cost <= b <==> n <= (b / cost).Floor
  {
    var q := b / cost;
    DivideCancels(b, cost);
    if n as real <= q {
      ProductNotPositive(n as real - q, cost);
    } else {
      PositiveProduct(n as real - q, cost);
    }
  }

  /** Nothing can be bought without a price or without a budget. */
  lemma NothingToBuyWith(opp: Opportunity, config: FinanceConfig, budget: Option<real>, root: real -> real)
    requires SquareRoot(root)
    requires opp.unitCost <= 0.0 || (budget.Some? && budget.value <= 0.0)
    ensures OrderQty(opp, config, budget, root) == 0
  {
    hide Suggested;
  }

  /** Unless a limit binds, the order fills the stock up to one economic lot above the reorder point, or
      is one lot when the stock is above it; in whole units, and never less than none. */
  lemma OrderFillsUp(opp: Opportunity, config: FinanceConfig, budget: Option<real>, root: real -> real)
    requires SquareRoot(root)
    ensures var q := OrderQty(opp, config, budget, root);
      var rop, lot := ReorderPointOf(opp, config, root), EoqOf(opp, config, root);
      var want := if opp.currentStock <= rop then rop + lot - opp.currentStock else lot;
      && (q < CapUnits(opp, config, budget) && want >= 0.0 ==> q as real <= want < q as real + 1.0)
      && (want < 0.0 || CapUnits(opp, config, budget) <= 0 ==> q == 0)
      && (want >= CapUnits(opp, config, budget) as real >= 0.0 ==> q == CapUnits(opp, config, budget))
  {
    hide ReorderPointOf, EoqOf, CapUnits;
  }

  /** Profit and payback: as given, or from the margin and from how long the order takes to sell. */
  lemma ProfitAndPayback(opp: Opportunity, config: FinanceConfig, budget: Option<real>, root: real -> real)
    requires SquareRoot(root)
    ensures var e, d := Evaluate(opp, config, budget, root), DailyDemandOf(opp);
      && e.unitCost == opp.unitCost && e.risk == opp.risk
      && e.capitalRequired == e.orderQty as real * opp.unitCost
      && (opp.expectedProfit.Some? ==> e.expectedProfit == opp.expectedProfit.value)
      && (opp.expectedProfit.None? && opp.unitPrice.Some? ==>
            e.expectedProfit + e.capitalRequired == e.orderQty as real * opp.unitPrice.value)
      && (opp.expectedProfit.None? && opp.unitPrice.None? ==> e.expectedProfit == 0.0)
      && (opp.paybackDays.Some? ==> e.paybackDays == opp.paybackDays.value)
      && (opp.paybackDays.None? && d > 0.0 ==> d * (e.paybackDays - opp.leadTimeDays) == e.orderQty as real)
      && (opp.paybackDays.None? && d <= 0.0 ==> e.paybackDays == opp.leadTimeDays)
  {
    hide OrderQty, ReorderPointOf, SafetyOf, CapitalEfficiency, HoldingCost, DailyDemandOf;
    var d, q := DailyDemandOf(opp), OrderQty(opp, config, budget, root) as real;
    if d > 0.0 { DivideCancels(q, d); }
    if opp.unitPrice.Some? { MarginTimes(opp.unitPrice.value, opp.unitCost, q); }
  }

  lemma MarginTimes(price: real, cost: real, q: real)
    ensures (price - cost) * q + q * cost == q * price
  {
  }

  lemma HoldingOverDays(qty: int, unitCost: real, rate: real, payback: real)
    ensures HoldingCost(qty, unitCost, rate, payback) * 365.0 == unitCost * rate * (qty as real) / 2.0 * payback
  {
    var year := qty as real / 2.0 * unitCost * rate;
    DivideCancels(payback, 365.0);
    assert year * (payback / 365.0) * 365.0 == year * (payback / 365.0 * 365.0);
    assert unitCost * rate * (qty as real) / 2.0 == year;
  }

  /** Held for a year, an order costs what the yearly cost counts for holding it; held until it has paid
      back, in proportion. */
  lemma HoldingIsPartOfYear(opp: Opportunity, config: FinanceConfig, budget: Option<real>, root: real -> real)
    requires SquareRoot(root)
    ensures var e := Evaluate(opp, config, budget, root);
      && (e.orderQty > 0 ==>
            e.holdingCost * 365.0
              == AnnualCost(0.0, 0.0, opp.unitCost * config.holdingCostRate, e.orderQty as real) * e.paybackDays)
      && (e.orderQty == 0 ==> e.holdingCost == 0.0)
  {
    hide OrderQty, ReorderPointOf, SafetyOf, CapitalEfficiency, DailyDemandOf;
    var e := Evaluate(opp, config, budget, root);
    HoldingOverDays(e.orderQty, opp.unitCost, config.holdingCostRate, e.paybackDays);
    assert e.holdingCost == HoldingCost(e.orderQty, opp.unitCost, config.holdingCostRate, e.paybackDays);
    hide HoldingCost;
    if e.orderQty > 0 { HoldsHalf(opp.unitCost * config.holdingCostRate, e.orderQty as real); }
  }

  lemma HoldsHalf(holding: real, lot: real)
    requires lot > 0.0
    ensures AnnualCost(0.0, 0.0, holding, lot) == holding * lot / 2.0
  {
    DivideCancels(0.0, lot);
  }

  /** The efficiency times capital and days is the profit after its risk; without capital or days it is 0. */
  ghost predicate IsRated(e: Evaluation) {
    if e.capitalRequired > 0.0 && e.paybackDays > 0.0 then
      e.capitalEfficiency * (e.capitalRequired * e.paybackDays) == e.expectedProfit * (1.0 - e.risk)
    else e.capitalEfficiency == 0.0
  }

  /** The efficiency of capital is the profit, discounted by its risk, per unit of capital and day. */
  lemma EfficiencyIsReturnPerDay(opp: Opportunity, config: FinanceConfig, budget: Option<real>, root: real -> real)
    requires SquareRoot(root)
    ensures IsRated(Evaluate(opp, config, budget, root))
  {
    hide OrderQty, ReorderPointOf, SafetyOf, HoldingCost, DailyDemandOf;
    var e := Evaluate(opp, config, budget, root);
    if e.capitalRequired > 0.0 && e.paybackDays > 0.0 {
      RebuildsProfit(e.expectedProfit, e.capitalRequired, e.paybackDays, 1.0 - e.risk);
    }
  }

  lemma RebuildsProfit(profit: real, capital: real, days: real, keep: real)
    requires capital > 0.0 && days > 0.0
    ensures profit / capital / days * keep * (capital * days) == profit * keep
  {
    var a := profit / capital;
    var b := a / days;
    DivideCancels(profit, capital);
    DivideCancels(a, days);
    assert b * keep * (capital * days) == (b * days) * capital * keep;
  }
}
