/** Properties of the backtest engine: the tiered interest schedule, one simulated hour,
    and the whole result table. */
module StrategyLemmas {
  import opened Wrappers
  import opened Series
  import opened Frames
  import opened Strategy
  import Config

  // ---------------------------------------------------------------------------------
  // Tiered margin interest
  // ---------------------------------------------------------------------------------

  /** The annual spread over the benchmark that the IBKR Pro schedule charges, one linear
      piece per bracket: the loan at the bracket's spread plus what the dearer lower
      brackets added. */
  function AnnualSpread(loan: real): real {
    if loan <= 0.0 then 0.0
    else if loan <= 100_000.0 then 0.015 * loan
    else if loan <= 1_000_000.0 then 0.010 * loan + 500.0
    else 0.0075 * loan + 3_000.0
  }

  /** The hourly charge is the annual bracket sum over 365 * 24 hours, written with the
      positive parts of the amounts above each bracket boundary. */
  lemma TieredInterestClosedForm(loan: real, benchmarkRate: real)
    ensures loan <= 0.0 ==> TieredInterest(loan, benchmarkRate) == 0.0
    ensures loan > 0.0 ==> (TieredInterest(loan, benchmarkRate) * HOURS_PER_YEAR ==
      Min2(loan, 100_000.0) * (benchmarkRate + 0.015)
      + Min2(PositivePart(loan - 100_000.0), 900_000.0) * (benchmarkRate + 0.010)
      + PositivePart(loan - 1_000_000.0) * (benchmarkRate + 0.0075))
  {
    if loan > 0.0 {
      var t1 := Min2(loan, 100_000.0) * (benchmarkRate + 0.015);
      var t2 := if loan > 100_000.0 then Min2(loan - 100_000.0, 900_000.0) * (benchmarkRate + 0.010) else 0.0;
      var t3 := if loan > 1_000_000.0 then (loan - 1_000_000.0) * (benchmarkRate + 0.0075) else 0.0;
      assert TieredInterest(loan, benchmarkRate) == (t1 + t2 + t3) / 365.0 / 24.0;
      assert (t1 + t2 + t3) / 365.0 / 24.0 * 8760.0 == t1 + t2 + t3;
    }
  }

  /** A year of interest on a positive loan is the benchmark on the whole loan plus the
      piecewise-linear spread. */
  lemma TieredInterestSplit(loan: real, benchmarkRate: real)
    ensures loan > 0.0 ==>
      TieredInterest(loan, benchmarkRate) * HOURS_PER_YEAR == loan * benchmarkRate + AnnualSpread(loan)
  {
    TieredInterestClosedForm(loan, benchmarkRate);
  }

  /** The engine's hard-coded limits and costs are the exchange limits and the execution
      cost of the configuration, and its bracket sums are the configured IBKR tiers: each
      bracket charges its spread on the part of the loan inside it. */
  lemma EngineMatchesConfig(loan: real)
    ensures HL_MAX_LEV == Config.HYPERLIQUID_MAX_LEVERAGE && IBKR_MAX_LEV == Config.IBKR_MAX_LEVERAGE
    ensures HL_MAINT_MARGIN == Config.HYPERLIQUID_MAINTENANCE_MARGIN && COST_BPS == Config.EXECUTION_COST_BPS
    ensures 0.0 < loan <= Config.TIER_1_MAX ==> AnnualSpread(loan) == Config.TIER_1_SPREAD * loan
    ensures Config.TIER_1_MAX < loan <= Config.TIER_2_MAX ==>
      AnnualSpread(loan) == Config.TIER_1_SPREAD * Config.TIER_1_MAX + Config.TIER_2_SPREAD * (loan - Config.TIER_1_MAX)
    ensures Config.TIER_2_MAX < loan ==>
      AnnualSpread(loan) == Config.TIER_1_SPREAD * Config.TIER_1_MAX
        + Config.TIER_2_SPREAD * (Config.TIER_2_MAX - Config.TIER_1_MAX)
        + Config.TIER_3_SPREAD * (loan - Config.TIER_2_MAX)
  {
  }

  /** Between two non-negative loans the spread grows at least at the top bracket's 0.75 %
      and at most at the first bracket's 1.5 %. */
  lemma AnnualSpreadMarginal(a: real, b: real)
    requires 0.0 <= a <= b
    ensures 0.0075 * (b - a) <= AnnualSpread(b) - AnnualSpread(a) <= 0.015 * (b - a)
  {}

  /** Hourly interest on non-negative loans grows at annual rates between bm + 0.75 % and
      bm + 1.5 % of the extra amount. */
  lemma TieredInterestMarginal(a: real, b: real, benchmarkRate: real)
    requires 0.0 <= a <= b
    ensures (b - a) * (benchmarkRate + 0.0075)
      <= (TieredInterest(b, benchmarkRate) - TieredInterest(a, benchmarkRate)) * HOURS_PER_YEAR
      <= (b - a) * (benchmarkRate + 0.015)
  {
    TieredInterestSplit(a, benchmarkRate);
    TieredInterestSplit(b, benchmarkRate);
    AnnualSpreadMarginal(a, b);
    assert (TieredInterest(b, benchmarkRate) - TieredInterest(a, benchmarkRate)) * HOURS_PER_YEAR
      == (b - a) * benchmarkRate + (AnnualSpread(b) - AnnualSpread(a));
  }

  /** Scaling by a non-negative factor keeps an order. */
  lemma ScaleMonotone(d: real, x: real, y: real)
    requires d >= 0.0 && x <= y
    ensures d * x <= d * y
  {
    assert d * y - d * x == d * (y - x);
  }

  /** The arithmetic behind monotonicity: a gap bounded below by a non-negative rate times
      a non-negative distance is not negative. */
  lemma OrderFromMarginal(x: real, y: real, lo: real, hi: real, benchmarkRate: real)
    requires lo <= hi && benchmarkRate >= -0.0075
    requires (hi - lo) * (benchmarkRate + 0.0075) <= (y - x) * HOURS_PER_YEAR
    ensures x <= y
  {
    ScaleMonotone(hi - lo, 0.0, benchmarkRate + 0.0075);
  }

  /** A large loan never costs less, as long as the top bracket's rate is not negative
      (in particular for every non-negative benchmark rate). */
  lemma TieredInterestMonotone(a: real, b: real, benchmarkRate: real)
    requires a <= b
    requires benchmarkRate >= -0.0075
    ensures TieredInterest(a, benchmarkRate) <= TieredInterest(b, benchmarkRate)
  {
    if b <= 0.0 {
    } else if a <= 0.0 {
      TieredInterestMarginal(0.0, b, benchmarkRate);
      OrderFromMarginal(TieredInterest(0.0, benchmarkRate), TieredInterest(b, benchmarkRate), 0.0, b, benchmarkRate);
    } else {
      TieredInterestMarginal(a, b, benchmarkRate);
      OrderFromMarginal(TieredInterest(a, benchmarkRate), TieredInterest(b, benchmarkRate), a, b, benchmarkRate);
    }
  }

  /** The arithmetic behind continuity: a gap between the marginal-rate bounds is at most
      the distance times the largest rate magnitude. */
  lemma AbsFromMarginal(x: real, y: real, lo: real, hi: real, benchmarkRate: real)
    requires lo <= hi
    requires (hi - lo) * (benchmarkRate + 0.0075) <= (y - x) * HOURS_PER_YEAR <= (hi - lo) * (benchmarkRate + 0.015)
    ensures Abs(y - x) * HOURS_PER_YEAR <= Abs(hi - lo) * (Abs(benchmarkRate) + 0.015)
    ensures Abs(x - y) * HOURS_PER_YEAR <= Abs(lo - hi) * (Abs(benchmarkRate) + 0.015)
  {
    var d, m, g := hi - lo, Abs(benchmarkRate) + 0.015, (y - x) * HOURS_PER_YEAR;
    ScaleMonotone(d, benchmarkRate + 0.015, m);
    ScaleMonotone(d, -m, benchmarkRate + 0.0075);
    assert d * -m == -(d * m);
    assert -(d * m) <= g <= d * m;
    assert Abs(y - x) * HOURS_PER_YEAR == Abs(g) && Abs(x - y) * HOURS_PER_YEAR == Abs(g);
    assert Abs(hi - lo) == d && Abs(lo - hi) == d;
  }

  /** The continuity bound when the second loan is the larger. */
  lemma TieredInterestLipschitzUp(a: real, b: real, benchmarkRate: real)
    requires 0.0 <= a <= b
    ensures Abs(TieredInterest(b, benchmarkRate) - TieredInterest(a, benchmarkRate)) * HOURS_PER_YEAR
      <= Abs(b - a) * (Abs(benchmarkRate) + 0.015)
  {
    TieredInterestMarginal(a, b, benchmarkRate);
    AbsFromMarginal(TieredInterest(a, benchmarkRate), TieredInterest(b, benchmarkRate), a, b, benchmarkRate);
  }

  /** The continuity bound when the first loan is the larger. */
  lemma TieredInterestLipschitzDown(a: real, b: real, benchmarkRate: real)
    requires 0.0 <= b < a
    ensures Abs(TieredInterest(b, benchmarkRate) - TieredInterest(a, benchmarkRate)) * HOURS_PER_YEAR
      <= Abs(b - a) * (Abs(benchmarkRate) + 0.015)
  {
    TieredInterestMarginal(b, a, benchmarkRate);
    AbsFromMarginal(TieredInterest(b, benchmarkRate), TieredInterest(a, benchmarkRate), b, a, benchmarkRate);
  }

  /** Continuity: two non-negative loans' hourly charges differ by at most their distance
      times the first-bracket rate's magnitude over a year, so the schedule has no jump at
      100k or at 1M. */
  lemma TieredInterestLipschitz(a: real, b: real, benchmarkRate: real)
    requires 0.0 <= a && 0.0 <= b
    ensures Abs(TieredInterest(b, benchmarkRate) - TieredInterest(a, benchmarkRate)) * HOURS_PER_YEAR
      <= Abs(b - a) * (Abs(benchmarkRate) + 0.015)
  {
    if a <= b {
      TieredInterestLipschitzUp(a, b, benchmarkRate);
    } else {
      TieredInterestLipschitzDown(a, b, benchmarkRate);
    }
  }

  // ---------------------------------------------------------------------------------
  // One hour of the engine
  // ---------------------------------------------------------------------------------

  /** A configuration that puts equity on both venues and trades at most the safe notional. */
  predicate WellSized(s: FundingStrategy) {
    0.0 < s.hlSplitPct < 1.0 && 0.0 < s.safetyFactor <= 1.0
  }

  /** A positive equity and split leave a positive Hyperliquid allocation. */
  lemma HlAllocationPositive(s: FundingStrategy, equity: real)
    requires 0.0 < s.hlSplitPct && equity > 0.0
    ensures HlAllocation(s, equity) > 0.0
  {
    ProductPositive(equity, s.hlSplitPct);
  }

  /** A positive equity and a split below 1 leave a positive IBKR allocation. */
  lemma IbkrAllocationPositive(s: FundingStrategy, equity: real)
    requires s.hlSplitPct < 1.0 && equity > 0.0
    ensures IbkrAllocation(s, equity) > 0.0
  {
    ProductPositive(equity, 1.0 - s.hlSplitPct);
  }

  /** A positive amount scaled by f stays within itself exactly when f is at most 1. */
  lemma ScaledWithin(m: real, f: real)
    requires m > 0.0
    ensures m * f <= m <==> f <= 1.0
  {
    if f <= 1.0 {
      ScaleMonotone(m, f, 1.0);
    } else {
      ScaleStrict(m, 1.0, f);
    }
  }

  /** With equity on both venues the pre-trade guards pass exactly when the safety factor
      is at most 1: the target is then within both caps, and above 1 it exceeds the cap
      of whichever venue binds. */
  lemma PreTradeGuardsPassIff(s: FundingStrategy, equity: real)
    requires 0.0 < s.hlSplitPct < 1.0 && equity > 0.0
    ensures PreTradeCheck(TargetNotional(s, equity), HlAllocation(s, equity), IbkrAllocation(s, equity)) == None
      <==> s.safetyFactor <= 1.0
  {
    HlAllocationPositive(s, equity);
    IbkrAllocationPositive(s, equity);
    var hl, ibkr := HlAllocation(s, equity), IbkrAllocation(s, equity);
    var m := MaxSafeNotional(hl, ibkr);
    var target := TargetNotional(s, equity);
    assert target == m * s.safetyFactor;
    ScaledWithin(m, s.safetyFactor);
    assert target <= m <==> s.safetyFactor <= 1.0;
    assert m > 0.0;
  }

  /** A product of positive factors is positive. */
  lemma ProductPositive(x: real, y: real)
    requires x > 0.0 && y > 0.0
    ensures x * y > 0.0
  {}

  /** A product of non-negative factors is not negative. */
  lemma ProductNonNegative(x: real, y: real)
    requires x >= 0.0 && y >= 0.0
    ensures x * y >= 0.0
  {}

  /** Scaling by a positive factor keeps a strict order. */
  lemma ScaleStrict(d: real, x: real, y: real)
    requires d > 0.0 && x < y
    ensures d * x < d * y
  {
    assert d * y - d * x == d * (y - x);
    ProductPositive(d, y - x);
  }

  /** The drift band without the division: rebalance when there is no positive target,
      or when the held notional is more than 10 % of the target away from it. */
  lemma RebalanceBand(target: real, price: real, shares: real)
    ensures Rebalances(target, price, shares)
      <==> target <= 0.0 || Abs(CurrentNotional(shares, price) - target) > DRIFT_TOLERANCE * target
  {
    if target > 0.0 {
      DivCompare(Abs(CurrentNotional(shares, price) - target), target, DRIFT_TOLERANCE);
    }
  }

  /** Shares times a positive price: the traded share count priced is the notional gap. */
  lemma TradedNotional(target: real, price: real, shares: real)
    requires price > 0.0
    ensures (target / price) * price == target
    ensures Abs(target / price - shares) * price == Abs(target - shares * price)
  {
    var q := target / price;
    assert q * price == target;
    assert (q - shares) * price == target - shares * price;
    if q - shares < 0.0 {
      assert (shares - q) * price == -(target - shares * price);
      ProductPositive(shares - q, price);
    } else {
      ProductNonNegative(q - shares, price);
    }
  }

  /** At a positive price a rebalance lands exactly on the target notional and costs
      12 bps of the notional traded, |target - held shares * price|. */
  lemma ExecuteCost(target: real, price: real, st: State)
    requires price > 0.0 && Rebalances(target, price, st.shares)
    ensures Execute(target, price, st).shares * price == target
    ensures Execute(target, price, st).equity
      == st.equity - Abs(target - st.shares * price) * 12.0 / 10000.0
  {
    TradedNotional(target, price, st.shares);
  }

  /** A fresh start always trades: with no shares held the drift is 1 or 999. */
  lemma FirstHourRebalances(target: real, price: real)
    ensures Rebalances(target, price, 0.0)
  {
    if target > 0.0 {
      assert Abs(0.0 - target) / target == 1.0;
    }
  }

  /** The row an hour appends: a failure row carries the hour's time and price with zero
      equity; a record carries them with the new equity, and its loan is never negative. */
  lemma StepRowShape(s: FundingStrategy, h: Hour, st: State)
    requires h.price != 0.0
    ensures Step(s, h, st).Failed? ==>
      Step(s, h, st).row.Failure? && Step(s, h, st).row.totalEquity == 0.0
    ensures Step(s, h, st).Recorded? ==>
      Step(s, h, st).row.Record? && Step(s, h, st).row.totalEquity == Step(s, h, st).next.equity
      && Step(s, h, st).row.ibkrLoan >= 0.0
    ensures Step(s, h, st).row.datetime == h.datetime && Step(s, h, st).row.price == h.price
  {}

  /** Funding at the breakeven rate pays the hour's interest exactly; without a positive
      position the breakeven rate is reported as 0. */
  lemma BreakevenPaysInterest(interest: real, position: real)
    ensures position > 0.0 ==> FundingIncome(position, BreakevenFunding(interest, position)) == interest
    ensures position <= 0.0 ==> BreakevenFunding(interest, position) == 0.0
  {}

  /** The net spread APR is the annualised net PnL per unit of position, in percent; without
      a positive position it is the annualised net PnL itself. */
  lemma NetSpreadAprPerPosition(income: real, interest: real, position: real)
    ensures position > 0.0 ==> NetSpreadApr(income, interest, position) * position == (income - interest) * 876_000.0
    ensures position <= 0.0 ==> NetSpreadApr(income, interest, position) == (income - interest) * 876_000.0
  {
    if position > 0.0 {
      var q := ((income - interest) * 8760.0) / position;
      assert q * position == (income - interest) * 8760.0;
      assert (q * 100.0) * position == (q * position) * 100.0;
    }
  }

  /** After execution, a recorded hour books funding on the executed position and the
      tiered interest on the part IBKR equity does not cover, and keeps the share count. */
  lemma SettleAccounting(s: FundingStrategy, h: Hour, hlAllocation: real, ibkrAllocation: real, executed: State)
    ensures Settle(s, h, hlAllocation, ibkrAllocation, executed).Recorded? ==>
      var o := Settle(s, h, hlAllocation, ibkrAllocation, executed);
      o.next.equity == executed.equity + o.row.fundingIncome - o.row.interestCost
      && o.next.shares == executed.shares
      && o.row.positionUsd == executed.shares * h.price
      && o.row.fundingIncome == o.row.positionUsd * h.funding
      && o.row.ibkrLoan == Max2(0.0, o.row.positionUsd - ibkrAllocation)
      && o.row.interestCost == TieredInterest(o.row.ibkrLoan, s.benchmarkRate)
  {}

  /** Once the pre-trade guards pass, the hour is the settlement of the execution. */
  lemma StepSettles(s: FundingStrategy, h: Hour, st: State)
    requires h.price != 0.0
    ensures Step(s, h, st).Recorded? ==>
      PreTradeCheck(TargetNotional(s, st.equity), HlAllocation(s, st.equity), IbkrAllocation(s, st.equity)) == None
      && Step(s, h, st) == Settle(s, h, HlAllocation(s, st.equity), IbkrAllocation(s, st.equity),
                                  Execute(TargetNotional(s, st.equity), h.price, st))
  {}

  /** The equity a rebalancing hour records: the start-of-hour equity less 12 bps of the
      notional traded, plus funding income, less interest; the position is the target. */
  lemma StepAccountingRebalance(s: FundingStrategy, h: Hour, st: State)
    requires h.price > 0.0
    requires Rebalances(TargetNotional(s, st.equity), h.price, st.shares)
    ensures Step(s, h, st).Recorded? ==>
      Step(s, h, st).next.equity
        == st.equity - Abs(TargetNotional(s, st.equity) - st.shares * h.price) * 12.0 / 10000.0
           + Step(s, h, st).row.fundingIncome - Step(s, h, st).row.interestCost
      && Step(s, h, st).row.positionUsd == TargetNotional(s, st.equity)
  {
    var target := TargetNotional(s, st.equity);
    var executed := Execute(target, h.price, st);
    var cost := Abs(target - st.shares * h.price) * 12.0 / 10000.0;
    ExecuteCost(target, h.price, st);
    assert executed.equity == st.equity - cost && executed.shares * h.price == target;
    var o := Step(s, h, st);
    if o.Recorded? {
      StepSettles(s, h, st);
      SettleAccounting(s, h, HlAllocation(s, st.equity), IbkrAllocation(s, st.equity), executed);
      assert o.next.equity == executed.equity + o.row.fundingIncome - o.row.interestCost;
      assert o.row.positionUsd == executed.shares * h.price;
    }
  }

  /** Inside the drift band nothing is traded: the share count carries over and only
      funding and interest move the equity. */
  lemma StepAccountingHold(s: FundingStrategy, h: Hour, st: State)
    requires h.price != 0.0
    requires !Rebalances(TargetNotional(s, st.equity), h.price, st.shares)
    ensures Step(s, h, st).Recorded? ==>
      Step(s, h, st).next.equity
        == st.equity + Step(s, h, st).row.fundingIncome - Step(s, h, st).row.interestCost
      && Step(s, h, st).next.shares == st.shares
  {
    StepSettles(s, h, st);
    SettleAccounting(s, h, HlAllocation(s, st.equity), IbkrAllocation(s, st.equity), st);
  }

  /** A configuration that trades at most 90 % of the safe notional. */
  predicate SafelySized(s: FundingStrategy) {
    0.0 < s.hlSplitPct < 1.0 && 0.0 < s.safetyFactor <= 0.9
  }

  /** At 90 % of the safe notional the target is positive and within 18x the Hyperliquid
      allocation and 5.94x the IBKR allocation. */
  lemma SafeSizingBounds(s: FundingStrategy, equity: real)
    requires SafelySized(s) && equity > 0.0
    ensures TargetNotional(s, equity) > 0.0
    ensures TargetNotional(s, equity) <= 18.0 * HlAllocation(s, equity)
    ensures TargetNotional(s, equity) <= 5.94 * IbkrAllocation(s, equity)
  {
    HlAllocationPositive(s, equity);
    IbkrAllocationPositive(s, equity);
    var m := MaxSafeNotional(HlAllocation(s, equity), IbkrAllocation(s, equity));
    var hl, ibkr := HlAllocation(s, equity), IbkrAllocation(s, equity);
    assert m <= hl * 20.0 && m <= ibkr * 6.6 && m > 0.0;
    assert TargetNotional(s, equity) == m * s.safetyFactor;
    ScaleMonotone(m, s.safetyFactor, 0.9);
    ProductPositive(m, s.safetyFactor);
    assert m * 0.9 <= 18.0 * hl && m * 0.9 <= 5.94 * ibkr;
  }

  /** Inside the drift band of a positive target some shares are held, and the position is
      at most 110 % of the target. */
  lemma HeldPositionBound(target: real, price: real, shares: real)
    requires target > 0.0 && !Rebalances(target, price, shares)
    ensures shares > 0.0
    ensures PositionValue(shares, price) <= 1.1 * target
  {
    RebalanceBand(target, price, shares);
  }

  /** After execution towards a positive target the position is at most 110 % of it. */
  lemma ExecutedPositionBound(target: real, price: real, st: State)
    requires price != 0.0 && target > 0.0
    ensures PositionValue(Execute(target, price, st).shares, price) <= 1.1 * target
  {
    if Rebalances(target, price, st.shares) {
      assert Execute(target, price, st).shares * price == target;
    } else {
      HeldPositionBound(target, price, st.shares);
    }
  }

  /** Venue margins comfortably above the maintenance ratios for any position within 110 %
      of such a target. */
  lemma MaintenancePassesWithin(position: real, target: real, hlAllocation: real, ibkrAllocation: real)
    requires hlAllocation > 0.0 && ibkrAllocation > 0.0
    requires target <= 18.0 * hlAllocation && target <= 5.94 * ibkrAllocation
    requires position <= 1.1 * target
    ensures MaintenanceCheck(position, hlAllocation, ibkrAllocation) == None
  {}

  /** Sized at no more than 90 % of the safe notional, an hour that starts with positive
      equity always records: neither the pre-trade nor the maintenance guards can fire. */
  lemma StepRecordsWhenSafe(s: FundingStrategy, h: Hour, st: State)
    requires SafelySized(s) && st.equity > 0.0 && h.price != 0.0
    ensures Step(s, h, st).Recorded?
  {
    var hl, ibkr := HlAllocation(s, st.equity), IbkrAllocation(s, st.equity);
    var target := TargetNotional(s, st.equity);
    HlAllocationPositive(s, st.equity);
    IbkrAllocationPositive(s, st.equity);
    PreTradeGuardsPassIff(s, st.equity);
    SafeSizingBounds(s, st.equity);
    var executed := Execute(target, h.price, st);
    ExecutedPositionBound(target, h.price, st);
    var position := PositionValue(executed.shares, h.price);
    MaintenancePassesWithin(position, target, hl, ibkr);
    assert Step(s, h, st) == Settle(s, h, hl, ibkr, executed);
  }

  /** A maintenance failure is the only failure settlement can produce. */
  lemma SettleFailsOnMaintenance(s: FundingStrategy, h: Hour, hlAllocation: real, ibkrAllocation: real, executed: State)
    ensures Settle(s, h, hlAllocation, ibkrAllocation, executed).Failed? ==>
      Settle(s, h, hlAllocation, ibkrAllocation, executed).row.Failure?
      && Settle(s, h, hlAllocation, ibkrAllocation, executed).row.failReason in {HlLiquidation, IbkrMarginCall}
  {}

  /** With equity on both venues and at most the safe notional, an hour that starts with
      positive equity can only fail a maintenance guard. */
  lemma StepFailsOnlyOnMaintenance(s: FundingStrategy, h: Hour, st: State)
    requires WellSized(s) && st.equity > 0.0 && h.price != 0.0
    ensures Step(s, h, st).Failed? ==> Step(s, h, st).row.failReason in {HlLiquidation, IbkrMarginCall}
  {
    var hl, ibkr := HlAllocation(s, st.equity), IbkrAllocation(s, st.equity);
    var target := TargetNotional(s, st.equity);
    PreTradeGuardsPassIff(s, st.equity);
    var executed := Execute(target, h.price, st);
    assert Step(s, h, st) == Settle(s, h, hl, ibkr, executed);
    SettleFailsOnMaintenance(s, h, hl, ibkr, executed);
  }

  // ---------------------------------------------------------------------------------
  // The result table
  // ---------------------------------------------------------------------------------

  lemma NonZeroPricesTail(hours: seq<Hour>)
    requires NonZeroPrices(hours) && |hours| > 0
    ensures NonZeroPrices(hours[1..])
  {
    assert forall i :: 0 <= i < |hours| - 1 ==> hours[1..][i] == hours[i + 1];
  }

  /** SimFrom on a non-empty input: the first hour's row, then the rest while the run goes on. */
  lemma SimFromCons(s: FundingStrategy, hours: seq<Hour>, st: State)
    requires NonZeroPrices(hours) && |hours| > 0
    ensures NonZeroPrices(hours[1..])
    ensures Step(s, hours[0], st).Failed? ==> SimFrom(s, hours, st) == [Step(s, hours[0], st).row]
    ensures Step(s, hours[0], st).Recorded? && Step(s, hours[0], st).next.equity <= 0.0 ==>
      SimFrom(s, hours, st) == [Step(s, hours[0], st).row]
    ensures Step(s, hours[0], st).Recorded? && Step(s, hours[0], st).next.equity > 0.0 ==>
      SimFrom(s, hours, st) == [Step(s, hours[0], st).row] + SimFrom(s, hours[1..], Step(s, hours[0], st).next)
  {
    NonZeroPricesTail(hours);
  }

  /** Row k of the table is about hour k: same timestamp, same price. */
  lemma {:induction false} SimFromAligned(s: FundingStrategy, hours: seq<Hour>, st: State)
    requires NonZeroPrices(hours)
    ensures forall k :: 0 <= k < |SimFrom(s, hours, st)| ==>
      SimFrom(s, hours, st)[k].datetime == hours[k].datetime && SimFrom(s, hours, st)[k].price == hours[k].price
    decreases |hours|
  {
    if |hours| > 0 {
      SimFromCons(s, hours, st);
      var o := Step(s, hours[0], st);
      StepRowShape(s, hours[0], st);
      if o.Recorded? && o.next.equity > 0.0 {
        SimFromAligned(s, hours[1..], o.next);
      }
    }
  }

  /** Every row but the last is a record with positive equity: a failure row, or a record
      whose equity is not positive, ends the table. */
  lemma {:induction false} SimFromOnlyLastStops(s: FundingStrategy, hours: seq<Hour>, st: State)
    requires NonZeroPrices(hours)
    ensures forall k :: 0 <= k < |SimFrom(s, hours, st)| - 1 ==>
      SimFrom(s, hours, st)[k].Record? && SimFrom(s, hours, st)[k].totalEquity > 0.0
    decreases |hours|
  {
    if |hours| > 0 {
      SimFromCons(s, hours, st);
      var o := Step(s, hours[0], st);
      StepRowShape(s, hours[0], st);
      if o.Recorded? && o.next.equity > 0.0 {
        SimFromOnlyLastStops(s, hours[1..], o.next);
      }
    }
  }

  /** A table shorter than its input ends in a failure row (equity 0) or in a record whose
      equity is not positive. */
  lemma {:induction false} SimFromStopsEarly(s: FundingStrategy, hours: seq<Hour>, st: State)
    requires NonZeroPrices(hours)
    ensures |SimFrom(s, hours, st)| < |hours| ==>
      var r := SimFrom(s, hours, st);
      (r[|r| - 1].Failure? && r[|r| - 1].totalEquity == 0.0)
      || (r[|r| - 1].Record? && r[|r| - 1].totalEquity <= 0.0)
    decreases |hours|
  {
    if |hours| > 0 {
      SimFromCons(s, hours, st);
      var o := Step(s, hours[0], st);
      StepRowShape(s, hours[0], st);
      if o.Recorded? && o.next.equity > 0.0 {
        SimFromStopsEarly(s, hours[1..], o.next);
      }
    }
  }

  /** Sized at no more than 90 % of the safe notional and started with positive equity, the
      run never appends a failure row. */
  lemma {:induction false} SimFromSafeNeverFails(s: FundingStrategy, hours: seq<Hour>, st: State)
    requires NonZeroPrices(hours) && SafelySized(s) && st.equity > 0.0
    ensures forall k :: 0 <= k < |SimFrom(s, hours, st)| ==> SimFrom(s, hours, st)[k].Record?
    decreases |hours|
  {
    if |hours| > 0 {
      SimFromCons(s, hours, st);
      var o := Step(s, hours[0], st);
      StepRecordsWhenSafe(s, hours[0], st);
      StepRowShape(s, hours[0], st);
      if o.next.equity > 0.0 {
        SimFromSafeNeverFails(s, hours[1..], o.next);
      }
    }
  }

  /** With equity on both venues and at most the safe notional, a run started with positive
      equity never fails a pre-trade leverage guard. */
  lemma {:induction false} SimFromNoLeverageCap(s: FundingStrategy, hours: seq<Hour>, st: State)
    requires NonZeroPrices(hours) && WellSized(s) && st.equity > 0.0
    ensures forall k :: 0 <= k < |SimFrom(s, hours, st)| && SimFrom(s, hours, st)[k].Failure? ==>
      SimFrom(s, hours, st)[k].failReason in {HlLiquidation, IbkrMarginCall}
    decreases |hours|
  {
    if |hours| > 0 {
      SimFromCons(s, hours, st);
      var o := Step(s, hours[0], st);
      StepFailsOnlyOnMaintenance(s, hours[0], st);
      StepRowShape(s, hours[0], st);
      if o.Recorded? && o.next.equity > 0.0 {
        SimFromNoLeverageCap(s, hours[1..], o.next);
      }
    }
  }

  /** The shape of the table `run` returns: row k is hour k; every row but the last is a
      record with positive equity; a table shorter than the input ends in a failure row
      with zero equity or a record with non-positive equity. */
  lemma SimulateShape(s: FundingStrategy, hours: seq<Hour>)
    requires NonZeroPrices(hours)
    ensures forall k :: 0 <= k < |Simulate(s, hours)| ==>
      Simulate(s, hours)[k].datetime == hours[k].datetime && Simulate(s, hours)[k].price == hours[k].price
    ensures forall k :: 0 <= k < |Simulate(s, hours)| - 1 ==>
      Simulate(s, hours)[k].Record? && Simulate(s, hours)[k].totalEquity > 0.0
    ensures |Simulate(s, hours)| < |hours| ==>
      var r := Simulate(s, hours);
      (r[|r| - 1].Failure? && r[|r| - 1].totalEquity == 0.0)
      || (r[|r| - 1].Record? && r[|r| - 1].totalEquity <= 0.0)
  {
    if |hours| > 0 {
      var st := State(s.capital, 0.0);
      SimFromAligned(s, hours, st);
      SimFromOnlyLastStops(s, hours, st);
      SimFromStopsEarly(s, hours, st);
    }
  }

  /** With positive capital: at most 90 % of the safe notional means no failure row at all,
      and any split strictly inside (0, 1) with a safety factor in (0, 1] means no
      pre-trade leverage failure. */
  lemma SimulateSafe(s: FundingStrategy, hours: seq<Hour>)
    requires NonZeroPrices(hours) && s.capital > 0.0
    ensures SafelySized(s) ==> forall k :: 0 <= k < |Simulate(s, hours)| ==> Simulate(s, hours)[k].Record?
    ensures WellSized(s) ==> forall k :: 0 <= k < |Simulate(s, hours)| && Simulate(s, hours)[k].Failure? ==>
      Simulate(s, hours)[k].failReason in {HlLiquidation, IbkrMarginCall}
  {
    if |hours| > 0 {
      var st := State(s.capital, 0.0);
      if SafelySized(s) { SimFromSafeNeverFails(s, hours, st); }
      if WellSized(s) { SimFromNoLeverageCap(s, hours, st); }
    }
  }
}
