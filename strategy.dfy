/** src/strategy.py: the hourly backtest engine `FundingStrategy`.

    Each hour the unified equity pool is split between Hyperliquid (the short perpetual
    leg) and IBKR (the long spot leg financed on margin); a target notional is sized from
    the tighter venue cap and a safety factor; pre-trade leverage guards run; the position
    is rebalanced only outside a 10 % drift band, paying execution cost; tiered margin
    interest is charged and funding income booked; maintenance guards run; and one row is
    appended. A failure row, or a row whose equity is not positive, ends the run. */
module Strategy {
  import opened Wrappers
  import opened Series
  import opened Frames

  // The engine's fixed attributes. Where they scale a variable, the formulas below write
  // their values as literals, which keeps those terms linear for the solver.
  const COST_BPS: real := 12.0
  const IBKR_MAX_LEV: real := 6.6
  const HL_MAX_LEV: real := 20.0
  const HL_MAINT_MARGIN: real := 0.05
  /** The IBKR maintenance ratio is a literal in the maintenance check. */
  const IBKR_MAINT_MARGIN: real := 0.10
  /** Rebalance only when the position is more than 10 % away from target. */
  const DRIFT_TOLERANCE: real := 0.10
  /** The drift reported when the target notional is not positive. */
  const NO_TARGET_DRIFT: real := 999.0
  const HOURS_PER_YEAR: real := 8760.0

  /** The constructor arguments; the engine never changes them after construction. */
  datatype FundingStrategy = FundingStrategy(
    capital: real,
    hlSplitPct: real,
    benchmarkRate: real,
    safetyFactor: real)

  /** `FundingStrategy()` with every default. */
  const DEFAULT_STRATEGY: FundingStrategy := FundingStrategy(1_000_000.0, 0.30, 0.0533, 0.80)

  datatype FailReason = IbkrLeverageCap | HlLeverageCap | HlLiquidation | IbkrMarginCall
  {
    /** The `fail_reason` text. */
    function Message(): string {
      match this
      case IbkrLeverageCap => "IBKR Margin Call (Lev > 6.6x)"
      case HlLeverageCap => "HL Max Leverage Exceeded (>20x)"
      case HlLiquidation => "HL Liquidation (Equity < 5%)"
      case IbkrMarginCall => "IBKR Margin Call (Equity < 10%)"
    }
  }

  /** One row of the result table: a normal hourly record, or the `_fail_row` dictionary,
      whose missing columns (funding income, interest cost, breakeven funding) are NaN in
      the frame and absent here. */
  datatype Row =
    | Record(
        datetime: int, price: real, totalEquity: real, positionUsd: real,
        hlEquity: real, ibkrEquity: real, ibkrLoan: real,
        fundingIncome: real, interestCost: real,
        fundingApr: real, netSpreadApr: real, breakevenFunding: real)
    | Failure(
        datetime: int, price: real, totalEquity: real, hlEquity: real, ibkrEquity: real,
        positionUsd: real, ibkrLoan: real, netSpreadApr: real, fundingApr: real,
        failReason: FailReason)

  /** The loop's mutable state: total equity and the share count of each leg. */
  datatype State = State(equity: real, shares: real)

  /** What one hour does: append a failure row and stop, or append a record and go on
      (unless the new equity is not positive) from the next state. */
  datatype Outcome = Failed(row: Row) | Recorded(row: Row, next: State)

  /** `_calculate_max_safe_notional`: the largest notional both venues can carry at their
      hard leverage caps, i.e. the smaller of the two venue limits. */
  function MaxSafeNotional(hlAllocation: real, ibkrAllocation: real): (r: real)
    ensures r <= hlAllocation * 20.0 && r <= ibkrAllocation * 6.6
    ensures r == hlAllocation * 20.0 || r == ibkrAllocation * 6.6
  {
    Min2(hlAllocation * 20.0, ibkrAllocation * 6.6)
  }

  /** `_calc_tiered_interest`: hourly cost of an IBKR Pro margin loan, three progressive
      brackets over the benchmark rate, annual cost divided by 365 and by 24. */
  function TieredInterest(loan: real, benchmarkRate: real): (r: real)
    ensures loan <= 0.0 ==> r == 0.0
  {
    if loan <= 0.0 then 0.0
    else
      var tier1 := Min2(loan, 100_000.0) * (benchmarkRate + 0.015);
      var tier2 := if loan > 100_000.0
        then Min2(loan - 100_000.0, 900_000.0) * (benchmarkRate + 0.010) else 0.0;
      var tier3 := if loan > 1_000_000.0
        then (loan - 1_000_000.0) * (benchmarkRate + 0.0075) else 0.0;
      (tier1 + tier2 + tier3) / 365.0 / 24.0
  }

  /** The pre-trade leverage guards, IBKR first: the proposed notional against each
      venue's hard cap, only for a venue with positive equity. */
  function PreTradeCheck(target: real, hlAllocation: real, ibkrAllocation: real): (r: Option<FailReason>)
    ensures r == Some(IbkrLeverageCap)
      <==> ibkrAllocation > 0.0 && target > 6.6 * ibkrAllocation
    ensures r == Some(HlLeverageCap)
      <==> !(ibkrAllocation > 0.0 && target > 6.6 * ibkrAllocation)
           && hlAllocation > 0.0 && target > 20.0 * hlAllocation
    ensures r.None? || r == Some(IbkrLeverageCap) || r == Some(HlLeverageCap)
  {
    assert ibkrAllocation > 0.0 ==> (target / ibkrAllocation > 6.6 <==> target > 6.6 * ibkrAllocation) by {
      if ibkrAllocation > 0.0 { DivCompare(target, ibkrAllocation, 6.6); }
    }
    assert hlAllocation > 0.0 ==> (target / hlAllocation > 20.0 <==> target > 20.0 * hlAllocation) by {
      if hlAllocation > 0.0 { DivCompare(target, hlAllocation, 20.0); }
    }
    if ibkrAllocation > 0.0 && target / ibkrAllocation > 6.6 then Some(IbkrLeverageCap)
    else if hlAllocation > 0.0 && target / hlAllocation > 20.0 then Some(HlLeverageCap)
    else None
  }

  /** The notional currently held; a non-positive share count counts as no position. */
  function CurrentNotional(shares: real, price: real): real {
    if shares > 0.0 then shares * price else 0.0
  }

  /** `drift_pct`: relative distance from the target, or 999 when the target is not positive. */
  function Drift(current: real, target: real): real {
    if target > 0.0 then Abs(current - target) / target else NO_TARGET_DRIFT
  }

  predicate Rebalances(target: real, price: real, shares: real) {
    Drift(CurrentNotional(shares, price), target) > DRIFT_TOLERANCE
  }

  /** `trade_cost`: `cost_bps` basis points of the traded notional. */
  function TradeCost(diffShares: real, price: real): real {
    (diffShares * price) * (12.0 / 10000.0)
  }

  /** The execution block: outside the drift band, trade to `target / price` shares and pay
      `cost_bps` on the traded notional; inside it, change nothing. */
  function Execute(target: real, price: real, st: State): (r: State)
    requires price != 0.0
    ensures !Rebalances(target, price, st.shares) ==> r == st
    ensures Rebalances(target, price, st.shares) ==> r.shares * price == target
    ensures price > 0.0 ==> r.equity <= st.equity
  {
    if Rebalances(target, price, st.shares) then
      var targetShares := target / price;
      var diffShares := Abs(targetShares - st.shares);
      State(st.equity - TradeCost(diffShares, price), targetShares)
    else st
  }

  /** The margin loan IBKR finances: the part of the position its equity does not cover. */
  function IbkrLoan(position: real, ibkrAllocation: real): (r: real)
    ensures r >= 0.0 && r >= position - ibkrAllocation
    ensures r == 0.0 || r == position - ibkrAllocation
  {
    Max2(0.0, position - ibkrAllocation)
  }

  /** The maintenance guards, HL first, against the start-of-hour allocations; neither
      applies without a positive position. */
  function MaintenanceCheck(position: real, hlAllocation: real, ibkrAllocation: real): (r: Option<FailReason>)
    ensures position <= 0.0 ==> r.None?
    ensures r == Some(HlLiquidation)
      <==> position > 0.0 && hlAllocation < 0.05 * position
    ensures r == Some(IbkrMarginCall)
      <==> position > 0.0 && hlAllocation >= 0.05 * position
           && ibkrAllocation < 0.10 * position
    ensures r.None? || r == Some(HlLiquidation) || r == Some(IbkrMarginCall)
  {
    assert position > 0.0 ==> (hlAllocation / position < 0.05 <==> hlAllocation < 0.05 * position) by {
      if position > 0.0 { DivCompare(hlAllocation, position, 0.05); }
    }
    assert position > 0.0 ==> (ibkrAllocation / position < 0.10 <==> ibkrAllocation < 0.10 * position) by {
      if position > 0.0 { DivCompare(ibkrAllocation, position, 0.10); }
    }
    if position > 0.0 && hlAllocation / position < 0.05 then Some(HlLiquidation)
    else if position > 0.0 && ibkrAllocation / position < 0.10 then Some(IbkrMarginCall)
    else None
  }

  /** `_fail_row`: the hour's time and price, zero equity, position and loan, and the reason. */
  function FailRow(h: Hour, reason: FailReason): Row {
    Failure(h.datetime, h.price, 0.0, 0.0, 0.0, 0.0, 0.0, 0.0, 0.0, reason)
  }

  /** The normal row: annualised funding, net spread over the position (denominator 1 when
      there is no positive position), and the funding rate that would cover the interest. */
  function RecordRow(h: Hour, equity: real, position: real, hlAllocation: real, ibkrAllocation: real,
                     loan: real, income: real, interest: real): Row
  {
    Record(h.datetime, h.price, equity, position, hlAllocation, ibkrAllocation, loan, income, interest,
      FundingApr(h.funding), NetSpreadApr(income, interest, position), BreakevenFunding(interest, position))
  }

  /** `funding_apr`: the hourly rate annualised over 24 * 365 hours, in percent. */
  function FundingApr(funding: real): real { funding * 24.0 * 365.0 * 100.0 }

  /** `net_spread_apr`: the hour's net PnL annualised over the position (or over 1 without a
      positive position), in percent. */
  function NetSpreadApr(income: real, interest: real, position: real): real {
    ((income - interest) * 8760.0) / (if position > 0.0 then position else 1.0) * 100.0
  }

  /** `breakeven_funding`: the hourly funding rate that would exactly pay the interest. */
  function BreakevenFunding(interest: real, position: real): real {
    if position > 0.0 then interest / position else 0.0
  }

  function HlAllocation(s: FundingStrategy, equity: real): real { equity * s.hlSplitPct }
  function IbkrAllocation(s: FundingStrategy, equity: real): real { equity * (1.0 - s.hlSplitPct) }

  /** The proposed notional: the safety factor times the smaller venue limit. */
  function TargetNotional(s: FundingStrategy, equity: real): real {
    MaxSafeNotional(HlAllocation(s, equity), IbkrAllocation(s, equity)) * s.safetyFactor
  }

  /** One iteration of the loop in `run`. */
  function Step(s: FundingStrategy, h: Hour, st: State): Outcome
    requires h.price != 0.0
  {
    var hlAllocation := HlAllocation(s, st.equity);
    var ibkrAllocation := IbkrAllocation(s, st.equity);
    var target := TargetNotional(s, st.equity);
    match PreTradeCheck(target, hlAllocation, ibkrAllocation)
    case Some(reason) => Failed(FailRow(h, reason))
    case None => Settle(s, h, hlAllocation, ibkrAllocation, Execute(target, h.price, st))
  }

  /** `position_val`: the notional of the shares held at the hour's price. */
  function PositionValue(shares: real, price: real): real { shares * price }

  /** `fund_income`: the hour's funding on the position (paid to the short when positive). */
  function FundingIncome(position: real, funding: real): real { position * funding }

  /** The rest of the hour after execution: financing, funding, the equity update, the
      maintenance guards and the row. */
  function Settle(s: FundingStrategy, h: Hour, hlAllocation: real, ibkrAllocation: real, executed: State): Outcome
  {
    var position := PositionValue(executed.shares, h.price);
    var loan := IbkrLoan(position, ibkrAllocation);
    var interest := TieredInterest(loan, s.benchmarkRate);
    var income := FundingIncome(position, h.funding);
    var equity := executed.equity + (income - interest);
    match MaintenanceCheck(position, hlAllocation, ibkrAllocation)
    case Some(reason) => Failed(FailRow(h, reason))
    case None =>
      Recorded(RecordRow(h, equity, position, hlAllocation, ibkrAllocation, loan, income, interest),
               State(equity, executed.shares))
  }

  /** The only division `run` leaves unguarded is by the price. */
  predicate NonZeroPrices(hours: seq<Hour>) {
    forall i :: 0 <= i < |hours| ==> hours[i].price != 0.0
  }

  /** The rows `run` appends from state st onwards over the remaining hours. */
  function SimFrom(s: FundingStrategy, hours: seq<Hour>, st: State): (r: seq<Row>)
    requires NonZeroPrices(hours)
    ensures |r| <= |hours|
    ensures |hours| > 0 ==> |r| > 0
    decreases |hours|
  {
    if |hours| == 0 then []
    else
      match Step(s, hours[0], st)
      case Failed(row) => [row]
      case Recorded(row, next) =>
        if next.equity <= 0.0 then [row] else [row] + SimFrom(s, hours[1..], next)
  }

  /** The result table of `run`: empty for an empty frame, otherwise the rows appended
      from the initial capital and no shares. */
  function Simulate(s: FundingStrategy, hours: seq<Hour>): (r: seq<Row>)
    requires NonZeroPrices(hours)
    ensures |r| <= |hours|
    ensures |r| == 0 <==> |hours| == 0
  {
    if |hours| == 0 then [] else SimFrom(s, hours, State(s.capital, 0.0))
  }

  /** One unfolding of SimFrom at position i of the input, given that hour's outcome. */
  lemma SimFromUnfold(s: FundingStrategy, hours: seq<Hour>, i: nat, st: State, outcome: Outcome)
    requires NonZeroPrices(hours) && i < |hours|
    requires outcome == Step(s, hours[i], st)
    ensures outcome.Failed? ==> SimFrom(s, hours[i..], st) == [outcome.row]
    ensures outcome.Recorded? && outcome.next.equity <= 0.0 ==> SimFrom(s, hours[i..], st) == [outcome.row]
    ensures outcome.Recorded? && outcome.next.equity > 0.0 ==>
      SimFrom(s, hours[i..], st) == [outcome.row] + SimFrom(s, hours[i + 1..], outcome.next)
  {
    assert hours[i..][0] == hours[i] && hours[i..][1..] == hours[i + 1..];
  }

  /** Settle ends the hour with the failure the maintenance guards report. */
  lemma SettleFails(s: FundingStrategy, h: Hour, hlAllocation: real, ibkrAllocation: real,
                    executed: State, position: real, reason: FailReason)
    requires position == PositionValue(executed.shares, h.price)
    requires MaintenanceCheck(position, hlAllocation, ibkrAllocation) == Some(reason)
    ensures Settle(s, h, hlAllocation, ibkrAllocation, executed) == Failed(FailRow(h, reason))
  {}

  /** Settle records the hour when the maintenance guards pass. */
  lemma SettleRecords(s: FundingStrategy, h: Hour, hlAllocation: real, ibkrAllocation: real,
                      executed: State, position: real, loan: real, interest: real, income: real)
    requires position == PositionValue(executed.shares, h.price)
    requires loan == IbkrLoan(position, ibkrAllocation)
    requires interest == TieredInterest(loan, s.benchmarkRate)
    requires income == FundingIncome(position, h.funding)
    requires MaintenanceCheck(position, hlAllocation, ibkrAllocation) == None
    ensures Settle(s, h, hlAllocation, ibkrAllocation, executed) ==
      Recorded(RecordRow(h, executed.equity + (income - interest), position, hlAllocation, ibkrAllocation,
                         loan, income, interest),
               State(executed.equity + (income - interest), executed.shares))
  {}

  /** The body of the loop in `run` for one hour: the hour's outcome from the equity and
      share count at its start. A failure is the row `run` appends before its `break`. */
  method RunHour(s: FundingStrategy, row: Hour, equity: real, heldShares: real) returns (outcome: Outcome)
    requires row.price != 0.0
    ensures outcome == Step(s, row, State(equity, heldShares))
  {
    var totalEquity, shares := equity, heldShares;
    var price, funding := row.price, row.funding;

    // 1. allocation
    var hlAllocation := HlAllocation(s, totalEquity);
    var ibkrAllocation := IbkrAllocation(s, totalEquity);

    // 2. target notional
    var targetNotional := TargetNotional(s, totalEquity);

    // 3. pre-trade solvency checks
    if ibkrAllocation > 0.0 {
      var ibkrLev := targetNotional / ibkrAllocation;
      if ibkrLev > IBKR_MAX_LEV {
        return Failed(FailRow(row, IbkrLeverageCap));
      }
    }
    if hlAllocation > 0.0 {
      var hlLev := targetNotional / hlAllocation;
      if hlLev > HL_MAX_LEV {
        return Failed(FailRow(row, HlLeverageCap));
      }
    }

    // 4. execution
    var currentNotional := CurrentNotional(shares, price);
    var driftPct := Drift(currentNotional, targetNotional);
    if driftPct > DRIFT_TOLERANCE {
      var targetShares := targetNotional / price;
      var diffShares := Abs(targetShares - shares);
      var tradeCost := TradeCost(diffShares, price);
      totalEquity := totalEquity - tradeCost;
      shares := targetShares;
    }
    ghost var executed := State(totalEquity, shares);
    assert executed == Execute(targetNotional, price, State(equity, heldShares));
    assert Step(s, row, State(equity, heldShares)) == Settle(s, row, hlAllocation, ibkrAllocation, executed);
    var positionVal := PositionValue(shares, price);

    // 5. financing and 6. funding
    var ibkrLoan := IbkrLoan(positionVal, ibkrAllocation);
    var hourlyInterest := TieredInterest(ibkrLoan, s.benchmarkRate);
    var fundIncome := FundingIncome(positionVal, funding);

    // 7. net PnL
    var netPnl := fundIncome - hourlyInterest;
    totalEquity := totalEquity + netPnl;

    // 8. maintenance checks
    ghost var check := MaintenanceCheck(positionVal, hlAllocation, ibkrAllocation);
    if positionVal > 0.0 && hlAllocation / positionVal < HL_MAINT_MARGIN {
      assert check == Some(HlLiquidation);
      SettleFails(s, row, hlAllocation, ibkrAllocation, executed, positionVal, HlLiquidation);
      return Failed(FailRow(row, HlLiquidation));
    }
    if positionVal > 0.0 && ibkrAllocation / positionVal < IBKR_MAINT_MARGIN {
      assert check == Some(IbkrMarginCall);
      SettleFails(s, row, hlAllocation, ibkrAllocation, executed, positionVal, IbkrMarginCall);
      return Failed(FailRow(row, IbkrMarginCall));
    }

    assert check == None;
    SettleRecords(s, row, hlAllocation, ibkrAllocation, executed, positionVal, ibkrLoan, hourlyInterest, fundIncome);

    // 9. record
    outcome := Recorded(RecordRow(row, totalEquity, positionVal, hlAllocation, ibkrAllocation,
                                  ibkrLoan, fundIncome, hourlyInterest),
                        State(totalEquity, shares));
  }

  /** `run`: the hourly loop, with the equity and share count in local variables and a
      `break` after a failure row or a record with non-positive equity. */
  method Run(s: FundingStrategy, hours: seq<Hour>) returns (results: seq<Row>)
    requires NonZeroPrices(hours)
    ensures results == Simulate(s, hours)
  {
    results := [];
    if |hours| == 0 {
      return;
    }
    var st := State(s.capital, 0.0);
    for i := 0 to |hours|
      invariant results + SimFrom(s, hours[i..], st) == Simulate(s, hours)
    {
      var outcome := RunHour(s, hours[i], st.equity, st.shares);
      SimFromUnfold(s, hours, i, st, outcome);
      results := results + [outcome.row];
      if outcome.Failed? || outcome.next.equity <= 0.0 {
        break;
      }
      st := outcome.next;
    }
  }
}
