/** `FundingStrategy.get_metrics` and `FundingStrategy.get_spread_stats` (src/strategy.py):
    the performance summary of a result table and the statistics of its hourly net
    spread. */
module Metrics {
  import opened Wrappers
  import opened Series
  import opened Strategy
  import opened StrategyLemmas
  import Streaks

  /** At least a day of hourly rows is needed for a summary. */
  const MIN_ROWS: nat := 24
  const SECONDS_PER_DAY: real := 86400.0

  datatype PerformanceMetrics = PerformanceMetrics(cagr: real, sharpe: real, maxDd: real, final: real)

  datatype SpreadStats = SpreadStats(winRate: real, maxLosingStreak: nat, profitFactor: real, vol: real)

  /** The `total_equity` column. */
  function Equity(rows: seq<Row>): (e: seq<real>)
    ensures |e| == |rows| && forall i :: 0 <= i < |rows| ==> e[i] == rows[i].totalEquity
  {
    seq(|rows|, i requires 0 <= i < |rows| => rows[i].totalEquity)
  }

  /** The `net_spread_apr` column; a failure row holds 0 there. */
  function NetSpreads(rows: seq<Row>): (s: seq<real>)
    ensures |s| == |rows| && forall i :: 0 <= i < |rows| ==> s[i] == rows[i].netSpreadApr
  {
    seq(|rows|, i requires 0 <= i < |rows| => rows[i].netSpreadApr)
  }

  // ---------------------------------------------------------------------------------
  // Annualisation
  // ---------------------------------------------------------------------------------

  /** The span of the table in days: the datetimes are milliseconds since the epoch. */
  function Days(first: int, last: int): real {
    (last - first) as real / (SECONDS_PER_DAY * 1000.0)
  }

  /** The CAGR exponent `365 / max(1, days)`. */
  function AnnualExponent(days: real): (x: real)
    ensures 0.0 < x <= 365.0
  {
    365.0 / Max2(1.0, days)
  }

  /** Elapsed days are floored at 1: a run of at most one day has exponent 365. */
  lemma AnnualExponentFloor(days: real)
    ensures days <= 1.0 ==> AnnualExponent(days) == 365.0
  {}

  // ---------------------------------------------------------------------------------
  // Drawdown
  // ---------------------------------------------------------------------------------

  /** `(equity - peak) / peak` for one row. */
  function Drawdown(x: real, peak: real): real
    requires peak != 0.0
  {
    (x - peak) / peak
  }

  /** The running peak of a series whose first value is positive stays positive. */
  lemma PeakPositive(eq: seq<real>, i: nat)
    requires i < |eq| && eq[0] > 0.0
    ensures PrefixMax(eq, i) > 0.0
  {}

  /** The drawdown column: element i compares equity with its running peak. */
  function Drawdowns(eq: seq<real>): (dd: seq<real>)
    requires |eq| > 0 && eq[0] > 0.0
    ensures |dd| == |eq|
  {
    seq(|eq|, i requires 0 <= i < |eq| =>
      PeakPositive(eq, i);
      Drawdown(eq[i], PrefixMax(eq, i)))
  }

  /** The maximum drawdown `min((equity - peak) / peak)`. */
  function MaxDrawdown(eq: seq<real>): real
    requires |eq| > 0 && eq[0] > 0.0
  {
    Min(Drawdowns(eq))
  }

  /** A value at or below a positive peak has a drawdown of at most 0, equal to 0 exactly
      at the peak, and a drawdown of at least -1 exactly when the value is not negative. */
  lemma DrawdownSign(x: real, peak: real)
    requires peak > 0.0 && x <= peak
    ensures Drawdown(x, peak) <= 0.0
    ensures Drawdown(x, peak) == 0.0 <==> x == peak
    ensures Drawdown(x, peak) >= -1.0 <==> x >= 0.0
  {
    DivCompare(x - peak, peak, 0.0);
    DivCompare(x - peak, peak, -1.0);
  }

  /** Against a higher peak a non-negative value shows the deeper drawdown. */
  lemma DrawdownAgainstHigherPeak(x: real, low: real, peak: real)
    requires 0.0 < low <= peak && x >= 0.0
    ensures Drawdown(x, peak) <= x / low - 1.0
  {
    DrawdownIsRatio(x, peak);
    var a, b := x / peak, x / low;
    assert a * peak == x;
    assert b * low == x;
    DivCompare(x, peak, 0.0);
    MulMonotone(a, low, peak);
    assert a * low <= b * low;
    MulLeCancel(a, b, low);
  }

  lemma DrawdownIsRatio(x: real, peak: real)
    requires peak != 0.0
    ensures Drawdown(x, peak) == x / peak - 1.0
  {
    var a, d := x / peak, (x - peak) / peak;
    assert a * peak == x;
    assert d * peak == x - peak;
    assert (a - 1.0) * peak == x - peak;
    MulCancel(d, a - 1.0, peak);
  }

  /** Each drawdown is at most 0 and is 0 exactly where the series is at its running peak. */
  lemma DrawdownsRange(eq: seq<real>)
    requires |eq| > 0 && eq[0] > 0.0
    ensures forall i :: 0 <= i < |eq| ==> Drawdowns(eq)[i] <= 0.0
    ensures forall i :: 0 <= i < |eq| ==> (Drawdowns(eq)[i] == 0.0 <==> eq[i] == PrefixMax(eq, i))
  {
    forall i | 0 <= i < |eq|
      ensures Drawdowns(eq)[i] <= 0.0
      ensures Drawdowns(eq)[i] == 0.0 <==> eq[i] == PrefixMax(eq, i)
    {
      DrawdownSign(eq[i], PrefixMax(eq, i));
    }
  }

  lemma MaxDrawdownNonPositive(eq: seq<real>)
    requires |eq| > 0 && eq[0] > 0.0
    ensures MaxDrawdown(eq) <= 0.0
  {
    DrawdownsRange(eq);
    assert MaxDrawdown(eq) <= Drawdowns(eq)[0];
  }

  /** The maximum drawdown is below 0 exactly when some value falls below an earlier one. */
  lemma MaxDrawdownNegative(eq: seq<real>)
    requires |eq| > 0 && eq[0] > 0.0
    ensures MaxDrawdown(eq) < 0.0 <==> exists i, j :: 0 <= i < j < |eq| && eq[j] < eq[i]
  {
    if exists i, j :: 0 <= i < j < |eq| && eq[j] < eq[i] {
      var i, j :| 0 <= i < j < |eq| && eq[j] < eq[i];
      FallIsDrawdown(eq, i, j);
    }
    if MaxDrawdown(eq) < 0.0 {
      DrawdownIsFall(eq);
    }
  }

  lemma FallIsDrawdown(eq: seq<real>, i: nat, j: nat)
    requires i < j < |eq| && eq[0] > 0.0 && eq[j] < eq[i]
    ensures MaxDrawdown(eq) < 0.0
  {
    var p := PrefixMax(eq, j);
    assert eq[i] <= p;
    PeakPositive(eq, j);
    DrawdownSign(eq[j], p);
    assert MaxDrawdown(eq) <= Drawdowns(eq)[j];
  }

  lemma DrawdownIsFall(eq: seq<real>)
    requires |eq| > 0 && eq[0] > 0.0 && MaxDrawdown(eq) < 0.0
    ensures exists i, j :: 0 <= i < j < |eq| && eq[j] < eq[i]
  {
    var dd := Drawdowns(eq);
    var j :| 0 <= j < |dd| && dd[j] == MaxDrawdown(eq);
    var p := PrefixMax(eq, j);
    PeakPositive(eq, j);
    DrawdownSign(eq[j], p);
    var i :| 0 <= i <= j && eq[i] == p;
    assert i != j && eq[j] < eq[i];
  }

  /** The maximum drawdown is the worst decline from a value to a later one: no later
      non-negative value is lower, relative to an earlier value, and one pair of values
      realises it. */
  lemma MaxDrawdownIsWorstDecline(eq: seq<real>)
    requires |eq| > 0 && eq[0] > 0.0
    ensures forall i, j :: 0 <= i <= j < |eq| && eq[i] > 0.0 && eq[j] >= 0.0 ==>
      MaxDrawdown(eq) <= eq[j] / eq[i] - 1.0
    ensures exists i, j :: 0 <= i <= j < |eq| && eq[i] > 0.0 && MaxDrawdown(eq) == eq[j] / eq[i] - 1.0
  {
    var dd := Drawdowns(eq);
    forall i, j | 0 <= i <= j < |eq| && eq[i] > 0.0 && eq[j] >= 0.0
      ensures MaxDrawdown(eq) <= eq[j] / eq[i] - 1.0
    {
      DrawdownAgainstHigherPeak(eq[j], eq[i], PrefixMax(eq, j));
      assert MaxDrawdown(eq) <= dd[j];
    }
    var j :| 0 <= j < |dd| && dd[j] == MaxDrawdown(eq);
    var i :| 0 <= i <= j && eq[i] == PrefixMax(eq, j);
    PeakPositive(eq, j);
    DrawdownIsRatio(eq[j], eq[i]);
  }

  // ---------------------------------------------------------------------------------
  // Hourly returns and the Sharpe ratio
  // ---------------------------------------------------------------------------------

  /** The growth factor of hours 1..k, the product of `1 + return`. */
  function Growth(ret: seq<real>, k: nat): real
    requires k < |ret|
  {
    if k == 0 then 1.0 else Growth(ret, k - 1) * (1.0 + ret[k])
  }

  lemma ReturnStep(prev: real, x: real)
    requires prev != 0.0
    ensures prev * (1.0 + (x / prev - 1.0)) == x
  {
    var q := x / prev;
    assert q * prev == x;
  }

  /** Compounding the returns recovers the equity: the first value times the growth of
      hours 1..k is the value at k. */
  lemma {:induction false} ReturnsCompound(eq: seq<real>, k: nat)
    requires Divisible(eq) && k < |eq|
    ensures eq[0] * Growth(Returns(eq), k) == eq[k]
  {
    if k > 0 {
      var ret := Returns(eq);
      ReturnsCompound(eq, k - 1);
      var g := Growth(ret, k - 1);
      assert eq[0] * g == eq[k - 1];
      assert Growth(ret, k) == g * (1.0 + ret[k]);
      assert eq[0] * (g * (1.0 + ret[k])) == (eq[0] * g) * (1.0 + ret[k]);
      ReturnStep(eq[k - 1], eq[k]);
    }
  }

  /** The first value grown by the returns of hours 1..k. */
  function Compounded(eq: seq<real>, k: nat): real
    requires Divisible(eq) && k < |eq|
  {
    eq[0] * Growth(Returns(eq), k)
  }

  /** Compounding the hourly returns from the first value recovers every value. */
  lemma ReturnsCompoundAll(eq: seq<real>)
    requires Divisible(eq)
    ensures forall k :: 0 <= k < |eq| ==> Compounded(eq, k) == eq[k]
  {
    forall k | 0 <= k < |eq| ensures Compounded(eq, k) == eq[k] {
      ReturnsCompound(eq, k);
    }
  }

  /** The Sharpe ratio `mean / std * sqrt(8760)`, or 0 when the deviation is not positive. */
  function Sharpe(ret: seq<real>, n: Numerics): (r: real)
    requires |ret| > 0
    ensures n.std(ret) <= 0.0 ==> r == 0.0
  {
    var sd := n.std(ret);
    if sd > 0.0 then Mean(ret) / sd * n.sqrt(HOURS_PER_YEAR) else 0.0
  }

  // ---------------------------------------------------------------------------------
  // get_metrics
  // ---------------------------------------------------------------------------------

  /** What the summary divides by: the capital, the first equity (every later running
      peak is at least that) and every equity a later hour's return is measured from. */
  predicate MetricsDefined(s: FundingStrategy, rows: seq<Row>) {
    s.capital != 0.0 && forall k :: 0 <= k < |rows| - 1 ==> rows[k].totalEquity > 0.0
  }

  lemma EquityDefined(s: FundingStrategy, rows: seq<Row>)
    requires |rows| >= MIN_ROWS && MetricsDefined(s, rows)
    ensures Divisible(Equity(rows)) && Equity(rows)[0] > 0.0
  {}

  /** The table's span in days, from its first to its last datetime. */
  function Span(rows: seq<Row>): real
    requires |rows| > 0
  {
    Days(rows[0].datetime, rows[|rows| - 1].datetime)
  }

  /** `(final / capital) ** (365 / max(1, days)) - 1`. */
  function Cagr(final: real, capital: real, days: real, n: Numerics): real
    requires capital != 0.0
  {
    n.pow(final / capital, AnnualExponent(days)) - 1.0
  }

  /** The summary of a table long enough to have one. */
  function Summary(s: FundingStrategy, rows: seq<Row>, n: Numerics): (m: PerformanceMetrics)
    requires |rows| >= MIN_ROWS && MetricsDefined(s, rows)
    ensures m.final == rows[|rows| - 1].totalEquity
  {
    var eq, final := Equity(rows), rows[|rows| - 1].totalEquity;
    EquityDefined(s, rows);
    PerformanceMetrics(Cagr(final, s.capital, Span(rows), n), Sharpe(Returns(eq), n), MaxDrawdown(eq), final)
  }

  /** `get_metrics`: no summary for fewer than 24 rows; otherwise the final equity, the
      CAGR over the table's span in days (at least one), the Sharpe ratio of the hourly
      returns and the maximum drawdown. */
  function GetMetrics(s: FundingStrategy, rows: seq<Row>, n: Numerics): (r: Option<PerformanceMetrics>)
    requires |rows| >= MIN_ROWS ==> MetricsDefined(s, rows)
    ensures r.None? <==> |rows| < MIN_ROWS
    ensures r.Some? ==> r.value.final == rows[|rows| - 1].totalEquity
  {
    if |rows| < MIN_ROWS then None else Some(Summary(s, rows, n))
  }

  /** The parts of a summary over the equity column `eq`: the drawdown of the column
      (MaxDrawdownNegative and MaxDrawdownIsWorstDecline say what it measures), at most 0;
      the CAGR over the span's exponent; the Sharpe ratio of the hourly returns, which
      compound back to the equity (ReturnsCompoundAll). */
  lemma GetMetricsParts(s: FundingStrategy, rows: seq<Row>, n: Numerics)
    requires |rows| >= MIN_ROWS && MetricsDefined(s, rows)
    ensures var eq, m := Equity(rows), GetMetrics(s, rows, n).value;
      Divisible(eq) && eq[0] > 0.0
      && m.maxDd == MaxDrawdown(eq) && m.maxDd <= 0.0
      && m.cagr == Cagr(m.final, s.capital, Span(rows), n)
      && m.sharpe == Sharpe(Returns(eq), n)
  {
    var eq := Equity(rows);
    EquityDefined(s, rows);
    MaxDrawdownNonPositive(eq);
  }

  /** A span of a day or more is annualised exactly: exponent times days is 365. */
  lemma AnnualExponentSpan(days: real)
    requires days >= 1.0
    ensures AnnualExponent(days) * days == 365.0
  {}

  /** The engine's own tables can always be summarised once they are long enough: every
      row but the last has positive equity, and a zero capital stops the run after one
      row. */
  lemma EngineMetricsDefined(s: FundingStrategy, hours: seq<Frames.Hour>)
    requires NonZeroPrices(hours)
    ensures |Simulate(s, hours)| >= MIN_ROWS ==> MetricsDefined(s, Simulate(s, hours))
  {
    SimulateShape(s, hours);
    if s.capital == 0.0 {
      ZeroCapitalStops(s, hours);
    }
  }

  /** With no capital the first hour trades nothing, earns nothing and ends the run. */
  lemma ZeroCapitalStops(s: FundingStrategy, hours: seq<Frames.Hour>)
    requires NonZeroPrices(hours) && s.capital == 0.0
    ensures |Simulate(s, hours)| <= 1
  {
    if |hours| > 0 {
      var h, st := hours[0], State(0.0, 0.0);
      assert HlAllocation(s, 0.0) == 0.0 && IbkrAllocation(s, 0.0) == 0.0;
      assert TargetNotional(s, 0.0) == 0.0;
      var executed := Execute(0.0, h.price, st);
      assert executed == State(0.0, 0.0);
      assert PositionValue(0.0, h.price) == 0.0;
      var o := Step(s, h, st);
      assert o.Recorded? && o.next.equity == 0.0;
    }
  }

  // ---------------------------------------------------------------------------------
  // get_spread_stats
  // ---------------------------------------------------------------------------------

  function PositiveParts(s: seq<real>): (p: seq<real>)
    ensures |p| == |s| && forall i :: 0 <= i < |s| ==> p[i] == PositivePart(s[i])
  {
    seq(|s|, i requires 0 <= i < |s| => PositivePart(s[i]))
  }

  function NegativeParts(s: seq<real>): (p: seq<real>)
    ensures |p| == |s| && forall i :: 0 <= i < |s| ==> p[i] == NegativePart(s[i])
  {
    seq(|s|, i requires 0 <= i < |s| => NegativePart(s[i]))
  }

  /** `s[s > 0].sum()`. */
  function GrossProfit(s: seq<real>): real { Sum(PositiveParts(s)) }

  /** `abs(s[s < 0].sum())`. */
  function GrossLoss(s: seq<real>): real { Abs(Sum(NegativeParts(s))) }

  /** A sum of non-negative terms is non-negative, and positive exactly when a term is. */
  lemma {:induction false} SumNonNegative(p: seq<real>)
    requires forall i :: 0 <= i < |p| ==> p[i] >= 0.0
    ensures Sum(p) >= 0.0
    ensures Sum(p) > 0.0 <==> exists i :: 0 <= i < |p| && p[i] > 0.0
  {
    if |p| > 0 {
      var init := p[..|p| - 1];
      assert forall i :: 0 <= i < |init| ==> init[i] == p[i];
      SumNonNegative(init);
      if exists i :: 0 <= i < |init| && init[i] > 0.0 {
        var i :| 0 <= i < |init| && init[i] > 0.0;
        assert p[i] > 0.0;
      }
    }
  }

  lemma {:induction false} SumNonPositive(p: seq<real>)
    requires forall i :: 0 <= i < |p| ==> p[i] <= 0.0
    ensures Sum(p) <= 0.0
    ensures Sum(p) < 0.0 <==> exists i :: 0 <= i < |p| && p[i] < 0.0
  {
    if |p| > 0 {
      var init := p[..|p| - 1];
      assert forall i :: 0 <= i < |init| ==> init[i] == p[i];
      SumNonPositive(init);
      if exists i :: 0 <= i < |init| && init[i] < 0.0 {
        var i :| 0 <= i < |init| && init[i] < 0.0;
        assert p[i] < 0.0;
      }
    }
  }

  /** Gross profit and loss are non-negative, each positive exactly when some hour has a
      spread of that sign, and profit minus loss is the total spread. */
  lemma GrossParts(s: seq<real>)
    ensures GrossProfit(s) >= 0.0 && GrossLoss(s) >= 0.0
    ensures GrossProfit(s) > 0.0 <==> exists i :: 0 <= i < |s| && s[i] > 0.0
    ensures GrossLoss(s) > 0.0 <==> exists i :: 0 <= i < |s| && s[i] < 0.0
    ensures GrossProfit(s) - GrossLoss(s) == Sum(s)
  {
    var p, q := PositiveParts(s), NegativeParts(s);
    SumNonNegative(p);
    SumNonPositive(q);
    if exists i :: 0 <= i < |s| && s[i] > 0.0 {
      var i :| 0 <= i < |s| && s[i] > 0.0;
      assert p[i] > 0.0;
    }
    if exists i :: 0 <= i < |s| && s[i] < 0.0 {
      var i :| 0 <= i < |s| && s[i] < 0.0;
      assert q[i] < 0.0;
    }
    SplitSum(s);
  }

  /** A sum is the sum of its positive parts plus the sum of its negative parts. */
  lemma {:induction false} SplitSum(s: seq<real>)
    ensures Sum(PositiveParts(s)) + Sum(NegativeParts(s)) == Sum(s)
  {
    if |s| > 0 {
      var init := s[..|s| - 1];
      SplitSum(init);
      assert PositiveParts(s)[..|s| - 1] == PositiveParts(init);
      assert NegativeParts(s)[..|s| - 1] == NegativeParts(init);
    }
  }

  predicate IsWin(x: real) { x > 0.0 }

  /** `s < 0` for each hour. */
  function Losses(s: seq<real>): (b: seq<bool>)
    ensures |b| == |s| && forall i :: 0 <= i < |s| ==> (b[i] <==> s[i] < 0.0)
  {
    seq(|s|, i requires 0 <= i < |s| => s[i] < 0.0)
  }

  function WinRate(s: seq<real>): real
    requires |s| > 0
  {
    CountWhere(s, IsWin) as real / |s| as real
  }

  function ProfitFactor(s: seq<real>): real {
    var gl := GrossLoss(s);
    if gl > 0.0 then GrossProfit(s) / gl else 0.0
  }

  /** `get_spread_stats`: no statistics for an empty table; otherwise the share of hours
      with a positive net spread, the longest run of hours with a negative one, gross
      profit over gross loss (0 without losses) and the spread's standard deviation. */
  function GetSpreadStats(rows: seq<Row>, n: Numerics): (r: Option<SpreadStats>)
    ensures r.None? <==> |rows| == 0
  {
    if |rows| == 0 then None
    else
      var s := NetSpreads(rows);
      Some(SpreadStats(WinRate(s), Streaks.LongestFlaggedGroup(Losses(s)), ProfitFactor(s), n.std(s)))
  }

  lemma {:induction false} CountWhereAll(s: seq<real>, p: real -> bool)
    ensures CountWhere(s, p) == |s| <==> forall i :: 0 <= i < |s| ==> p(s[i])
    ensures CountWhere(s, p) == 0 <==> forall i :: 0 <= i < |s| ==> !p(s[i])
  {
    if |s| > 0 {
      var init := s[..|s| - 1];
      assert forall i :: 0 <= i < |init| ==> init[i] == s[i];
      CountWhereAll(init, p);
    }
  }

  /** The win rate is a fraction: 1 exactly when every hour wins, 0 exactly when none do. */
  lemma WinRateRange(s: seq<real>)
    requires |s| > 0
    ensures 0.0 <= WinRate(s) <= 1.0
    ensures WinRate(s) == 1.0 <==> forall i :: 0 <= i < |s| ==> s[i] > 0.0
    ensures WinRate(s) == 0.0 <==> forall i :: 0 <= i < |s| ==> s[i] <= 0.0
  {
    var c, t := CountWhere(s, IsWin) as real, |s| as real;
    CountWhereAll(s, IsWin);
    FractionRange(c, t);
  }

  lemma FractionRange(c: real, t: real)
    requires 0.0 <= c <= t && t > 0.0
    ensures 0.0 <= c / t <= 1.0
    ensures c / t == 1.0 <==> c == t
    ensures c / t == 0.0 <==> c == 0.0
  {
    DivCompare(c, t, 1.0);
    DivCompare(c, t, 0.0);
  }

  /** The profit factor is non-negative and recovers gross profit when there are
      losses; it exceeds 1 exactly when the hours net out positive. */
  lemma ProfitFactorMeaning(s: seq<real>)
    ensures ProfitFactor(s) >= 0.0
    ensures GrossLoss(s) > 0.0 ==> ProfitFactor(s) * GrossLoss(s) == GrossProfit(s)
    ensures GrossLoss(s) > 0.0 ==> (ProfitFactor(s) > 1.0 <==> Sum(s) > 0.0)
  {
    GrossParts(s);
    var gp, gl := GrossProfit(s), GrossLoss(s);
    if gl > 0.0 {
      QuotientFacts(gp, gl);
    }
  }

  /** The profit factor is 0 exactly when no hour loses or none wins. */
  lemma ProfitFactorZero(s: seq<real>)
    ensures ProfitFactor(s) == 0.0 <==>
      (forall i :: 0 <= i < |s| ==> s[i] >= 0.0) || (forall i :: 0 <= i < |s| ==> s[i] <= 0.0)
  {
    GrossParts(s);
    var gp, gl := GrossProfit(s), GrossLoss(s);
    if gl > 0.0 {
      QuotientFacts(gp, gl);
      assert ProfitFactor(s) == 0.0 <==> gp == 0.0;
    } else {
      assert gl == 0.0;
    }
  }

  lemma QuotientFacts(p: real, l: real)
    requires p >= 0.0 && l > 0.0
    ensures p / l >= 0.0 && (p / l) * l == p
    ensures p / l > 1.0 <==> p > l
    ensures p / l == 0.0 <==> p == 0.0
  {
    DivCompare(p, l, 0.0);
    DivCompare(p, l, 1.0);
  }

  /** The longest losing streak is the longest run of hours with a negative spread, and 0
      exactly when no hour loses. */
  lemma SpreadLosingStreak(rows: seq<Row>, n: Numerics)
    requires |rows| > 0
    ensures var s, st := NetSpreads(rows), GetSpreadStats(rows, n).value;
      var r := Streaks.Runs(Losses(s));
      (forall k :: 0 <= k < |r| && r[k].positive ==> r[k].length <= st.maxLosingStreak)
      && ((exists i :: 0 <= i < |rows| && rows[i].netSpreadApr < 0.0) ==>
            exists k :: 0 <= k < |r| && r[k].positive && r[k].length == st.maxLosingStreak)
      && (st.maxLosingStreak == 0 <==> forall i :: 0 <= i < |rows| ==> rows[i].netSpreadApr >= 0.0)
  {
    var s := NetSpreads(rows);
    Streaks.LongestFlaggedRun(Losses(s));
  }

  /** The win rate and profit factor of a non-empty table, in terms of its spreads. */
  lemma SpreadStatsRanges(rows: seq<Row>, n: Numerics)
    requires |rows| > 0
    ensures var s, st := NetSpreads(rows), GetSpreadStats(rows, n).value;
      0.0 <= st.winRate <= 1.0
      && (st.winRate == 1.0 <==> forall i :: 0 <= i < |s| ==> s[i] > 0.0)
      && (st.winRate == 0.0 <==> forall i :: 0 <= i < |s| ==> s[i] <= 0.0)
      && st.profitFactor >= 0.0
      && (st.profitFactor == 0.0 <==>
            (forall i :: 0 <= i < |s| ==> s[i] >= 0.0) || (forall i :: 0 <= i < |s| ==> s[i] <= 0.0))
  {
    var s := NetSpreads(rows);
    WinRateRange(s);
    ProfitFactorMeaning(s);
    ProfitFactorZero(s);
  }
}
