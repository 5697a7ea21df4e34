/** config.py: exchange limits, strategy defaults, the margin-loan tier schedule,
    data limits, and the validation and division helpers. */
module Config {
  import opened Floats

  // ExchangeLimits
  const HYPERLIQUID_MAX_LEVERAGE: real := 20.0
  const HYPERLIQUID_MAINTENANCE_MARGIN: real := 0.05
  const IBKR_MAX_LEVERAGE: real := 6.6
  const VOL_SAFETY_FACTOR: real := 3.0

  // StrategyDefaults
  const CAPITAL: real := 1_000_000.0
  const LEVERAGE: real := 1.0
  const HL_SPLIT_PCT: real := 0.30
  const BENCHMARK_RATE: real := 0.0364
  const EXECUTION_COST_BPS: real := 12.0

  // IBKRTiers
  const TIER_1_MAX: real := 100_000.0
  const TIER_1_SPREAD: real := 0.015
  const TIER_2_MAX: real := 1_000_000.0
  const TIER_2_SPREAD: real := 0.010
  const TIER_3_SPREAD: real := 0.0075

  // DataLimits
  const MIN_HOURS_FOR_ANALYSIS: int := 24
  const MIN_HOURS_FOR_METRICS: int := 24
  const ROLLING_WINDOW_7D: int := 24 * 7
  const ROLLING_WINDOW_30D: int := 24 * 30

  // Days of the week, Monday = 0
  const DAYS_ORDER: seq<string> :=
    ["Monday", "Tuesday", "Wednesday", "Thursday", "Friday", "Saturday", "Sunday"]
  const TRADING_DAYS: seq<int> := [0, 1, 2, 3, 4]

  /** `validate_leverage`: the closed interval [0.1, 10.0]. */
  predicate ValidateLeverage(lev: real) {
    0.1 <= lev <= 10.0
  }

  /** `validate_split`: the closed interval [0.10, 0.90]. */
  predicate ValidateSplit(split: real) {
    0.10 <= split <= 0.90
  }

  /** Scalar `safe_divide`: the quotient when the denominator is non-zero, else the default. */
  function SafeDivide(numerator: real, denominator: real, default: real): (r: real)
    ensures denominator != 0.0 ==> r * denominator == numerator
    ensures denominator == 0.0 ==> r == default
  {
    if denominator != 0.0 then numerator / denominator else default
  }

  /** One element of the Series `safe_divide`: a zero denominator becomes NaN, the quotient
      is NaN wherever either operand is NaN, and `fillna(default)` replaces every NaN. */
  function SafeDivideAt(numerator: Float, denominator: Float, default: real): (r: real)
    ensures numerator.Num? && denominator.Num? && denominator.v != 0.0 ==> r * denominator.v == numerator.v
    ensures !(numerator.Num? && denominator.Num? && denominator.v != 0.0) ==> r == default
  {
    var masked := if denominator == Num(0.0) then NaN else denominator;
    var quotient := if numerator.Num? && masked.Num? then Num(numerator.v / masked.v) else NaN;
    if quotient.NaN? then default else quotient.v
  }

  /** Series `safe_divide` over two series sharing one index, element by element. */
  function SafeDivideSeries(numerator: seq<Float>, denominator: seq<Float>, default: real): (r: seq<real>)
    requires |numerator| == |denominator|
    ensures |r| == |numerator|
    ensures forall i :: 0 <= i < |r| ==> r[i] == SafeDivideAt(numerator[i], denominator[i], default)
  {
    seq(|numerator|, i requires 0 <= i < |numerator| => SafeDivideAt(numerator[i], denominator[i], default))
  }

  /** Over two numbers with a non-zero denominator the element is their quotient. */
  lemma SafeDivideAtQuotient(numerator: real, denominator: real, default: real)
    requires denominator != 0.0
    ensures SafeDivideAt(Num(numerator), Num(denominator), default) * denominator == numerator
  {
  }

  /** Any zero-denominator or NaN entry yields the default; every other entry is the quotient. */
  lemma SafeDivideSeriesMeaning(numerator: seq<Float>, denominator: seq<Float>, default: real)
    requires |numerator| == |denominator|
    ensures var r := SafeDivideSeries(numerator, denominator, default);
      forall i :: 0 <= i < |r| ==>
        if numerator[i].Num? && denominator[i].Num? && denominator[i].v != 0.0
        then r[i] * denominator[i].v == numerator[i].v
        else r[i] == default
  {
  }

  /** Scalar and Series division agree on every entry without NaN. */
  lemma SafeDivideAgrees(numerator: real, denominator: real, default: real)
    ensures SafeDivideAt(Num(numerator), Num(denominator), default) == SafeDivide(numerator, denominator, default)
  {
  }
}
