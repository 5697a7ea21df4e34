/** src/utils/data_prep.py: the derived columns of the price frame, the date and weekday
    filters, and the frame validator. The streak statistics of the same file are the ones
    of module Streaks. */
module DataPrep {
  import opened Wrappers
  import opened Series
  import opened Frames
  import Config

  /** One row of the enhanced frame (the rolling `vol_24h` and `vol_7d` columns are not
      part of this model). */
  datatype EnhancedRow = EnhancedRow(
    datetime: int, price: real, funding: real,
    hourlyReturn: real, absReturns: real, fundingApr: real,
    hour: int, dayName: string, dayOfWeek: int)

  /** The columns `prepare_enhanced_dataframe` reads. */
  const REQUIRED_COLUMNS: seq<string> := ["datetime", "price", "funding"]
  /** The columns it adds (of those this model carries). */
  const DERIVED_COLUMNS: set<string> :=
    {"returns", "abs_returns", "funding_apr", "hour", "day_name", "day_of_week"}

  /** The outcome of `prepare_enhanced_dataframe`: the input itself when it is empty, the
      enhanced copy, or the `KeyError` of a missing input column. */
  datatype Prepared = AsGiven(df: Frame<Hour>) | Enhanced(frame: Frame<EnhancedRow>) | MissingColumn

  function Prices(rows: seq<Hour>): (p: seq<real>)
    ensures |p| == |rows| && forall i :: 0 <= i < |rows| ==> p[i] == rows[i].price
  {
    seq(|rows|, i requires 0 <= i < |rows| => rows[i].price)
  }

  // ---------------------------------------------------------------------------------
  // Calendar fields of a UTC timestamp in milliseconds
  // ---------------------------------------------------------------------------------

  /** `.dt.hour`. */
  function HourOfDay(ms: int): (h: int)
    ensures 0 <= h < 24
  {
    (ms / MS_PER_HOUR) % 24
  }

  /** `.dt.date`, as the number of days since 1970-01-01. */
  function Date(ms: int): int {
    ms / MS_PER_DAY
  }

  /** `.dt.dayofweek`, Monday = 0; 1970-01-01 was a Thursday. */
  function DayOfWeek(ms: int): (d: int)
    ensures 0 <= d < 7
  {
    (Date(ms) + 3) % 7
  }

  /** `.dt.day_name()`. */
  function DayName(ms: int): string {
    Config.DAYS_ORDER[DayOfWeek(ms)]
  }

  /** The epoch is a Thursday at midnight. */
  lemma EpochIsThursday()
    ensures DayOfWeek(0) == 3 && DayName(0) == "Thursday" && HourOfDay(0) == 0
  {
  }

  /** A day later is the next weekday at the same hour. */
  lemma NextDay(ms: int)
    ensures DayOfWeek(ms + MS_PER_DAY) == (DayOfWeek(ms) + 1) % 7
    ensures HourOfDay(ms + MS_PER_DAY) == HourOfDay(ms)
    ensures Date(ms + MS_PER_DAY) == Date(ms) + 1
  {
    DivShift(ms, 1, MS_PER_DAY);
    DivShift(ms, 24, MS_PER_HOUR);
    DivShift(ms / MS_PER_HOUR, 1, 24);
    ModSucc(Date(ms) + 3, 7);
  }

  /** An hour later is the next hour of the day. */
  lemma NextHour(ms: int)
    ensures HourOfDay(ms + MS_PER_HOUR) == (HourOfDay(ms) + 1) % 24
  {
    DivShift(ms, 1, MS_PER_HOUR);
    ModSucc(ms / MS_PER_HOUR, 24);
  }

  /** Floor division and remainder are the unique quotient and remainder. */
  lemma DivUnique(x: int, d: int, q: int, r: int)
    requires d > 0 && 0 <= r < d && x == q * d + r
    ensures x / d == q && x % d == r
  {
    var q', r' := x / d, x % d;
    var e := q - q';
    assert e * d == r' - r;
    MulAtLeast(e, d);
    MulAtLeast(-e, d);
  }

  lemma MulAtLeast(e: int, d: int)
    requires d > 0
    ensures e >= 1 ==> e * d >= d
  {}

  lemma DivShift(a: int, k: int, d: int)
    requires d > 0
    ensures (a + k * d) / d == a / d + k && (a + k * d) % d == a % d
  {
    var q, r := a / d, a % d;
    assert a + k * d == (q + k) * d + r;
    DivUnique(a + k * d, d, q + k, r);
  }

  lemma ModSucc(a: int, d: int)
    requires d > 0
    ensures (a + 1) % d == (a % d + 1) % d
  {
    var q, r := a / d, a % d;
    if r + 1 < d {
      DivUnique(a + 1, d, q, r + 1);
      DivUnique(r + 1, d, 0, r + 1);
    } else {
      DivUnique(a + 1, d, q + 1, 0);
      DivUnique(r + 1, d, 1, 0);
    }
  }

  // ---------------------------------------------------------------------------------
  // prepare_enhanced_dataframe
  // ---------------------------------------------------------------------------------

  /** One enhanced row from an hour and its return: the absolute return, the funding rate as
      an APR in percent and the calendar fields. */
  function EnhanceRow(h: Hour, ret: real): EnhancedRow {
    var t := h.datetime;
    EnhancedRow(t, h.price, h.funding, ret, Abs(ret), h.funding * 24.0 * 365.0 * 100.0,
      HourOfDay(t), DayName(t), DayOfWeek(t))
  }

  /** The enhanced rows, with returns `pct_change().fillna(0)` of the price. */
  function Enhance(rows: seq<Hour>): (e: seq<EnhancedRow>)
    requires Divisible(Prices(rows))
    ensures |e| == |rows|
  {
    var ret := Returns(Prices(rows));
    seq(|rows|, i requires 0 <= i < |rows| => EnhanceRow(rows[i], ret[i]))
  }

  /** `prepare_enhanced_dataframe`. */
  function PrepareEnhanced(df: Frame<Hour>): Prepared
    requires Divisible(Prices(df.rows))
  {
    if df.Empty() then AsGiven(df)
    else if !("price" in df.columns && "funding" in df.columns && "datetime" in df.columns) then MissingColumn
    else Enhanced(Frame(df.columns + DERIVED_COLUMNS, Enhance(df.rows)))
  }

  /** An empty frame comes back as it is, a frame without one of the three input columns
      raises, and any other frame is enhanced. */
  lemma PrepareEnhancedCases(df: Frame<Hour>)
    requires Divisible(Prices(df.rows))
    ensures var p := PrepareEnhanced(df);
      (p.AsGiven? <==> df.Empty()) && (p.AsGiven? ==> p.df == df)
      && (p.MissingColumn? <==> !df.Empty() && !(forall c :: c in REQUIRED_COLUMNS ==> c in df.columns))
      && (p.Enhanced? ==> p.frame.columns == df.columns + DERIVED_COLUMNS && |p.frame.rows| == |df.rows|)
  {
    assert forall c :: c in REQUIRED_COLUMNS <==> c == "datetime" || c == "price" || c == "funding";
  }

  /** The first return is 0 and every other return is the relative price change. */
  lemma EnhanceReturns(rows: seq<Hour>)
    requires Divisible(Prices(rows)) && |rows| > 0
    ensures Enhance(rows)[0].hourlyReturn == 0.0
    ensures forall i :: 0 < i < |rows| ==>
      Enhance(rows)[i].hourlyReturn * rows[i - 1].price == rows[i].price - rows[i - 1].price
  {
    assert Enhance(rows)[0] == EnhanceRow(rows[0], Returns(Prices(rows))[0]);
    forall i | 0 < i < |rows| {
      EnhanceReturnAt(rows, i);
    }
  }

  lemma EnhanceReturnAt(rows: seq<Hour>, i: nat)
    requires Divisible(Prices(rows)) && 0 < i < |rows|
    ensures Enhance(rows)[i].hourlyReturn * rows[i - 1].price == rows[i].price - rows[i - 1].price
  {
    var p := Prices(rows);
    var r := Returns(p)[i];
    assert Enhance(rows)[i] == EnhanceRow(rows[i], r);
    assert r == p[i] / p[i - 1] - 1.0;
    ReturnTimesPrevious(p[i - 1], p[i]);
  }

  /** Element i of `pct_change().fillna(0)` times its predecessor is the change. */
  lemma ReturnsMeaning(p: seq<real>)
    requires Divisible(p) && |p| > 0
    ensures Returns(p)[0] == 0.0
    ensures forall i :: 0 < i < |p| ==> Returns(p)[i] * p[i - 1] == p[i] - p[i - 1]
  {
    forall i | 0 < i < |p| ensures Returns(p)[i] * p[i - 1] == p[i] - p[i - 1] {
      ReturnTimesPrevious(p[i - 1], p[i]);
    }
  }

  lemma ReturnTimesPrevious(prev: real, cur: real)
    requires prev != 0.0
    ensures (cur / prev - 1.0) * prev == cur - prev
  {
  }

  /** Row by row, the enhanced fields keep their inputs; absolute returns are not
      negative, the funding APR is the hourly rate times 876000, and the calendar fields
      agree. */
  lemma EnhanceFields(rows: seq<Hour>)
    requires Divisible(Prices(rows))
    ensures var e := Enhance(rows);
      forall i :: 0 <= i < |e| ==>
        e[i].datetime == rows[i].datetime && e[i].price == rows[i].price && e[i].funding == rows[i].funding
        && e[i].absReturns >= 0.0 && (e[i].absReturns == e[i].hourlyReturn || e[i].absReturns == -e[i].hourlyReturn)
        && e[i].fundingApr == rows[i].funding * 876000.0
        && 0 <= e[i].hour < 24 && 0 <= e[i].dayOfWeek < 7 && e[i].dayName == Config.DAYS_ORDER[e[i].dayOfWeek]
  {
  }

  // ---------------------------------------------------------------------------------
  // Filters
  // ---------------------------------------------------------------------------------

  /** The date mask `start <= date <= end`, both ends inclusive. */
  predicate InDateRange(h: Hour, start: int, end: int) {
    start <= Date(h.datetime) <= end
  }

  function DateMask(start: int, end: int): Hour -> bool {
    h => InDateRange(h, start, end)
  }

  /** `filter_data_by_date`; `None` when the frame has rows but no `datetime` column (the
      `KeyError` its mask raises). Dates are day numbers since 1970-01-01. */
  function FilterByDate(df: Frame<Hour>, start: int, end: int): Option<Frame<Hour>> {
    if df.Empty() then Some(df)
    else if "datetime" !in df.columns then None
    else Some(Frame(df.columns, Where(df.rows, DateMask(start, end))))
  }

  /** An empty frame is returned as it is; otherwise the filtered frame keeps the columns and
      exactly the rows of the date range, in their order. */
  lemma FilterByDateMeaning(df: Frame<Hour>, start: int, end: int)
    ensures var r := FilterByDate(df, start, end);
      (df.Empty() ==> r == Some(df))
      && (r.None? <==> !df.Empty() && "datetime" !in df.columns)
      && (r.Some? ==> r.value.columns == df.columns)
      && (r.Some? && !df.Empty() ==>
            forall h :: h in r.value.rows <==> h in df.rows && start <= Date(h.datetime) <= end)
  {
    var keep := DateMask(start, end);
    forall h ensures h in Where(df.rows, keep) <==> h in df.rows && keep(h) {
      WhereMembers(df.rows, keep, h);
    }
  }

  /** The date filter keeps relative order: filtering a concatenation concatenates the
      filtered parts. */
  lemma FilterByDateOrder(a: seq<Hour>, b: seq<Hour>, start: int, end: int)
    ensures Where(a + b, DateMask(start, end)) == Where(a, DateMask(start, end)) + Where(b, DateMask(start, end))
  {
    WhereConcat(a, b, DateMask(start, end));
  }

  /** `df['day_of_week'] < 5`. */
  predicate Weekday(r: EnhancedRow) {
    r.dayOfWeek < 5
  }

  /** `get_active_trading_data`: the weekday rows, or the frame unchanged when it is empty or
      has no `day_of_week` column. */
  function ActiveTradingData(df: Frame<EnhancedRow>): Frame<EnhancedRow> {
    if df.Empty() || "day_of_week" !in df.columns then df
    else Frame(df.columns, Where(df.rows, Weekday))
  }

  lemma ActiveTradingDataMeaning(df: Frame<EnhancedRow>)
    ensures var r := ActiveTradingData(df);
      (df.Empty() || "day_of_week" !in df.columns ==> r == df)
      && r.columns == df.columns && |r.rows| <= |df.rows|
      && (!df.Empty() && "day_of_week" in df.columns ==>
            forall x :: x in r.rows <==> x in df.rows && x.dayOfWeek < 5)
  {
    forall x ensures x in Where(df.rows, Weekday) <==> x in df.rows && Weekday(x) {
      WhereMembers(df.rows, Weekday, x);
    }
  }

  // ---------------------------------------------------------------------------------
  // validate_dataframe
  // ---------------------------------------------------------------------------------

  /** The decimal digits of a natural number, as `str(n)` writes them. */
  function NatString(n: nat): (s: string)
    ensures |s| > 0
    decreases n
  {
    if n < 10 then [DigitChar(n)] else NatString(n / 10) + [DigitChar(n % 10)]
  }

  function DigitChar(d: nat): char
    requires d < 10
  {
    "0123456789"[d]
  }

  /** Reading decimal digits back. */
  function DigitsValue(s: string): int {
    if |s| == 0 then 0 else DigitsValue(s[..|s| - 1]) * 10 + (s[|s| - 1] as int - '0' as int)
  }

  /** `str(n)` is read back as n. */
  lemma {:induction false} NatStringRoundTrip(n: nat)
    ensures DigitsValue(NatString(n)) == n
    decreases n
  {
    var s := NatString(n);
    if n < 10 {
      assert s[..0] == [];
    } else {
      NatStringRoundTrip(n / 10);
      assert s[..|s| - 1] == NatString(n / 10);
    }
  }

  /** `', '.join(parts)`. */
  function Join(parts: seq<string>): string {
    if |parts| == 0 then ""
    else if |parts| == 1 then parts[0]
    else Join(parts[..|parts| - 1]) + ", " + parts[|parts| - 1]
  }

  /** The required columns the frame lacks, in the order `datetime`, `price`, `funding`. */
  function MissingColumns(columns: set<string>): seq<string> {
    Where(REQUIRED_COLUMNS, c => c !in columns)
  }

  /** `validate_dataframe(df, min_rows)`: the verdict and its message. */
  function ValidateDataframe<R>(df: Frame<R>, minRows: int): (bool, string) {
    if df.Empty() then (false, "Dataframe is empty")
    else if |MissingColumns(df.columns)| > 0 then
      (false, "Missing required columns: " + Join(MissingColumns(df.columns)))
    else if |df.rows| < minRows then
      (false, "Insufficient data: " + NatString(|df.rows|) + " rows (minimum: " + NatString(minRows) + ")")
    else (true, "")
  }

  /** The missing list names exactly the required columns that are absent. */
  lemma MissingColumnsMeaning(columns: set<string>)
    ensures forall c :: c in MissingColumns(columns) <==> c in REQUIRED_COLUMNS && c !in columns
    ensures |MissingColumns(columns)| == 0 <==> "datetime" in columns && "price" in columns && "funding" in columns
  {
    var keep := c => c !in columns;
    forall c ensures c in Where(REQUIRED_COLUMNS, keep) <==> c in REQUIRED_COLUMNS && keep(c) {
      WhereMembers(REQUIRED_COLUMNS, keep, c);
    }
    if |MissingColumns(columns)| == 0 {
      assert REQUIRED_COLUMNS[0] == "datetime" && REQUIRED_COLUMNS[1] == "price" && REQUIRED_COLUMNS[2] == "funding";
    } else {
      var c := MissingColumns(columns)[0];
      assert c in MissingColumns(columns);
    }
  }

  /** The missing list reports the absent columns in the order `datetime`, `price`,
      `funding`. */
  lemma MissingColumnsOrder(columns: set<string>)
    ensures MissingColumns(columns)
      == (if "datetime" in columns then [] else ["datetime"])
       + (if "price" in columns then [] else ["price"])
       + (if "funding" in columns then [] else ["funding"])
  {
    var keep := c => c !in columns;
    assert REQUIRED_COLUMNS == ["datetime"] + ["price"] + ["funding"];
    WhereConcat(["datetime"] + ["price"], ["funding"], keep);
    WhereConcat(["datetime"], ["price"], keep);
    WhereSingle("datetime", keep);
    WhereSingle("price", keep);
    WhereSingle("funding", keep);
  }

  /** A frame is valid exactly when it is non-empty, has the three required columns and at
      least `min_rows` rows; only a valid frame has an empty message. The checks run in the
      order empty, missing columns, row count: an empty frame reports emptiness whatever
      its columns and length, and a non-empty frame that lacks a column reports the missing
      list whatever its length. */
  lemma ValidateMeaning<R>(df: Frame<R>, minRows: int)
    ensures var (ok, msg) := ValidateDataframe(df, minRows);
      (ok <==> !df.Empty() && "datetime" in df.columns && "price" in df.columns && "funding" in df.columns
               && |df.rows| >= minRows)
      && (ok <==> msg == "")
    ensures df.Empty() ==> ValidateDataframe(df, minRows).1 == "Dataframe is empty"
    ensures !df.Empty() && !("datetime" in df.columns && "price" in df.columns && "funding" in df.columns) ==>
      ValidateDataframe(df, minRows).1 == "Missing required columns: " + Join(MissingColumns(df.columns))
      && |MissingColumns(df.columns)| > 0
    ensures (!df.Empty() && "datetime" in df.columns && "price" in df.columns && "funding" in df.columns
             && |df.rows| < minRows) ==>
      ValidateDataframe(df, minRows).1
        == "Insufficient data: " + NatString(|df.rows|) + " rows (minimum: " + NatString(minRows) + ")"
  {
    MissingColumnsMeaning(df.columns);
  }
}
