/** `AssetRanker.run_ranking` (src/asset_ranker.py): the average net funding yield of
    every ticker with enough filtered history, ranked from the highest yield down. */
module Ranker {
  import opened Wrappers
  import opened Series
  import opened Frames

  /** A ticker needs strictly more rows than this to be ranked. */
  const MIN_SAMPLE_HOURS: nat := 24

  /** One result row: `Symbol`, `Avg Net APR`, `Sample Hours`. */
  datatype RankRow = RankRow(symbol: string, avgNetApr: real, sampleHours: nat)

  /** The outcome of the final `sort_values`, which can raise. */
  datatype Ranking = Ranked(rows: seq<RankRow>) | Raised(error: string)

  /** `engine.get_data(ticker)`; `None` when the call raises. */
  type Fetch = string -> Option<Frame<Hour>>
  /** `filter_func(raw_df, start_date, end_date)`; `None` when the call raises. */
  type Filter = (Frame<Hour>, int, int) -> Option<Frame<Hour>>

  function Fundings(rows: seq<Hour>): (f: seq<real>)
    ensures |f| == |rows| && forall i :: 0 <= i < |rows| ==> f[i] == rows[i].funding
  {
    seq(|rows|, i requires 0 <= i < |rows| => rows[i].funding)
  }

  /** `not df.empty and len(df) > 24`. */
  predicate Qualifies(df: Frame<Hour>) {
    !df.Empty() && |df.rows| > MIN_SAMPLE_HOURS
  }

  /** The row order of `sort_values(by="Avg Net APR", ascending=False)`. */
  predicate SortedDesc(rows: seq<RankRow>) {
    forall i, j :: 0 <= i < j < |rows| ==> rows[i].avgNetApr >= rows[j].avgNetApr
  }

  /** The ranker's parameters; `capital` is stored but never read. */
  datatype AssetRanker = AssetRanker(capital: real, benchmarkRate: real)
  {
    /** `(mean(funding) * 24 * 365 - benchmark_rate) * 100`. */
    function NetApr(rows: seq<Hour>): real
      requires |rows| > 0
    {
      (Mean(Fundings(rows)) * 24.0 * 365.0 - benchmarkRate) * 100.0
    }

    /** One pass of the loop body: the row of a ticker, or `None` when it is skipped,
        either because it has too few rows or because something inside the `try` raised
        (a failed fetch or filter, or `df['funding']` on a frame without that column). */
    function Visit(fetch: Fetch, filter: Filter, start: int, end: int, ticker: string): Option<RankRow> {
      match fetch(ticker)
      case None => None
      case Some(raw) =>
        match filter(raw, start, end)
        case None => None
        case Some(df) =>
          if !Qualifies(df) then None
          else if "funding" !in df.columns then None
          else Some(RankRow(ticker, NetApr(df.rows), |df.rows|))
    }

    /** The rows the loop appends over `tickers`, in visiting order. */
    function Collected(fetch: Fetch, filter: Filter, start: int, end: int, tickers: seq<string>): seq<RankRow> {
      if |tickers| == 0 then []
      else
        var init := Collected(fetch, filter, start, end, tickers[..|tickers| - 1]);
        match Visit(fetch, filter, start, end, tickers[|tickers| - 1])
        case None => init
        case Some(row) => init + [row]
    }

    /** The `for ticker in ticker_list` loop. */
    method CollectRows(fetch: Fetch, filter: Filter, start: int, end: int, tickers: seq<string>)
      returns (results: seq<RankRow>)
      ensures results == Collected(fetch, filter, start, end, tickers)
    {
      results := [];
      for i := 0 to |tickers|
        invariant results == Collected(fetch, filter, start, end, tickers[..i])
      {
        assert tickers[..i + 1][..i] == tickers[..i];
        var row := Visit(fetch, filter, start, end, tickers[i]);
        if row.Some? {
          results := results + [row.value];
        }
      }
      assert tickers[..|tickers|] == tickers;
    }

    /** `run_ranking` as written: with no qualifying ticker `pd.DataFrame([])` has no
        `Avg Net APR` column and `sort_values` raises `KeyError`. */
    method RunRanking(fetch: Fetch, filter: Filter, start: int, end: int, tickers: seq<string>)
      returns (r: Ranking)
      ensures r == RankingAsWritten(Collected(fetch, filter, start, end, tickers))
    {
      var results := CollectRows(fetch, filter, start, end, tickers);
      if |results| == 0 {
        r := Raised("KeyError: 'Avg Net APR'");
      } else {
        r := Ranked(SortDesc(results));
      }
    }

    /** `run_ranking` with an empty result table when no ticker qualifies. */
    method RankAssets(fetch: Fetch, filter: Filter, start: int, end: int, tickers: seq<string>)
      returns (ranked: seq<RankRow>)
      ensures ranked == SortDesc(Collected(fetch, filter, start, end, tickers))
    {
      var results := CollectRows(fetch, filter, start, end, tickers);
      ranked := SortDesc(results);
    }

    // -------------------------------------------------------------------------------
    // What one visit contributes
    // -------------------------------------------------------------------------------

    /** A ticker is ranked exactly when its fetch and filter succeed and the filtered frame
        is non-empty, has the funding column and more than 24 rows; its row then carries the
        ticker, the net APR formula over the filtered rows and the filtered row count. */
    lemma VisitMeaning(fetch: Fetch, filter: Filter, start: int, end: int, ticker: string)
      ensures var v := Visit(fetch, filter, start, end, ticker);
        v.Some? <==>
          fetch(ticker).Some? && filter(fetch(ticker).value, start, end).Some?
          && var df := filter(fetch(ticker).value, start, end).value;
          |df.rows| > 24 && |df.columns| > 0 && "funding" in df.columns
      ensures var v := Visit(fetch, filter, start, end, ticker);
        v.Some? ==>
          var df := filter(fetch(ticker).value, start, end).value;
          |df.rows| > 24
          && v.value == RankRow(ticker, (Mean(Fundings(df.rows)) * 24.0 * 365.0 - benchmarkRate) * 100.0, |df.rows|)
    {
    }

    /** A ticker with exactly 24 filtered rows is skipped. */
    lemma TwentyFourIsTooFew(fetch: Fetch, filter: Filter, start: int, end: int, ticker: string)
      requires fetch(ticker).Some? && filter(fetch(ticker).value, start, end).Some?
      requires |filter(fetch(ticker).value, start, end).value.rows| == 24
      ensures Visit(fetch, filter, start, end, ticker).None?
    {
    }

    // -------------------------------------------------------------------------------
    // What the loop collects
    // -------------------------------------------------------------------------------

    /** Each ticker contributes at most one row. */
    lemma {:induction false} CollectedLength(fetch: Fetch, filter: Filter, start: int, end: int, tickers: seq<string>)
      ensures |Collected(fetch, filter, start, end, tickers)| <= |tickers|
    {
      if |tickers| > 0 {
        CollectedLength(fetch, filter, start, end, tickers[..|tickers| - 1]);
      }
    }

    /** The collected rows are exactly the rows of the tickers that are not skipped. */
    lemma {:induction false} CollectedMembers(fetch: Fetch, filter: Filter, start: int, end: int, tickers: seq<string>, row: RankRow)
      ensures row in Collected(fetch, filter, start, end, tickers) <==>
        exists i :: 0 <= i < |tickers| && Visit(fetch, filter, start, end, tickers[i]) == Some(row)
    {
      if |tickers| > 0 {
        var init := tickers[..|tickers| - 1];
        CollectedMembers(fetch, filter, start, end, init, row);
        if row in Collected(fetch, filter, start, end, tickers) {
          if row !in Collected(fetch, filter, start, end, init) {
            assert Visit(fetch, filter, start, end, tickers[|tickers| - 1]) == Some(row);
          } else {
            var i :| 0 <= i < |init| && Visit(fetch, filter, start, end, init[i]) == Some(row);
            assert tickers[i] == init[i];
          }
        } else {
          forall i | 0 <= i < |tickers|
            ensures Visit(fetch, filter, start, end, tickers[i]) != Some(row)
          {
            if i < |init| {
              assert tickers[i] == init[i];
            }
          }
        }
      }
    }

    /** Every collected row has more than 24 sample hours. */
    lemma {:induction false} CollectedSampleHours(fetch: Fetch, filter: Filter, start: int, end: int, tickers: seq<string>)
      ensures forall r :: r in Collected(fetch, filter, start, end, tickers) ==> r.sampleHours > 24
    {
      forall r | r in Collected(fetch, filter, start, end, tickers)
        ensures r.sampleHours > 24
      {
        CollectedMembers(fetch, filter, start, end, tickers, r);
        var i :| 0 <= i < |tickers| && Visit(fetch, filter, start, end, tickers[i]) == Some(r);
      }
    }

    /** With no ticker ranked (an empty list, or every fetch failing, or every frame
        too short) the source raises instead of returning a table. */
    lemma {:induction false} EmptyRankingRaises(fetch: Fetch, filter: Filter, start: int, end: int, tickers: seq<string>)
      requires forall i :: 0 <= i < |tickers| ==> Visit(fetch, filter, start, end, tickers[i]).None?
      ensures Collected(fetch, filter, start, end, tickers) == []
      ensures RankingAsWritten(Collected(fetch, filter, start, end, tickers)).Raised?
    {
      if |tickers| > 0 {
        var init := tickers[..|tickers| - 1];
        assert forall i :: 0 <= i < |init| ==> init[i] == tickers[i];
        EmptyRankingRaises(fetch, filter, start, end, init);
      }
    }

    /** The table of the corrected ranking is sorted from the highest net APR down and
        holds the collected rows, each as often as it was collected. */
    lemma RankAssetsIsRanking(fetch: Fetch, filter: Filter, start: int, end: int, tickers: seq<string>)
      ensures var results := Collected(fetch, filter, start, end, tickers);
        SortedDesc(SortDesc(results)) && multiset(SortDesc(results)) == multiset(results)
    {
      var results := Collected(fetch, filter, start, end, tickers);
      SortDescSorted(results);
      SortDescPermutes(results);
    }
  }

  /** The outcome of the final sort over the collected rows, as written. */
  function RankingAsWritten(results: seq<RankRow>): (r: Ranking)
    ensures r.Raised? <==> |results| == 0
    ensures r.Ranked? ==> r.rows == SortDesc(results)
  {
    if |results| == 0 then Raised("KeyError: 'Avg Net APR'") else Ranked(SortDesc(results))
  }

  // ---------------------------------------------------------------------------------
  // The descending sort
  // ---------------------------------------------------------------------------------

  /** Insert `x` into a descending sequence after every row with a larger or equal APR. */
  function Insert(x: RankRow, sorted: seq<RankRow>): (r: seq<RankRow>)
    ensures |r| == |sorted| + 1
  {
    if |sorted| == 0 then [x]
    else if sorted[0].avgNetApr >= x.avgNetApr then [sorted[0]] + Insert(x, sorted[1..])
    else [x] + sorted
  }

  /** A descending order of the rows by `Avg Net APR` (pandas' default sort is not stable,
      so any order of rows with equal APR is correct). */
  function SortDesc(rows: seq<RankRow>): (r: seq<RankRow>)
    ensures |r| == |rows|
  {
    if |rows| == 0 then [] else Insert(rows[0], SortDesc(rows[1..]))
  }

  lemma {:induction false} InsertPermutes(x: RankRow, sorted: seq<RankRow>)
    ensures multiset(Insert(x, sorted)) == multiset(sorted) + multiset{x}
  {
    if |sorted| > 0 && sorted[0].avgNetApr >= x.avgNetApr {
      InsertPermutes(x, sorted[1..]);
      assert sorted == [sorted[0]] + sorted[1..];
    }
  }

  lemma {:induction false} InsertSorted(x: RankRow, sorted: seq<RankRow>)
    requires SortedDesc(sorted)
    ensures SortedDesc(Insert(x, sorted))
  {
    if |sorted| > 0 && sorted[0].avgNetApr >= x.avgNetApr {
      var rest := sorted[1..];
      InsertSorted(x, rest);
      InsertPermutes(x, rest);
      var ins := Insert(x, rest);
      forall k | 0 <= k < |ins|
        ensures sorted[0].avgNetApr >= ins[k].avgNetApr
      {
        assert ins[k] in multiset(ins);
        assert ins[k] in multiset(rest) + multiset{x};
        if ins[k] != x {
          var m :| 0 <= m < |rest| && rest[m] == ins[k];
          assert rest[m] == sorted[m + 1];
        }
      }
    }
  }

  /** The sort yields a descending order. */
  lemma {:induction false} SortDescSorted(rows: seq<RankRow>)
    ensures SortedDesc(SortDesc(rows))
  {
    if |rows| > 0 {
      SortDescSorted(rows[1..]);
      InsertSorted(rows[0], SortDesc(rows[1..]));
    }
  }

  /** The sort keeps every row, as often as it occurs. */
  lemma {:induction false} SortDescPermutes(rows: seq<RankRow>)
    ensures multiset(SortDesc(rows)) == multiset(rows)
  {
    if |rows| > 0 {
      SortDescPermutes(rows[1..]);
      InsertPermutes(rows[0], SortDesc(rows[1..]));
      assert rows == [rows[0]] + rows[1..];
    }
  }
}
