/**
 * prices/fetch_returns.py, the older form of the price helpers: the Quandl
 * ticker map written with string concatenation, and `calc_returns` /
 * `calc_sd_move`, whose loops are those of `calc_historical_log_returns` and
 * `tag_sd_moves`.  Each operation here is shown to agree with, or is carried
 * out by, its counterpart in `Prices`, and its contract states the promised
 * shape of the result directly.
 */
module FetchReturns {
  import opened Wrappers
  import opened Frames
  import Text
  import Prices

  /** `['HKEX/0' + ticker.replace('.HK', '') for ticker in tickers]`, built ticker by ticker. */
  function QuandlTickers(tickers: seq<string>): (qs: seq<string>)
    ensures |qs| == |tickers|
  {
    if tickers == [] then []
    else ["HKEX/0" + Text.RemoveAll(tickers[0], ".HK")] + QuandlTickers(tickers[1..])
  }

  /** The concatenation here and the f-string of the newer helper produce the same codes, in the same order. */
  lemma {:induction false} QuandlTickersAgree(tickers: seq<string>)
    ensures QuandlTickers(tickers) == Prices.QuandlTickers(tickers)
  {
    if tickers != [] {
      QuandlTickersAgree(tickers[1..]);
      var ps := Prices.QuandlTickers(tickers);
      assert ps == [ps[0]] + ps[1..];
      assert ps[1..] == Prices.QuandlTickers(tickers[1..]);
    }
  }

  /** Every code is `HKEX/0` followed by its ticker without `.HK`; a ticker `<code>.HK` gives `HKEX/0<code>`. */
  lemma QuandlTickerShape(tickers: seq<string>, i: nat)
    requires i < |tickers|
    ensures |QuandlTickers(tickers)[i]| >= 6 && QuandlTickers(tickers)[i][..6] == "HKEX/0"
    ensures QuandlTickers(tickers)[i][6..] == Text.RemoveAll(tickers[i], ".HK")
    ensures |tickers[i]| >= 3 && tickers[i][|tickers[i]| - 3..] == ".HK" && '.' !in tickers[i][..|tickers[i]| - 3] ==>
      QuandlTickers(tickers)[i] == "HKEX/0" + tickers[i][..|tickers[i]| - 3]
  {
    QuandlTickersAgree(tickers);
    var t := tickers[i];
    if |t| >= 3 && t[|t| - 3..] == ".HK" && '.' !in t[..|t| - 3] {
      assert t == t[..|t| - 3] + ".HK";
      Prices.QuandlTickerOfHkCode(t[..|t| - 3], "");
    }
  }

  /**
   * `fetch_hk_close_prices_quandl`: the codes go to `download` (`quandl.get`),
   * the Previous Close columns come back renamed to the tickers; ValueError
   * (length mismatch) when their number differs from the number of tickers.
   */
  function FetchHkClosePrices(tickers: seq<string>, download: seq<string> -> seq<Entry<string, Prices.Column>>)
    : (r: Result<seq<Entry<string, Prices.Column>>, Prices.FetchError>)
    ensures r.Err? <==> |Prices.PreviousCloseColumns(download(QuandlTickers(tickers)))| != |tickers|
    ensures r.Ok? ==> Keys(r.value) == tickers
  {
    var closes := Prices.PreviousCloseColumns(download(QuandlTickers(tickers)));
    if |closes| != |tickers| then Err(Prices.LengthMismatch(|tickers|, |closes|))
    else Ok(Prices.Rename(closes, tickers))
  }

  /** Both helpers request the same codes and return the same frame or the same error. */
  lemma FetchHkAgrees(tickers: seq<string>, download: seq<string> -> seq<Entry<string, Prices.Column>>)
    ensures FetchHkClosePrices(tickers, download) == Prices.FetchHkClosePrices(tickers, download)
  {
    QuandlTickersAgree(tickers);
  }

  /**
   * `calc_returns`: the result keeps exactly the input's original columns,
   * in order, and its rows are the input's rows sorted so that the index
   * never increases; the input keeps its original columns first and, when its
   * labels are unique and no column is already named
   * `<another column>_return`, gains exactly one
   * `<ticker>_return` column per ticker, in order, while each column of the
   * result holds the log of one plus the pct change of that ticker.
   */
  method CalcReturns(df: Prices.DataFrame, change: (Prices.Cell, Prices.Cell) -> Prices.Cell,
                     logOnePlus: Prices.Cell -> Prices.Cell)
    returns (logReturns: Prices.DataFrame)
    requires df.Valid()
    modifies df`columns
    ensures fresh(logReturns) && df.Valid() && logReturns.Valid()
    ensures Keys(logReturns.columns) == Keys(old(df.columns))
    ensures |logReturns.index| == |df.index|
    ensures logReturns.index == Prices.Permute(df.index, Prices.DescendingOrder(df.index))
    ensures forall a, b :: 0 <= a < b < |logReturns.index| ==> logReturns.index[a] >= logReturns.index[b]
    ensures Keys(old(df.columns)) <= Keys(df.columns)
    ensures DistinctKeys(old(df.columns)) && Prices.NoLabelClash(old(df.columns), Prices.ReturnSuffix) ==>
      df.columns == old(df.columns) + Prices.ReturnEntries(old(df.columns), |old(df.columns)|, change)
    ensures DistinctKeys(old(df.columns)) && Prices.NoLabelClash(old(df.columns), Prices.ReturnSuffix) ==>
      logReturns.columns == Prices.PermuteRows(
        Prices.LogReturnColumns(old(df.columns), |old(df.columns)|, change, logOnePlus),
        |df.index|, Prices.DescendingOrder(df.index))
  {
    ghost var cols := df.columns;
    ghost var n, m := |df.index|, |cols|;
    logReturns := Prices.CalcHistoricalLogReturns(df, change, logOnePlus);
    forall a, b | 0 <= a < b < |logReturns.index|
      ensures logReturns.index[a] >= logReturns.index[b]
    {
      Prices.SortedIndexDescends(df.index, a, b);
    }
    if DistinctKeys(cols) && Prices.NoLabelClash(cols, Prices.ReturnSuffix) {
      Prices.ReturnsWithoutClash(cols, n, m, change, logOnePlus);
    }
  }

  /**
   * `calc_sd_move`: a copy of the returns frame with the same rows keeps
   * every column of the returns frame first; when its labels are unique and
   * no column is already named `<another column>_move` it gains exactly one `<ticker>_move` column per
   * ticker, in order, each cell the tag of that row's return (2-SD over
   * 1-SD, jumps over drops) or NaN.  The returns frame is not modified.
   */
  method CalcSdMove(logReturns: Prices.DataFrame, mean: Prices.Column -> Option<real>, sd: Prices.Column -> Option<real>)
    returns (sdMove: Prices.DataFrame)
    requires logReturns.Valid()
    ensures fresh(sdMove) && sdMove.Valid()
    ensures sdMove.index == logReturns.index
    ensures Keys(logReturns.columns) <= Keys(sdMove.columns)
    ensures DistinctKeys(logReturns.columns) && Prices.NoLabelClash(logReturns.columns, Prices.MoveSuffix) ==>
      sdMove.columns == logReturns.columns + Prices.MoveEntries(logReturns.columns, |logReturns.index|, |logReturns.columns|, mean, sd)
  {
    sdMove := Prices.TagSdMoves(logReturns, mean, sd);
    ghost var cols := logReturns.columns;
    ghost var n, m := |logReturns.index|, |cols|;
    Prices.MovesAfterKeepsLabels(cols, n, m, mean, sd);
    if DistinctKeys(cols) && Prices.NoLabelClash(cols, Prices.MoveSuffix) {
      Prices.MovesWithoutClash(cols, n, m, mean, sd);
    }
  }
}
