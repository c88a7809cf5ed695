/**
 * prices/prices.py: ticker construction for the FX and HKEX downloads, the
 * post-processing of what the downloads return, the log-returns frame and the
 * standard-deviation move tags.
 *
 * A DataFrame is a `DataFrame` object holding a date index and its columns in
 * order, each column a label and one cell per row.  The downloads themselves
 * are not part of this model: what they returned is a parameter.  So are the
 * numerics: `pct_change` is given by the change it computes between a row and
 * the row before it, `np.log(1 + x)` by a cell function, and `mean`/`std` by
 * functions of a column that yield None where pandas yields NaN.
 */
module Prices {
  import opened Wrappers
  import opened Frames
  import Text

  /** A DataFrame cell: a number, a string, or NaN. */
  datatype Cell = Num(x: real) | Str(s: string) | Missing

  type Column = seq<Cell>

  /** Every column has one cell per row. */
  predicate Rectangular(cols: seq<Entry<string, Column>>, n: nat)
  {
    forall j :: 0 <= j < |cols| ==> |cols[j].val| == n
  }

  lemma UpsertRectangular(cols: seq<Entry<string, Column>>, name: string, values: Column, n: nat)
    requires Rectangular(cols, n) && |values| == n
    ensures Rectangular(Upsert(cols, name, values), n)
  {
    var r := Upsert(cols, name, values);
    forall j | 0 <= j < |r|
      ensures |r[j].val| == n
    {
      assert Keys(r)[j] == r[j].key;
      if r[j].key != name {
        assert j < |cols|;
      }
    }
  }

  /** A column of NaN, what `loc` enlargement fills a new column with. */
  function NaNColumn(n: nat): (c: Column)
    ensures |c| == n && forall i :: 0 <= i < n ==> c[i] == Missing
  {
    seq(n, _ => Missing)
  }

  /** The first column labelled `name`, or a NaN column when there is none. */
  function ColumnOr(cols: seq<Entry<string, Column>>, name: string, n: nat): (c: Column)
    requires Rectangular(cols, n)
    ensures |c| == n
  {
    if cols == [] then NaNColumn(n)
    else if cols[0].key == name then cols[0].val
    else ColumnOr(cols[1..], name, n)
  }

  /** A label the frame holds reads back its column, as `frame[name]` does. */
  lemma {:induction false} ColumnOrFound(cols: seq<Entry<string, Column>>, name: string, n: nat)
    requires Rectangular(cols, n) && name in Keys(cols)
    ensures ColumnOr(cols, name, n) == Get(cols, name)
  {
    if cols[0].key != name {
      var rest := cols[1..];
      assert Keys(cols) == [cols[0].key] + Keys(rest);
      ColumnOrFound(rest, name, n);
    }
  }

  /** A label the frame does not hold reads as a column of NaN, as `loc` enlargement fills it. */
  lemma {:induction false} ColumnOrMissing(cols: seq<Entry<string, Column>>, name: string, n: nat)
    requires Rectangular(cols, n) && name !in Keys(cols)
    ensures ColumnOr(cols, name, n) == NaNColumn(n)
  {
    if cols != [] {
      assert Keys(cols)[0] == cols[0].key;
      var rest := cols[1..];
      assert Keys(cols) == [cols[0].key] + Keys(rest);
      ColumnOrMissing(rest, name, n);
    }
  }

  /** `col` with `value` written into the rows where `mask` holds. */
  function Masked(col: Column, mask: seq<bool>, value: Cell): (r: Column)
    requires |mask| == |col|
    ensures |r| == |col|
    ensures forall i :: 0 <= i < |col| ==> r[i] == if mask[i] then value else col[i]
  {
    seq(|col|, i requires 0 <= i < |col| => if mask[i] then value else col[i])
  }

  // ---------------------------------------------------------------------------
  // Sorting the index in descending order
  // ---------------------------------------------------------------------------

  /** 0, 1, …, n-1: the row positions of an n-row frame. */
  function Range(n: nat): (r: seq<nat>)
    ensures |r| == n && forall i :: 0 <= i < n ==> r[i] == i
  {
    seq(n, i => i)
  }

  predicate InRange(order: seq<nat>, n: nat)
  {
    forall a :: 0 <= a < |order| ==> order[a] < n
  }

  /** Taking the rows in `order` gives non-increasing index values. */
  predicate DescendingBy(index: seq<int>, order: seq<nat>)
    requires InRange(order, |index|)
  {
    forall a, b :: 0 <= a < b < |order| ==> index[order[a]] >= index[order[b]]
  }

  /** Inserts position `p` into a descending order of positions, before the first one whose index value is not greater. */
  function InsertDescending(index: seq<int>, order: seq<nat>, p: nat): (r: seq<nat>)
    requires InRange(order, |index|) && p < |index|
    ensures |r| == |order| + 1 && multiset(r) == multiset(order) + multiset{p}
    decreases |order|
  {
    if order == [] then [p]
    else if index[p] >= index[order[0]] then [p] + order
    else
      assert order == [order[0]] + order[1..];
      [order[0]] + InsertDescending(index, order[1..], p)
  }

  /** What insertion holds: the inserted position and the old ones, nothing else. */
  lemma InsertElements(index: seq<int>, order: seq<nat>, p: nat, x: nat)
    requires InRange(order, |index|) && p < |index|
    ensures x in InsertDescending(index, order, p) <==> x == p || x in order
  {
    assert x in InsertDescending(index, order, p) <==> x in multiset(InsertDescending(index, order, p));
  }

  /** Insertion keeps the order in range and descending. */
  lemma {:induction false} InsertKeepsDescending(index: seq<int>, order: seq<nat>, p: nat)
    requires InRange(order, |index|) && p < |index| && DescendingBy(index, order)
    ensures InRange(InsertDescending(index, order, p), |index|)
    ensures DescendingBy(index, InsertDescending(index, order, p))
    decreases |order|
  {
    var r := InsertDescending(index, order, p);
    forall b | 0 <= b < |r|
      ensures r[b] < |index|
    {
      var x := r[b];
      InsertElements(index, order, p, x);
    }
    if order != [] && index[p] < index[order[0]] {
      var tail := order[1..];
      InsertKeepsDescending(index, tail, p);
      var rest := InsertDescending(index, tail, p);
      assert r == [order[0]] + rest;
      forall b | 0 <= b < |rest|
        ensures index[order[0]] >= index[rest[b]]
      {
        var x := rest[b];
        InsertElements(index, tail, p, x);
        if rest[b] != p {
          var c :| 0 <= c < |tail| && tail[c] == rest[b];
          assert tail[c] == order[c + 1];
        }
      }
    }
  }

  /** A descending order of the first `k` row positions. */
  function SortPrefix(index: seq<int>, k: nat): (order: seq<nat>)
    requires k <= |index|
    ensures |order| == k && multiset(order) == multiset(Range(k))
    ensures InRange(order, |index|) && DescendingBy(index, order)
  {
    if k == 0 then []
    else
      var j := k - 1;
      assert Range(k) == Range(j) + [j];
      var prefix := SortPrefix(index, j);
      InsertKeepsDescending(index, prefix, j);
      InsertDescending(index, prefix, j)
  }

  /**
   * The row order `sort_index(ascending=False)` produces: every row position
   * exactly once, index values non-increasing.  Rows with equal index values
   * have no order that pandas promises; this one is one of the allowed orders.
   */
  function DescendingOrder(index: seq<int>): (order: seq<nat>)
    ensures |order| == |index| && multiset(order) == multiset(Range(|index|))
    ensures InRange(order, |index|) && DescendingBy(index, order)
  {
    SortPrefix(index, |index|)
  }

  /** `s` taken in `order`. */
  function Permute<T>(s: seq<T>, order: seq<nat>): (r: seq<T>)
    requires InRange(order, |s|)
    ensures |r| == |order| && forall k :: 0 <= k < |order| ==> r[k] == s[order[k]]
  {
    seq(|order|, k requires 0 <= k < |order| => s[order[k]])
  }

  /** Every column taken in `order`: rows move whole, labels stay. */
  function PermuteRows(cols: seq<Entry<string, Column>>, n: nat, order: seq<nat>): (r: seq<Entry<string, Column>>)
    requires Rectangular(cols, n) && InRange(order, n)
    ensures Keys(r) == Keys(cols) && Rectangular(r, |order|)
    ensures forall j :: 0 <= j < |cols| ==> r[j].val == Permute(cols[j].val, order)
  {
    seq(|cols|, j requires 0 <= j < |cols| => Entry(cols[j].key, Permute(cols[j].val, order)))
  }

  /** Every row of the sorted frame is an original row, each taken once, and the index does not increase. */
  lemma SortedIndexDescends(index: seq<int>, a: nat, b: nat)
    requires a < b < |index|
    ensures Permute(index, DescendingOrder(index))[a] >= Permute(index, DescendingOrder(index))[b]
    ensures DescendingOrder(index)[a] != DescendingOrder(index)[b]
  {
    var order := DescendingOrder(index);
    var len, x := |index|, order[b];
    RangeCountsOnce(len, x);
    assert order == order[..b] + [order[b]] + order[b + 1..];
    assert order[a] in order[..b];
  }

  lemma {:induction false} RangeCountsOnce(n: nat, i: nat)
    requires i < n
    ensures multiset(Range(n))[i] == 1
  {
    assert Range(n) == Range(n - 1) + [n - 1];
    if i < n - 1 {
      var m := n - 1;
      RangeCountsOnce(m, i);
    } else {
      assert i !in Range(n - 1);
    }
  }

  class DataFrame {
    var index: seq<int>
    var columns: seq<Entry<string, Column>>

    /** Every column has one cell per row. */
    ghost predicate Valid()
      reads this
    {
      Rectangular(columns, |index|)
    }

    constructor (index: seq<int>, columns: seq<Entry<string, Column>>)
      ensures this.index == index && this.columns == columns
    {
      this.index := index;
      this.columns := columns;
    }

    /** `df.copy()`: a new frame with the same index and columns. */
    method Copy() returns (c: DataFrame)
      ensures fresh(c) && c.index == index && c.columns == columns
    {
      c := new DataFrame(index, columns);
    }

    /** `df[name] = values`. */
    method SetColumn(name: string, values: Column)
      requires Valid() && |values| == |index|
      modifies this`columns
      ensures Valid() && columns == Upsert(old(columns), name, values)
    {
      ghost var n := |index|;
      UpsertRectangular(columns, name, values, n);
      columns := Upsert(columns, name, values);
    }

    /** `df.loc[mask, name] = value`: a missing column is first added as NaN; cells outside the mask keep their value. */
    method SetWhere(name: string, mask: seq<bool>, value: Cell)
      requires Valid() && |mask| == |index|
      modifies this`columns
      ensures Valid()
      ensures columns == Upsert(old(columns), name, Masked(ColumnOr(old(columns), name, |index|), mask, value))
    {
      var values := Masked(ColumnOr(columns, name, |index|), mask, value);
      SetColumn(name, values);
    }

    /** `df.sort_index(ascending=False, inplace=True)`. */
    method SortIndexDescending()
      requires Valid()
      modifies this`index, this`columns
      ensures Valid()
      ensures index == Permute(old(index), DescendingOrder(old(index)))
      ensures columns == PermuteRows(old(columns), |old(index)|, DescendingOrder(old(index)))
    {
      var order := DescendingOrder(index);
      columns := PermuteRows(columns, |index|, order);
      index := Permute(index, order);
    }
  }

  // ---------------------------------------------------------------------------
  // fetch_last_close_spot_yfinance
  // ---------------------------------------------------------------------------

  /** The Yahoo Finance ticker of a currency's USD spot rate. */
  function FxTicker(currency: string): (t: string)
    ensures |t| == |currency| + 5 && t[..|currency|] == currency && t[|currency|..] == "USD=X"
  {
    currency + "USD=X"
  }

  /** `[f'{currency}USD=X' for currency in currency_list]`: same length, same order. */
  function FxTickers(currencies: seq<string>): (ts: seq<string>)
    ensures |ts| == |currencies| && forall i :: 0 <= i < |currencies| ==> ts[i] == FxTicker(currencies[i])
  {
    seq(|currencies|, i requires 0 <= i < |currencies| => FxTicker(currencies[i]))
  }

  /** The currency a spot ticker was built from. */
  function CurrencyOf(ticker: string): string
    requires |ticker| >= 5
  {
    ticker[..|ticker| - 5]
  }

  /** Building a ticker and reading its currency back is the identity; so distinct currencies get distinct tickers. */
  lemma FxTickerRoundTrip(c: string, c': string)
    ensures CurrencyOf(FxTicker(c)) == c
    ensures FxTicker(c) == FxTicker(c') ==> c == c'
  {
    if FxTicker(c) == FxTicker(c') {
      Text.SuffixCancel(c, c', "USD=X");
    }
  }

  /** A row of the merged frame: fx_spot_ticker, fx_rate, currency (None when the ticker matched no currency). */
  datatype FxRow = FxRow(fxSpotTicker: string, fxRate: Cell, currency: Option<string>)

  /** A row of the downloaded data, once reshaped: Ticker and Close. */
  datatype Quote = Quote(ticker: string, close: Cell)

  datatype FetchError = UnexpectedData | LengthMismatch(expected: nat, found: nat)

  /** The rows of `fx_df` whose ticker is `t`, in order. */
  function Matches(currencies: seq<string>, t: string): (ms: seq<string>)
    ensures forall c :: c in ms <==> c in currencies && FxTicker(c) == t
    ensures |ms| <= |currencies|
  {
    if currencies == [] then []
    else
      var n := |currencies| - 1;
      Matches(currencies[..n], t) + (if FxTicker(currencies[n]) == t then [currencies[n]] else [])
  }

  /** `pd.merge(data, fx_df, how='left', on='ticker')`: each left row once per matching right row, or once with NaN. */
  function LeftMerge(quotes: seq<Quote>, currencies: seq<string>): seq<FxRow>
  {
    if quotes == [] then []
    else
      var q := quotes[0];
      var ms := Matches(currencies, q.ticker);
      (if ms == [] then [FxRow(q.ticker, q.close, None)]
       else seq(|ms|, i requires 0 <= i < |ms| => FxRow(q.ticker, q.close, Some(ms[i]))))
      + LeftMerge(quotes[1..], currencies)
  }

  /**
   * `fetch_last_close_spot_yfinance` after the download: ValueError unless
   * there is one quote per requested ticker; otherwise the quotes merged with
   * their currencies.
   */
  function FetchLastCloseSpot(currencies: seq<string>, quotes: seq<Quote>): (r: Result<seq<FxRow>, FetchError>)
    ensures r.Err? <==> |quotes| != |FxTickers(currencies)|
    ensures r.Err? ==> r.error == UnexpectedData
  {
    if |quotes| != |FxTickers(currencies)| then Err(UnexpectedData)
    else Ok(LeftMerge(quotes, currencies))
  }

  /** `row` carries the ticker and close of `q` and the currency that ticker was built from. */
  predicate RowOfQuote(row: FxRow, q: Quote)
  {
    row.fxSpotTicker == q.ticker && row.fxRate == q.close
    && row.currency.Some? && FxTicker(row.currency.value) == q.ticker
  }

  /**
   * With distinct currencies and a quote for each of their tickers, the result
   * has one row per quote, in quote order, each naming the currency its ticker
   * was built from.
   */
  lemma {:induction false} SpotRowsMatchCurrencies(currencies: seq<string>, quotes: seq<Quote>)
    requires forall i, j :: 0 <= i < j < |currencies| ==> currencies[i] != currencies[j]
    requires forall k :: 0 <= k < |quotes| ==> quotes[k].ticker in FxTickers(currencies)
    ensures |LeftMerge(quotes, currencies)| == |quotes|
    ensures forall k :: 0 <= k < |quotes| ==> RowOfQuote(LeftMerge(quotes, currencies)[k], quotes[k])
    decreases |quotes|, 1
  {
    if quotes != [] {
      SpotRowsMatchCurrenciesCons(currencies, quotes);
    }
  }

  /** The inductive case of `SpotRowsMatchCurrencies`: the first quote's row, then the others'. */
  lemma {:induction false} SpotRowsMatchCurrenciesCons(currencies: seq<string>, quotes: seq<Quote>)
    requires quotes != []
    requires forall i, j :: 0 <= i < j < |currencies| ==> currencies[i] != currencies[j]
    requires forall k :: 0 <= k < |quotes| ==> quotes[k].ticker in FxTickers(currencies)
    ensures |LeftMerge(quotes, currencies)| == |quotes|
    ensures forall k :: 0 <= k < |quotes| ==> RowOfQuote(LeftMerge(quotes, currencies)[k], quotes[k])
    decreases |quotes|, 0
  {
    var q := quotes[0];
    var t := q.ticker;
    var i :| 0 <= i < |currencies| && FxTickers(currencies)[i] == t;
    var c := currencies[i];
    SingleMatch(currencies, t, c);
    var rest := quotes[1..];
    forall p | 0 <= p < |rest|
      ensures rest[p].ticker in FxTickers(currencies)
    {
      var k := p + 1;
      assert rest[p] == quotes[k];
    }
    SpotRowsMatchCurrencies(currencies, rest);
    var tail := LeftMerge(rest, currencies);
    var row := FxRow(t, q.close, Some(c));
    LeftMergeSingle(quotes, currencies, c);
    RowsOfQuotesCons(row, tail, quotes);
  }

  /** A row for the first quote followed by rows for the others gives rows for all the quotes. */
  lemma RowsOfQuotesCons(row: FxRow, tail: seq<FxRow>, quotes: seq<Quote>)
    requires quotes != [] && |tail| == |quotes| - 1 && RowOfQuote(row, quotes[0])
    requires forall p :: 0 <= p < |tail| ==> RowOfQuote(tail[p], quotes[1..][p])
    ensures forall k :: 0 <= k < |quotes| ==> RowOfQuote(([row] + tail)[k], quotes[k])
  {
    var r := [row] + tail;
    forall k | 0 <= k < |quotes|
      ensures RowOfQuote(r[k], quotes[k])
    {
      if k > 0 {
        var p := k - 1;
        assert r[k] == tail[p];
        assert quotes[1..][p] == quotes[k];
      }
    }
  }

  /** A first quote that matches exactly one currency gives exactly one row. */
  lemma LeftMergeSingle(quotes: seq<Quote>, currencies: seq<string>, c: string)
    requires quotes != [] && Matches(currencies, quotes[0].ticker) == [c]
    ensures LeftMerge(quotes, currencies) == [FxRow(quotes[0].ticker, quotes[0].close, Some(c))] + LeftMerge(quotes[1..], currencies)
  {
    var q := quotes[0];
    var ms := Matches(currencies, q.ticker);
    assert seq(|ms|, i requires 0 <= i < |ms| => FxRow(q.ticker, q.close, Some(ms[i]))) == [FxRow(q.ticker, q.close, Some(c))];
  }

  /** With distinct currencies a ticker matches at most one of them. */
  lemma {:induction false} SingleMatch(currencies: seq<string>, t: string, c: string)
    requires forall i, j :: 0 <= i < j < |currencies| ==> currencies[i] != currencies[j]
    requires c in currencies && FxTicker(c) == t
    ensures Matches(currencies, t) == [c]
  {
    var n := |currencies| - 1;
    var p := currencies[..n];
    if currencies[n] == c {
      assert c !in p;
      NoMatch(p, t);
    } else {
      assert c in p;
      SingleMatch(p, t, c);
      var d := currencies[n];
      FxTickerRoundTrip(c, d);
    }
  }

  lemma NoMatch(currencies: seq<string>, t: string)
    requires forall c :: c in currencies ==> FxTicker(c) != t
    ensures Matches(currencies, t) == []
  {
    if Matches(currencies, t) != [] {
      assert Matches(currencies, t)[0] in Matches(currencies, t);
    }
  }

  // ---------------------------------------------------------------------------
  // fetch_hk_close_prices_quandl
  // ---------------------------------------------------------------------------

  /** `f"HKEX/0{ticker.replace('.HK', '')}"`. */
  function QuandlTicker(ticker: string): string
  {
    "HKEX/0" + Text.RemoveAll(ticker, ".HK")
  }

  /** The Quandl codes: same length and order as the tickers. */
  function QuandlTickers(tickers: seq<string>): (qs: seq<string>)
    ensures |qs| == |tickers| && forall i :: 0 <= i < |tickers| ==> qs[i] == QuandlTicker(tickers[i])
  {
    seq(|tickers|, i requires 0 <= i < |tickers| => QuandlTicker(tickers[i]))
  }

  /**
   * An exchange ticker `<code>.HK` maps to `HKEX/0<code>`, and the code can be
   * read back off it; a ticker without `.HK` is only prefixed.
   */
  lemma QuandlTickerOfHkCode(code: string, other: string)
    requires '.' !in code
    requires !Text.Contains(other, ".HK")
    ensures QuandlTicker(code + ".HK") == "HKEX/0" + code
    ensures QuandlTicker(code + ".HK")[6..] + ".HK" == code + ".HK"
    ensures QuandlTicker(other) == "HKEX/0" + other
  {
    Text.RemoveSuffix(code, ".HK");
    Text.RemoveAllAbsent(other, ".HK");
  }

  /** `data.filter(regex='Previous Close')`: the columns whose label contains it, in order. */
  function PreviousCloseColumns(cols: seq<Entry<string, Column>>): (r: seq<Entry<string, Column>>)
    ensures |r| <= |cols|
    ensures forall e :: e in r <==> e in cols && Text.Contains(e.key, "Previous Close")
  {
    if cols == [] then []
    else
      var n := |cols| - 1;
      PreviousCloseColumns(cols[..n]) + (if Text.Contains(cols[n].key, "Previous Close") then [cols[n]] else [])
  }

  /** Positional renaming, `data.columns = names`. */
  function Rename(cols: seq<Entry<string, Column>>, names: seq<string>): (r: seq<Entry<string, Column>>)
    requires |names| == |cols|
    ensures Keys(r) == names && forall j :: 0 <= j < |cols| ==> r[j].val == cols[j].val
  {
    seq(|cols|, j requires 0 <= j < |cols| => Entry(names[j], cols[j].val))
  }

  /**
   * `fetch_hk_close_prices_quandl`: the Quandl codes are requested from
   * `download` (the `quandl.get` call, a parameter here), its Previous Close
   * columns are kept and renamed back to the requested tickers in order;
   * ValueError (length mismatch) when their number is not the number of
   * tickers.
   */
  function FetchHkClosePrices(tickers: seq<string>, download: seq<string> -> seq<Entry<string, Column>>)
    : (r: Result<seq<Entry<string, Column>>, FetchError>)
    ensures r.Err? <==> |PreviousCloseColumns(download(QuandlTickers(tickers)))| != |tickers|
    ensures r.Err? ==> r.error == LengthMismatch(|tickers|, |PreviousCloseColumns(download(QuandlTickers(tickers)))|)
    ensures r.Ok? ==> Keys(r.value) == tickers
    ensures r.Ok? ==> forall j :: 0 <= j < |tickers| ==>
      r.value[j].val == PreviousCloseColumns(download(QuandlTickers(tickers)))[j].val
      && PreviousCloseColumns(download(QuandlTickers(tickers)))[j] in download(QuandlTickers(tickers))
      && Text.Contains(PreviousCloseColumns(download(QuandlTickers(tickers)))[j].key, "Previous Close")
  {
    var closes := PreviousCloseColumns(download(QuandlTickers(tickers)));
    if |closes| != |tickers| then Err(LengthMismatch(|tickers|, |closes|))
    else
      assert forall j :: 0 <= j < |closes| ==> closes[j] in closes;
      Ok(Rename(closes, tickers))
  }

  // ---------------------------------------------------------------------------
  // calc_historical_log_returns
  // ---------------------------------------------------------------------------

  const ReturnSuffix := "_return"

  function ReturnLabel(ticker: string): string
  {
    ticker + ReturnSuffix
  }

  /**
   * The last cell of `col[..i + 1]` that is not NaN, or NaN when there is none:
   * what `fillna(method='pad')` leaves in row `i`.
   */
  function LastValid(col: Column, i: nat): Cell
    requires i < |col|
  {
    if !col[i].Missing? then col[i]
    else if i == 0 then Missing
    else LastValid(col, i - 1)
  }

  /**
   * Padding keeps every value, fills a NaN from the row above, and leaves a
   * row NaN exactly when no value has appeared up to it.
   */
  lemma {:induction false} LastValidPads(col: Column, i: nat)
    requires i < |col|
    ensures !col[i].Missing? ==> LastValid(col, i) == col[i]
    ensures col[i].Missing? && 0 < i ==> LastValid(col, i) == LastValid(col, i - 1)
    ensures LastValid(col, i).Missing? <==> forall j :: 0 <= j <= i ==> col[j].Missing?
  {
    if col[i].Missing? && 0 < i {
      LastValidPads(col, i - 1);
    }
  }

  /** `col.fillna(method='pad')`: every NaN takes the last value above it; leading NaN stay. */
  function PadForward(col: Column): (r: Column)
    ensures |r| == |col|
    ensures forall i :: 0 <= i < |col| ==> r[i] == LastValid(col, i)
  {
    seq(|col|, i requires 0 <= i < |col| => LastValid(col, i))
  }

  /**
   * `col.pct_change()`, whose default `fill_method='pad'` pads the column
   * forward first: NaN in the first row, then the change from the padded
   * predecessor to the padded cell.
   */
  function PctChange(change: (Cell, Cell) -> Cell, col: Column): (r: Column)
    ensures |r| == |col| && (|col| > 0 ==> r[0] == Missing)
    ensures forall i {:trigger r[i]} :: 1 <= i < |col| ==>
      r[i] == change(LastValid(col, i - 1), LastValid(col, i))
  {
    seq(|col|, i requires 0 <= i < |col| => if i == 0 then Missing else change(LastValid(col, i - 1), LastValid(col, i)))
  }

  /** A column without NaN is left as it is by padding. */
  lemma PadForwardComplete(col: Column)
    requires forall i :: 0 <= i < |col| ==> !col[i].Missing?
    ensures PadForward(col) == col
  {
  }

  /** On a column without NaN, `pct_change` is the change from each row's predecessor. */
  lemma PctChangeComplete(change: (Cell, Cell) -> Cell, col: Column, i: nat)
    requires forall j :: 0 <= j < |col| ==> !col[j].Missing?
    requires 1 <= i < |col|
    ensures PctChange(change, col)[i] == change(col[i - 1], col[i])
  {
  }

  /**
   * An interior NaN is padded: for `[a, NaN, b]` the second row compares `a`
   * with itself and the third row compares `b` with `a`.
   */
  lemma PctChangePadsGap(change: (Cell, Cell) -> Cell, a: real, b: real)
    ensures PctChange(change, [Num(a), Missing, Num(b)])
         == [Missing, change(Num(a), Num(a)), change(Num(a), Num(b))]
  {
    var col := [Num(a), Missing, Num(b)];
    assert LastValid(col, 1) == Num(a);
  }

  /** `np.log(1 + col)`, cell by cell. */
  function LogColumn(logOnePlus: Cell -> Cell, col: Column): (r: Column)
    ensures |r| == |col| && forall i :: 0 <= i < |col| ==> r[i] == logOnePlus(col[i])
  {
    seq(|col|, i requires 0 <= i < |col| => logOnePlus(col[i]))
  }

  /** The input's columns and the copy's columns while the loop runs. */
  datatype ReturnsState = ReturnsState(input: seq<Entry<string, Column>>, copy: seq<Entry<string, Column>>)

  /**
   * One turn of the loop, for ticker `t`: `df[t_return]` becomes the pct
   * change of `df[t]`, and the copy's column `t` its log.
   */
  function ReturnsStep(st: ReturnsState, t: string, n: nat,
                       change: (Cell, Cell) -> Cell, logOnePlus: Cell -> Cell): (r: ReturnsState)
    requires Rectangular(st.input, n) && Rectangular(st.copy, n) && t in Keys(st.input)
    ensures Rectangular(r.input, n) && Rectangular(r.copy, n)
    ensures LabelsPrefix(st.input, r.input)
    ensures t in Keys(st.copy) ==> LabelsPrefix(st.copy, r.copy) && |r.copy| == |st.copy|
  {
    var helper := PctChange(change, Get(st.input, t));
    var returnLabel := ReturnLabel(t);
    var logColumn := LogColumn(logOnePlus, helper);
    UpsertRectangular(st.input, returnLabel, helper, n);
    UpsertRectangular(st.copy, t, logColumn, n);
    ReturnsState(Upsert(st.input, returnLabel, helper), Upsert(st.copy, t, logColumn))
  }

  /**
   * The two frames after the loop has handled the first `k` original columns.
   * The input keeps its original labels as a prefix; the copy keeps exactly
   * the original labels.
   */
  function ReturnsAfter(cols: seq<Entry<string, Column>>, n: nat, k: nat,
                        change: (Cell, Cell) -> Cell, logOnePlus: Cell -> Cell): (st: ReturnsState)
    requires k <= |cols| && Rectangular(cols, n)
    ensures LabelsPrefix(cols, st.input)
    ensures LabelsPrefix(cols, st.copy) && |st.copy| == |cols|
    ensures Rectangular(st.input, n) && Rectangular(st.copy, n)
    decreases k
  {
    if k == 0 then ReturnsState(cols, cols)
    else
      var j := k - 1;
      var st := ReturnsAfter(cols, n, j, change, logOnePlus);
      var t := cols[j].key;
      assert Keys(st.input)[j] == t;
      assert Keys(st.copy)[j] == t;
      ReturnsStep(st, t, n, change, logOnePlus)
  }

  /** Both frames keep unique labels when the input's labels are unique: every write is an upsert. */
  lemma {:induction false} ReturnsAfterDistinct(cols: seq<Entry<string, Column>>, n: nat, k: nat,
                                                change: (Cell, Cell) -> Cell, logOnePlus: Cell -> Cell)
    requires k <= |cols| && Rectangular(cols, n) && DistinctKeys(cols)
    ensures DistinctKeys(ReturnsAfter(cols, n, k, change, logOnePlus).input)
    ensures DistinctKeys(ReturnsAfter(cols, n, k, change, logOnePlus).copy)
    decreases k, 1
  {
    if k > 0 {
      ReturnsAfterDistinctSucc(cols, n, k, change, logOnePlus);
    }
  }

  /** The inductive case of `ReturnsAfterDistinct`: the turn on original column `k - 1` keeps unique labels unique. */
  lemma {:induction false} ReturnsAfterDistinctSucc(cols: seq<Entry<string, Column>>, n: nat, k: nat,
                                                    change: (Cell, Cell) -> Cell, logOnePlus: Cell -> Cell)
    requires 0 < k <= |cols| && Rectangular(cols, n) && DistinctKeys(cols)
    ensures DistinctKeys(ReturnsAfter(cols, n, k, change, logOnePlus).input)
    ensures DistinctKeys(ReturnsAfter(cols, n, k, change, logOnePlus).copy)
    decreases k, 0
  {
    var j := k - 1;
    ReturnsAfterDistinct(cols, n, j, change, logOnePlus);
    ReturnsAfterHas(cols, n, j, change, logOnePlus);
    ReturnsAfterUnfold(cols, n, j, k, change, logOnePlus);
    var st := ReturnsAfter(cols, n, j, change, logOnePlus);
    var t := cols[j].key;
    ReturnsStepDistinct(st, t, n, change, logOnePlus);
  }

  /** Original column `j` is still a column of the input after `j` turns. */
  lemma ReturnsAfterHas(cols: seq<Entry<string, Column>>, n: nat, j: nat,
                        change: (Cell, Cell) -> Cell, logOnePlus: Cell -> Cell)
    requires j < |cols| && Rectangular(cols, n)
    ensures cols[j].key in Keys(ReturnsAfter(cols, n, j, change, logOnePlus).input)
  {
    var input := ReturnsAfter(cols, n, j, change, logOnePlus).input;
    LabelsPrefixHas(cols, input, j);
  }

  /** The turn on original column `j = k - 1` takes the state after `j` turns to the one after `k`. */
  lemma ReturnsAfterUnfold(cols: seq<Entry<string, Column>>, n: nat, j: nat, k: nat,
                           change: (Cell, Cell) -> Cell, logOnePlus: Cell -> Cell)
    requires 0 < k <= |cols| && j == k - 1 && Rectangular(cols, n)
    requires cols[j].key in Keys(ReturnsAfter(cols, n, j, change, logOnePlus).input)
    ensures ReturnsAfter(cols, n, k, change, logOnePlus)
         == ReturnsStep(ReturnsAfter(cols, n, j, change, logOnePlus), cols[j].key, n, change, logOnePlus)
  {
  }

  /** One turn upserts into both frames, so unique labels stay unique. */
  lemma ReturnsStepDistinct(st: ReturnsState, t: string, n: nat, change: (Cell, Cell) -> Cell, logOnePlus: Cell -> Cell)
    requires Rectangular(st.input, n) && Rectangular(st.copy, n) && t in Keys(st.input)
    requires DistinctKeys(st.input) && DistinctKeys(st.copy)
    ensures DistinctKeys(ReturnsStep(st, t, n, change, logOnePlus).input)
    ensures DistinctKeys(ReturnsStep(st, t, n, change, logOnePlus).copy)
  {
    var helper := PctChange(change, Get(st.input, t));
    var returnLabel := ReturnLabel(t);
    var logColumn := LogColumn(logOnePlus, helper);
    UpsertKeepsDistinct(st.input, returnLabel, helper);
    UpsertKeepsDistinct(st.copy, t, logColumn);
  }

  /** No column is named `<another column><suffix>`, so every generated label is new. */
  predicate NoLabelClash(cols: seq<Entry<string, Column>>, suffix: string)
  {
    forall i, j :: 0 <= i < |cols| && 0 <= j < |cols| ==> NotNamedAfter(cols, suffix, i, j)
  }

  /** Column `j` is not named `<column i><suffix>`. */
  predicate NotNamedAfter(cols: seq<Entry<string, Column>>, suffix: string, i: nat, j: nat)
    requires i < |cols| && j < |cols|
  {
    cols[j].key != cols[i].key + suffix
  }

  /** A generated label `<t_j><suffix>` is in none of the original columns nor among the first `k` generated ones. */
  lemma GeneratedLabelIsNew(cols: seq<Entry<string, Column>>, gen: seq<Entry<string, Column>>, suffix: string, k: nat)
    requires DistinctKeys(cols) && NoLabelClash(cols, suffix) && k < |cols| && |gen| == k
    requires forall j :: 0 <= j < k ==> gen[j].key == cols[j].key + suffix
    ensures cols[k].key + suffix !in Keys(cols + gen)
  {
    var t := cols[k].key + suffix;
    forall x | 0 <= x < |cols + gen|
      ensures (cols + gen)[x].key != t
    {
      if x >= |cols| {
        var j := x - |cols|;
        DistinctKeysPairwise(cols, j, k);
        var a, b := cols[j].key, cols[k].key;
        Text.SuffixCancel(a, b, suffix);
      } else {
        assert NotNamedAfter(cols, suffix, k, x);
      }
    }
  }

  /** The helper columns of a clash-free input: `<t>_return` holding the pct change of column t, for the first `k` columns. */
  function ReturnEntries(cols: seq<Entry<string, Column>>, k: nat, change: (Cell, Cell) -> Cell): (es: seq<Entry<string, Column>>)
    requires k <= |cols|
    ensures |es| == k
    ensures forall j :: 0 <= j < k ==> es[j] == Entry(ReturnLabel(cols[j].key), PctChange(change, cols[j].val))
  {
    seq(k, j requires 0 <= j < k => Entry(ReturnLabel(cols[j].key), PctChange(change, cols[j].val)))
  }

  /** The copy of a clash-free input once its first `k` columns hold log returns. */
  function LogReturnColumns(cols: seq<Entry<string, Column>>, k: nat, change: (Cell, Cell) -> Cell,
                            logOnePlus: Cell -> Cell): (cs: seq<Entry<string, Column>>)
    requires k <= |cols|
    ensures |cs| == |cols|
    ensures forall j :: 0 <= j < |cols| ==>
      cs[j] == if j < k then Entry(cols[j].key, LogColumn(logOnePlus, PctChange(change, cols[j].val))) else cols[j]
  {
    seq(|cols|, j requires 0 <= j < |cols| =>
      if j < k then Entry(cols[j].key, LogColumn(logOnePlus, PctChange(change, cols[j].val))) else cols[j])
  }

  lemma ReturnEntriesExtend(cols: seq<Entry<string, Column>>, j: nat, k: nat, change: (Cell, Cell) -> Cell)
    requires 0 < k <= |cols| && j == k - 1
    ensures ReturnEntries(cols, k, change)
         == ReturnEntries(cols, j, change) + [Entry(ReturnLabel(cols[j].key), PctChange(change, cols[j].val))]
  {
    var a := ReturnEntries(cols, k, change);
    var prev := ReturnEntries(cols, j, change);
    var b := prev + [Entry(ReturnLabel(cols[j].key), PctChange(change, cols[j].val))];
    forall i | 0 <= i < k
      ensures a[i] == b[i]
    {
      if i < j {
        assert b[i] == prev[i];
      }
    }
  }

  lemma LogReturnColumnsExtend(cols: seq<Entry<string, Column>>, j: nat, k: nat, change: (Cell, Cell) -> Cell, logOnePlus: Cell -> Cell)
    requires 0 < k <= |cols| && j == k - 1
    ensures LogReturnColumns(cols, k, change, logOnePlus)
         == LogReturnColumns(cols, j, change, logOnePlus)[j := Entry(cols[j].key, LogColumn(logOnePlus, PctChange(change, cols[j].val)))]
  {
  }

  /** One step of the loop on a column `t` at position `j` of both frames whose `<t>_return` label is new. */
  lemma ReturnsStepFresh(st: ReturnsState, j: nat, n: nat, change: (Cell, Cell) -> Cell, logOnePlus: Cell -> Cell)
    requires Rectangular(st.input, n) && Rectangular(st.copy, n)
    requires DistinctKeys(st.input) && DistinctKeys(st.copy)
    requires j < |st.input| && j < |st.copy| && st.copy[j].key == st.input[j].key
    requires ReturnLabel(st.input[j].key) !in Keys(st.input)
    ensures st.input[j].key in Keys(st.input)
    ensures ReturnsStep(st, st.input[j].key, n, change, logOnePlus)
         == ReturnsState(st.input + [Entry(ReturnLabel(st.input[j].key), PctChange(change, st.input[j].val))],
                         st.copy[j := Entry(st.input[j].key, LogColumn(logOnePlus, PctChange(change, st.input[j].val)))])
  {
    var t := st.input[j].key;
    GetAt(st.input, j);
    var helper := PctChange(change, st.input[j].val);
    var returnLabel := ReturnLabel(t);
    var logColumn := LogColumn(logOnePlus, helper);
    UpsertFresh(st.input, returnLabel, helper);
    UpsertAt(st.copy, j, logColumn);
  }

  /**
   * When no column is named `<another column>_return`, the loop leaves every
   * original column of the input as it was and appends one `<t>_return`
   * column per original column, in order; column t of the copy is the log of
   * the pct change of the original column t.
   */
  lemma {:induction false} ReturnsWithoutClash(cols: seq<Entry<string, Column>>, n: nat, k: nat,
                                               change: (Cell, Cell) -> Cell, logOnePlus: Cell -> Cell)
    requires k <= |cols| && Rectangular(cols, n) && DistinctKeys(cols) && NoLabelClash(cols, ReturnSuffix)
    ensures ReturnsAfter(cols, n, k, change, logOnePlus)
         == ReturnsState(cols + ReturnEntries(cols, k, change), LogReturnColumns(cols, k, change, logOnePlus))
    decreases k, 1
  {
    if k > 0 {
      ReturnsWithoutClashSucc(cols, n, k, change, logOnePlus);
    }
  }

  /** The inductive case of `ReturnsWithoutClash`. */
  lemma {:induction false} ReturnsWithoutClashSucc(cols: seq<Entry<string, Column>>, n: nat, k: nat,
                                                   change: (Cell, Cell) -> Cell, logOnePlus: Cell -> Cell)
    requires 0 < k <= |cols| && Rectangular(cols, n) && DistinctKeys(cols) && NoLabelClash(cols, ReturnSuffix)
    ensures ReturnsAfter(cols, n, k, change, logOnePlus)
         == ReturnsState(cols + ReturnEntries(cols, k, change), LogReturnColumns(cols, k, change, logOnePlus))
    decreases k, 0
  {
    var j := k - 1;
    ReturnsWithoutClash(cols, n, j, change, logOnePlus);
    ReturnsAfterDistinct(cols, n, j, change, logOnePlus);
    ReturnLabelIsNew(cols, j, change);
    ReturnsAfterHas(cols, n, j, change, logOnePlus);
    ReturnsAfterUnfold(cols, n, j, k, change, logOnePlus);
    var st := ReturnsAfter(cols, n, j, change, logOnePlus);
    ReturnsStepWithoutClash(cols, j, k, change, logOnePlus, st);
    ReturnsStepFresh(st, j, n, change, logOnePlus);
  }

  /** Before the turn on column `j` of a clash-free input, its `<t>_return` label is not yet in the input. */
  lemma ReturnLabelIsNew(cols: seq<Entry<string, Column>>, j: nat, change: (Cell, Cell) -> Cell)
    requires j < |cols| && DistinctKeys(cols) && NoLabelClash(cols, ReturnSuffix)
    ensures ReturnLabel(cols[j].key) !in Keys(cols + ReturnEntries(cols, j, change))
  {
    var gen := ReturnEntries(cols, j, change);
    assert forall i :: 0 <= i < j ==> gen[i].key == cols[i].key + ReturnSuffix;
    GeneratedLabelIsNew(cols, gen, ReturnSuffix, j);
  }

  /**
   * On a clash-free input, the step on column `j = k - 1` (its helper column
   * appended, its copy column replaced by its log returns) carries the state
   * after `j` columns to the one after `k`.
   */
  lemma ReturnsStepWithoutClash(cols: seq<Entry<string, Column>>, j: nat, k: nat,
                                change: (Cell, Cell) -> Cell, logOnePlus: Cell -> Cell, st: ReturnsState)
    requires 0 < k <= |cols| && j == k - 1
    requires st == ReturnsState(cols + ReturnEntries(cols, j, change), LogReturnColumns(cols, j, change, logOnePlus))
    ensures st.input[j] == cols[j] && st.copy[j] == cols[j]
    ensures ReturnsState(st.input + [Entry(ReturnLabel(cols[j].key), PctChange(change, cols[j].val))],
                         st.copy[j := Entry(cols[j].key, LogColumn(logOnePlus, PctChange(change, cols[j].val)))])
         == ReturnsState(cols + ReturnEntries(cols, k, change), LogReturnColumns(cols, k, change, logOnePlus))
  {
    var e := cols[j];
    assert st.input[j] == e;
    var entry := Entry(ReturnLabel(e.key), PctChange(change, e.val));
    ReturnEntriesExtend(cols, j, k, change);
    LogReturnColumnsExtend(cols, j, k, change, logOnePlus);
    var prev := ReturnEntries(cols, j, change);
    assert cols + (prev + [entry]) == st.input + [entry];
  }

  /**
   * `calc_historical_log_returns`: the input gains (or overwrites) a
   * `<ticker>_return` column per original column; the returned copy has
   * exactly the original columns, holding log returns, with its rows sorted
   * by index in descending order.
   */
  method CalcHistoricalLogReturns(df: DataFrame, change: (Cell, Cell) -> Cell, logOnePlus: Cell -> Cell)
    returns (logReturns: DataFrame)
    requires df.Valid()
    modifies df`columns
    ensures fresh(logReturns) && df.Valid() && logReturns.Valid()
    ensures df.columns == ReturnsAfter(old(df.columns), |df.index|, |old(df.columns)|, change, logOnePlus).input
    ensures logReturns.index == Permute(df.index, DescendingOrder(df.index))
    ensures logReturns.columns == PermuteRows(ReturnsAfter(old(df.columns), |df.index|, |old(df.columns)|, change, logOnePlus).copy,
                                          |df.index|, DescendingOrder(df.index))
    ensures DistinctKeys(old(df.columns)) ==> DistinctKeys(df.columns) && DistinctKeys(logReturns.columns)
  {
    logReturns := df.Copy();
    ghost var cols := df.columns;
    ghost var n := |df.index|;
    ghost var m := |cols|;
    AddReturnColumns(df, logReturns, change, logOnePlus);
    ghost var copy := logReturns.columns;
    logReturns.SortIndexDescending();
    if DistinctKeys(cols) {
      ReturnsAfterDistinct(cols, n, m, change, logOnePlus);
      SameKeysDistinct(copy, logReturns.columns);
    }
  }

  /** The loop of `calc_historical_log_returns`, over the input's original columns. */
  method AddReturnColumns(df: DataFrame, logReturns: DataFrame, change: (Cell, Cell) -> Cell, logOnePlus: Cell -> Cell)
    requires df != logReturns && df.Valid() && logReturns.index == df.index && logReturns.columns == df.columns
    modifies df`columns, logReturns`columns
    ensures df.Valid() && logReturns.Valid()
    ensures ReturnsState(df.columns, logReturns.columns)
         == ReturnsAfter(old(df.columns), |df.index|, |old(df.columns)|, change, logOnePlus)
  {
    ghost var cols := df.columns;
    ghost var n := |df.index|;
    var tickers := Keys(df.columns);
    assert Rectangular(cols, n);
    for k := 0 to |tickers|
      invariant df.Valid() && logReturns.Valid() && logReturns.index == df.index
      invariant Rectangular(cols, n) && n == |df.index|
      invariant ReturnsState(df.columns, logReturns.columns) == ReturnsAfter(cols, n, k, change, logOnePlus)
    {
      assert Keys(cols)[k] == tickers[k];
      var ticker := tickers[k];
      ghost var next := k + 1;
      ReturnsTurn(df, logReturns, cols, n, k, next, ticker, change, logOnePlus);
    }
  }

  /** One turn of `calc_historical_log_returns`' loop: the helper column, then the log returns of `ticker`. */
  method ReturnsTurn(df: DataFrame, logReturns: DataFrame, ghost cols: seq<Entry<string, Column>>, ghost n: nat,
                     ghost j: nat, ghost k: nat, ticker: string, change: (Cell, Cell) -> Cell, logOnePlus: Cell -> Cell)
    requires df != logReturns && df.Valid() && logReturns.Valid() && logReturns.index == df.index && n == |df.index|
    requires 0 < k <= |cols| && j == k - 1 && Rectangular(cols, n) && ticker == cols[j].key
    requires ReturnsState(df.columns, logReturns.columns) == ReturnsAfter(cols, n, j, change, logOnePlus)
    modifies df`columns, logReturns`columns
    ensures df.Valid() && logReturns.Valid()
    ensures ReturnsState(df.columns, logReturns.columns) == ReturnsAfter(cols, n, k, change, logOnePlus)
  {
    ghost var st := ReturnsState(df.columns, logReturns.columns);
    ReturnsAfterHas(cols, n, j, change, logOnePlus);
    ReturnsAfterUnfold(cols, n, j, k, change, logOnePlus);
    ghost var next := ReturnsStep(st, ticker, n, change, logOnePlus);
    var returnLabel := ReturnLabel(ticker);
    var helper := PctChange(change, Get(df.columns, ticker));
    df.SetColumn(returnLabel, helper);
    var logColumn := LogColumn(logOnePlus, helper);
    logReturns.SetColumn(ticker, logColumn);
    assert ReturnsState(df.columns, logReturns.columns) == next;
  }

  // ---------------------------------------------------------------------------
  // tag_sd_moves
  // ---------------------------------------------------------------------------

  const OneSdDrop := "1 SD DROP"
  const TwoSdDrop := "2 SD DROP"
  const OneSdJump := "1 SD JUMP"
  const TwoSdJump := "2 SD JUMP"

  const MoveSuffix := "_move"

  function MoveLabel(ticker: string): string
  {
    ticker + MoveSuffix
  }

  /** `mean + factor * sd`, NaN (None) when either is NaN. */
  function Offset(mean: Option<real>, sd: Option<real>, factor: real): Option<real>
  {
    if mean.Some? && sd.Some? then Some(mean.value + factor * sd.value) else None
  }

  /** `cell <= bound` and `cell >= bound` as pandas compares: false whenever either side is NaN. */
  predicate AtMost(c: Cell, bound: Option<real>)
  {
    c.Num? && bound.Some? && c.x <= bound.value
  }

  predicate AtLeast(c: Cell, bound: Option<real>)
  {
    c.Num? && bound.Some? && c.x >= bound.value
  }

  function AtMostMask(col: Column, bound: Option<real>): (mask: seq<bool>)
    ensures |mask| == |col| && forall i :: 0 <= i < |col| ==> (mask[i] <==> AtMost(col[i], bound))
  {
    seq(|col|, i requires 0 <= i < |col| => AtMost(col[i], bound))
  }

  function AtLeastMask(col: Column, bound: Option<real>): (mask: seq<bool>)
    ensures |mask| == |col| && forall i :: 0 <= i < |col| ==> (mask[i] <==> AtLeast(col[i], bound))
  {
    seq(|col|, i requires 0 <= i < |col| => AtLeast(col[i], bound))
  }

  /**
   * The tag a value gets from the four assignments, in the order they run:
   * each one whose comparison holds overwrites the cell, so the last that
   * holds wins; when none holds the cell keeps `prior`.
   */
  function MoveCell(v: Cell, mean: Option<real>, sd: Option<real>, prior: Cell): Cell
  {
    var afterOneDrop := if AtMost(v, Offset(mean, sd, -1.0)) then Str(OneSdDrop) else prior;
    var afterTwoDrop := if AtMost(v, Offset(mean, sd, -2.0)) then Str(TwoSdDrop) else afterOneDrop;
    var afterOneJump := if AtLeast(v, Offset(mean, sd, 1.0)) then Str(OneSdJump) else afterTwoDrop;
    if AtLeast(v, Offset(mean, sd, 2.0)) then Str(TwoSdJump) else afterOneJump
  }

  /** The move column of one ticker: each row tagged from its value, the rest kept from `prior`. */
  function MoveColumn(col: Column, mean: Option<real>, sd: Option<real>, prior: Column): (r: Column)
    requires |prior| == |col|
    ensures |r| == |col| && forall i :: 0 <= i < |col| ==> r[i] == MoveCell(col[i], mean, sd, prior[i])
  {
    seq(|col|, i requires 0 <= i < |col| => MoveCell(col[i], mean, sd, prior[i]))
  }

  /**
   * The tag as a precedence rule: two SDs up, then one SD up, then two SDs
   * down, then one SD down; none inside the band.
   */
  function SdTag(v: real, m: real, s: real): Option<string>
  {
    if v >= m + 2.0 * s then Some(TwoSdJump)
    else if v >= m + s then Some(OneSdJump)
    else if v <= m - 2.0 * s then Some(TwoSdDrop)
    else if v <= m - s then Some(OneSdDrop)
    else None
  }

  /** The four assignments in source order tag a number exactly as the precedence rule says. */
  lemma MoveCellFollowsPrecedence(v: real, m: real, s: real, prior: Cell)
    ensures MoveCell(Num(v), Some(m), Some(s), prior) == if SdTag(v, m, s).Some? then Str(SdTag(v, m, s).value) else prior
  {
  }

  /** NaN values, and a NaN mean or sd, tag nothing. */
  lemma NaNIsNeverTagged(v: Cell, mean: Option<real>, sd: Option<real>, prior: Cell)
    requires v.Missing? || mean.None? || sd.None?
    ensures MoveCell(v, mean, sd, prior) == prior
  {
  }

  /** With a positive sd the tags are the bands around the mean, and values strictly within one sd get none. */
  lemma SdBands(v: real, m: real, s: real)
    requires s > 0.0
    ensures SdTag(v, m, s) == Some(TwoSdDrop) <==> v <= m - 2.0 * s
    ensures SdTag(v, m, s) == Some(OneSdDrop) <==> m - 2.0 * s < v <= m - s
    ensures SdTag(v, m, s) == Some(OneSdJump) <==> m + s <= v < m + 2.0 * s
    ensures SdTag(v, m, s) == Some(TwoSdJump) <==> v >= m + 2.0 * s
    ensures SdTag(v, m, s) == None <==> m - s < v < m + s
  {
  }

  /** Jumps are assigned after drops: with a zero sd a value at the mean is tagged a two-SD jump. */
  lemma ZeroSdAtMean(m: real, prior: Cell)
    ensures MoveCell(Num(m), Some(m), Some(0.0), prior) == Str(TwoSdJump)
  {
  }

  /**
   * The copy's columns after the loop has handled the first `k` columns of
   * `returns`: ticker t's move column is written from `returns[t]`, over what
   * the copy held under that label (NaN when the label was new).
   */
  function MovesAfter(cols: seq<Entry<string, Column>>, n: nat, k: nat,
                      mean: Column -> Option<real>, sd: Column -> Option<real>): (r: seq<Entry<string, Column>>)
    requires k <= |cols| && Rectangular(cols, n)
    ensures Rectangular(r, n)
    decreases k
  {
    if k == 0 then cols
    else MovesStep(MovesAfter(cols, n, k - 1, mean, sd), cols[k - 1], n, mean, sd)
  }

  /**
   * One turn of the loop, for returns column `e`: its move label is upserted
   * with its tags written over what the copy held there (NaN when new).
   */
  function MovesStep(prev: seq<Entry<string, Column>>, e: Entry<string, Column>, n: nat,
                     mean: Column -> Option<real>, sd: Column -> Option<real>): (r: seq<Entry<string, Column>>)
    requires Rectangular(prev, n) && |e.val| == n
    ensures Rectangular(r, n)
  {
    var moveLabel := MoveLabel(e.key);
    var moves := MoveColumn(e.val, mean(e.val), sd(e.val), ColumnOr(prev, moveLabel, n));
    UpsertRectangular(prev, moveLabel, moves, n);
    Upsert(prev, moveLabel, moves)
  }

  /** One turn of the loop, on returns column `k`, spelled out. */
  lemma MovesAfterStep(cols: seq<Entry<string, Column>>, n: nat, k: nat,
                       mean: Column -> Option<real>, sd: Column -> Option<real>)
    requires k < |cols| && Rectangular(cols, n)
    ensures |cols[k].val| == n
    ensures MovesAfter(cols, n, k + 1, mean, sd)
         == Upsert(MovesAfter(cols, n, k, mean, sd), MoveLabel(cols[k].key),
                   MoveColumn(cols[k].val, mean(cols[k].val), sd(cols[k].val),
                              ColumnOr(MovesAfter(cols, n, k, mean, sd), MoveLabel(cols[k].key), n)))
  {
  }

  /** The turn on returns column `k - 1` takes the copy after `k - 1` turns to the one after `k`. */
  lemma MovesAfterUnfold(cols: seq<Entry<string, Column>>, n: nat, j: nat, k: nat,
                         mean: Column -> Option<real>, sd: Column -> Option<real>)
    requires 0 < k <= |cols| && j == k - 1 && Rectangular(cols, n)
    ensures MovesAfter(cols, n, k, mean, sd) == MovesStep(MovesAfter(cols, n, j, mean, sd), cols[j], n, mean, sd)
  {
  }

  /** One turn keeps every label the copy had, in place. */
  lemma MovesStepKeepsLabels(prev: seq<Entry<string, Column>>, e: Entry<string, Column>, n: nat,
                             mean: Column -> Option<real>, sd: Column -> Option<real>, p: seq<string>)
    requires Rectangular(prev, n) && |e.val| == n && p <= Keys(prev)
    ensures p <= Keys(MovesStep(prev, e, n, mean, sd))
  {
    var moveLabel := MoveLabel(e.key);
    var moves := MoveColumn(e.val, mean(e.val), sd(e.val), ColumnOr(prev, moveLabel, n));
    UpsertKeepsLabels(prev, moveLabel, moves, p);
  }

  /** One turn is an upsert, so unique labels stay unique. */
  lemma MovesStepDistinct(prev: seq<Entry<string, Column>>, e: Entry<string, Column>, n: nat,
                          mean: Column -> Option<real>, sd: Column -> Option<real>)
    requires Rectangular(prev, n) && |e.val| == n && DistinctKeys(prev)
    ensures DistinctKeys(MovesStep(prev, e, n, mean, sd))
  {
    var moveLabel := MoveLabel(e.key);
    var moves := MoveColumn(e.val, mean(e.val), sd(e.val), ColumnOr(prev, moveLabel, n));
    UpsertKeepsDistinct(prev, moveLabel, moves);
  }

  /** The copy keeps the labels of the returns frame, in order, ahead of the move labels. */
  lemma {:induction false} MovesAfterKeepsLabels(cols: seq<Entry<string, Column>>, n: nat, k: nat,
                                                 mean: Column -> Option<real>, sd: Column -> Option<real>)
    requires k <= |cols| && Rectangular(cols, n)
    ensures Keys(cols) <= Keys(MovesAfter(cols, n, k, mean, sd))
    decreases k, 1
  {
    if k > 0 {
      MovesAfterKeepsLabelsSucc(cols, n, k, mean, sd);
    }
  }

  /** The inductive case of `MovesAfterKeepsLabels`. */
  lemma {:induction false} MovesAfterKeepsLabelsSucc(cols: seq<Entry<string, Column>>, n: nat, k: nat,
                                                     mean: Column -> Option<real>, sd: Column -> Option<real>)
    requires 0 < k <= |cols| && Rectangular(cols, n)
    ensures Keys(cols) <= Keys(MovesAfter(cols, n, k, mean, sd))
    decreases k, 0
  {
    var j := k - 1;
    MovesAfterKeepsLabels(cols, n, j, mean, sd);
    var prev, e, labels := MovesAfter(cols, n, j, mean, sd), cols[j], Keys(cols);
    MovesAfterUnfold(cols, n, j, k, mean, sd);
    MovesStepKeepsLabels(prev, e, n, mean, sd, labels);
  }

  /** Move labels are upserted, so a returns frame with unique labels gives a copy with unique labels. */
  lemma {:induction false} MovesAfterDistinct(cols: seq<Entry<string, Column>>, n: nat, k: nat,
                                              mean: Column -> Option<real>, sd: Column -> Option<real>)
    requires k <= |cols| && Rectangular(cols, n) && DistinctKeys(cols)
    ensures DistinctKeys(MovesAfter(cols, n, k, mean, sd))
    decreases k, 1
  {
    if k > 0 {
      MovesAfterDistinctSucc(cols, n, k, mean, sd);
    }
  }

  /** The inductive case of `MovesAfterDistinct`. */
  lemma {:induction false} MovesAfterDistinctSucc(cols: seq<Entry<string, Column>>, n: nat, k: nat,
                                                  mean: Column -> Option<real>, sd: Column -> Option<real>)
    requires 0 < k <= |cols| && Rectangular(cols, n) && DistinctKeys(cols)
    ensures DistinctKeys(MovesAfter(cols, n, k, mean, sd))
    decreases k, 0
  {
    var j := k - 1;
    MovesAfterDistinct(cols, n, j, mean, sd);
    var prev, e := MovesAfter(cols, n, j, mean, sd), cols[j];
    MovesStepDistinct(prev, e, n, mean, sd);
    ghost var next := MovesStep(prev, e, n, mean, sd);
    assert DistinctKeys(next);
    MovesAfterUnfold(cols, n, j, k, mean, sd);
  }

  /** The move column of a clash-free frame for column `j`: `<t>_move` tagged from column t over NaN. */
  function MoveEntry(cols: seq<Entry<string, Column>>, n: nat, j: nat,
                     mean: Column -> Option<real>, sd: Column -> Option<real>): (e: Entry<string, Column>)
    requires j < |cols| && Rectangular(cols, n)
    ensures e.key == MoveLabel(cols[j].key)
  {
    Entry(MoveLabel(cols[j].key), MoveColumn(cols[j].val, mean(cols[j].val), sd(cols[j].val), NaNColumn(n)))
  }

  /** The move columns of a clash-free frame for its first `k` columns. */
  function MoveEntries(cols: seq<Entry<string, Column>>, n: nat, k: nat,
                       mean: Column -> Option<real>, sd: Column -> Option<real>): (es: seq<Entry<string, Column>>)
    requires k <= |cols| && Rectangular(cols, n)
    ensures |es| == k
    ensures forall j :: 0 <= j < k ==>
      es[j] == Entry(MoveLabel(cols[j].key), MoveColumn(cols[j].val, mean(cols[j].val), sd(cols[j].val), NaNColumn(n)))
  {
    seq(k, j requires 0 <= j < k => MoveEntry(cols, n, j, mean, sd))
  }

  lemma MoveEntriesExtend(cols: seq<Entry<string, Column>>, n: nat, j: nat, k: nat,
                          mean: Column -> Option<real>, sd: Column -> Option<real>)
    requires 0 < k <= |cols| && j == k - 1 && Rectangular(cols, n)
    ensures MoveEntries(cols, n, k, mean, sd) == MoveEntries(cols, n, j, mean, sd) + [MoveEntry(cols, n, j, mean, sd)]
  {
    var a := MoveEntries(cols, n, k, mean, sd);
    var prev := MoveEntries(cols, n, j, mean, sd);
    var last := MoveEntry(cols, n, j, mean, sd);
    forall i | 0 <= i < k
      ensures a[i] == (prev + [last])[i]
    {
      if i < j {
        assert a[i] == prev[i];
      } else {
        assert a[i] == last;
      }
    }
  }

  /** One step of the loop on returns column `e` whose `<t>_move` label is new appends its move column, tagged over NaN. */
  lemma MovesStepFresh(prev: seq<Entry<string, Column>>, e: Entry<string, Column>, n: nat,
                       mean: Column -> Option<real>, sd: Column -> Option<real>)
    requires Rectangular(prev, n) && |e.val| == n && MoveLabel(e.key) !in Keys(prev)
    ensures MovesStep(prev, e, n, mean, sd)
         == prev + [Entry(MoveLabel(e.key), MoveColumn(e.val, mean(e.val), sd(e.val), NaNColumn(n)))]
  {
    var moves := MoveColumn(e.val, mean(e.val), sd(e.val), NaNColumn(n));
    var moveLabel := MoveLabel(e.key);
    ColumnOrMissing(prev, moveLabel, n);
    UpsertFresh(prev, moveLabel, moves);
  }

  /**
   * When no column is named `<another column>_move`, the copy keeps every
   * original column and gains one `<t>_move` column per original column, in
   * order, each cell the tag of its value or NaN.
   */
  lemma {:induction false} MovesWithoutClash(cols: seq<Entry<string, Column>>, n: nat, k: nat,
                                             mean: Column -> Option<real>, sd: Column -> Option<real>)
    requires k <= |cols| && Rectangular(cols, n) && DistinctKeys(cols) && NoLabelClash(cols, MoveSuffix)
    ensures MovesAfter(cols, n, k, mean, sd) == cols + MoveEntries(cols, n, k, mean, sd)
    decreases k, 1
  {
    if k > 0 {
      MovesWithoutClashSucc(cols, n, k, mean, sd);
    }
  }

  /** The inductive case of `MovesWithoutClash`. */
  lemma {:induction false} MovesWithoutClashSucc(cols: seq<Entry<string, Column>>, n: nat, k: nat,
                                                 mean: Column -> Option<real>, sd: Column -> Option<real>)
    requires 0 < k <= |cols| && Rectangular(cols, n) && DistinctKeys(cols) && NoLabelClash(cols, MoveSuffix)
    ensures MovesAfter(cols, n, k, mean, sd) == cols + MoveEntries(cols, n, k, mean, sd)
    decreases k, 0
  {
    var j := k - 1;
    MovesWithoutClash(cols, n, j, mean, sd);
    MovesAfterUnfold(cols, n, j, k, mean, sd);
    MoveLabelIsNew(cols, n, j, mean, sd);
    var prev, e := MovesAfter(cols, n, j, mean, sd), cols[j];
    MovesStepFresh(prev, e, n, mean, sd);
    MovesStepWithoutClash(cols, n, j, k, mean, sd, prev);
  }

  /** On a clash-free frame, appending the move column of column `j = k - 1` carries the closed form after `j` columns to the one after `k`. */
  lemma MovesStepWithoutClash(cols: seq<Entry<string, Column>>, n: nat, j: nat, k: nat,
                              mean: Column -> Option<real>, sd: Column -> Option<real>, prev: seq<Entry<string, Column>>)
    requires 0 < k <= |cols| && j == k - 1 && Rectangular(cols, n)
    requires prev == cols + MoveEntries(cols, n, j, mean, sd)
    ensures prev + [Entry(MoveLabel(cols[j].key), MoveColumn(cols[j].val, mean(cols[j].val), sd(cols[j].val), NaNColumn(n)))]
         == cols + MoveEntries(cols, n, k, mean, sd)
  {
    var gen := MoveEntries(cols, n, j, mean, sd);
    MoveEntriesExtend(cols, n, j, k, mean, sd);
    var last := MoveEntry(cols, n, j, mean, sd);
    SnocAssoc(cols, gen, last);
  }

  /** Before the step on column `j` of a clash-free frame, its `<t>_move` label is not yet in the copy. */
  lemma MoveLabelIsNew(cols: seq<Entry<string, Column>>, n: nat, j: nat,
                       mean: Column -> Option<real>, sd: Column -> Option<real>)
    requires j < |cols| && Rectangular(cols, n) && DistinctKeys(cols) && NoLabelClash(cols, MoveSuffix)
    ensures MoveLabel(cols[j].key) !in Keys(cols + MoveEntries(cols, n, j, mean, sd))
  {
    var gen := MoveEntries(cols, n, j, mean, sd);
    assert forall i :: 0 <= i < j ==> gen[i].key == cols[i].key + MoveSuffix;
    GeneratedLabelIsNew(cols, gen, MoveSuffix, j);
  }

  /** Two masked writes to one label in a row are one write of the combined column. */
  lemma MaskedWritesCombine(cols: seq<Entry<string, Column>>, n: nat, name: string, first: Column, mask: seq<bool>, value: Cell)
    requires Rectangular(cols, n) && |first| == n && |mask| == n
    ensures Rectangular(Upsert(cols, name, first), n)
    ensures Upsert(Upsert(cols, name, first), name, Masked(ColumnOr(Upsert(cols, name, first), name, n), mask, value))
         == Upsert(cols, name, Masked(first, mask, value))
  {
    UpsertRectangular(cols, name, first, n);
    GetAfterUpsert(cols, name, first, name);
    var written := Upsert(cols, name, first);
    var combined := Masked(first, mask, value);
    ColumnOrFound(written, name, n);
    UpsertTwice(cols, name, first, combined);
  }

  /** The four masked writes, composed, give the move column. */
  lemma FourWritesAreMoveColumn(col: Column, m: Option<real>, s: Option<real>, prior: Column)
    requires |prior| == |col|
    ensures Masked(Masked(Masked(Masked(prior, AtMostMask(col, Offset(m, s, -1.0)), Str(OneSdDrop)),
                                 AtMostMask(col, Offset(m, s, -2.0)), Str(TwoSdDrop)),
                          AtLeastMask(col, Offset(m, s, 1.0)), Str(OneSdJump)),
                   AtLeastMask(col, Offset(m, s, 2.0)), Str(TwoSdJump))
         == MoveColumn(col, m, s, prior)
  {
  }

  /**
   * The four `sd_move.loc[mask, <ticker>_move] = tag` assignments for one
   * ticker, in source order, with the masks computed from the returns column.
   */
  method TagColumn(sdMove: DataFrame, eventLabel: string, col: Column, m: Option<real>, s: Option<real>)
    requires sdMove.Valid() && |col| == |sdMove.index|
    modifies sdMove`columns
    ensures sdMove.Valid()
    ensures sdMove.columns == Upsert(old(sdMove.columns), eventLabel,
                                     MoveColumn(col, m, s, ColumnOr(old(sdMove.columns), eventLabel, |sdMove.index|)))
  {
    ghost var n := |sdMove.index|;
    ghost var prev := sdMove.columns;
    ghost var prior := ColumnOr(prev, eventLabel, n);
    var drop1, drop2 := AtMostMask(col, Offset(m, s, -1.0)), AtMostMask(col, Offset(m, s, -2.0));
    var jump1, jump2 := AtLeastMask(col, Offset(m, s, 1.0)), AtLeastMask(col, Offset(m, s, 2.0));
    var oneSdDrop, twoSdDrop, oneSdJump, twoSdJump := Str(OneSdDrop), Str(TwoSdDrop), Str(OneSdJump), Str(TwoSdJump);
    ghost var c1 := Masked(prior, drop1, oneSdDrop);
    ghost var c2 := Masked(c1, drop2, twoSdDrop);
    ghost var c3 := Masked(c2, jump1, oneSdJump);
    sdMove.SetWhere(eventLabel, drop1, oneSdDrop);
    sdMove.SetWhere(eventLabel, drop2, twoSdDrop);
    MaskedWritesCombine(prev, n, eventLabel, c1, drop2, twoSdDrop);
    sdMove.SetWhere(eventLabel, jump1, oneSdJump);
    MaskedWritesCombine(prev, n, eventLabel, c2, jump1, oneSdJump);
    sdMove.SetWhere(eventLabel, jump2, twoSdJump);
    MaskedWritesCombine(prev, n, eventLabel, c3, jump2, twoSdJump);
    FourWritesAreMoveColumn(col, m, s, prior);
  }

  /**
   * `tag_sd_moves`: a copy of the returns frame gains a `<ticker>_move`
   * column per column of the returns frame, written by the four masked
   * assignments; the returns frame itself is not modified.
   */
  method TagSdMoves(logReturns: DataFrame, mean: Column -> Option<real>, sd: Column -> Option<real>) returns (sdMove: DataFrame)
    requires logReturns.Valid()
    ensures fresh(sdMove) && sdMove.Valid()
    ensures sdMove.index == logReturns.index
    ensures sdMove.columns == MovesAfter(logReturns.columns, |logReturns.index|, |logReturns.columns|, mean, sd)
    ensures DistinctKeys(logReturns.columns) ==> DistinctKeys(sdMove.columns)
  {
    sdMove := logReturns.Copy();
    var cols := logReturns.columns;
    ghost var n, m := |logReturns.index|, |cols|;
    AddMoveColumns(sdMove, cols, mean, sd);
    if DistinctKeys(cols) {
      MovesAfterDistinct(cols, n, m, mean, sd);
    }
  }

  /** The loop of `tag_sd_moves`, over the columns `cols` of the returns frame. */
  method AddMoveColumns(sdMove: DataFrame, cols: seq<Entry<string, Column>>,
                        mean: Column -> Option<real>, sd: Column -> Option<real>)
    requires sdMove.Valid() && sdMove.columns == cols
    modifies sdMove`columns
    ensures sdMove.Valid()
    ensures sdMove.columns == MovesAfter(cols, |sdMove.index|, |cols|, mean, sd)
  {
    ghost var n := |sdMove.index|;
    assert Rectangular(cols, n);
    for k := 0 to |cols|
      invariant Rectangular(cols, n) && n == |sdMove.index|
      invariant sdMove.columns == MovesAfter(cols, n, k, mean, sd)
    {
      TagTicker(sdMove, cols, k, mean, sd);
    }
  }

  /** One turn of `tag_sd_moves`' loop: the mean and SD of returns column `k`, then its four tag writes. */
  method TagTicker(sdMove: DataFrame, cols: seq<Entry<string, Column>>, k: nat,
                   mean: Column -> Option<real>, sd: Column -> Option<real>)
    requires k < |cols| && Rectangular(cols, |sdMove.index|)
    requires sdMove.columns == MovesAfter(cols, |sdMove.index|, k, mean, sd)
    modifies sdMove`columns
    ensures sdMove.columns == MovesAfter(cols, |sdMove.index|, k + 1, mean, sd)
  {
    var ticker := cols[k].key;
    var col := cols[k].val;
    var m, s := mean(col), sd(col);
    ghost var n := |sdMove.index|;
    MovesAfterStep(cols, n, k, mean, sd);
    var moveLabel := MoveLabel(ticker);
    TagColumn(sdMove, moveLabel, col, m, s);
  }
}
