# invest: brokerage callbacks, retry wrapper and price helpers in Dafny

This project models the core of the `invest` repository in Dafny: how brokerage feed callbacks turn into tables and queues, the retry decorator around the position request, and the price helpers that build tickers and tag standard-deviation moves.

- **`Retry`** (`retry.dfy`) models `utils/decorators.py`, the `retry` decorator.
  - A recursive definition `Retried` gives the result and the trace of one decorated call. The trace is a sequence of "n. try:" log lines and sleeps.
  - The method `FuncWithRetries` is the decorator's `while` loop. It is proved equal to `Retried`.
  - Lemmas give the attempt count, the geometric delays, the re-raise on exhaustion and early exit on an uncaught exception. They also pin down the budget used by `get_current_positions`.
- **`IbApi`** (`ib_api.dfy`) models `ib/api.py`.
  - `TestWrapper` is a class. Its feed callbacks append to FIFO queues held as `seq` fields.
  - Every position snapshot on the queue is the same `positionsDF` object. That aliasing is modelled with a `PositionsTable` class and an object invariant.
  - `TestClient` drains the error queue and checks the portfolio size. It also builds the accounting-values and accounting-updates tables, converting HKD prices to USD.
- **`InteractiveBrokers`** (`ib_broker.dfy`) models `ib/ib.py`.
  - `position` appends a row.
  - `accountSummary` replaces the whole accounts table with one row.
  - `tickPrice` writes the Bid or Ask cell of row `reqId`, or raises KeyError.
  - `get_positions` requests market data with request id i for row i.
- **`IbTest`** (`ib_test.dfy`) models `ib/test.py`. Its callbacks upsert rows under string labels.
  - A positions label is the account and the symbol concatenated. This is injective only for accounts of one length.
  - An accounts label is the account alone.
- **`Prices`** (`prices.dfy`) models `prices/prices.py`.
  - A DataFrame is a class with an integer index and labelled columns of cells.
  - Column assignment and `loc[mask, label] =` are upserts.
  - `sort_index(ascending=False)` is a permutation of the rows that makes the index non-increasing.
  - It covers the FX and HKEX ticker maps and the post-processing of the downloads.
  - The log-returns loop and the four masked SD-move assignments are modelled together with their precedence rule.
- **`FetchReturns`** (`fetch_returns.dfy`) models `prices/fetch_returns.py`, the older form of the same helpers.
  - Its ticker map is defined separately and proved equal to the newer one.
  - `calc_returns` and `calc_sd_move` run the same loops as the newer helpers. Their contracts state the promised shape of the result directly.
- **`Frames`, `Text` and `Wrappers`** are support modules.
  - `Frames` models a pandas table addressed by label (`loc[label] = row`): an upsert, repeated upserts and their properties.
  - `Text` models `str.replace(pat, '')` and substring search.
  - `Wrappers` holds `Option` and `Result`.

Some inputs are parameters of the model:
- what the feed delivers while a caller sleeps;
- what the finishable queue drains and what the account cache returns;
- what the downloads return;
- the numerics: the pct-change step, `log(1 + x)`, mean and standard deviation.

Two behaviours of the code that the model keeps:
- On exhaustion, the retry decorator in utils/decorators.py re-raises the last exception itself, with a bare `raise`. The call's arguments go only to the log.
- `get_current_positions` takes the first drained snapshot before it drains the error queue. An empty drain therefore raises IndexError and logs nothing.

## Model

| member | source | states |
|---|---|---|
| Retry.FuncWithRetries | utils/decorators.py:18-34 | the loop returns exactly the result and the log/sleep trace of the recursive definition `Retried` |
| Retry.RetryExhausted | utils/decorators.py:19-32 | with `total_tries = n >= 1` and every call raising a caught exception: n calls, logged 1..n, n-1 sleeps between them and none after the last; the last exception is re-raised |
| Retry.RetryStopsAt | utils/decorators.py:21-34 | when call k+1 (k < n) returns or raises an uncaught exception after k caught failures, that outcome ends the run after exactly k geometric sleeps |
| Retry.UncaughtFirstCall | utils/decorators.py:22-24 | an exception outside `exceptions` on the first call propagates after one attempt, with no sleep |
| Retry.NoTriesNoCall | utils/decorators.py:19-20 | with `total_tries <= 0` the function is never called, nothing sleeps, and the result is None |
| Retry.StepsAt | utils/decorators.py:22-34 | in the schedule of failing attempts, attempt i+1 is logged at position 2i and followed by a sleep of the i-th delay |
| Retry.DelayIsGeometric | utils/decorators.py:33-34 | the i-th delay is `initial_wait * backoff_factor^i` |
| Retry.AttemptsStopAt | utils/decorators.py:20-34 | from any attempt k, caught failures up to j followed by a stopping outcome at j yield that outcome after the schedule k+1..j |
| Retry.AttemptsExhausted | utils/decorators.py:25-32 | from any attempt k, caught failures up to the budget re-raise the last exception after the schedule |
| Retry.AttemptsShape | utils/decorators.py:19-34 | whatever the calls do, a run with a budget of n >= 1 ends at some attempt j+1 <= n after the schedule of the j before it |
| Retry.ConstantBackoff | utils/decorators.py:19-34 | with `backoff_factor = 1` at most `total_tries` attempts are made and every sleep lasts `initial_wait` |
| Retry.ConstantSleeps | utils/decorators.py:33-34 | with `backoff_factor = 1` every sleep in the schedule of failing attempts lasts `initial_wait` |
| Retry.CurrentPositionsRetryBudget | ib/api.py:116 | `get_current_positions` is attempted at most 10 times and every sleep between attempts lasts 0.25 s |
| IbApi.TestWrapper.constructor | ib/api.py:24-32 | one empty account queue under IB_ACCOUNT_NAME, empty positions and error queues, empty positions table |
| IbApi.TestWrapper.IsError | ib/api.py:43-45 | true exactly when the error queue is not empty |
| IbApi.TestWrapper.GetError | ib/api.py:34-41 | None and no change on an empty queue; otherwise the oldest message is removed and returned |
| IbApi.TestWrapper.Error | ib/api.py:47-51 | exactly one message is queued when `id > -1`; otherwise the queue is unchanged |
| IbApi.TestWrapper.Position | ib/api.py:56-60 | the row is appended (after `reset_index` a symbol never matches a label) and the shared table object is queued |
| IbApi.TestWrapper.PositionEnd | ib/api.py:62-64 | the FINISHED sentinel is appended to the positions queue |
| IbApi.TestWrapper.UpdateAccountValue | ib/api.py:70-75 | one ACCOUNT_VALUE_FLAG item is appended to the IB_ACCOUNT_NAME queue, whatever account is named |
| IbApi.TestWrapper.UpdatePortfolio | ib/api.py:77-86 | one ACCOUNT_UPDATE_FLAG item holding the 7-tuple is appended to the IB_ACCOUNT_NAME queue |
| IbApi.TestWrapper.PutAccountItem | ib/api.py:70-97 | one item is appended to the IB_ACCOUNT_NAME queue and no other queue changes; every identified item keeps the flag of its payload |
| IbApi.TestWrapper.UpdateAccountTime | ib/api.py:88-93 | one ACCOUNT_TIME_FLAG item is appended to the IB_ACCOUNT_NAME queue |
| IbApi.TestWrapper.AccountDownloadEnd | ib/api.py:95-97 | the FINISHED sentinel is appended to the IB_ACCOUNT_NAME queue |
| IbApi.TestClient.DrainErrors | ib/api.py:131-132 | every pending error is logged, oldest first, and the error queue ends empty |
| IbApi.TestClient.GetCurrentPositions | ib/api.py:117-141 | IndexError with nothing drained and nothing logged; otherwise all errors are logged, a timeout is logged, and the first snapshot is returned iff it has EXPECTED_PORTFOLIO_SIZE rows, else the size error |
| IbApi.TestClient.GetAccountingValues | ib/api.py:187-208 | three columns of the cached triples' length; row i is triple i |
| IbApi.UsdRow | ib/api.py:224-229 | LastPrice, AvgPrice and MarketValue are multiplied by HKD_TO_USD_RATE iff the currency is HKD; position and PnL are copied |
| IbApi.TestClient.ConvertItem | ib/api.py:224-228 | the unpacked and converted row is `UsdRow` of the item at this client's HKD rate |
| IbApi.UpdateEntries | ib/api.py:223-229 | entry i is written under item i's symbol and holds item i converted by `UsdRow`, in item order |
| IbApi.TestClient.GetAccountingUpdates | ib/api.py:211-229 | the table is the items, each converted with `UsdRow`, upserted by symbol in order |
| IbApi.AccountingUpdatesOneRowPerSymbol | ib/api.py:223-229 | one row per symbol, a row for exactly the symbols that occur, each from the last item with that symbol |
| InteractiveBrokers.InteractiveBrokersApi.constructor | ib/ib.py:47-60 | both tables and the request log start empty |
| InteractiveBrokers.InteractiveBrokersApi.Error | ib/ib.py:62-64 | logs iff `reqId > -1`; no table changes |
| InteractiveBrokers.InteractiveBrokersApi.Position | ib/ib.py:70-81 | one row appended at the end with the contract's fields, Bid and Ask empty |
| InteractiveBrokers.NewRow | ib/ib.py:73-80 | the new row copies symbol, sec_type, contract, position and avg_cost from the callback; Bid and Ask are empty |
| InteractiveBrokers.NewRows | ib/ib.py:70-81 | one new row per arrived callback, in arrival order |
| InteractiveBrokers.InteractiveBrokersApi.ReceivePositions | ib/ib.py:70-81 | the rows of the arrived callbacks are appended to the table in order |
| InteractiveBrokers.InteractiveBrokersApi.AccountSummary | ib/ib.py:83-93 | the accounts table becomes a one-row table holding only this callback |
| InteractiveBrokers.TickUpdate | ib/ib.py:103-109 | a DELAYED_BID/ASK tick writes only the Bid/Ask cell of row `reqId`; KeyError iff the row does not exist; other tick types change nothing |
| InteractiveBrokers.InteractiveBrokersApi.TickPrice | ib/ib.py:99-109 | the table becomes `TickUpdate`'s result; on KeyError it is unchanged and the error is returned |
| InteractiveBrokers.BidAskCommute | ib/ib.py:103-109 | a bid tick and an ask tick on one row commute |
| InteractiveBrokers.LatestBidWins | ib/ib.py:103-104 | a second bid tick on a row replaces the first |
| InteractiveBrokers.ApplyTicks | ib/ib.py:99-109 | a series of `tickPrice` callbacks keeps the row count and changes nothing but the Bid and Ask cells; a KeyError tick leaves the table |
| InteractiveBrokers.LatestTickWins | ib/ib.py:99-109 | after a series of ticks, a row's Bid (Ask) is the price of the latest DELAYED_BID (DELAYED_ASK) tick for it, or its earlier value when none came |
| InteractiveBrokers.ApplyTicksAppend | ib/ib.py:127-135 | the ticks of two waits applied one batch after the other give the table of all of them applied in order |
| InteractiveBrokers.InteractiveBrokersApi.ReceiveTicks | ib/ib.py:99-109 | the `tickPrice` callbacks of one wait leave the table at `ApplyTicks` of them |
| InteractiveBrokers.MarketDataRequests | ib/ib.py:127-135 | for each row i in order, `reqMarketDataType(4)` then `reqMktData(i, contract_i)` |
| InteractiveBrokers.MarketDataIdsNameRows | ib/ib.py:127-135 | every market-data request id is a row label whose contract is the one requested, so its ticks update that row |
| InteractiveBrokers.ContractColumn | ib/ib.py:135 | `all_positions['contract']`: row i's contract, for every row |
| InteractiveBrokers.InteractiveBrokersApi.RequestMarketData | ib/ib.py:127-135 | the request log gains exactly `MarketDataRequests` of the contracts, and the table becomes `ApplyTicks` of the ticks that arrive during the waits after each request |
| InteractiveBrokers.InteractiveBrokersApi.GetPositions | ib/ib.py:121-137 | `reqPositions` and the arrived rows appended in order; then KeyError on an empty table, or the market-data requests for the received rows and the returned table with the ticks of the waits applied |
| InteractiveBrokers.InteractiveBrokersApi.GetAccountData | ib/ib.py:139-145 | `reqAccountSummary(0, "All", "NetLiquidation")`; the table holds only the latest callback, or is unchanged if none arrived |
| IbTest.IbClass.constructor | ib/test.py:17-21 | both tables start empty |
| IbTest.IbClass.Error | ib/test.py:23-25 | logs iff `reqId > -1`; no table changes |
| IbTest.IbClass.Position | ib/test.py:27-29 | the row is upserted under account+symbol and the table stays keyed |
| IbTest.IbClass.AccountSummary | ib/test.py:31-33 | the row is upserted under the account and the table stays keyed |
| IbTest.IbClass.ReadPositions | ib/test.py:35-39 | `reqPositions`, then every arrived position upserted in order; that table is returned |
| IbTest.IbClass.ReadNavs | ib/test.py:41-46 | `reqAccountSummary(0, "All", "NetLiquidation")`, then every arrived row upserted in order; that table is returned |
| IbTest.PositionKey | ib/test.py:28 | the label splits back into the account and the symbol at the account's length |
| IbTest.PositionKeyInjective | ib/test.py:28 | for accounts of equal length the label determines account and symbol |
| IbTest.PositionKeyCollides | ib/test.py:28-29 | accounts of different length can collide: ("U1","23") and ("U12","3") share a label |
| IbTest.PositionEntry | ib/test.py:27-29 | a position is written under `PositionKey(account, symbol)` and holds account, symbol, quantity, average cost and sec type |
| IbTest.PositionEntries | ib/test.py:27-29 | one entry per arrived position, in arrival order |
| IbTest.AccountEntries | ib/test.py:31-33 | each account row is written under its account, in arrival order |
| IbTest.PositionUpsertKeyed | ib/test.py:27-29 | a position write keeps labels unique and each row under its own label |
| IbTest.AccountUpsertKeyed | ib/test.py:31-33 | an account write keeps labels unique and each row under its account |
| IbTest.OneRowPerAccount | ib/test.py:31-33 | a keyed accounts table never holds two rows for one account |
| IbTest.RepeatedPositionOverwrites | ib/test.py:27-29 | a repeated position for the same account and symbol leaves no trace of the first |
| IbTest.AccountSummaryLatestWins | ib/test.py:31-33 | after a series of account rows, the accounts present are the old ones plus the reported ones; each reported account holds its latest row, others keep theirs |
| Frames.Upsert | ib/test.py:29 | `loc[label] = row`: cells under the label hold the row, others unchanged, labels gain the new label only if absent |
| Frames.UpsertKeepsDistinct | ib/test.py:29 | an upsert keeps labels unique |
| Frames.UpsertTwice | ib/test.py:29 | two writes under one label equal the second write alone |
| Frames.UpsertAllDistinct | ib/api.py:229 | a series of upserts keeps labels unique |
| Frames.UpsertAllKeys | ib/api.py:223-229 | after a series of upserts a label is present iff it was present or was written |
| Frames.UpsertAllLastWins | ib/api.py:223-229 | a written label holds the value of its last write |
| Frames.UpsertAllUntouched | ib/test.py:31-33 | a label never written keeps its value |
| Frames.BuildFirstAppearanceOrder | ib/api.py:229 | rows built from nothing stand in the order their labels first appear |
| Text.RemoveAllAbsent | prices/prices.py:60 | `replace(pat, '')` with no occurrence returns the string unchanged |
| Text.RemoveSuffix | prices/prices.py:60 | `(code + pat).replace(pat, '')` is `code` when `code` cannot start an occurrence |
| Text.RemoveAll | prices/prices.py:60 | `replace(pat, '')` never lengthens the string |
| Prices.DataFrame.Copy | prices/prices.py:79 | a fresh frame with the same index and columns |
| Prices.DataFrame.SetColumn | prices/prices.py:82-83 | `df[label] = col` is an upsert of the column (`Frames.Upsert`); every column keeps one cell per row |
| Prices.DataFrame.SetWhere | prices/prices.py:96-99 | `loc[mask, label] = v` writes v where the mask holds over the old column, or over NaN for a new label |
| Prices.UpsertRectangular | prices/prices.py:82-83 | writing a full column keeps every column one cell per row |
| Prices.NaNColumn | prices/prices.py:96-99 | a label not yet present reads as a column of NaN, one cell per row |
| Prices.ColumnOr | prices/prices.py:96-99 | the column a masked write starts from has one cell per row (`ColumnOrFound`/`ColumnOrMissing` say which) |
| Prices.ColumnOrFound | prices/prices.py:96-99 | an existing label's column is the one a masked write starts from |
| Prices.ColumnOrMissing | prices/prices.py:96-99 | a missing label starts from NaN in every row |
| Prices.Masked | prices/prices.py:96-99 | cell i becomes the value where the mask holds and keeps its old value elsewhere |
| Prices.DataFrame.SortIndexDescending | prices/prices.py:84 | rows are permuted whole by `DescendingOrder`; labels unchanged |
| Prices.DescendingOrder | prices/prices.py:84 | a permutation of the row positions along which the index does not increase |
| Prices.SortPrefix | prices/prices.py:84 | the first k row positions, rearranged so the index does not increase along them |
| Prices.InsertDescending | prices/prices.py:84 | inserting a row position adds exactly that position to the order |
| Prices.Permute | prices/prices.py:84 | element k of the sorted sequence is the element at the k-th position of the order |
| Prices.PermuteRows | prices/prices.py:84 | the same labels, each column permuted along the order |
| Prices.SortedIndexDescends | prices/prices.py:84 | in the sorted frame the index never increases and no original row is taken twice |
| Prices.InsertKeepsDescending | prices/prices.py:84 | inserting a row position keeps the order non-increasing |
| Prices.FxTickers | prices/prices.py:10 | one `<CCY>USD=X` ticker per currency, same order |
| Prices.FxTicker | prices/prices.py:10 | the currency code followed by `USD=X` |
| Prices.FxTickerRoundTrip | prices/prices.py:10-11 | the currency is read back from its ticker, so distinct currencies get distinct tickers |
| Prices.FetchLastCloseSpot | prices/prices.py:20-26 | ValueError iff the quote count differs from the ticker count, else the left merge |
| Prices.SpotRowsMatchCurrencies | prices/prices.py:25-26 | with distinct currencies and known tickers each quote yields one row naming the currency its ticker was built from |
| Prices.SingleMatch | prices/prices.py:25 | with distinct currencies a ticker matches exactly its own currency |
| Prices.Matches | prices/prices.py:25 | exactly the currencies whose ticker equals the quote's ticker |
| Prices.NoMatch | prices/prices.py:25 | a ticker built from no currency matches none, so the merged row has no currency |
| Prices.QuandlTickers | prices/prices.py:60 | one code per ticker, same order, each `HKEX/0` + the ticker without `.HK` |
| Prices.QuandlTickerOfHkCode | prices/prices.py:60 | `<code>.HK` maps to `HKEX/0<code>` and back; other tickers are only prefixed |
| Prices.PreviousCloseColumns | prices/prices.py:62 | exactly the columns whose label contains "Previous Close" |
| Prices.Rename | prices/prices.py:63 | positional relabelling: the labels are the names, the columns unchanged |
| Prices.FetchHkClosePrices | prices/prices.py:59-64 | ValueError iff the Previous Close count differs from the ticker count; else those columns, labelled by the tickers in order |
| Prices.PctChange | prices/prices.py:82 | NaN first, then the change from the forward-padded predecessor to the forward-padded cell (the default `fill_method='pad'`) |
| Prices.LastValidPads | prices/prices.py:82 | padding keeps every value, fills a NaN from the row above, and leaves a row NaN iff no value has appeared up to it |
| Prices.PadForward | prices/prices.py:82 | `fillna(method='pad')`: row i holds the last value at or above it |
| Prices.PadForwardComplete | prices/prices.py:82 | a column without NaN is left unchanged by padding |
| Prices.PctChangeComplete | prices/prices.py:82 | on a column without NaN each row's change is from its immediate predecessor |
| Prices.PctChangePadsGap | prices/prices.py:82 | for `[a, NaN, b]` the result is NaN, the change from a to a, and the change from a to b |
| Prices.LogColumn | prices/prices.py:83 | `np.log(1 + col)` applied cell by cell |
| Prices.ReturnEntries | prices/prices.py:81-82 | the first k `<t>_return` columns, each the pct change of its ticker's column |
| Prices.LogReturnColumns | prices/prices.py:83 | after k tickers, copy column j is the log of its pct change for j < k and unchanged after |
| Prices.ReturnsStep | prices/prices.py:81-83 | one ticker t: both frames keep one cell per row, the input's earlier labels stay first, and a copy that has t keeps exactly its labels |
| Prices.ReturnsAfter | prices/prices.py:79-83 | the original labels stay first in the input, and the copy keeps exactly the original labels |
| Prices.ReturnsAfterDistinct | prices/prices.py:79-83 | with distinct original labels, both frames keep distinct labels |
| Prices.ReturnsWithoutClash | prices/prices.py:79-83 | without label clashes the input is the original plus one `<t>_return` pct-change column per ticker in order, and copy column t is the log of that |
| Prices.AddReturnColumns | prices/prices.py:80-83 | the loop leaves the input and the copy at `ReturnsAfter` over every ticker |
| Prices.ReturnsTurn | prices/prices.py:81-83 | one iteration moves both frames from `ReturnsAfter` of j tickers to that of j+1 |
| Prices.CalcHistoricalLogReturns | prices/prices.py:67-85 | the input ends as `ReturnsAfter`'s input; the result is its copy with rows sorted by descending index; distinct labels stay distinct in both |
| Prices.MoveColumn | prices/prices.py:96-99 | each row's cell is `MoveCell` of its value over the prior cell |
| Prices.MoveCellFollowsPrecedence | prices/prices.py:96-99 | the four assignments in order tag a number by the rule 2-SD jump > 1-SD jump > 2-SD drop > 1-SD drop |
| Prices.NaNIsNeverTagged | prices/prices.py:96-99 | a NaN value, mean or sd leaves the cell as it was |
| Prices.SdBands | prices/prices.py:96-99 | with sd > 0 each tag is exactly its band around the mean, and values strictly within one sd get none |
| Prices.ZeroSdAtMean | prices/prices.py:96-99 | with sd = 0, a value at the mean ends tagged "2 SD JUMP" because jumps are assigned last |
| Prices.AtMostMask | prices/prices.py:96-97 | mask i holds iff the value is at most the bound; NaN compares false |
| Prices.AtLeastMask | prices/prices.py:98-99 | mask i holds iff the value is at least the bound; NaN compares false |
| Prices.MaskedWritesCombine | prices/prices.py:96-99 | two masked writes to one label are one write of the combined column |
| Prices.FourWritesAreMoveColumn | prices/prices.py:96-99 | the four masked writes compose to `MoveColumn` |
| Prices.TagColumn | prices/prices.py:96-99 | after the four writes the label holds `MoveColumn` over its earlier column |
| Prices.MovesAfter | prices/prices.py:89-99 | after k tickers every column still has one cell per row (`MovesAfterStep` gives each step) |
| Prices.MovesStep | prices/prices.py:92-99 | one ticker keeps every column one cell per row |
| Prices.MovesAfterStep | prices/prices.py:92-99 | step k writes `<t>_move` as `MoveColumn` of ticker k over that label's earlier column, or NaN |
| Prices.MovesAfterKeepsLabels | prices/prices.py:89-99 | every label of the returns frame stays in the copy |
| Prices.MovesAfterDistinct | prices/prices.py:89-99 | distinct returns labels stay distinct in the copy |
| Prices.MoveEntry | prices/prices.py:94-99 | ticker j's event column is labelled `<t>_move` |
| Prices.MoveEntries | prices/prices.py:94-99 | the first k event columns, each `MoveColumn` of its ticker over NaN |
| Prices.MovesWithoutClash | prices/prices.py:89-99 | without label clashes the copy is the returns columns plus one tagged `<t>_move` column per ticker, in order |
| Prices.AddMoveColumns | prices/prices.py:91-99 | the loop leaves the copy at `MovesAfter` over every ticker |
| Prices.TagTicker | prices/prices.py:92-99 | one iteration moves the copy from `MovesAfter` of k tickers to that of k+1 |
| Prices.TagSdMoves | prices/prices.py:88-100 | the result has the returns frame's index and `MovesAfter`'s columns, with distinct labels when the returns frame's are; the returns frame is not modified |
| FetchReturns.QuandlTickersAgree | prices/fetch_returns.py:39 | the concatenated codes equal those of the newer helper, in order |
| FetchReturns.QuandlTickers | prices/fetch_returns.py:39 | one code per ticker; `QuandlTickersAgree` and `QuandlTickerShape` give the codes |
| FetchReturns.QuandlTickerShape | prices/fetch_returns.py:39 | each code is `HKEX/0` + the ticker without `.HK`; `<code>.HK` gives `HKEX/0<code>` |
| FetchReturns.FetchHkClosePrices | prices/fetch_returns.py:38-43 | ValueError iff the Previous Close count differs from the ticker count; else the columns are labelled by the tickers |
| FetchReturns.FetchHkAgrees | prices/fetch_returns.py:26-43 | the same frame or error as the newer helper for every download |
| FetchReturns.CalcReturns | prices/fetch_returns.py:46-63 | the result keeps exactly the original labels, and its index is the input's index permuted by `DescendingOrder`, so it never increases; the input keeps its labels; with distinct labels, none of them already `<t>_return`, it gains the `_return` columns in order and the result holds their logs |
| FetchReturns.CalcSdMove | prices/fetch_returns.py:66-78 | same index and the original labels; with distinct labels, none of them already `<t>_move`, one tagged `_move` column is appended per ticker; the input is not modified |

## Left out

- `finishableQueue`, `simpleCache`, `list_of_identified_items` and `identifed_as` come from `ib/account_utils_api.py`, which is not part of this model. Their blocking wait, timeout flag, staleness rule and demultiplexing are inputs: the drained list, a `timedOut` flag and the cached payload.
- `TestWrapper.init_positions` and `init_accounts` only hand the queue objects to those helpers. The queues themselves are modelled as fields.
- `_update_accounting_data` and `get_accounting_time_from_server` run entirely through the cache, which is not part of this model.
- Threads and connections are not modelled: `TestApp`, `setup()`, `connect`/`run` and the `time.sleep` waits in ib/ib.py and ib/test.py. The callbacks that arrive during a wait are passed in as a sequence, in arrival order: the `position` callbacks of `get_positions`' first wait and the `tickPrice` callbacks of each wait after a market-data request.
- InteractiveBrokers.InteractiveBrokersApi.GetPositions: `position` callbacks that arrive after the first wait are not modelled, and ticks arrive only during the waits after the market-data requests.
- Callbacks that arrive after a synchronous wrapper has returned are not modelled. One example is `tickPrice` after `get_positions`; those ticks are modelled only as separate `TickPrice` calls.
- Log output is not modelled: its text, the error-string formatting and `print`. Only whether something is logged is modelled, plus the attempt number and the drained error messages.
- `yf.download`, `quandl.get` and `fetch_close_prices_yfinance` (both files) are network I/O and are not modelled. The yfinance `iloc[-1:]`/`stack` reshaping is pandas internals; the downloaded quotes are an input.
- The numerics are not modelled: `pct_change` arithmetic, `np.log`, `mean` and `std`. They are parameters: a change function, a cell function, and functions returning None for NaN.
- The Weight column of `get_accounting_updates` (ib/api.py:231) is floating-point arithmetic and is left out.
- Duplicate column labels: pandas allows them, and so does `Prices.DataFrame.Valid`, which only asks for one cell per row. Distinct labels are a hypothesis of the lemmas that need them, and the loops keep them distinct.
- Prices.CalcHistoricalLogReturns and Prices.TagSdMoves do not raise on a duplicated ticker label. In pandas, `df[ticker]` is then a DataFrame, and the `_return` assignment (prices/prices.py:82, prices/fetch_returns.py:60) and the masked `loc` writes (prices/prices.py:96-99) raise ValueError. The model instead returns normally: it reads the first column under that label and writes every column under it. The same holds for FetchReturns.CalcReturns and FetchReturns.CalcSdMove.
- Prices.DataFrame.SortIndexDescending: the relative order of rows with equal index values is not promised by pandas, so the model fixes one order.
- Prices.TagSdMoves: cells are not typed. pandas would raise on `mean` of a text column; here `mean` is a parameter.
- Retry.FuncWithRetries: `**kwargs` are folded into `args`, and the wrapped function's behaviour is a function of the call number.
- Gaps in `ib/ib.py`: `pnl`, `get_pnl_columns` and `enrich` do nothing, and the `TickAttrib` argument is ignored.
- app/app.py, ib/app.py and utils/logutils.py are driver scripts and logging set-up. They are not part of this model.
