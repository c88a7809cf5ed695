/**
 * ib/api.py: the callback sink `TestWrapper`, whose overridden feed callbacks
 * put tagged items or the FINISHED sentinel on per-request FIFO queues, and
 * the consumer `TestClient`, which post-processes what was drained.
 *
 * A `queue.Queue` is a `seq` field (put = append at the end, get = take the
 * head).  What `finishableQueue.get` drains and what the account cache returns
 * come from code that is not part of this model, so they are parameters.
 */
module IbApi {
  import opened Wrappers
  import opened Frames

  /** The fields of an ibapi `Contract` that the callbacks read. */
  datatype Contract = Contract(symbol: string, secType: string, currency: string)

  /** A row of `positionsDF`, columns Account, Symbol, Quantity, Average Cost, Sec Type. */
  datatype PositionRow = PositionRow(account: string, symbol: string, quantity: real, averageCost: real, secType: string)

  /** The `positionsDF` DataFrame object: `position` mutates it in place and puts the object itself on the queue. */
  class PositionsTable {
    var rows: seq<PositionRow>

    constructor ()
      ensures rows == []
    {
      rows := [];
    }
  }

  /** What `_my_positions` carries: the table object, or the FINISHED sentinel. */
  datatype PositionsItem = PositionsSnapshot(table: PositionsTable) | PositionsFinished

  /** An error reported by the feed, `"Id: …, ErrorCode: …, ErrorMsg: …"` kept as its three parts. */
  datatype ErrorMessage = ErrorMessage(id: int, errorCode: int, errorString: string)

  datatype AccountFlag = AccountValueFlag | AccountUpdateFlag | AccountTimeFlag

  /** The 7-tuple `updatePortfolio` tags with ACCOUNT_UPDATE_FLAG. */
  datatype PortfolioItem = PortfolioItem(contract: Contract, position: real, marketPrice: real, marketValue: real,
                                         averageCost: real, unrealizedPnl: real, realizedPnl: real)

  datatype AccountData =
    | AccountValue(key: string, val: string, currency: string)
    | PortfolioUpdate(item: PortfolioItem)
    | AccountTime(timeStamp: string)

  /** What an account queue carries: `identifed_as(flag, data)`, or the FINISHED sentinel. */
  datatype AccountItem = Identified(flag: AccountFlag, data: AccountData) | AccountFinished

  /** The flag each kind of account data is tagged with. */
  function FlagOf(d: AccountData): AccountFlag
  {
    match d
    case AccountValue(_, _, _) => AccountValueFlag
    case PortfolioUpdate(_) => AccountUpdateFlag
    case AccountTime(_) => AccountTimeFlag
  }

  /** Every tagged item on an account queue carries the flag of its own kind of data. */
  predicate WellTagged(q: seq<AccountItem>)
  {
    forall i :: 0 <= i < |q| && q[i].Identified? ==> q[i].flag == FlagOf(q[i].data)
  }

  class TestWrapper {
    /** IB_ACCOUNT_NAME, the one key of `_my_accounts`. */
    const ibAccountName: string
    const positionsDF: PositionsTable
    var myAccounts: map<string, seq<AccountItem>>
    var myPositions: seq<PositionsItem>
    var myErrors: seq<ErrorMessage>

    /**
     * The object invariant: one account queue, under IB_ACCOUNT_NAME, whose items
     * are tagged consistently, and every positions snapshot is the one
     * `positionsDF` object (so whoever takes any of them sees every row added so far).
     */
    ghost predicate Valid()
      reads this
    {
      && myAccounts.Keys == {ibAccountName}
      && WellTagged(myAccounts[ibAccountName])
      && forall i :: 0 <= i < |myPositions| && myPositions[i].PositionsSnapshot? ==> myPositions[i].table == positionsDF
    }

    constructor (ibAccountName: string)
      ensures Valid() && fresh(positionsDF)
      ensures this.ibAccountName == ibAccountName && positionsDF.rows == []
      ensures myAccounts[ibAccountName] == [] && myPositions == [] && myErrors == []
    {
      this.ibAccountName := ibAccountName;
      positionsDF := new PositionsTable();
      myAccounts := map[ibAccountName := []];
      myPositions := [];
      myErrors := [];
    }

    /** `is_error`: the error queue is not empty. */
    predicate IsError()
      reads this
      ensures IsError() <==> |myErrors| > 0
    {
      myErrors != []
    }

    /**
     * `get_error`: with nothing queued, None and the queue is untouched;
     * otherwise the oldest message is removed and returned (FIFO).
     */
    method GetError() returns (msg: Option<ErrorMessage>)
      modifies this`myErrors
      ensures msg.None? <==> old(myErrors) == []
      ensures old(myErrors) == (if msg.Some? then [msg.value] else []) + myErrors
    {
      if IsError() {
        msg := Some(myErrors[0]);
        myErrors := myErrors[1..];
      } else {
        msg := None;
      }
    }

    /** `error`: exactly one message is queued when `id > -1`; otherwise nothing changes. */
    method Error(id: int, errorCode: int, errorString: string)
      modifies this`myErrors
      ensures id > -1 ==> myErrors == old(myErrors) + [ErrorMessage(id, errorCode, errorString)]
      ensures id <= -1 ==> myErrors == old(myErrors)
    {
      if id > -1 {
        myErrors := myErrors + [ErrorMessage(id, errorCode, errorString)];
      }
    }

    /**
     * `position`: `positionsDF.loc[symbol] = …` followed by `reset_index(drop=True)`.
     * After the reset the labels are 0..n-1, so a symbol never matches an
     * existing label and the row is always appended; the table object itself
     * goes on the positions queue.
     */
    method Position(account: string, contract: Contract, pos: real, avgCost: real)
      requires Valid()
      modifies positionsDF`rows, this`myPositions
      ensures Valid()
      ensures positionsDF.rows == old(positionsDF.rows) + [PositionRow(account, contract.symbol, pos, avgCost, contract.secType)]
      ensures myPositions == old(myPositions) + [PositionsSnapshot(positionsDF)]
    {
      positionsDF.rows := positionsDF.rows + [PositionRow(account, contract.symbol, pos, avgCost, contract.secType)];
      myPositions := myPositions + [PositionsSnapshot(positionsDF)];
    }

    /** `positionEnd`: the FINISHED sentinel closes the positions queue. */
    method PositionEnd()
      requires Valid()
      modifies this`myPositions
      ensures Valid()
      ensures myPositions == old(myPositions) + [PositionsFinished]
    {
      myPositions := myPositions + [PositionsFinished];
    }

    /** Appends one item to the IB_ACCOUNT_NAME queue, whatever account the callback named. */
    method PutAccountItem(item: AccountItem)
      requires Valid()
      requires item.Identified? ==> item.flag == FlagOf(item.data)
      modifies this`myAccounts
      ensures Valid()
      ensures myAccounts == old(myAccounts)[ibAccountName := old(myAccounts[ibAccountName]) + [item]]
    {
      myAccounts := myAccounts[ibAccountName := myAccounts[ibAccountName] + [item]];
    }

    /** `updateAccountValue`: one ACCOUNT_VALUE_FLAG item `(key, val, currency)`. */
    method UpdateAccountValue(key: string, val: string, currency: string, accountName: string)
      requires Valid()
      modifies this`myAccounts
      ensures Valid()
      ensures myAccounts == old(myAccounts)[ibAccountName :=
        old(myAccounts[ibAccountName]) + [Identified(AccountValueFlag, AccountValue(key, val, currency))]]
    {
      PutAccountItem(Identified(AccountValueFlag, AccountValue(key, val, currency)));
    }

    /** `updatePortfolio`: one ACCOUNT_UPDATE_FLAG item holding the 7-tuple. */
    method UpdatePortfolio(contract: Contract, position: real, marketPrice: real, marketValue: real,
                           averageCost: real, unrealizedPnl: real, realizedPnl: real, accountName: string)
      requires Valid()
      modifies this`myAccounts
      ensures Valid()
      ensures myAccounts == old(myAccounts)[ibAccountName := old(myAccounts[ibAccountName]) +
        [Identified(AccountUpdateFlag, PortfolioUpdate(PortfolioItem(contract, position, marketPrice, marketValue,
                                                                      averageCost, unrealizedPnl, realizedPnl)))]]
    {
      PutAccountItem(Identified(AccountUpdateFlag, PortfolioUpdate(PortfolioItem(contract, position, marketPrice, marketValue,
                                                                                 averageCost, unrealizedPnl, realizedPnl))));
    }

    /** `updateAccountTime`: one ACCOUNT_TIME_FLAG item. */
    method UpdateAccountTime(timeStamp: string)
      requires Valid()
      modifies this`myAccounts
      ensures Valid()
      ensures myAccounts == old(myAccounts)[ibAccountName :=
        old(myAccounts[ibAccountName]) + [Identified(AccountTimeFlag, AccountTime(timeStamp))]]
    {
      PutAccountItem(Identified(AccountTimeFlag, AccountTime(timeStamp)));
    }

    /** `accountDownloadEnd`: the FINISHED sentinel closes the account queue. */
    method AccountDownloadEnd(accountName: string)
      requires Valid()
      modifies this`myAccounts
      ensures Valid()
      ensures myAccounts == old(myAccounts)[ibAccountName := old(myAccounts[ibAccountName]) + [AccountFinished]]
    {
      PutAccountItem(AccountFinished);
    }
  }

  /** Requests the client sends to the feed. */
  datatype Request = ReqPositions

  /** Why `get_current_positions` raises. */
  datatype PositionsError =
    | NoPositionsReceived                              // `current_positions[0]` on an empty list: IndexError
    | IncorrectPortfolioSize(expected: int, found: int)

  /** The `Key`/`Amount`/`Currency` DataFrame of `get_accounting_values`, column by column. */
  datatype AccountValuesFrame = AccountValuesFrame(key: seq<string>, amount: seq<string>, currency: seq<string>)

  /** A row of the `get_accounting_updates` DataFrame (its Weight column is not part of this model). */
  datatype UpdateRow = UpdateRow(symbol: string, position: real, lastPrice: real, avgPrice: real, marketValue: real,
                                 unrealizedPnl: real, realizedPnl: real)

  /**
   * One item as a row: LastPrice, AvgPrice and MarketValue are converted with
   * HKD_TO_USD_RATE when, and only when, the contract's currency is "HKD";
   * Position and the two PnL fields are copied unchanged.
   */
  function UsdRow(item: PortfolioItem, hkdToUsdRate: real): (r: UpdateRow)
    ensures r.symbol == item.contract.symbol && r.position == item.position
    ensures r.unrealizedPnl == item.unrealizedPnl && r.realizedPnl == item.realizedPnl
    ensures item.contract.currency == "HKD" ==>
      r.lastPrice == item.marketPrice * hkdToUsdRate && r.avgPrice == item.averageCost * hkdToUsdRate
      && r.marketValue == item.marketValue * hkdToUsdRate
    ensures item.contract.currency != "HKD" ==>
      r.lastPrice == item.marketPrice && r.avgPrice == item.averageCost && r.marketValue == item.marketValue
  {
    var rate := if item.contract.currency == "HKD" then hkdToUsdRate else 1.0;
    UpdateRow(item.contract.symbol, item.position, item.marketPrice * rate, item.averageCost * rate,
              item.marketValue * rate, item.unrealizedPnl, item.realizedPnl)
  }

  /** `accountingUpdatesDF.loc[contract.symbol] = …`, one labelled row per item, in order. */
  function UpdateEntries(items: seq<PortfolioItem>, hkdToUsdRate: real): (es: seq<Entry<string, UpdateRow>>)
    ensures |es| == |items|
    ensures forall i :: 0 <= i < |items| ==> es[i] == Entry(items[i].contract.symbol, UsdRow(items[i], hkdToUsdRate))
  {
    seq(|items|, i requires 0 <= i < |items| => Entry(items[i].contract.symbol, UsdRow(items[i], hkdToUsdRate)))
  }

  /**
   * The accounting-updates table keeps one row per contract symbol, holds a row
   * for exactly the symbols that occur, and each row comes from the last item
   * with that symbol; rows stand in the order their symbols first occur.
   */
  lemma {:induction false} AccountingUpdatesOneRowPerSymbol(items: seq<PortfolioItem>, rate: real, sym: string)
    ensures var es := UpdateEntries(items, rate);
      && DistinctKeys(Build(es))
      && (sym in Keys(Build(es)) <==> exists i :: 0 <= i < |items| && items[i].contract.symbol == sym)
      && (sym in Keys(es) ==> Get(Build(es), sym) == UsdRow(items[LastIndexOf(es, sym)], rate))
  {
    var es := UpdateEntries(items, rate);
    UpsertAllDistinct([], es);
    UpsertAllKeys([], es, sym);
    if sym in Keys(es) {
      UpsertAllLastWins([], es, sym);
    }
    if exists i :: 0 <= i < |items| && items[i].contract.symbol == sym {
      var i :| 0 <= i < |items| && items[i].contract.symbol == sym;
      assert Keys(es)[i] == sym;
    }
  }

  class TestClient {
    const wrapper: TestWrapper
    /** EXPECTED_PORTFOLIO_SIZE and HKD_TO_USD_RATE, configuration constants of the repository. */
    const expectedPortfolioSize: int
    const hkdToUsdRate: real
    var requests: seq<Request>

    constructor (wrapper: TestWrapper, expectedPortfolioSize: int, hkdToUsdRate: real)
      ensures this.wrapper == wrapper && this.expectedPortfolioSize == expectedPortfolioSize
      ensures this.hkdToUsdRate == hkdToUsdRate && requests == []
    {
      this.wrapper := wrapper;
      this.expectedPortfolioSize := expectedPortfolioSize;
      this.hkdToUsdRate := hkdToUsdRate;
      requests := [];
    }

    /** `while self.wrapper.is_error(): log(self.wrapper.get_error())`: every pending error is logged, oldest first. */
    method DrainErrors() returns (logged: seq<ErrorMessage>)
      modifies wrapper`myErrors
      ensures logged == old(wrapper.myErrors) && wrapper.myErrors == []
    {
      logged := [];
      while wrapper.IsError()
        invariant old(wrapper.myErrors) == logged + wrapper.myErrors
        decreases |wrapper.myErrors|
      {
        var msg := wrapper.GetError();
        logged := logged + [msg.value];
      }
    }

    /**
     * `get_current_positions` (one attempt; the retry decorator is modelled in
     * module Retry).  `drained` is what the finishable queue returned: the
     * snapshots that arrived before FINISHED.  The first snapshot is taken
     * (IndexError when there is none, before any error is drained); then every
     * pending feed error is logged, a timeout is logged, and the table is
     * returned only when it has exactly EXPECTED_PORTFOLIO_SIZE rows.
     */
    method GetCurrentPositions(drained: seq<PositionsTable>, timedOut: bool)
      returns (r: Result<PositionsTable, PositionsError>, errorsLogged: seq<ErrorMessage>, timeoutLogged: bool)
      modifies this`requests, wrapper`myErrors
      ensures requests == old(requests) + [ReqPositions]
      ensures drained == [] ==>
        r == Err(NoPositionsReceived) && errorsLogged == [] && !timeoutLogged && wrapper.myErrors == old(wrapper.myErrors)
      ensures drained != [] ==>
        && errorsLogged == old(wrapper.myErrors) && wrapper.myErrors == [] && timeoutLogged == timedOut
        && r == if |drained[0].rows| == expectedPortfolioSize then Ok(drained[0])
                else Err(IncorrectPortfolioSize(expectedPortfolioSize, |drained[0].rows|))
    {
      requests := requests + [ReqPositions];
      if drained == [] {
        return Err(NoPositionsReceived), [], false;
      }
      var current := drained[0];
      errorsLogged := DrainErrors();
      timeoutLogged := timedOut;
      if |current.rows| != expectedPortfolioSize {
        r := Err(IncorrectPortfolioSize(expectedPortfolioSize, |current.rows|));
      } else {
        r := Ok(current);
      }
    }

    /**
     * `get_accounting_values`: the cached `(key, value, currency)` triples are
     * split into three columns of equal length; row i is the i-th triple.
     */
    method GetAccountingValues(cached: seq<(string, string, string)>) returns (frame: AccountValuesFrame)
      ensures |frame.key| == |frame.amount| == |frame.currency| == |cached|
      ensures forall i :: 0 <= i < |cached| ==> (frame.key[i], frame.amount[i], frame.currency[i]) == cached[i]
    {
      var dataLabels, amounts, currencies := [], [], [];
      for i := 0 to |cached|
        invariant |dataLabels| == |amounts| == |currencies| == i
        invariant forall j :: 0 <= j < i ==> (dataLabels[j], amounts[j], currencies[j]) == cached[j]
      {
        dataLabels := dataLabels + [cached[i].0];
        amounts := amounts + [cached[i].1];
        currencies := currencies + [cached[i].2];
      }
      frame := AccountValuesFrame(dataLabels, amounts, currencies);
    }

    /** The body of `get_accounting_updates`' loop before the write: the item as a row, prices in USD. */
    method ConvertItem(item: PortfolioItem) returns (row: UpdateRow)
      ensures row == UsdRow(item, hkdToUsdRate)
    {
      var lastPrice, avgPrice, marketVal := item.marketPrice, item.averageCost, item.marketValue;
      if item.contract.currency == "HKD" {
        lastPrice := lastPrice * hkdToUsdRate;
        avgPrice := avgPrice * hkdToUsdRate;
        marketVal := marketVal * hkdToUsdRate;
      }
      row := UpdateRow(item.contract.symbol, item.position, lastPrice, avgPrice, marketVal,
                       item.unrealizedPnl, item.realizedPnl);
    }

    /**
     * `get_accounting_updates`: each cached portfolio item is written with
     * `loc[contract.symbol] = …` (an upsert keyed by symbol), after the HKD
     * conversion of its prices.
     */
    method GetAccountingUpdates(cached: seq<PortfolioItem>) returns (table: seq<Entry<string, UpdateRow>>)
      ensures table == Build(UpdateEntries(cached, hkdToUsdRate))
    {
      ghost var es := UpdateEntries(cached, hkdToUsdRate);
      table := [];
      for i := 0 to |cached|
        invariant table == Build(es[..i])
      {
        var item := cached[i];
        var row := ConvertItem(item);
        UpsertAllSnoc([], es, i);
        table := Upsert(table, item.contract.symbol, row);
      }
      assert es[..|cached|] == es;
    }
  }
}
