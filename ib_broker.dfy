/**
 * ib/ib.py: `InteractiveBrokersApi`, whose callbacks rebuild or write into the
 * `all_positions` and `all_accounts` DataFrames, and whose synchronous
 * wrappers send requests and return those frames.
 *
 * `all_positions` is built by `concat(…, ignore_index=True)`, so its row
 * labels are always 0..n-1 and a row is addressed by its position.  The
 * callbacks that the feed delivers while a wrapper sleeps are passed to the
 * wrapper as the sequence of calls that arrived during each wait.
 */
module InteractiveBrokers {
  import opened Wrappers

  /** The fields of an ibapi `Contract` that the callbacks read. */
  datatype Contract = Contract(symbol: string, secType: string)

  /**
   * A row of `all_positions`: symbol, position, avg_cost, sec_type, contract,
   * and the Bid and Ask cells that `tickPrice` creates (absent, NaN, until written).
   */
  datatype PositionRow = PositionRow(symbol: string, position: real, avgCost: real, secType: string, contract: Contract,
                                     bid: Option<real>, ask: Option<real>)

  /** A row of `all_accounts`: reqId, account, tag, value, currency. */
  datatype AccountRow = AccountRow(reqId: int, account: string, tag: string, value: string, currency: string)

  /** One `position` callback as delivered by the feed. */
  datatype PositionCall = PositionCall(account: string, contract: Contract, position: real, avgCost: real)

  /** Requests sent to the feed, in order. */
  datatype Request =
    | ReqPositions
    | ReqMarketDataType(marketDataType: int)
    | ReqMktData(reqId: int, contract: Contract)
    | ReqAccountSummary(reqId: int, groupName: string, tags: string)

  /** `TickTypeEnum.DELAYED_BID` and `TickTypeEnum.DELAYED_ASK` of the ibapi package. */
  const DelayedBid := 66
  const DelayedAsk := 67
  /** Market data type 4: delayed-frozen data. */
  const DelayedFrozen := 4

  /** Why a callback or wrapper raises: a `KeyError` on a missing row label or column. */
  datatype LookupError = MissingRowLabel(rowLabel: int) | MissingColumn(name: string)

  /** The row `position` appends for one callback; Bid and Ask start empty. */
  function NewRow(c: PositionCall): (r: PositionRow)
    ensures r.symbol == c.contract.symbol && r.secType == c.contract.secType && r.contract == c.contract
    ensures r.position == c.position && r.avgCost == c.avgCost
    ensures r.bid.None? && r.ask.None?
  {
    PositionRow(c.contract.symbol, c.position, c.avgCost, c.contract.secType, c.contract, None, None)
  }

  /** The rows appended by a series of `position` callbacks, one per call, in arrival order. */
  function NewRows(calls: seq<PositionCall>): (rs: seq<PositionRow>)
    ensures |rs| == |calls|
    ensures forall i :: 0 <= i < |calls| ==> rs[i] == NewRow(calls[i])
  {
    seq(|calls|, i requires 0 <= i < |calls| => NewRow(calls[i]))
  }

  /**
   * `tickPrice` on the positions table: a DELAYED_BID tick writes Bid and a
   * DELAYED_ASK tick writes Ask of the row labelled `reqId`, and only that
   * cell; a label that is not a row raises KeyError; any other tick type
   * changes nothing.
   */
  function TickUpdate(rows: seq<PositionRow>, reqId: int, tickType: int, price: real): (r: Result<seq<PositionRow>, LookupError>)
    ensures tickType != DelayedBid && tickType != DelayedAsk ==> r == Ok(rows)
    ensures (tickType == DelayedBid || tickType == DelayedAsk) ==>
      (r.Err? <==> !(0 <= reqId < |rows|)) && (r.Err? ==> r.error == MissingRowLabel(reqId))
    ensures r.Ok? ==> |r.value| == |rows|
    ensures r.Ok? ==> forall j :: 0 <= j < |rows| && j != reqId ==> r.value[j] == rows[j]
    ensures r.Ok? && tickType == DelayedBid ==>
      r.value[reqId] == rows[reqId].(bid := Some(price))
    ensures r.Ok? && tickType == DelayedAsk ==>
      r.value[reqId] == rows[reqId].(ask := Some(price))
  {
    if tickType == DelayedBid then
      if 0 <= reqId < |rows| then Ok(rows[reqId := rows[reqId].(bid := Some(price))]) else Err(MissingRowLabel(reqId))
    else if tickType == DelayedAsk then
      if 0 <= reqId < |rows| then Ok(rows[reqId := rows[reqId].(ask := Some(price))]) else Err(MissingRowLabel(reqId))
    else
      Ok(rows)
  }

  /** A bid tick and an ask tick for the same row give the same table in either order. */
  lemma BidAskCommute(rows: seq<PositionRow>, reqId: int, bid: real, ask: real)
    requires 0 <= reqId < |rows|
    ensures TickUpdate(TickUpdate(rows, reqId, DelayedBid, bid).value, reqId, DelayedAsk, ask)
         == TickUpdate(TickUpdate(rows, reqId, DelayedAsk, ask).value, reqId, DelayedBid, bid)
  {
    var a := TickUpdate(TickUpdate(rows, reqId, DelayedBid, bid).value, reqId, DelayedAsk, ask).value;
    var b := TickUpdate(TickUpdate(rows, reqId, DelayedAsk, ask).value, reqId, DelayedBid, bid).value;
    assert a[reqId] == b[reqId];
    assert a == b;
  }

  /** The latest tick of a kind wins: a second bid for a row replaces the first. */
  lemma LatestBidWins(rows: seq<PositionRow>, reqId: int, p1: real, p2: real)
    requires 0 <= reqId < |rows|
    ensures TickUpdate(TickUpdate(rows, reqId, DelayedBid, p1).value, reqId, DelayedBid, p2)
         == TickUpdate(rows, reqId, DelayedBid, p2)
  {
    var a := TickUpdate(TickUpdate(rows, reqId, DelayedBid, p1).value, reqId, DelayedBid, p2).value;
    assert a == rows[reqId := rows[reqId].(bid := Some(p2))];
  }

  /** One `tickPrice` callback as delivered by the feed. */
  datatype TickCall = TickCall(reqId: int, tickType: int, price: real)

  /**
   * The positions table after a series of `tickPrice` callbacks, in arrival
   * order.  A tick whose KeyError is raised inside the callback leaves the
   * table as it was.
   */
  function ApplyTicks(rows: seq<PositionRow>, ticks: seq<TickCall>): (r: seq<PositionRow>)
    ensures |r| == |rows|
    ensures forall j :: 0 <= j < |rows| ==> r[j] == rows[j].(bid := r[j].bid, ask := r[j].ask)
  {
    if ticks == [] then rows
    else
      var prev := ApplyTicks(rows, ticks[..|ticks| - 1]);
      var t := ticks[|ticks| - 1];
      var u := TickUpdate(prev, t.reqId, t.tickType, t.price);
      if u.Ok? then u.value else prev
  }

  /** The Bid cell for a DELAYED_BID tick type, the Ask cell otherwise. */
  function Quote(row: PositionRow, tickType: int): Option<real>
  {
    if tickType == DelayedBid then row.bid else row.ask
  }

  /** Whether tick `t` writes the `tickType` cell of row `j`. */
  predicate Hits(t: TickCall, j: int, tickType: int)
  {
    t.reqId == j && t.tickType == tickType
  }

  /**
   * After a series of ticks, the Bid (or Ask) cell of a row holds the price of
   * the latest DELAYED_BID (or DELAYED_ASK) tick for that row, and keeps its
   * earlier value when no such tick came.
   */
  lemma {:induction false} LatestTickWins(rows: seq<PositionRow>, ticks: seq<TickCall>, j: int, tickType: int)
    requires 0 <= j < |rows| && (tickType == DelayedBid || tickType == DelayedAsk)
    ensures (forall k :: 0 <= k < |ticks| ==> !Hits(ticks[k], j, tickType)) ==>
      Quote(ApplyTicks(rows, ticks)[j], tickType) == Quote(rows[j], tickType)
    ensures forall k :: 0 <= k < |ticks| && Hits(ticks[k], j, tickType)
                        && (forall m :: k < m < |ticks| ==> !Hits(ticks[m], j, tickType)) ==>
      Quote(ApplyTicks(rows, ticks)[j], tickType) == Some(ticks[k].price)
    decreases |ticks|, 1
  {
    if ticks != [] {
      LatestTickWinsSnoc(rows, ticks, j, tickType);
    }
  }

  /** The inductive case of `LatestTickWins`. */
  lemma {:induction false} LatestTickWinsSnoc(rows: seq<PositionRow>, ticks: seq<TickCall>, j: int, tickType: int)
    requires ticks != [] && 0 <= j < |rows| && (tickType == DelayedBid || tickType == DelayedAsk)
    ensures (forall k :: 0 <= k < |ticks| ==> !Hits(ticks[k], j, tickType)) ==>
      Quote(ApplyTicks(rows, ticks)[j], tickType) == Quote(rows[j], tickType)
    ensures forall k :: 0 <= k < |ticks| && Hits(ticks[k], j, tickType)
                        && (forall m :: k < m < |ticks| ==> !Hits(ticks[m], j, tickType)) ==>
      Quote(ApplyTicks(rows, ticks)[j], tickType) == Some(ticks[k].price)
    decreases |ticks|, 0
  {
    var n := |ticks| - 1;
    var p, t := ticks[..n], ticks[n];
    LatestTickWins(rows, p, j, tickType);
    var prev := ApplyTicks(rows, p);
    var now := ApplyTicks(rows, ticks);
    assert ticks[..|ticks| - 1] == p;
    if Hits(t, j, tickType) {
      assert Quote(now[j], tickType) == Some(t.price);
    } else {
      assert Quote(now[j], tickType) == Quote(prev[j], tickType);
      forall k | 0 <= k < n
        ensures ticks[k] == p[k]
      {
      }
    }
  }

  /** Ticks applied in two batches give the table of the ticks applied together. */
  lemma {:induction false} ApplyTicksAppend(rows: seq<PositionRow>, a: seq<TickCall>, b: seq<TickCall>)
    ensures ApplyTicks(rows, a + b) == ApplyTicks(ApplyTicks(rows, a), b)
    decreases |b|
  {
    if b == [] {
      assert a + b == a;
    } else {
      var n := |b| - 1;
      ApplyTicksAppend(rows, a, b[..n]);
      assert (a + b)[..|a + b| - 1] == a + b[..n];
    }
  }

  /** The ticks that arrive during wait `i` of `get_positions`; none when `waits` has no entry for it. */
  function DuringWait(waits: seq<seq<TickCall>>, i: nat): seq<TickCall>
  {
    if i < |waits| then waits[i] else []
  }

  /** The ticks that arrive during the first `n` waits, in arrival order. */
  function TicksDuring(waits: seq<seq<TickCall>>, n: nat): seq<TickCall>
  {
    if n == 0 then [] else TicksDuring(waits, n - 1) + DuringWait(waits, n - 1)
  }

  /**
   * The requests of `get_positions`' loop: for row i in row order,
   * `reqMarketDataType(4)` and then `reqMktData(i, contract_i)`.
   */
  function MarketDataRequests(contracts: seq<Contract>): (r: seq<Request>)
    ensures |r| == 2 * |contracts|
    ensures forall i :: 0 <= i < |contracts| ==>
      r[2 * i] == ReqMarketDataType(DelayedFrozen) && r[2 * i + 1] == ReqMktData(i, contracts[i])
  {
    if contracts == [] then []
    else
      var n := |contracts| - 1;
      MarketDataRequests(contracts[..n]) + [ReqMarketDataType(DelayedFrozen), ReqMktData(n, contracts[n])]
  }

  /** The `contract` column. */
  function ContractColumn(rows: seq<PositionRow>): (cs: seq<Contract>)
    ensures |cs| == |rows|
    ensures forall i :: 0 <= i < |rows| ==> cs[i] == rows[i].contract
  {
    seq(|rows|, i requires 0 <= i < |rows| => rows[i].contract)
  }

  /**
   * Request id i names row i: every `reqMktData` sent by `get_positions` asks
   * for the contract of the row whose label is its id, so the bid and ask
   * ticks that answer it land in that row and in no other.
   */
  lemma MarketDataIdsNameRows(rows: seq<PositionRow>, k: nat, tickType: int, price: real)
    requires k < |MarketDataRequests(ContractColumn(rows))|
    requires MarketDataRequests(ContractColumn(rows))[k].ReqMktData?
    ensures var id := MarketDataRequests(ContractColumn(rows))[k].reqId;
      && 0 <= id < |rows|
      && MarketDataRequests(ContractColumn(rows))[k].contract == rows[id].contract
      && TickUpdate(rows, id, tickType, price).Ok?
  {
    var cs := ContractColumn(rows);
    var r := MarketDataRequests(cs);
    var i := k / 2;
    assert k == 2 * i || k == 2 * i + 1;
    assert r[2 * i] == ReqMarketDataType(DelayedFrozen) && r[2 * i + 1] == ReqMktData(i, cs[i]);
  }

  class InteractiveBrokersApi {
    var allPositions: seq<PositionRow>
    var allAccounts: seq<AccountRow>
    var requests: seq<Request>

    constructor ()
      ensures allPositions == [] && allAccounts == [] && requests == []
    {
      allPositions := [];
      allAccounts := [];
      requests := [];
    }

    /** `error`: logs when `reqId > -1`; neither table is touched (it modifies nothing). */
    method Error(reqId: int, errorCode: int, errorString: string) returns (logged: bool)
      ensures logged <==> reqId > -1
    {
      logged := reqId > -1;
    }

    /** `position`: one row appended at the end; its label is the previous row count. */
    method Position(account: string, contract: Contract, position: real, avgCost: real)
      modifies this`allPositions
      ensures allPositions == old(allPositions) + [NewRow(PositionCall(account, contract, position, avgCost))]
    {
      var row := PositionRow(contract.symbol, position, avgCost, contract.secType, contract, None, None);
      allPositions := allPositions + [row];
    }

    /** `accountSummary`: the table is replaced by a one-row table holding this callback only. */
    method AccountSummary(reqId: int, account: string, tag: string, value: string, currency: string)
      modifies this`allAccounts
      ensures allAccounts == [AccountRow(reqId, account, tag, value, currency)]
    {
      allAccounts := [AccountRow(reqId, account, tag, value, currency)];
    }

    /**
     * `tickPrice`: the Bid or Ask cell of row `reqId` is written; when that
     * label is not a row the KeyError is returned and the table is unchanged.
     */
    method TickPrice(reqId: int, tickType: int, price: real) returns (outcome: Result<(), LookupError>)
      modifies this`allPositions
      ensures var u := TickUpdate(old(allPositions), reqId, tickType, price);
        && (u.Ok? ==> outcome == Ok(()) && allPositions == u.value)
        && (u.Err? ==> outcome == Err(u.error) && allPositions == old(allPositions))
    {
      outcome := Ok(());
      if tickType == DelayedBid {
        if !(0 <= reqId < |allPositions|) {
          return Err(MissingRowLabel(reqId));
        }
        allPositions := allPositions[reqId := allPositions[reqId].(bid := Some(price))];
      }
      if tickType == DelayedAsk {
        if !(0 <= reqId < |allPositions|) {
          return Err(MissingRowLabel(reqId));
        }
        allPositions := allPositions[reqId := allPositions[reqId].(ask := Some(price))];
      }
    }

    /**
     * `get_positions`: `reqPositions`, then the `position` callbacks that
     * arrive during the wait, then for each row the market-data requests and
     * the wait after them, during which the `tickPrice` callbacks `waits[i]`
     * arrive and write Bid and Ask into the same table that is returned.  A
     * table that never received a row has no `contract` column: KeyError.
     */
    method GetPositions(arrived: seq<PositionCall>, waits: seq<seq<TickCall>>) returns (r: Result<seq<PositionRow>, LookupError>)
      modifies this`allPositions, this`requests
      ensures var received := old(allPositions) + NewRows(arrived);
        && (received == [] ==>
              r == Err(MissingColumn("contract")) && allPositions == [] && requests == old(requests) + [ReqPositions])
        && (received != [] ==>
              && allPositions == ApplyTicks(received, TicksDuring(waits, |received|))
              && r == Ok(allPositions)
              && requests == old(requests) + [ReqPositions] + MarketDataRequests(ContractColumn(received)))
    {
      requests := requests + [ReqPositions];
      ReceivePositions(arrived);
      if allPositions == [] {
        return Err(MissingColumn("contract"));
      }
      var contracts := ContractColumn(allPositions);
      RequestMarketData(contracts, waits);
      r := Ok(allPositions);
    }

    /** The `position` callbacks that arrive while `get_positions` waits, in arrival order. */
    method ReceivePositions(arrived: seq<PositionCall>)
      modifies this`allPositions
      ensures allPositions == old(allPositions) + NewRows(arrived)
    {
      ghost var start := allPositions;
      for k := 0 to |arrived|
        invariant allPositions == start + NewRows(arrived[..k])
      {
        var call := arrived[k];
        Position(call.account, call.contract, call.position, call.avgCost);
        ghost var next := k + 1;
        assert NewRows(arrived[..next]) == NewRows(arrived[..k]) + [NewRow(call)];
      }
      assert arrived[..|arrived|] == arrived;
    }

    /** The `tickPrice` callbacks that arrive during one wait, in arrival order. */
    method ReceiveTicks(ticks: seq<TickCall>)
      modifies this`allPositions
      ensures allPositions == ApplyTicks(old(allPositions), ticks)
    {
      ghost var start := allPositions;
      for k := 0 to |ticks|
        invariant allPositions == ApplyTicks(start, ticks[..k])
      {
        var t := ticks[k];
        var outcome := TickPrice(t.reqId, t.tickType, t.price);
        ghost var next := k + 1;
        assert ticks[..next][..k] == ticks[..k];
      }
      assert ticks[..|ticks|] == ticks;
    }

    /**
     * The loop of `get_positions` over the rows: delayed-frozen market data,
     * `reqMktData(i, contract)`, then the ticks of wait i.
     */
    method RequestMarketData(contracts: seq<Contract>, waits: seq<seq<TickCall>>)
      modifies this`requests, this`allPositions
      ensures requests == old(requests) + MarketDataRequests(contracts)
      ensures allPositions == ApplyTicks(old(allPositions), TicksDuring(waits, |contracts|))
    {
      ghost var before, start := requests, allPositions;
      for i := 0 to |contracts|
        invariant requests == before + MarketDataRequests(contracts[..i])
        invariant allPositions == ApplyTicks(start, TicksDuring(waits, i))
      {
        requests := requests + [ReqMarketDataType(DelayedFrozen)];
        requests := requests + [ReqMktData(i, contracts[i])];
        ghost var done := TicksDuring(waits, i);
        var batch := DuringWait(waits, i);
        ReceiveTicks(batch);
        ApplyTicksAppend(start, done, batch);
        ghost var next := i + 1;
        assert TicksDuring(waits, next) == done + batch;
        assert contracts[..next][..i] == contracts[..i];
      }
      assert contracts[..|contracts|] == contracts;
    }

    /**
     * `get_account_data`: `reqAccountSummary(0, "All", "NetLiquidation")`, then
     * the `accountSummary` callbacks that arrive during the wait; what is
     * returned holds the latest of them only (or the earlier table when none came).
     */
    method GetAccountData(arrived: seq<AccountRow>) returns (accounts: seq<AccountRow>)
      modifies this`allAccounts, this`requests
      ensures requests == old(requests) + [ReqAccountSummary(0, "All", "NetLiquidation")]
      ensures accounts == allAccounts
      ensures allAccounts == if arrived == [] then old(allAccounts) else [arrived[|arrived| - 1]]
    {
      requests := requests + [ReqAccountSummary(0, "All", "NetLiquidation")];
      for k := 0 to |arrived|
        invariant allAccounts == if k == 0 then old(allAccounts) else [arrived[k - 1]]
        invariant requests == old(requests) + [ReqAccountSummary(0, "All", "NetLiquidation")]
      {
        AccountSummary(arrived[k].reqId, arrived[k].account, arrived[k].tag, arrived[k].value, arrived[k].currency);
      }
      accounts := allAccounts;
    }
  }
}
