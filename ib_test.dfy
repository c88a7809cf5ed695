/**
 * ib/test.py: `ib_class`, whose `position` and `accountSummary` callbacks
 * write rows with `frame.loc[key] = …` into two DataFrames declared with fixed
 * columns, so a repeated key overwrites its row instead of adding one.
 * The callbacks that arrive while `read_positions` / `read_navs` sleep are
 * passed to them as the sequence of calls delivered.
 */
module IbTest {
  import opened Frames

  /** The fields of an ibapi `Contract` that the callbacks read. */
  datatype Contract = Contract(symbol: string, secType: string)

  /** A row of `all_positions`, columns Account, Symbol, Quantity, Average Cost, Sec Type. */
  datatype PositionRow = PositionRow(account: string, symbol: string, quantity: real, averageCost: real, secType: string)

  /** A row of `all_accounts`, columns reqId, Account, Tag, Value, Currency. */
  datatype AccountRow = AccountRow(reqId: int, account: string, tag: string, value: string, currency: string)

  /** One `position` callback as delivered by the feed. */
  datatype PositionCall = PositionCall(account: string, contract: Contract, pos: real, avgCost: real)

  datatype Request = ReqPositions | ReqAccountSummary(reqId: int, groupName: string, tags: string)

  /** The row label of a position: `str(account) + str(contract.symbol)`. */
  function PositionKey(account: string, symbol: string): (key: string)
    ensures |key| == |account| + |symbol|
    ensures key[..|account|] == account && key[|account|..] == symbol
  {
    account + symbol
  }

  /** For accounts of one length the label determines the account and the symbol. */
  lemma PositionKeyInjective(a1: string, s1: string, a2: string, s2: string)
    requires |a1| == |a2|
    requires PositionKey(a1, s1) == PositionKey(a2, s2)
    ensures a1 == a2 && s1 == s2
  {
    var k := PositionKey(a1, s1);
    assert a1 == k[..|a1|] && a2 == k[..|a2|];
  }

  /** Without that premise it does not: two different positions can share a label and overwrite each other. */
  lemma PositionKeyCollides()
    ensures PositionKey("U1", "23") == PositionKey("U12", "3")
  {
  }

  /** The entry `position` writes for one callback: the row under its label. */
  function PositionEntry(c: PositionCall): (e: Entry<string, PositionRow>)
    ensures e.key == PositionKey(c.account, c.contract.symbol)
    ensures e.val == PositionRow(c.account, c.contract.symbol, c.pos, c.avgCost, c.contract.secType)
  {
    Entry(c.account + c.contract.symbol, PositionRow(c.account, c.contract.symbol, c.pos, c.avgCost, c.contract.secType))
  }

  function PositionEntries(calls: seq<PositionCall>): (es: seq<Entry<string, PositionRow>>)
    ensures |es| == |calls|
    ensures forall i :: 0 <= i < |calls| ==> es[i] == PositionEntry(calls[i])
  {
    seq(|calls|, i requires 0 <= i < |calls| => PositionEntry(calls[i]))
  }

  /** The entry `accountSummary` writes for one callback: the row under `str(account)`. */
  function AccountEntries(rows: seq<AccountRow>): (es: seq<Entry<string, AccountRow>>)
    ensures |es| == |rows|
    ensures forall i :: 0 <= i < |rows| ==> es[i] == Entry(rows[i].account, rows[i])
  {
    seq(|rows|, i requires 0 <= i < |rows| => Entry(rows[i].account, rows[i]))
  }

  /** Every position row sits under the label made from its own account and symbol, and no label repeats. */
  predicate PositionsKeyed(t: seq<Entry<string, PositionRow>>)
  {
    && DistinctKeys(t)
    && forall i :: 0 <= i < |t| ==> t[i].key == PositionKey(t[i].val.account, t[i].val.symbol)
  }

  /** Every account row sits under its own account, and no account repeats. */
  predicate AccountsKeyed(t: seq<Entry<string, AccountRow>>)
  {
    && DistinctKeys(t)
    && forall i :: 0 <= i < |t| ==> t[i].key == t[i].val.account
  }

  /** Writing a position keeps the table keyed. */
  lemma PositionUpsertKeyed(t: seq<Entry<string, PositionRow>>, c: PositionCall)
    requires PositionsKeyed(t)
    ensures PositionsKeyed(Upsert(t, PositionEntry(c).key, PositionEntry(c).val))
  {
    var e := PositionEntry(c);
    var r := Upsert(t, e.key, e.val);
    UpsertKeepsDistinct(t, e.key, e.val);
    forall i | 0 <= i < |r|
      ensures r[i].key == PositionKey(r[i].val.account, r[i].val.symbol)
    {
      assert Keys(r)[i] == r[i].key;
      if r[i].key != e.key {
        assert i < |t|;
        assert r[i] == t[i];
      }
    }
  }

  /** Writing an account row keeps the table keyed. */
  lemma AccountUpsertKeyed(t: seq<Entry<string, AccountRow>>, row: AccountRow)
    requires AccountsKeyed(t)
    ensures AccountsKeyed(Upsert(t, row.account, row))
  {
    var r := Upsert(t, row.account, row);
    UpsertKeepsDistinct(t, row.account, row);
    forall i | 0 <= i < |r|
      ensures r[i].key == r[i].val.account
    {
      assert Keys(r)[i] == r[i].key;
      if r[i].key != row.account {
        assert i < |t|;
        assert r[i] == t[i];
      }
    }
  }

  /** A keyed accounts table holds at most one row per account. */
  lemma OneRowPerAccount(t: seq<Entry<string, AccountRow>>, i: nat, j: nat)
    requires AccountsKeyed(t) && i < j < |t|
    ensures t[i].val.account != t[j].val.account
  {
    DistinctKeysPairwise(t, i, j);
  }

  /** A repeated `position` callback for the same account and symbol overwrites its row: the first leaves no trace. */
  lemma RepeatedPositionOverwrites(t: seq<Entry<string, PositionRow>>, c1: PositionCall, c2: PositionCall)
    requires c1.account == c2.account && c1.contract.symbol == c2.contract.symbol
    ensures Upsert(Upsert(t, PositionEntry(c1).key, PositionEntry(c1).val), PositionEntry(c2).key, PositionEntry(c2).val)
         == Upsert(t, PositionEntry(c2).key, PositionEntry(c2).val)
  {
    UpsertTwice(t, PositionEntry(c2).key, PositionEntry(c1).val, PositionEntry(c2).val);
  }

  /**
   * After a series of `accountSummary` callbacks each account that reported
   * holds its latest row, every other account keeps its earlier row, and no
   * other account appears.
   */
  lemma {:induction false} AccountSummaryLatestWins(t: seq<Entry<string, AccountRow>>, rows: seq<AccountRow>, a: string)
    ensures a in Keys(UpsertAll(t, AccountEntries(rows))) <==> a in Keys(t) || a in Keys(AccountEntries(rows))
    ensures a in Keys(AccountEntries(rows)) ==>
      Get(UpsertAll(t, AccountEntries(rows)), a) == rows[LastIndexOf(AccountEntries(rows), a)]
    ensures a in Keys(t) && a !in Keys(AccountEntries(rows)) ==>
      Get(UpsertAll(t, AccountEntries(rows)), a) == Get(t, a)
  {
    var es := AccountEntries(rows);
    UpsertAllKeys(t, es, a);
    if a in Keys(es) {
      UpsertAllLastWins(t, es, a);
    } else if a in Keys(t) {
      UpsertAllUntouched(t, es, a);
    }
  }

  class IbClass {
    var allPositions: seq<Entry<string, PositionRow>>
    var allAccounts: seq<Entry<string, AccountRow>>
    var requests: seq<Request>

    ghost predicate Valid()
      reads this
    {
      PositionsKeyed(allPositions) && AccountsKeyed(allAccounts)
    }

    constructor ()
      ensures Valid()
      ensures allPositions == [] && allAccounts == [] && requests == []
    {
      allPositions := [];
      allAccounts := [];
      requests := [];
    }

    /** `error`: logs when `reqId > -1`; neither table is touched (it modifies nothing). */
    method Error(reqId: int, errorCode: int, errorString: string) returns (logged: bool)
      ensures logged <==> reqId > -1
    {
      logged := reqId > -1;
    }

    /** `position`: `all_positions.loc[str(account) + str(symbol)] = (account, symbol, pos, avgCost, secType)`. */
    method Position(account: string, contract: Contract, pos: real, avgCost: real)
      requires Valid()
      modifies this`allPositions
      ensures Valid()
      ensures allPositions == Upsert(old(allPositions), PositionKey(account, contract.symbol),
                                     PositionRow(account, contract.symbol, pos, avgCost, contract.secType))
    {
      PositionUpsertKeyed(allPositions, PositionCall(account, contract, pos, avgCost));
      var index := account + contract.symbol;
      allPositions := Upsert(allPositions, index, PositionRow(account, contract.symbol, pos, avgCost, contract.secType));
    }

    /** `accountSummary`: `all_accounts.loc[str(account)] = (reqId, account, tag, value, currency)`. */
    method AccountSummary(reqId: int, account: string, tag: string, value: string, currency: string)
      requires Valid()
      modifies this`allAccounts
      ensures Valid()
      ensures allAccounts == Upsert(old(allAccounts), account, AccountRow(reqId, account, tag, value, currency))
    {
      AccountUpsertKeyed(allAccounts, AccountRow(reqId, account, tag, value, currency));
      allAccounts := Upsert(allAccounts, account, AccountRow(reqId, account, tag, value, currency));
    }

    /** `read_positions`: `reqPositions`, the callbacks that arrive during the wait, then the table. */
    method ReadPositions(arrived: seq<PositionCall>) returns (table: seq<Entry<string, PositionRow>>)
      requires Valid()
      modifies this`allPositions, this`requests
      ensures Valid()
      ensures requests == old(requests) + [ReqPositions]
      ensures table == allPositions && allPositions == UpsertAll(old(allPositions), PositionEntries(arrived))
    {
      requests := requests + [ReqPositions];
      ghost var es := PositionEntries(arrived);
      for k := 0 to |arrived|
        invariant Valid()
        invariant allPositions == UpsertAll(old(allPositions), es[..k])
        invariant requests == old(requests) + [ReqPositions]
      {
        UpsertAllSnoc(old(allPositions), es, k);
        Position(arrived[k].account, arrived[k].contract, arrived[k].pos, arrived[k].avgCost);
      }
      assert es[..|arrived|] == es;
      table := allPositions;
    }

    /** `read_navs`: `reqAccountSummary(0, "All", "NetLiquidation")`, the callbacks that arrive during the wait, then the table. */
    method ReadNavs(arrived: seq<AccountRow>) returns (table: seq<Entry<string, AccountRow>>)
      requires Valid()
      modifies this`allAccounts, this`requests
      ensures Valid()
      ensures requests == old(requests) + [ReqAccountSummary(0, "All", "NetLiquidation")]
      ensures table == allAccounts && allAccounts == UpsertAll(old(allAccounts), AccountEntries(arrived))
    {
      requests := requests + [ReqAccountSummary(0, "All", "NetLiquidation")];
      ghost var es := AccountEntries(arrived);
      ghost var sent := requests;
      for k := 0 to |arrived|
        invariant Valid()
        invariant allAccounts == UpsertAll(old(allAccounts), es[..k])
        invariant requests == sent
      {
        var r := arrived[k];
        UpsertAllSnoc(old(allAccounts), es, k);
        AccountSummary(r.reqId, r.account, r.tag, r.value, r.currency);
      }
      assert es[..|arrived|] == es;
      table := allAccounts;
    }
  }
}
