/** The projected tables as mutable rows, and the handlers that change them in place. */
module ProjectionStore {
  import opened Arithmetic
  import opened Projections
  import opened Wrappers

  class TableStore {
    var markets: seq<MarketRow>
    var positions: seq<PositionRow>
    var fills: seq<FillRow>
    var orders: seq<OrderRow>
    var accounts: seq<AccountRow>
    var pnl: seq<PnlRow>

    function T(): Tables
      reads this
    {
      Tables(markets, positions, fills, orders, accounts, pnl)
    }

    constructor (t: Tables)
      ensures T() == t
    {
      markets, positions, fills, orders, accounts, pnl :=
        t.markets, t.positions, t.fills, t.orders, t.accounts, t.pnl;
    }

    /** Apply one event; events without a handler change nothing. */
    method ApplyEvent(e: Event)
      modifies this
      ensures T() == Apply(old(T()), e)
    {
      match e.body
      case MarketListed(_, _) => ListMarket(e);
      case MarketActivity(_, _) => SetActivity(e);
      case PositionChanged(_, _, _, _, _, _, _, _) => ChangePosition(e);
      case FillSettled(_, _) => SettleFill(e);
      case FillRejected(_, _) => RejectFill(e);
      case OrderCancelled(_, _) => CancelOrders(e);
      case NoncesCancelledUpTo(_, _) => CancelUpTo(e);
      case Unhandled => NothingChanges(T(), e);
    }

    method ListMarket(e: Event)
      requires e.body.MarketListed?
      modifies this`markets
      ensures T() == Apply(old(T()), e)
    {
      ghost var before := T();
      markets := MarketsAfter(markets, positions, positions, e);
      OnlyMarkets(before, e);
    }

    method SetActivity(e: Event)
      requires e.body.MarketActivity?
      modifies this`markets
      ensures T() == Apply(old(T()), e)
    {
      ghost var before := T();
      markets := MarketsAfter(markets, positions, positions, e);
      OnlyMarkets(before, e);
    }

    method EnsureAccount(address: string)
      modifies this`accounts
      ensures accounts == if HasAccount(old(accounts), address) then old(accounts)
                          else old(accounts) + [AccountRow(address, 0)]
    {
      if !HasAccount(accounts, address) {
        accounts := accounts + [AccountRow(address, 0)];
      }
    }

    /** The long and short sums of one market, read row by row. */
    method SumInterest(marketId: int) returns (long: int, short: int)
      ensures long == LongSum(positions, marketId) && short == ShortSum(positions, marketId)
    {
      long, short := 0, 0;
      for i := 0 to |positions|
        invariant long == LongSum(positions[..i], marketId) && short == ShortSum(positions[..i], marketId)
      {
        assert positions[..i + 1][..i] == positions[..i];
        var p := positions[i];
        if p.marketId == marketId && p.size > 0 { long := long + p.size; }
        if p.marketId == marketId && p.size < 0 { short := short - p.size; }
      }
      assert positions[..|positions|] == positions;
    }

    method ChangePosition(e: Event)
      requires e.body.PositionChanged?
      modifies this`accounts, this`positions, this`markets, this`pnl
      ensures T() == Apply(old(T()), e)
    {
      ghost var before := T();
      var b := e.body;
      EnsureAccount(b.trader);
      EnsuredIsStep(before.accounts, e);
      var taken := Takes(positions, e);
      var rows := PnlAfter(pnl, positions, e);
      positions := PositionsAfter(positions, e);
      if taken {
        var long, short := SumInterest(b.marketId);
        ghost var after, ensured := positions, accounts;
        for i := 0 to |markets|
          invariant positions == after && accounts == ensured && pnl == before.pnl
          invariant |markets| == |before.markets|
          invariant forall k :: 0 <= k < i ==>
            markets[k] == MarketStep(before.markets[k], before.positions, positions, e)
          invariant forall k :: i <= k < |markets| ==> markets[k] == before.markets[k]
        {
          var m := markets[i];
          if m.id == b.marketId { m := m.(longOI := long, shortOI := short); }
          assert m == MarketStep(before.markets[i], before.positions, positions, e);
          markets := markets[i := m];
        }
        pnl := rows;
      }
      ChangedIsApply(before, e);
      assert markets == MarketsAfter(before.markets, before.positions, positions, e);
    }

    /** Settled size of one order, over the fills that name it. */
    method SumSettled(hash: string) returns (sum: nat)
      ensures sum == SettledSum(fills, hash)
    {
      sum := 0;
      for i := 0 to |fills|
        invariant sum == SettledSum(fills[..i], hash)
      {
        assert fills[..i + 1][..i] == fills[..i];
        if fills[i].status == SettledFill && Names(fills[i].terms, hash) { sum := sum + fills[i].terms.size; }
      }
      assert fills[..|fills|] == fills;
    }

    method RefreshOrders(e: Event)
      requires e.body.FillSettled?
      modifies this`orders
      ensures orders == OrdersAfter(old(orders), fills, e)
    {
      ghost var before := orders;
      for i := 0 to |orders|
        invariant |orders| == |before|
        invariant forall k :: 0 <= k < i ==> orders[k] == OrderStep(before[k], fills, e)
        invariant forall k :: i <= k < |orders| ==> orders[k] == before[k]
      {
        if Names(e.body.terms, orders[i].hash) {
          var settled := SumSettled(orders[i].hash);
          orders := orders[i := Refreshed(orders[i], settled)];
        }
      }
      assert orders == OrdersAfter(before, fills, e);
    }

    method SettleFill(e: Event)
      requires e.body.FillSettled?
      modifies this`fills, this`orders
      ensures T() == Apply(old(T()), e)
    {
      ghost var before := T();
      fills := FillsAfter(fills, e);
      RefreshOrders(e);
      OnlyFillsAndOrders(before, e);
    }

    method RejectFill(e: Event)
      requires e.body.FillRejected?
      modifies this`fills
      ensures T() == Apply(old(T()), e)
    {
      ghost var before := T();
      for i := 0 to |fills|
        invariant |fills| == |before.fills|
        invariant forall k :: 0 <= k < i ==> fills[k] == FillStep(before.fills[k], e)
        invariant forall k :: i <= k < |fills| ==> fills[k] == before.fills[k]
      {
        if fills[i].id == e.body.fillId && fills[i].status != SettledFill {
          fills := fills[i := fills[i].(status := RejectedFill, reason := Some(e.body.why))];
        }
      }
      assert fills == FillsAfter(before.fills, e);
      OnlyFillsAndOrders(before, e);
      assert orders == OrdersAfter(before.orders, fills, e);
    }

    method CancelOrders(e: Event)
      requires e.body.OrderCancelled?
      modifies this`orders
      ensures T() == Apply(old(T()), e)
    {
      ghost var before := T();
      CancelMatching(e);
      assert fills == FillsAfter(before.fills, e);
      OnlyFillsAndOrders(before, e);
    }

    method CancelMatching(e: Event)
      requires e.body.OrderCancelled? || e.body.NoncesCancelledUpTo?
      modifies this`orders
      ensures orders == OrdersAfter(old(orders), fills, e)
    {
      ghost var before := orders;
      for i := 0 to |orders|
        invariant |orders| == |before|
        invariant forall k :: 0 <= k < i ==> orders[k] == OrderStep(before[k], fills, e)
        invariant forall k :: i <= k < |orders| ==> orders[k] == before[k]
      {
        var hit := orders[i].owner == e.body.owner
          && if e.body.OrderCancelled? then orders[i].nonce == e.body.nonce else orders[i].nonce < e.body.minNonce;
        if hit && Cancellable(orders[i].status) {
          orders := orders[i := orders[i].(status := Cancelled)];
        }
      }
      assert orders == OrdersAfter(before, fills, e);
    }

    method CancelUpTo(e: Event)
      requires e.body.NoncesCancelledUpTo?
      modifies this`orders, this`accounts
      ensures T() == Apply(old(T()), e)
    {
      ghost var before := T();
      EnsureAccount(e.body.owner);
      ghost var ensured := accounts;
      for i := 0 to |accounts|
        invariant |accounts| == |ensured| && orders == before.orders
        invariant forall k :: 0 <= k < i ==> accounts[k] == AccountStep(ensured[k], e)
        invariant forall k :: i <= k < |accounts| ==> accounts[k] == ensured[k]
      {
        if accounts[i].address == e.body.owner {
          accounts := accounts[i := accounts[i].(minValidNonce := Max(accounts[i].minValidNonce, e.body.minNonce))];
        }
      }
      assert accounts == AccountsAfter(before.accounts, e);
      assert fills == FillsAfter(before.fills, e);
      CancelMatching(e);
      OnlyAccountsAndOrders(before, e);
    }
  }

  lemma NothingChanges(t: Tables, e: Event)
    requires e.body.Unhandled?
    ensures Apply(t, e) == t
  {
    var r := Apply(t, e);
    assert r.markets == t.markets && r.fills == t.fills && r.orders == t.orders && r.accounts == t.accounts;
  }

  lemma OnlyMarkets(t: Tables, e: Event)
    requires e.body.MarketListed? || e.body.MarketActivity?
    ensures Apply(t, e) == t.(markets := MarketsAfter(t.markets, t.positions, t.positions, e))
  {
    var r := Apply(t, e);
    assert r.fills == t.fills && r.orders == t.orders && r.accounts == t.accounts;
  }

  lemma OnlyFillsAndOrders(t: Tables, e: Event)
    requires e.body.FillSettled? || e.body.FillRejected? || e.body.OrderCancelled?
    ensures var fills := FillsAfter(t.fills, e);
      Apply(t, e) == t.(fills := fills, orders := OrdersAfter(t.orders, fills, e))
  {
    var r := Apply(t, e);
    assert r.markets == t.markets && r.accounts == t.accounts;
  }

  lemma OnlyAccountsAndOrders(t: Tables, e: Event)
    requires e.body.NoncesCancelledUpTo?
    ensures Apply(t, e) == t.(accounts := AccountsAfter(t.accounts, e), orders := OrdersAfter(t.orders, t.fills, e))
  {
    var r := Apply(t, e);
    assert FillsAfter(t.fills, e) == t.fills && r.markets == t.markets;
  }

  lemma EnsuredIsStep(accs: seq<AccountRow>, e: Event)
    requires e.body.PositionChanged?
    ensures AccountsAfter(accs, e)
      == if HasAccount(accs, e.body.trader) then accs else accs + [AccountRow(e.body.trader, 0)]
  {}

  lemma ChangedIsApply(t: Tables, e: Event)
    requires e.body.PositionChanged?
    ensures var positions := PositionsAfter(t.positions, e);
      Apply(t, e) == Tables(
        MarketsAfter(t.markets, t.positions, positions, e), positions, t.fills, t.orders,
        AccountsAfter(t.accounts, e), PnlAfter(t.pnl, t.positions, e))
  {
    assert FillsAfter(t.fills, e) == t.fills;
    assert OrdersAfter(t.orders, t.fills, e) == t.orders;
  }
}
