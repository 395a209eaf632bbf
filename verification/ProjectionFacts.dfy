/** What single rows of the projected tables say about the events behind them (client/lib/indexer/projections.ts). */
module ProjectionFacts {
  import opened Arithmetic
  import opened Projections
  import opened Wrappers

  predicate Moves(e: Event, trader: string, marketId: int) {
    e.body.PositionChanged? && e.body.trader == trader && e.body.marketId == marketId
  }

  // ---------------------------------------------------------------- positions

  /** The row repeats event j, the last of its trader and market. */
  ghost predicate ShowsEvent(p: PositionRow, es: seq<Event>, j: nat) {
    && j < |es| && Moves(es[j], p.trader, p.marketId)
    && p.size == es[j].body.size && p.openNotional == es[j].body.openNotional
    && p.lastPrice == es[j].body.price && p.last == es[j].pos
    && forall k :: j < k < |es| ==> !Moves(es[k], p.trader, p.marketId)
  }

  ghost predicate ShowsOne(p: PositionRow, es: seq<Event>) {
    exists j: nat :: ShowsEvent(p, es, j)
  }

  ghost predicate ShowsLatest(ps: seq<PositionRow>, es: seq<Event>) {
    forall i :: 0 <= i < |ps| ==> ShowsOne(ps[i], es)
  }

  lemma LatestKept(ps: seq<PositionRow>, es: seq<Event>, e: Event)
    requires ShowsLatest(ps, es) && InOrder(es + [e])
    ensures ShowsLatest(PositionsAfter(ps, e), es + [e])
  {
    var after, es' := PositionsAfter(ps, e), es + [e];
    forall i | 0 <= i < |after| ensures ShowsOne(after[i], es') {
      if i == |ps| {
        assert ShowsEvent(after[i], es', |es|);
      } else {
        assert ShowsOne(ps[i], es);
        var j: nat :| ShowsEvent(ps[i], es, j);
        assert es'[j] == es[j] && es'[|es|] == e;
        assert Before(es'[j].pos, es'[|es|].pos);
        if Moves(e, ps[i].trader, ps[i].marketId) {
          assert ShowsEvent(after[i], es', |es|);
        } else {
          assert ShowsEvent(after[i], es', j);
        }
      }
    }
  }

  lemma InOrderPrefix(es: seq<Event>, e: Event)
    requires InOrder(es + [e])
    ensures InOrder(es)
  {
    var es' := es + [e];
    forall i, j | 0 <= i < j < |es| ensures Before(es[i].pos, es[j].pos) {
      assert es'[i] == es[i] && es'[j] == es[j];
    }
  }

  /** In every state a position row shows the size, basis and price of the latest event of its trader and market. */
  lemma {:induction false} PositionShowsLatest(t0: Tables, ops: seq<Op>)
    requires Untouched(t0) && InOrder(EventsOf(ops))
    ensures ShowsLatest(Run(t0, ops).positions, EventsOf(ops))
  {
    if ops != [] {
      hide ShowsLatest, Untouched, InOrder, PositionsAfter;
      var before, op := ops[..|ops| - 1], ops[|ops| - 1];
      if op.Log? {
        InOrderPrefix(EventsOf(before), op.e);
        PositionShowsLatest(t0, before);
        LatestKept(Run(t0, before).positions, EventsOf(before), op.e);
      } else {
        assert EventsOf(ops) == EventsOf(before);
        PositionShowsLatest(t0, before);
      }
    } else {
      assert t0.positions == [];
    }
  }

  // ---------------------------------------------------------------- profit rows

  function PnlSum(rows: seq<PnlRow>, trader: string, marketId: int): int {
    if rows == [] then 0
    else
      var r := rows[|rows| - 1];
      PnlSum(rows[..|rows| - 1], trader, marketId)
      + if r.address == trader && r.marketId == marketId then r.amount else 0
  }

  predicate DistinctLogs(es: seq<Event>) {
    forall i, j :: 0 <= i < j < |es| ==> !(es[i].txHash == es[j].txHash && es[i].pos.logIndex == es[j].pos.logIndex)
  }

  /** Every profit row comes from one of the events. */
  ghost predicate FromEvents(rows: seq<PnlRow>, es: seq<Event>) {
    forall i :: 0 <= i < |rows| ==>
      exists j :: 0 <= j < |es| && es[j].txHash == rows[i].txHash && es[j].pos.logIndex == rows[i].logIndex
  }

  lemma NewLogNewRow(rows: seq<PnlRow>, es: seq<Event>, e: Event, r: PnlRow)
    requires FromEvents(rows, es) && DistinctLogs(es + [e])
    requires r.txHash == e.txHash && r.logIndex == e.pos.logIndex
    ensures !HasPnl(rows, r)
  {
    var es' := es + [e];
    forall i | 0 <= i < |rows| ensures !(rows[i].txHash == r.txHash && rows[i].logIndex == r.logIndex) {
      var j :| 0 <= j < |es| && es[j].txHash == rows[i].txHash && es[j].pos.logIndex == rows[i].logIndex;
      assert es'[j] == es[j] && es'[|es|] == e;
    }
  }

  lemma NewestTaken(ps: seq<PositionRow>, es: seq<Event>, e: Event)
    requires ShowsLatest(ps, es) && InOrder(es + [e]) && e.body.PositionChanged?
    ensures Takes(ps, e)
  {
    var es' := es + [e];
    forall i | 0 <= i < |ps| ensures Before(ps[i].last, e.pos) {
      assert ShowsOne(ps[i], es);
      var j: nat :| ShowsEvent(ps[i], es, j);
      assert es'[j] == es[j] && es'[|es|] == e;
    }
  }

  lemma PnlKept(t: Tables, es: seq<Event>, e: Event, trader: string, marketId: int)
    requires ShowsLatest(t.positions, es) && FromEvents(t.pnl, es)
    requires InOrder(es + [e]) && DistinctLogs(es + [e])
    ensures FromEvents(PnlAfter(t.pnl, t.positions, e), es + [e])
    ensures PnlSum(PnlAfter(t.pnl, t.positions, e), trader, marketId)
      == PnlSum(t.pnl, trader, marketId) + if Moves(e, trader, marketId) then e.body.realizedPnl else 0
  {
    var after, es' := PnlAfter(t.pnl, t.positions, e), es + [e];
    assert es'[|es|] == e;
    if e.body.PositionChanged? {
      NewestTaken(t.positions, es, e);
      if e.body.realizedPnl != 0 {
        var b := e.body;
        var r := PnlRow(e.txHash, e.pos.logIndex, b.trader, PnlKind(b.reason), b.marketId, b.realizedPnl,
                        Abs(b.sizeDelta), b.price);
        NewLogNewRow(t.pnl, es, e, r);
        assert after == t.pnl + [r] && after[..|t.pnl|] == t.pnl;
      }
    }
    forall i | 0 <= i < |after|
      ensures exists j :: 0 <= j < |es'| && es'[j].txHash == after[i].txHash && es'[j].pos.logIndex == after[i].logIndex
    {
      if i < |t.pnl| {
        var j :| 0 <= j < |es| && es[j].txHash == t.pnl[i].txHash && es[j].pos.logIndex == t.pnl[i].logIndex;
        assert es'[j] == es[j];
      }
    }
  }

  /** In every state the profit rows of a trader in a market add up to what its events realised, each counted once. */
  lemma {:induction false} PnlAlwaysAgrees(t0: Tables, ops: seq<Op>, trader: string, marketId: int)
    requires Untouched(t0) && InOrder(EventsOf(ops)) && DistinctLogs(EventsOf(ops))
    ensures FromEvents(Run(t0, ops).pnl, EventsOf(ops))
    ensures PnlSum(Run(t0, ops).pnl, trader, marketId) == RealizedSum(EventsOf(ops), trader, marketId)
  {
    if ops != [] {
      hide ShowsLatest, Untouched, InOrder, DistinctLogs, FromEvents;
      var before, op := ops[..|ops| - 1], ops[|ops| - 1];
      var t, es := Run(t0, before), EventsOf(before);
      if op.Log? {
        InOrderPrefix(es, op.e);
        DistinctPrefix(es, op.e);
        PnlAlwaysAgrees(t0, before, trader, marketId);
        PositionShowsLatest(t0, before);
        PnlKept(t, es, op.e, trader, marketId);
        RealizedSnoc(es, op.e, trader, marketId);
        assert Run(t0, ops).pnl == PnlAfter(t.pnl, t.positions, op.e);
      } else {
        assert EventsOf(ops) == es && Run(t0, ops).pnl == t.pnl;
        PnlAlwaysAgrees(t0, before, trader, marketId);
      }
    } else {
      assert t0.pnl == [];
    }
  }

  lemma RealizedSnoc(es: seq<Event>, e: Event, trader: string, marketId: int)
    ensures RealizedSum(es + [e], trader, marketId)
      == RealizedSum(es, trader, marketId) + if Moves(e, trader, marketId) then e.body.realizedPnl else 0
  {
    assert (es + [e])[..|es|] == es;
  }

  lemma DistinctPrefix(es: seq<Event>, e: Event)
    requires DistinctLogs(es + [e])
    ensures DistinctLogs(es)
  {
    var es' := es + [e];
    forall i, j | 0 <= i < j < |es|
      ensures !(es[i].txHash == es[j].txHash && es[i].pos.logIndex == es[j].pos.logIndex)
    {
      assert es'[i] == es[i] && es'[j] == es[j];
    }
  }

  /** Two tables, one amount: a position's cumulative profit is the sum of its profit rows. */
  lemma CumulativeIsSumOfRows(t0: Tables, ops: seq<Op>, i: nat)
    requires Untouched(t0) && InOrder(EventsOf(ops)) && DistinctLogs(EventsOf(ops))
    requires i < |Run(t0, ops).positions|
    ensures var p := Run(t0, ops).positions[i];
      p.realizedCum == PnlSum(Run(t0, ops).pnl, p.trader, p.marketId)
  {
    var p := Run(t0, ops).positions[i];
    RealizedAlwaysAgrees(t0, ops);
    PnlAlwaysAgrees(t0, ops, p.trader, p.marketId);
  }
}
