/**
  * The projected tables: how one stored event changes positions, open interest, fills, orders, accounts
  * and profit rows, and what a reset leaves for a replay (client/lib/indexer/projections.ts).
  *
  * A table is the sequence of its rows in insertion order. An UPDATE maps every row; an upsert maps the
  * rows with the key, or appends one.
  */
module Projections {
  import opened Arithmetic
  import opened Wrappers

  /** Where a log sits in the chain. */
  datatype LogPos = LogPos(block: nat, logIndex: nat)

  predicate Before(a: LogPos, b: LogPos) {
    a.block < b.block || (a.block == b.block && a.logIndex < b.logIndex)
  }

  datatype FillTerms = FillTerms(
    marketId: int, maker: string, taker: string, makerOrder: string, takerOrder: string, size: nat, price: nat)

  datatype Payload =
    | MarketListed(marketId: int, oracleId: string)
    | MarketActivity(marketId: int, active: bool)  // MarketParamsSet and MarketActiveSet
    | PositionChanged(trader: string, marketId: int, reason: string, sizeDelta: int, price: int,
                      size: int, openNotional: int, realizedPnl: int)
    | FillSettled(fillId: string, terms: FillTerms)
    | FillRejected(fillId: string, why: string)
    | OrderCancelled(owner: string, nonce: int)
    | NoncesCancelledUpTo(owner: string, minNonce: int)
    | Unhandled

  datatype Event = Event(pos: LogPos, txHash: string, body: Payload)

  datatype MarketRow = MarketRow(id: int, oracleId: string, active: bool, longOI: int, shortOI: int)

  datatype PositionRow = PositionRow(
    trader: string, marketId: int, size: int, openNotional: int, lastPrice: int, realizedCum: int, last: LogPos)

  datatype FillStatus = PendingFill | SettledFill | RejectedFill

  datatype FillRow = FillRow(
    id: string, status: FillStatus, reason: Option<string>, terms: FillTerms, settledAt: Option<LogPos>)

  datatype OrderStatus = Live | Partial | Filled | Cancelled | Expired

  datatype OrderRow = OrderRow(
    hash: string, owner: string, nonce: int, size: nat, filled: nat, status: OrderStatus)

  datatype AccountRow = AccountRow(address: string, minValidNonce: int)

  datatype PnlRow = PnlRow(
    txHash: string, logIndex: nat, address: string, kind: string, marketId: int, amount: int, size: int, price: int)

  datatype Tables = Tables(
    markets: seq<MarketRow>, positions: seq<PositionRow>, fills: seq<FillRow>,
    orders: seq<OrderRow>, accounts: seq<AccountRow>, pnl: seq<PnlRow>)

  // ---------------------------------------------------------------- keys

  predicate HasMarket(ms: seq<MarketRow>, id: int) { exists i :: 0 <= i < |ms| && ms[i].id == id }

  predicate HasFill(fs: seq<FillRow>, id: string) { exists i :: 0 <= i < |fs| && fs[i].id == id }

  predicate HasOrder(os: seq<OrderRow>, hash: string) { exists i :: 0 <= i < |os| && os[i].hash == hash }

  predicate HasAccount(accs: seq<AccountRow>, address: string) {
    exists i :: 0 <= i < |accs| && accs[i].address == address
  }

  predicate IsPosition(p: PositionRow, trader: string, marketId: int) {
    p.trader == trader && p.marketId == marketId
  }

  predicate HasPosition(ps: seq<PositionRow>, trader: string, marketId: int) {
    exists i :: 0 <= i < |ps| && IsPosition(ps[i], trader, marketId)
  }

  // ---------------------------------------------------------------- sums the denormalised columns stand for

  function LongSum(ps: seq<PositionRow>, marketId: int): int {
    if ps == [] then 0
    else
      var p := ps[|ps| - 1];
      LongSum(ps[..|ps| - 1], marketId) + if p.marketId == marketId && p.size > 0 then p.size else 0
  }

  function ShortSum(ps: seq<PositionRow>, marketId: int): int {
    if ps == [] then 0
    else
      var p := ps[|ps| - 1];
      ShortSum(ps[..|ps| - 1], marketId) + if p.marketId == marketId && p.size < 0 then -p.size else 0
  }

  predicate Names(terms: FillTerms, hash: string) {
    terms.makerOrder == hash || terms.takerOrder == hash
  }

  function Contribution(f: FillRow, hash: string): nat {
    if f.status == SettledFill && Names(f.terms, hash) then f.terms.size else 0
  }

  function SettledSum(fs: seq<FillRow>, hash: string): nat {
    if fs == [] then 0
    else SettledSum(fs[..|fs| - 1], hash) + Contribution(fs[|fs| - 1], hash)
  }

  // ---------------------------------------------------------------- one event

  function FillStep(f: FillRow, e: Event): FillRow {
    match e.body
    case FillSettled(id, terms) =>
      if f.id == id then FillRow(id, SettledFill, None, terms, Some(e.pos)) else f
    case FillRejected(id, why) =>
      if f.id == id && f.status != SettledFill then f.(status := RejectedFill, reason := Some(why)) else f
    case _ => f
  }

  function FillsAfter(fs: seq<FillRow>, e: Event): (r: seq<FillRow>)
    ensures |fs| <= |r| <= |fs| + 1
    ensures forall i :: 0 <= i < |fs| ==> r[i] == FillStep(fs[i], e)
    ensures |r| == |fs| + 1 <==> e.body.FillSettled? && !HasFill(fs, e.body.fillId)
    ensures |r| == |fs| + 1 ==>
      r[|fs|] == FillRow(e.body.fillId, SettledFill, None, e.body.terms, Some(e.pos))
  {
    seq(|fs|, i requires 0 <= i < |fs| => FillStep(fs[i], e))
    + if e.body.FillSettled? && !HasFill(fs, e.body.fillId)
      then [FillRow(e.body.fillId, SettledFill, None, e.body.terms, Some(e.pos))] else []
  }

  predicate Dead(s: OrderStatus) { s == Cancelled || s == Expired }

  predicate Cancellable(s: OrderStatus) { s == Live || s == Partial }

  /** The settled size of an order, capped at its size; cancelled and expired orders keep their status. */
  function Refreshed(o: OrderRow, settled: nat): OrderRow {
    o.(filled := Min(o.size, settled),
       status := if Dead(o.status) then o.status
                 else if settled >= o.size then Filled
                 else if settled > 0 then Partial
                 else Live)
  }

  function OrderStep(o: OrderRow, fills: seq<FillRow>, e: Event): OrderRow {
    match e.body
    case FillSettled(_, terms) =>
      if Names(terms, o.hash) then Refreshed(o, SettledSum(fills, o.hash)) else o
    case OrderCancelled(owner, nonce) =>
      if o.owner == owner && o.nonce == nonce && Cancellable(o.status) then o.(status := Cancelled) else o
    case NoncesCancelledUpTo(owner, minNonce) =>
      if o.owner == owner && o.nonce < minNonce && Cancellable(o.status) then o.(status := Cancelled) else o
    case _ => o
  }

  function OrdersAfter(os: seq<OrderRow>, fills: seq<FillRow>, e: Event): (r: seq<OrderRow>)
    ensures |r| == |os|
    ensures forall i :: 0 <= i < |os| ==> r[i] == OrderStep(os[i], fills, e)
  {
    seq(|os|, i requires 0 <= i < |os| => OrderStep(os[i], fills, e))
  }

  /** A position takes an event only when it is newer than the last one it took. */
  predicate Takes(ps: seq<PositionRow>, e: Event)
    requires e.body.PositionChanged?
  {
    forall i :: 0 <= i < |ps| && IsPosition(ps[i], e.body.trader, e.body.marketId) ==> Before(ps[i].last, e.pos)
  }

  function PositionStep(p: PositionRow, e: Event): PositionRow
    requires e.body.PositionChanged?
  {
    if IsPosition(p, e.body.trader, e.body.marketId) && Before(p.last, e.pos) then
      PositionRow(p.trader, p.marketId, e.body.size, e.body.openNotional, e.body.price,
                  p.realizedCum + e.body.realizedPnl, e.pos)
    else p
  }

  function Opened(e: Event): PositionRow
    requires e.body.PositionChanged?
  {
    var b := e.body;
    PositionRow(b.trader, b.marketId, b.size, b.openNotional, b.price, b.realizedPnl, e.pos)
  }

  function PositionsAfter(ps: seq<PositionRow>, e: Event): (r: seq<PositionRow>)
    ensures |ps| <= |r| <= |ps| + 1
    ensures |r| == |ps| + 1 <==> e.body.PositionChanged? && !HasPosition(ps, e.body.trader, e.body.marketId)
    ensures forall i :: 0 <= i < |ps| ==> r[i] == if e.body.PositionChanged? then PositionStep(ps[i], e) else ps[i]
    ensures |r| == |ps| + 1 ==> r[|ps|] == Opened(e)
  {
    match e.body
    case PositionChanged(trader, marketId, _, _, _, _, _, _) =>
      seq(|ps|, i requires 0 <= i < |ps| => PositionStep(ps[i], e))
      + if HasPosition(ps, trader, marketId) then []
        else [Opened(e)]
    case _ => ps
  }

  /** `before` and `after` are the positions around the event. */
  function MarketStep(m: MarketRow, before: seq<PositionRow>, after: seq<PositionRow>, e: Event): MarketRow {
    match e.body
    case MarketListed(id, oracleId) => if m.id == id then m.(oracleId := oracleId) else m
    case MarketActivity(id, active) => if m.id == id then m.(active := active) else m
    case PositionChanged(_, id, _, _, _, _, _, _) =>
      if m.id == id && Takes(before, e) then m.(longOI := LongSum(after, id), shortOI := ShortSum(after, id)) else m
    case _ => m
  }

  function MarketsAfter(
    ms: seq<MarketRow>, before: seq<PositionRow>, after: seq<PositionRow>, e: Event): (r: seq<MarketRow>)
    ensures |ms| <= |r| <= |ms| + 1
    ensures forall i :: 0 <= i < |ms| ==> r[i] == MarketStep(ms[i], before, after, e)
    ensures |r| == |ms| + 1 <==> e.body.MarketListed? && !HasMarket(ms, e.body.marketId)
    ensures |r| == |ms| + 1 ==> r[|ms|] == MarketRow(e.body.marketId, e.body.oracleId, false, 0, 0)
  {
    seq(|ms|, i requires 0 <= i < |ms| => MarketStep(ms[i], before, after, e))
    + if e.body.MarketListed? && !HasMarket(ms, e.body.marketId)
      then [MarketRow(e.body.marketId, e.body.oracleId, false, 0, 0)] else []
  }

  /** The account an event makes sure exists, if any. */
  function Touched(e: Event): Option<string> {
    match e.body
    case PositionChanged(trader, _, _, _, _, _, _, _) => Some(trader)
    case NoncesCancelledUpTo(owner, _) => Some(owner)
    case _ => None
  }

  function AccountStep(a: AccountRow, e: Event): AccountRow {
    match e.body
    case NoncesCancelledUpTo(owner, minNonce) =>
      if a.address == owner then a.(minValidNonce := Max(a.minValidNonce, minNonce)) else a
    case _ => a
  }

  function AccountsAfter(accs: seq<AccountRow>, e: Event): (r: seq<AccountRow>)
    ensures |accs| <= |r| <= |accs| + 1
    ensures forall i :: 0 <= i < |accs| ==> r[i] == AccountStep(accs[i], e)
    ensures |r| == |accs| + 1 <==> Touched(e).Some? && !HasAccount(accs, Touched(e).value)
    ensures |r| == |accs| + 1 ==> r[|accs|] == AccountStep(AccountRow(Touched(e).value, 0), e)
  {
    seq(|accs|, i requires 0 <= i < |accs| => AccountStep(accs[i], e))
    + if Touched(e).Some? && !HasAccount(accs, Touched(e).value)
      then [AccountStep(AccountRow(Touched(e).value, 0), e)] else []
  }

  function PnlKind(reason: string): string {
    if reason == "LIQUIDATION" then "LIQUIDATION" else if reason == "ADL" then "DELEVERAGE" else "REALIZED_TRADE"
  }

  predicate HasPnl(rows: seq<PnlRow>, r: PnlRow) {
    exists i :: 0 <= i < |rows| && rows[i].txHash == r.txHash && rows[i].logIndex == r.logIndex
      && rows[i].address == r.address && rows[i].kind == r.kind
  }

  function PnlAfter(rows: seq<PnlRow>, before: seq<PositionRow>, e: Event): seq<PnlRow> {
    if !e.body.PositionChanged? || !Takes(before, e) || e.body.realizedPnl == 0 then rows
    else
      var b := e.body;
      var r := PnlRow(e.txHash, e.pos.logIndex, b.trader, PnlKind(b.reason), b.marketId, b.realizedPnl,
                      Abs(b.sizeDelta), b.price);
      if HasPnl(rows, r) then rows else rows + [r]
  }

  /** The whole effect of one event. */
  function Apply(t: Tables, e: Event): Tables {
    var positions := PositionsAfter(t.positions, e);
    var fills := FillsAfter(t.fills, e);
    Tables(
      MarketsAfter(t.markets, t.positions, positions, e), positions, fills,
      OrdersAfter(t.orders, fills, e), AccountsAfter(t.accounts, e), PnlAfter(t.pnl, t.positions, e))
  }

  function Replay(t: Tables, es: seq<Event>): Tables {
    if es == [] then t else Apply(Replay(t, es[..|es| - 1]), es[|es| - 1])
  }

  // ---------------------------------------------------------------- reset

  function ResetMarket(m: MarketRow): MarketRow { m.(active := false, longOI := 0, shortOI := 0) }

  function ResetFill(f: FillRow): FillRow { f.(status := PendingFill, reason := None, settledAt := None) }

  function ResetOrder(o: OrderRow): OrderRow {
    o.(filled := 0, status := if o.status == Partial || o.status == Filled then Live else o.status)
  }

  function ResetAccount(a: AccountRow): AccountRow { a.(minValidNonce := 0) }

  function Reset(t: Tables): (r: Tables)
    ensures |r.markets| == |t.markets| && forall i :: 0 <= i < |t.markets| ==> r.markets[i] == ResetMarket(t.markets[i])
    ensures |r.fills| == |t.fills| && forall i :: 0 <= i < |t.fills| ==> r.fills[i] == ResetFill(t.fills[i])
    ensures |r.orders| == |t.orders| && forall i :: 0 <= i < |t.orders| ==> r.orders[i] == ResetOrder(t.orders[i])
    ensures |r.accounts| == |t.accounts|
      && forall i :: 0 <= i < |t.accounts| ==> r.accounts[i] == ResetAccount(t.accounts[i])
    ensures r.positions == [] && r.pnl == []
  {
    Tables(
      seq(|t.markets|, i requires 0 <= i < |t.markets| => ResetMarket(t.markets[i])),
      [],
      seq(|t.fills|, i requires 0 <= i < |t.fills| => ResetFill(t.fills[i])),
      seq(|t.orders|, i requires 0 <= i < |t.orders| => ResetOrder(t.orders[i])),
      seq(|t.accounts|, i requires 0 <= i < |t.accounts| => ResetAccount(t.accounts[i])),
      [])
  }

  /** Tables the chain has not touched yet: what the API and the matcher may have put there. */
  predicate Untouched(t: Tables) { Reset(t) == t }

  // ---------------------------------------------------------------- everything that writes the tables

  /** Events as the indexer applies them, and the writes of the intake API and the matcher in between. */
  datatype Op =
    | Log(e: Event)
    | InsertOrder(row: OrderRow)
    | InsertFill(id: string, terms: FillTerms)
    | NoteReason(id: string, why: string)  // the chain refused it; the status is the indexer's to set
    | ReleaseFill(id: string)              // the reserved size goes back
    | Retire(hash: string, status: OrderStatus)

  function RetireStep(o: OrderRow, hash: string, status: OrderStatus): OrderRow {
    if o.hash == hash && Cancellable(o.status) && Dead(status) then o.(status := status) else o
  }

  function NoteStep(f: FillRow, id: string, why: string): FillRow {
    if f.id == id && f.status == PendingFill then f.(reason := Some(why)) else f
  }

  function Released(fs: seq<FillRow>, id: string): (r: seq<FillRow>)
    ensures forall f :: f in r <==> f in fs && !(f.id == id && f.status == PendingFill)
  {
    if fs == [] then []
    else
      var last := fs[|fs| - 1];
      Released(fs[..|fs| - 1], id) + if last.id == id && last.status == PendingFill then [] else [last]
  }

  /** Another order of the owner has the nonce. */
  predicate NonceTaken(os: seq<OrderRow>, owner: string, nonce: int) {
    exists i :: 0 <= i < |os| && os[i].owner == owner && os[i].nonce == nonce
  }

  function EnsureAccount(accs: seq<AccountRow>, address: string): seq<AccountRow> {
    if HasAccount(accs, address) then accs else accs + [AccountRow(address, 0)]
  }

  function Do(t: Tables, op: Op): Tables {
    match op
    case Log(e) => Apply(t, e)
    case InsertOrder(row) =>
      if HasOrder(t.orders, row.hash) then t.(accounts := EnsureAccount(t.accounts, row.owner))
      else if NonceTaken(t.orders, row.owner, row.nonce) then t
      else
        t.(orders := t.orders + [row.(filled := 0, status := Live)], accounts := EnsureAccount(t.accounts, row.owner))
    case InsertFill(id, terms) =>
      if HasFill(t.fills, id) then t
      else t.(fills := t.fills + [FillRow(id, PendingFill, None, terms, None)])
    case NoteReason(id, why) =>
      t.(fills := seq(|t.fills|, i requires 0 <= i < |t.fills| => NoteStep(t.fills[i], id, why)))
    case ReleaseFill(id) => t.(fills := Released(t.fills, id))
    case Retire(hash, status) =>
      t.(orders := seq(|t.orders|, i requires 0 <= i < |t.orders| => RetireStep(t.orders[i], hash, status)))
  }

  function Run(t: Tables, ops: seq<Op>): Tables {
    if ops == [] then t else Do(Run(t, ops[..|ops| - 1]), ops[|ops| - 1])
  }

  function EventsOf(ops: seq<Op>): seq<Event> {
    if ops == [] then []
    else
      var last := ops[|ops| - 1];
      EventsOf(ops[..|ops| - 1]) + if last.Log? then [last.e] else []
  }

  // ---------------------------------------------------------------- fills by id

  ghost predicate KeyedFills(fs: seq<FillRow>) {
    forall i, j :: 0 <= i < j < |fs| ==> fs[i].id != fs[j].id
  }

  /** The row with the id, if the table has one. */
  ghost function FindFill(fs: seq<FillRow>, id: string): (r: Option<FillRow>)
    ensures r.Some? <==> HasFill(fs, id)
    ensures r.Some? ==> r.value in fs && r.value.id == id
  {
    if HasFill(fs, id) then
      var i :| 0 <= i < |fs| && fs[i].id == id;
      Some(fs[i])
    else None
  }

  lemma FindIn(fs: seq<FillRow>, f: FillRow)
    requires KeyedFills(fs) && f in fs
    ensures FindFill(fs, f.id) == Some(f)
  {
    var i :| 0 <= i < |fs| && fs[i] == f;
    assert HasFill(fs, f.id);
  }

  lemma FindNone(fs: seq<FillRow>, id: string)
    requires forall f <- fs :: f.id != id
    ensures FindFill(fs, id) == None
  {}

  predicate Settles(e: Event, id: string) {
    e.body.FillSettled? && e.body.fillId == id
  }

  predicate Rejects(e: Event, id: string) {
    e.body.FillRejected? && e.body.fillId == id
  }

  predicate EverSettled(es: seq<Event>, id: string) {
    exists j :: 0 <= j < |es| && Settles(es[j], id)
  }

  predicate EverRejected(es: seq<Event>, id: string) {
    exists j :: 0 <= j < |es| && Rejects(es[j], id)
  }

  lemma EverSnoc(es: seq<Event>, e: Event, id: string)
    ensures EverSettled(es + [e], id) <==> EverSettled(es, id) || Settles(e, id)
    ensures EverRejected(es + [e], id) <==> EverRejected(es, id) || Rejects(e, id)
  {
    var es' := es + [e];
    assert es'[|es|] == e;
    if EverSettled(es, id) {
      var j :| 0 <= j < |es| && Settles(es[j], id);
      assert Settles(es'[j], id);
    }
    if EverRejected(es, id) {
      var j :| 0 <= j < |es| && Rejects(es[j], id);
      assert Rejects(es'[j], id);
    }
  }

  /** What a write does to the one row with the id. */
  function IdStep(f: Option<FillRow>, id: string, op: Op): Option<FillRow> {
    match op
    case Log(e) =>
      if f.Some? then Some(FillStep(f.value, e))
      else if Settles(e, id) then Some(FillRow(id, SettledFill, None, e.body.terms, Some(e.pos))) else None
    case InsertFill(i, terms) => if i == id && f.None? then Some(FillRow(id, PendingFill, None, terms, None)) else f
    case NoteReason(i, why) => if f.Some? then Some(NoteStep(f.value, i, why)) else f
    case ReleaseFill(i) => if f.Some? && i == id && f.value.status == PendingFill then None else f
    case _ => f
  }

  lemma FindSame(fs: seq<FillRow>, r: seq<FillRow>, id: string, i: nat)
    requires KeyedFills(fs) && KeyedFills(r) && i < |fs| && i < |r| && fs[i].id == id == r[i].id
    ensures FindFill(fs, id) == Some(fs[i]) && FindFill(r, id) == Some(r[i])
  {
    FindIn(fs, fs[i]);
    FindIn(r, r[i]);
  }

  lemma FindAfterLog(fs: seq<FillRow>, e: Event, id: string)
    requires KeyedFills(fs)
    ensures KeyedFills(FillsAfter(fs, e))
    ensures FindFill(FillsAfter(fs, e), id) == IdStep(FindFill(fs, id), id, Log(e))
  {
    var r := FillsAfter(fs, e);
    if HasFill(fs, id) {
      var i :| 0 <= i < |fs| && fs[i].id == id;
      FindSame(fs, r, id, i);
    } else if Settles(e, id) {
      FindIn(r, r[|fs|]);
    } else {
      forall f | f in r ensures f.id != id {
        var i :| 0 <= i < |r| && r[i] == f;
      }
      FindNone(r, id);
    }
  }

  lemma {:induction false} ReleasedKeyed(fs: seq<FillRow>, id: string)
    requires KeyedFills(fs)
    ensures KeyedFills(Released(fs, id))
  {
    if fs != [] {
      var before, last := fs[..|fs| - 1], fs[|fs| - 1];
      ReleasedKeyed(before, id);
      var r := Released(before, id);
      forall i | 0 <= i < |r| ensures r[i].id != last.id {
        assert r[i] in before;
        var j :| 0 <= j < |before| && before[j] == r[i];
        assert fs[j].id != fs[|fs| - 1].id;
      }
    }
  }

  lemma FindReleased(fs: seq<FillRow>, gone: string, id: string)
    requires KeyedFills(fs)
    ensures FindFill(Released(fs, gone), id) == IdStep(FindFill(fs, id), id, ReleaseFill(gone))
  {
    var r := Released(fs, gone);
    ReleasedKeyed(fs, gone);
    forall f | f in fs ensures FindFill(fs, f.id) == Some(f) { FindIn(fs, f); }
    forall f | f in r ensures FindFill(r, f.id) == Some(f) { FindIn(r, f); }
    hide Released, KeyedFills;
  }

  lemma FindAfterWrite(t: Tables, op: Op, id: string)
    requires KeyedFills(t.fills) && !op.Log? && !op.ReleaseFill?
    ensures KeyedFills(Do(t, op).fills)
    ensures FindFill(Do(t, op).fills, id) == IdStep(FindFill(t.fills, id), id, op)
  {
    var fs, r := t.fills, Do(t, op).fills;
    assert |fs| <= |r| && forall i :: 0 <= i < |fs| ==> r[i].id == fs[i].id;
    if HasFill(fs, id) {
      var i :| 0 <= i < |fs| && fs[i].id == id;
      FindSame(fs, r, id, i);
    } else if op.InsertFill? && op.id == id {
      FindIn(r, r[|fs|]);
    } else {
      forall f | f in r ensures f.id != id {
        var i :| 0 <= i < |r| && r[i] == f;
      }
      FindNone(r, id);
    }
  }

  lemma FindDo(t: Tables, op: Op, id: string)
    requires KeyedFills(t.fills)
    ensures KeyedFills(Do(t, op).fills)
    ensures FindFill(Do(t, op).fills, id) == IdStep(FindFill(t.fills, id), id, op)
  {
    hide IdStep, FillsAfter, Released;
    if op.Log? {
      FindAfterLog(t.fills, op.e, id);
    } else if op.ReleaseFill? {
      ReleasedKeyed(t.fills, op.id);
      FindReleased(t.fills, op.id, id);
    } else {
      FindAfterWrite(t, op, id);
    }
  }

  // ---------------------------------------------------------------- what a run keeps

  predicate SameOrder(a: OrderRow, b: OrderRow) {
    a.hash == b.hash && a.owner == b.owner && a.nonce == b.nonce && a.size == b.size
  }

  /** The chain has said nothing of the fill: no row, or one the matcher may still take back. */
  predicate Undecided(f: Option<FillRow>) {
    f.None? || f.value.status == PendingFill
  }

  /** Fills the chain settled or rejected stay. */
  ghost predicate FillsGrow(a: seq<FillRow>, b: seq<FillRow>) {
    forall id: string :: Undecided(FindFill(b, id)) ==> Undecided(FindFill(a, id))
  }

  /** Later tables keep every earlier row at its place, pending fills apart, and a dead order stays exactly as dead. */
  ghost predicate Grows(a: Tables, b: Tables) {
    && FillsGrow(a.fills, b.fills)
    && |a.markets| <= |b.markets| && |a.orders| <= |b.orders| && |a.accounts| <= |b.accounts|
    && (forall i :: 0 <= i < |a.markets| ==> a.markets[i].id == b.markets[i].id)
    && (forall i :: 0 <= i < |a.accounts| ==> a.accounts[i].address == b.accounts[i].address)
    && (forall i :: 0 <= i < |a.orders| ==>
          SameOrder(a.orders[i], b.orders[i])
          && (Dead(a.orders[i].status) ==> b.orders[i].status == a.orders[i].status))
  }

  /** Keys are unique in every table they key. */
  ghost predicate Keyed(t: Tables) {
    && KeyedFills(t.fills)
    && (forall i, j :: 0 <= i < j < |t.markets| ==> t.markets[i].id != t.markets[j].id)
    && (forall i, j :: 0 <= i < j < |t.orders| ==> t.orders[i].hash != t.orders[j].hash)
    && (forall i, j :: 0 <= i < j < |t.accounts| ==> t.accounts[i].address != t.accounts[j].address)
  }

  lemma DoKeepsFills(t: Tables, op: Op)
    requires KeyedFills(t.fills)
    ensures KeyedFills(Do(t, op).fills) && FillsGrow(t.fills, Do(t, op).fills)
  {
    FindDo(t, op, "");
    hide Do;
    forall id: string | Undecided(FindFill(Do(t, op).fills, id)) ensures Undecided(FindFill(t.fills, id)) {
      FindDo(t, op, id);
    }
  }

  lemma DoGrows(t: Tables, op: Op)
    requires KeyedFills(t.fills)
    ensures Grows(t, Do(t, op))
  {
    DoKeepsFills(t, op);
    hide FillsGrow, KeyedFills;
  }

  lemma DoKeyed(t: Tables, op: Op)
    requires Keyed(t)
    ensures Keyed(Do(t, op))
  {
    DoKeepsFills(t, op);
    hide FillsGrow, KeyedFills;
  }

  lemma GrowsTrans(a: Tables, b: Tables, c: Tables)
    requires Grows(a, b) && Grows(b, c)
    ensures Grows(a, c)
  {
    forall id: string | Undecided(FindFill(c.fills, id)) ensures Undecided(FindFill(a.fills, id)) {
      assert Undecided(FindFill(b.fills, id));
    }
  }

  lemma {:induction false} RunGrows(t: Tables, ops: seq<Op>, k: nat)
    requires Keyed(t) && k <= |ops|
    ensures Grows(Run(t, ops[..k]), Run(t, ops))
    decreases |ops|
  {
    if k == |ops| {
      assert ops[..k] == ops;
    } else {
      var before := ops[..|ops| - 1];
      assert before[..k] == ops[..k];
      RunGrows(t, before, k);
      RunKeyed(t, before);
      DoGrows(Run(t, before), ops[|ops| - 1]);
      hide Grows;
      GrowsTrans(Run(t, ops[..k]), Run(t, before), Run(t, ops));
    }
  }

  lemma {:induction false} RunKeyed(t: Tables, ops: seq<Op>)
    requires Keyed(t)
    ensures Keyed(Run(t, ops))
  {
    if ops != [] {
      RunKeyed(t, ops[..|ops| - 1]);
      DoKeyed(Run(t, ops[..|ops| - 1]), ops[|ops| - 1]);
    }
  }

  // ---------------------------------------------------------------- rebuild equals live

  predicate TouchesOrder(e: Event, o: OrderRow) {
    match e.body
    case FillSettled(_, terms) => Names(terms, o.hash)
    case OrderCancelled(owner, nonce) => o.owner == owner && o.nonce == nonce
    case NoncesCancelledUpTo(owner, minNonce) => o.owner == owner && o.nonce < minNonce
    case _ => false
  }

  predicate OnMarket(e: Event, id: int) {
    match e.body
    case MarketActivity(m, _) => m == id
    case PositionChanged(_, m, _, _, _, _, _, _) => m == id
    case _ => false
  }

  /**
    * The k-th write comes when its rows may: a market's events after its listing, an order's events after
    * the order.
    */
  ghost predicate Timely(t0: Tables, ops: seq<Op>, k: nat)
    requires k < |ops|
  {
    var live, final := Run(t0, ops[..k]), Run(t0, ops);
    ops[k].Log? ==>
      && (forall i :: |live.markets| <= i < |final.markets| ==> !OnMarket(ops[k].e, final.markets[i].id))
      && (forall i :: |live.orders| <= i < |final.orders| ==> !TouchesOrder(ops[k].e, final.orders[i]))
  }

  ghost predicate Orderly(t0: Tables, ops: seq<Op>) {
    forall k :: 0 <= k < |ops| ==> Timely(t0, ops, k)
  }

  /** How the replayed tables stand to the live ones after the same events, given the final ones. */
  ghost predicate MarketsMatch(live: seq<MarketRow>, re: seq<MarketRow>, final: seq<MarketRow>) {
    && |live| <= |re| == |final|
    && (forall i :: 0 <= i < |live| ==>
          && re[i] == live[i].(oracleId := re[i].oracleId)
          && (re[i].oracleId == live[i].oracleId || re[i].oracleId == final[i].oracleId))
    && (forall i :: |live| <= i < |re| ==>
          re[i].id == final[i].id && !re[i].active && re[i].longOI == 0 && re[i].shortOI == 0)
  }

  ghost predicate AccountsMatch(live: seq<AccountRow>, re: seq<AccountRow>, final: seq<AccountRow>) {
    && |live| <= |re| == |final|
    && (forall i :: 0 <= i < |live| ==> re[i] == live[i])
    && (forall i :: |live| <= i < |re| ==> re[i] == AccountRow(final[i].address, 0))
  }

  /**
    * One fill: not decided live, the replayed row waits with the final terms, unless the log already rejected
    * it; rejected live, it is rejected with the same reason; settled live, it is the same row.
    */
  predicate FillMatches(live: Option<FillRow>, re: Option<FillRow>, final: Option<FillRow>, rejected: bool) {
    if final.None? then re.None? && Undecided(live)
    else if live.Some? && live.value.status == SettledFill then re == live
    else
      && re.Some? && re.value.id == final.value.id
      && re.value.terms == final.value.terms && re.value.settledAt == None
      && if live.Some? && live.value.status == RejectedFill then
           re.value.status == RejectedFill && re.value.reason == live.value.reason
         else if rejected then re.value.status == RejectedFill
         else re.value.status == PendingFill && re.value.reason == None
  }

  ghost predicate SameIds(a: seq<FillRow>, b: seq<FillRow>) {
    |a| == |b| && forall i :: 0 <= i < |a| ==> a[i].id == b[i].id
  }

  ghost predicate FillsMatch(live: seq<FillRow>, re: seq<FillRow>, final: seq<FillRow>, es: seq<Event>) {
    && SameIds(re, final)
    && forall id: string :: FillMatches(FindFill(live, id), FindFill(re, id), FindFill(final, id), EverRejected(es, id))
  }

  predicate OrderMatches(live: OrderRow, re: OrderRow, final: OrderRow) {
    && SameOrder(live, re) && re.filled == live.filled
    && re.status == (if Dead(final.status) then final.status else live.status)
  }

  predicate OrderWaits(re: OrderRow, final: OrderRow) {
    && SameOrder(re, final) && re.filled == 0
    && re.status == (if Dead(final.status) then final.status else Live)
  }

  ghost predicate OrdersMatch(live: seq<OrderRow>, re: seq<OrderRow>, final: seq<OrderRow>) {
    && |live| <= |re| == |final|
    && (forall i :: 0 <= i < |live| ==> OrderMatches(live[i], re[i], final[i]))
    && (forall i :: |live| <= i < |re| ==> OrderWaits(re[i], final[i]))
  }

  ghost predicate Matches(live: Tables, re: Tables, final: Tables, es: seq<Event>) {
    && re.positions == live.positions && re.pnl == live.pnl
    && MarketsMatch(live.markets, re.markets, final.markets)
    && AccountsMatch(live.accounts, re.accounts, final.accounts)
    && FillsMatch(live.fills, re.fills, final.fills, es)
    && OrdersMatch(live.orders, re.orders, final.orders)
  }

  lemma SameIdsKeyed(a: seq<FillRow>, b: seq<FillRow>)
    requires SameIds(a, b) && KeyedFills(b)
    ensures KeyedFills(a)
  {}

  /** One event on one fill, in both tables. */
  lemma FillStepMatches(
    live: Option<FillRow>, re: Option<FillRow>, final: Option<FillRow>, rejected: bool, id: string, e: Event)
    requires FillMatches(live, re, final, rejected)
    requires final.Some? ==> final.value.id == id
    requires live.Some? ==> live.value.id == id
    requires Undecided(final) ==> Undecided(IdStep(live, id, Log(e)))
    ensures FillMatches(IdStep(live, id, Log(e)), IdStep(re, id, Log(e)), final, rejected || Rejects(e, id))
  {}

  /** The replay inserts no fill: one that settles has its row in the final table already. */
  lemma NoFillInserted(re: seq<FillRow>, live': seq<FillRow>, final: seq<FillRow>, e: Event)
    requires SameIds(re, final) && FillsGrow(live', final)
    requires e.body.FillSettled? ==> !Undecided(FindFill(live', e.body.fillId))
    ensures SameIds(FillsAfter(re, e), final)
  {
    if e.body.FillSettled? {
      assert !Undecided(FindFill(final, e.body.fillId));
      var i :| 0 <= i < |final| && final[i].id == e.body.fillId;
      assert re[i].id == e.body.fillId;
    }
  }

  lemma FillsMatchLog(live: seq<FillRow>, re: seq<FillRow>, final: seq<FillRow>, es: seq<Event>, e: Event)
    requires FillsMatch(live, re, final, es) && KeyedFills(live) && KeyedFills(final)
    requires FillsGrow(FillsAfter(live, e), final)
    ensures FillsMatch(FillsAfter(live, e), FillsAfter(re, e), final, es + [e])
  {
    var live', re' := FillsAfter(live, e), FillsAfter(re, e);
    SameIdsKeyed(re, final);
    if e.body.FillSettled? { FindAfterLog(live, e, e.body.fillId); }
    NoFillInserted(re, live', final, e);
    hide FillMatches, KeyedFills, SameIds, FillsAfter, IdStep, EverRejected;
    forall id: string
      ensures FillMatches(FindFill(live', id), FindFill(re', id), FindFill(final, id), EverRejected(es + [e], id))
    {
      assert FillMatches(FindFill(live, id), FindFill(re, id), FindFill(final, id), EverRejected(es, id));
      assert Undecided(FindFill(final, id)) ==> Undecided(FindFill(live', id));
      FindAfterLog(live, e, id);
      FindAfterLog(re, e, id);
      EverSnoc(es, e, id);
      FillStepMatches(FindFill(live, id), FindFill(re, id), FindFill(final, id), EverRejected(es, id), id, e);
    }
  }

  predicate IsSettled(f: FillRow) { f.status == SettledFill }

  lemma {:induction false} NoneSettledSum(fs: seq<FillRow>, hash: string)
    requires forall f <- fs :: !IsSettled(f)
    ensures SettledSum(fs, hash) == 0
  {
    if fs != [] {
      assert fs[|fs| - 1] in fs;
      NoneSettledSum(fs[..|fs| - 1], hash);
    }
  }

  lemma {:induction false} SumWithout(fs: seq<FillRow>, j: nat, hash: string)
    requires j < |fs|
    ensures SettledSum(fs, hash) == SettledSum(fs[..j] + fs[j + 1..], hash) + Contribution(fs[j], hash)
  {
    var n := |fs| - 1;
    if j == n {
      assert fs[..j] + fs[j + 1..] == fs[..n];
    } else {
      var before, rest := fs[..n], fs[..j] + fs[j + 1..];
      assert rest[..|rest| - 1] == before[..j] + before[j + 1..];
      SumWithout(before, j, hash);
    }
  }

  /** What has settled of an order is decided by the settled rows, whatever else stands between them. */
  lemma {:induction false} SumBySettled(a: seq<FillRow>, b: seq<FillRow>, hash: string)
    requires KeyedFills(a) && KeyedFills(b)
    requires forall f :: IsSettled(f) ==> (f in a <==> f in b)
    ensures SettledSum(a, hash) == SettledSum(b, hash)
    decreases |a|
  {
    if a == [] {
      NoneSettledSum(b, hash);
    } else {
      var a', r := a[..|a| - 1], a[|a| - 1];
      assert r in a && forall f :: f in a <==> f in a' || f == r;
      assert r !in a';
      if IsSettled(r) {
        var j :| 0 <= j < |b| && b[j] == r;
        var b' := b[..j] + b[j + 1..];
        WithoutMembers(b, j);
        SumWithout(b, j, hash);
        SumBySettled(a', b', hash);
      } else {
        SumBySettled(a', b, hash);
      }
    }
  }

  lemma WithoutMembers(b: seq<FillRow>, j: nat)
    requires KeyedFills(b) && j < |b|
    ensures var b' := b[..j] + b[j + 1..]; KeyedFills(b') && forall f :: f in b' <==> f in b && f != b[j]
  {
    var b' := b[..j] + b[j + 1..];
    forall f | f in b && f != b[j] ensures f in b' {
      var i :| 0 <= i < |b| && b[i] == f;
      assert b'[if i < j then i else i - 1] == f;
    }
  }

  lemma SettledSame(live: seq<FillRow>, re: seq<FillRow>, final: seq<FillRow>, es: seq<Event>)
    requires FillsMatch(live, re, final, es) && KeyedFills(live) && KeyedFills(final)
    ensures KeyedFills(re) && forall f :: IsSettled(f) ==> (f in live <==> f in re)
  {
    SameIdsKeyed(re, final);
    forall f | IsSettled(f) ensures f in live <==> f in re {
      assert FillMatches(FindFill(live, f.id), FindFill(re, f.id), FindFill(final, f.id), EverRejected(es, f.id));
      if f in live { FindIn(live, f); }
      if f in re { FindIn(re, f); }
    }
  }

  lemma SumsMatch(live: seq<FillRow>, re: seq<FillRow>, final: seq<FillRow>, es: seq<Event>, hash: string)
    requires FillsMatch(live, re, final, es) && KeyedFills(live) && KeyedFills(final)
    ensures SettledSum(live, hash) == SettledSum(re, hash)
  {
    SettledSame(live, re, final, es);
    SumBySettled(live, re, hash);
  }

  lemma OrderStepMatches(
    live: OrderRow, re: OrderRow, final: OrderRow, lf: seq<FillRow>, rf: seq<FillRow>, e: Event)
    requires OrderMatches(live, re, final)
    requires SettledSum(lf, live.hash) == SettledSum(rf, live.hash)
    requires Dead(OrderStep(live, lf, e).status) ==> final.status == OrderStep(live, lf, e).status
    ensures OrderMatches(OrderStep(live, lf, e), OrderStep(re, rf, e), final)
  {}

  lemma OrdersMatchLog(live: Tables, re: Tables, final: Tables, e: Event)
    requires OrdersMatch(live.orders, re.orders, final.orders)
    requires forall hash :: SettledSum(FillsAfter(live.fills, e), hash) == SettledSum(FillsAfter(re.fills, e), hash)
    requires Grows(Apply(live, e), final)
    requires forall i :: |live.orders| <= i < |final.orders| ==> !TouchesOrder(e, final.orders[i])
    ensures OrdersMatch(Apply(live, e).orders, Apply(re, e).orders, final.orders)
  {
    var lf, rf := FillsAfter(live.fills, e), FillsAfter(re.fills, e);
    assert Apply(live, e).orders == OrdersAfter(live.orders, lf, e);
    assert Apply(re, e).orders == OrdersAfter(re.orders, rf, e);
    hide Apply, OrderStep, OrderMatches, OrderWaits, TouchesOrder, Dead;
    forall i | 0 <= i < |live.orders|
      ensures OrderMatches(OrderStep(live.orders[i], lf, e), OrderStep(re.orders[i], rf, e), final.orders[i])
    {
      assert OrderMatches(live.orders[i], re.orders[i], final.orders[i]);
      assert Apply(live, e).orders[i] == OrderStep(live.orders[i], lf, e);
      OrderStepMatches(live.orders[i], re.orders[i], final.orders[i], lf, rf, e);
    }
    forall i | |live.orders| <= i < |re.orders| ensures OrderWaits(OrderStep(re.orders[i], rf, e), final.orders[i]) {
      assert OrderWaits(re.orders[i], final.orders[i]);
      assert !TouchesOrder(e, final.orders[i]);
      UntouchedWaits(re.orders[i], final.orders[i], rf, e);
    }
  }

  /** An order the live tables do not know yet waits through events that do not touch it. */
  lemma UntouchedWaits(re: OrderRow, final: OrderRow, fills: seq<FillRow>, e: Event)
    requires OrderWaits(re, final) && !TouchesOrder(e, final)
    ensures OrderWaits(OrderStep(re, fills, e), final)
  {}

  lemma MarketsMatchLog(
    live: seq<MarketRow>, re: seq<MarketRow>, final: seq<MarketRow>, ps: seq<PositionRow>, ps': seq<PositionRow>,
    e: Event)
    requires MarketsMatch(live, re, final)
    requires |MarketsAfter(live, ps, ps', e)| <= |final|
    requires forall i :: 0 <= i < |MarketsAfter(live, ps, ps', e)| ==>
      MarketsAfter(live, ps, ps', e)[i].id == final[i].id
    requires forall i, j :: 0 <= i < j < |final| ==> final[i].id != final[j].id
    requires forall i :: |live| <= i < |final| ==> !OnMarket(e, final[i].id)
    ensures MarketsMatch(MarketsAfter(live, ps, ps', e), MarketsAfter(re, ps, ps', e), final)
  {
    hide Takes, LongSum, ShortSum;
    var live', re' := MarketsAfter(live, ps, ps', e), MarketsAfter(re, ps, ps', e);
    if e.body.MarketListed? {
      var k :| 0 <= k < |live'| && live'[k].id == e.body.marketId;
      assert re[k].id == e.body.marketId;
      assert HasMarket(re, e.body.marketId);
      forall i | |live'| <= i < |re| ensures re[i].id != e.body.marketId {
        assert final[k].id != final[i].id;
      }
    }
    forall i | |live'| <= i < |re'|
      ensures re'[i].id == final[i].id && !re'[i].active && re'[i].longOI == 0 && re'[i].shortOI == 0
    {
      assert !OnMarket(e, final[i].id);
    }
  }

  lemma AccountsMatchLog(live: Tables, re: Tables, final: Tables, e: Event)
    requires AccountsMatch(live.accounts, re.accounts, final.accounts)
    requires Grows(Apply(live, e), final) && Keyed(final)
    ensures AccountsMatch(Apply(live, e).accounts, Apply(re, e).accounts, final.accounts)
  {
    var live', re' := Apply(live, e).accounts, Apply(re, e).accounts;
    if Touched(e).Some? {
      var k :| 0 <= k < |live'| && live'[k].address == Touched(e).value;
      assert final.accounts[k].address == Touched(e).value;
      assert re.accounts[k].address == Touched(e).value;
      forall i | |live'| <= i < |re.accounts| ensures re.accounts[i].address != Touched(e).value {
        assert final.accounts[k].address != final.accounts[i].address;
      }
    }
  }

  lemma MatchesLog(live: Tables, re: Tables, final: Tables, es: seq<Event>, e: Event)
    requires Matches(live, re, final, es) && Keyed(live)
    requires Grows(Apply(live, e), final) && Keyed(final)
    requires forall i :: |live.markets| <= i < |final.markets| ==> !OnMarket(e, final.markets[i].id)
    requires forall i :: |live.orders| <= i < |final.orders| ==> !TouchesOrder(e, final.orders[i])
    ensures Matches(Apply(live, e), Apply(re, e), final, es + [e])
  {
    FillsMatchLog(live.fills, re.fills, final.fills, es, e);
    FindAfterLog(live.fills, e, "");
    forall hash: string
      ensures SettledSum(FillsAfter(live.fills, e), hash) == SettledSum(FillsAfter(re.fills, e), hash)
    {
      SumsMatch(FillsAfter(live.fills, e), FillsAfter(re.fills, e), final.fills, es + [e], hash);
    }
    hide FillsMatch, KeyedFills, FillsGrow;
    OrdersMatchLog(live, re, final, e);
    MarketsMatchLog(live.markets, re.markets, final.markets, live.positions, PositionsAfter(live.positions, e), e);
    AccountsMatchLog(live, re, final, e);
  }

  lemma FillsMatchExternal(live: Tables, re: seq<FillRow>, final: seq<FillRow>, es: seq<Event>, op: Op)
    requires FillsMatch(live.fills, re, final, es) && KeyedFills(live.fills) && !op.Log?
    ensures FillsMatch(Do(live, op).fills, re, final, es)
  {
    var live' := Do(live, op).fills;
    hide Do, EverRejected, SameIds;
    forall id: string
      ensures FillMatches(FindFill(live', id), FindFill(re, id), FindFill(final, id), EverRejected(es, id))
    {
      assert FillMatches(FindFill(live.fills, id), FindFill(re, id), FindFill(final, id), EverRejected(es, id));
      FindDo(live, op, id);
    }
  }

  /** Writes of the API and the matcher need no counterpart in the replay: the reset left room for them. */
  lemma MatchesExternal(live: Tables, re: Tables, final: Tables, es: seq<Event>, op: Op)
    requires Matches(live, re, final, es) && Keyed(live)
    requires !op.Log? && Grows(Do(live, op), final)
    ensures Matches(Do(live, op), re, final, es)
  {
    var live' := Do(live, op);
    FillsMatchExternal(live, re.fills, final.fills, es, op);
    hide FillsMatch, FillsGrow, KeyedFills;
    forall i | 0 <= i < |live'.orders| ensures OrderMatches(live'.orders[i], re.orders[i], final.orders[i]) {
      if i < |live.orders| {
        assert OrderMatches(live.orders[i], re.orders[i], final.orders[i]);
      } else {
        assert OrderWaits(re.orders[i], final.orders[i]);
      }
    }
  }

  lemma FillsMatchStart(t0: seq<FillRow>, re: seq<FillRow>, final: seq<FillRow>)
    requires KeyedFills(final) && |re| == |final| && forall i :: 0 <= i < |re| ==> re[i] == ResetFill(final[i])
    requires forall i :: 0 <= i < |t0| ==> ResetFill(t0[i]) == t0[i]
    ensures FillsMatch(t0, re, final, [])
  {
    forall id: string
      ensures FillMatches(FindFill(t0, id), FindFill(re, id), FindFill(final, id), EverRejected([], id))
    {
      if HasFill(final, id) {
        var i :| 0 <= i < |final| && final[i].id == id;
        FindSame(final, re, id, i);
      } else {
        forall f | f in re ensures f.id != id {
          var i :| 0 <= i < |re| && re[i] == f;
          assert final[i].id == re[i].id;
        }
        FindNone(re, id);
      }
      if HasFill(t0, id) {
        var f := FindFill(t0, id).value;
        var i :| 0 <= i < |t0| && t0[i] == f;
      }
    }
  }

  lemma MatchesStart(t0: Tables, final: Tables)
    requires Untouched(t0) && Grows(t0, final) && Keyed(final)
    ensures Matches(t0, Reset(final), final, [])
  {
    var re := Reset(final);
    forall i | 0 <= i < |t0.fills| ensures ResetFill(t0.fills[i]) == t0.fills[i] {
      assert Reset(t0).fills[i] == ResetFill(t0.fills[i]);
    }
    FillsMatchStart(t0.fills, re.fills, final.fills);
    hide FillsMatch, FillsGrow, KeyedFills;
    forall i | 0 <= i < |t0.orders| ensures OrderMatches(t0.orders[i], re.orders[i], final.orders[i]) {
      assert ResetOrder(t0.orders[i]) == t0.orders[i];
    }
    forall i | 0 <= i < |t0.markets|
      ensures re.markets[i] == t0.markets[i].(oracleId := final.markets[i].oracleId)
    {
      assert ResetMarket(t0.markets[i]) == t0.markets[i];
    }
    forall i | 0 <= i < |t0.accounts| ensures re.accounts[i] == t0.accounts[i] {
      assert ResetAccount(t0.accounts[i]) == t0.accounts[i];
    }
  }

  lemma {:induction false} MatchesAlong(t0: Tables, ops: seq<Op>, k: nat)
    requires Untouched(t0) && Keyed(t0) && Orderly(t0, ops) && k <= |ops|
    ensures var final := Run(t0, ops); var es := EventsOf(ops[..k]);
      Matches(Run(t0, ops[..k]), Replay(Reset(final), es), final, es)
  {
    hide Matches, Grows, Keyed, Apply, Do, Untouched, Reset;
    var final := Run(t0, ops);
    RunKeyed(t0, ops);
    if k == 0 {
      RunGrows(t0, ops, 0);
      MatchesStart(t0, final);
    } else {
      MatchesAlong(t0, ops, k - 1);
      var before, op := ops[..k - 1], ops[k - 1];
      assert ops[..k] == before + [op];
      RunSnoc(t0, Reset(final), before, op);
      RunGrows(t0, ops, k);
      RunKeyed(t0, before);
      assert Timely(t0, ops, k - 1);
      MatchesOp(Run(t0, before), Replay(Reset(final), EventsOf(before)), final, EventsOf(before), op);
    }
  }

  lemma RunSnoc(t0: Tables, r0: Tables, before: seq<Op>, op: Op)
    ensures Run(t0, before + [op]) == Do(Run(t0, before), op)
    ensures EventsOf(before + [op]) == EventsOf(before) + if op.Log? then [op.e] else []
    ensures Replay(r0, EventsOf(before + [op]))
            == (var re := Replay(r0, EventsOf(before)); if op.Log? then Apply(re, op.e) else re)
  {
    hide Do, Apply;
    assert (before + [op])[..|before|] == before;
    if op.Log? {
      var es := EventsOf(before + [op]);
      assert es[..|es| - 1] == EventsOf(before);
    } else {
      assert EventsOf(before + [op]) == EventsOf(before);
    }
  }

  lemma RunOfTwo(t0: Tables, a: Op, b: Op)
    ensures Run(t0, [a, b]) == Do(Do(t0, a), b)
    ensures EventsOf([a, b]) == (if a.Log? then [a.e] else []) + if b.Log? then [b.e] else []
  {
    hide Do, Apply;
    RunSnoc(t0, t0, [], a);
    RunSnoc(t0, t0, [a], b);
    assert [] + [a] == [a] && [a] + [b] == [a, b];
  }

  /** One write, on both sides. */
  lemma MatchesOp(live: Tables, re: Tables, final: Tables, es: seq<Event>, op: Op)
    requires Matches(live, re, final, es) && Keyed(live)
    requires Grows(Do(live, op), final) && Keyed(final)
    requires op.Log? ==>
      && (forall i :: |live.markets| <= i < |final.markets| ==> !OnMarket(op.e, final.markets[i].id))
      && (forall i :: |live.orders| <= i < |final.orders| ==> !TouchesOrder(op.e, final.orders[i]))
    ensures Matches(Do(live, op), if op.Log? then Apply(re, op.e) else re, final, es + if op.Log? then [op.e] else [])
  {
    hide Matches, Grows, Keyed, Apply;
    if op.Log? {
      MatchesLog(live, re, final, es, op.e);
    } else {
      assert es + [] == es;
      MatchesExternal(live, re, final, es, op);
    }
  }

  /** Only settled fills say where they settled. */
  predicate FillSound(f: FillRow) {
    f.status == SettledFill || f.settledAt == None
  }

  lemma {:induction false} RunSound(t0: Tables, ops: seq<Op>)
    requires Untouched(t0)
    ensures forall f <- Run(t0, ops).fills :: FillSound(f)
  {
    if ops == [] {
      forall f | f in t0.fills ensures FillSound(f) {
        var i :| 0 <= i < |t0.fills| && t0.fills[i] == f;
        assert ResetFill(f) == f;
      }
    } else {
      var before, op := ops[..|ops| - 1], ops[|ops| - 1];
      RunSound(t0, before);
      DoSound(Run(t0, before), op);
    }
  }

  lemma DoSound(t: Tables, op: Op)
    requires forall f <- t.fills :: FillSound(f)
    ensures forall f <- Do(t, op).fills :: FillSound(f)
  {
    var t' := Do(t, op);
    forall f | f in t'.fills ensures FillSound(f) {
      var i :| 0 <= i < |t'.fills| && t'.fills[i] == f;
      if !op.ReleaseFill? && i < |t.fills| { assert t.fills[i] in t.fills; }
    }
  }

  /** A pending fill the log never rejected, and the matcher noted no reason on. */
  predicate CleanIfPending(f: FillRow, es: seq<Event>) {
    f.status == PendingFill ==> f.reason == None && !EverRejected(es, f.id)
  }

  lemma SameFillsIff(re: seq<FillRow>, final: seq<FillRow>, es: seq<Event>)
    requires FillsMatch(final, re, final, es) && KeyedFills(final) && forall f <- final :: FillSound(f)
    ensures re == final <==> forall f <- final :: CleanIfPending(f, es)
  {
    SameIdsKeyed(re, final);
    forall i | 0 <= i < |final| ensures re[i] == final[i] <==> CleanIfPending(final[i], es) {
      FindSame(final, re, final[i].id, i);
      var id := final[i].id;
      assert FillMatches(FindFill(final, id), FindFill(re, id), FindFill(final, id), EverRejected(es, id));
      assert final[i] in final;
      hide EverRejected;
    }
    if re == final {
      forall f | f in final ensures CleanIfPending(f, es) {
        var i :| 0 <= i < |final| && final[i] == f;
      }
    }
  }

  /**
    * Wiping what events produced and replaying the stored events gives back the live tables, row for row,
    * whatever the API and the matcher wrote in between, if and only if no pending fill carries a reason the
    * matcher noted or an id some event rejected. Markets and orders were there before their events.
    */
  lemma RebuildEqualsLive(t0: Tables, ops: seq<Op>)
    requires Untouched(t0) && Keyed(t0) && Orderly(t0, ops)
    ensures Replay(Reset(Run(t0, ops)), EventsOf(ops)) == Run(t0, ops)
            <==> forall f <- Run(t0, ops).fills :: CleanIfPending(f, EventsOf(ops))
    ensures Replay(Reset(Run(t0, ops)), EventsOf(ops)).(fills := Run(t0, ops).fills) == Run(t0, ops)
  {
    var final := Run(t0, ops);
    MatchesAlong(t0, ops, |ops|);
    assert ops[..|ops|] == ops;
    RunKeyed(t0, ops);
    RunSound(t0, ops);
    var re := Replay(Reset(final), EventsOf(ops));
    SameFillsIff(re.fills, final.fills, EventsOf(ops));
    hide FillsMatch, CleanIfPending, KeyedFills, Run, Orderly;
    forall i | 0 <= i < |final.orders| ensures re.orders[i] == final.orders[i] {
      assert OrderMatches(final.orders[i], re.orders[i], final.orders[i]);
    }
    assert re.orders == final.orders && re.markets == final.markets && re.accounts == final.accounts;
  }

  function EmptyTables(): Tables { Tables([], [], [], [], [], []) }

  /** A run that leaves one pending fill which is not clean, with no market or order, does not survive a rebuild. */
  lemma OneFillLost(ops: seq<Op>, f: FillRow)
    requires Run(EmptyTables(), ops) == EmptyTables().(fills := [f]) && !CleanIfPending(f, EventsOf(ops))
    requires Orderly(EmptyTables(), ops)
    ensures Replay(Reset(Run(EmptyTables(), ops)), EventsOf(ops)) != Run(EmptyTables(), ops)
  {
    RebuildEqualsLive(EmptyTables(), ops);
    assert f in [f];
  }

  lemma NothingToPrecede(ops: seq<Op>)
    requires Run(EmptyTables(), ops).markets == [] && Run(EmptyTables(), ops).orders == []
    ensures Orderly(EmptyTables(), ops)
  {}

  /** The matcher notes why the chain refused a fill, and a rebuild forgets it: the reserved size counts again. */
  lemma RebuildForgetsReason(id: string, terms: FillTerms, why: string)
    ensures var t0, ops := EmptyTables(), [InsertFill(id, terms), NoteReason(id, why)];
      Orderly(t0, ops) && Replay(Reset(Run(t0, ops)), EventsOf(ops)) != Run(t0, ops)
  {
    var a, b := InsertFill(id, terms), NoteReason(id, why);
    RunOfTwo(EmptyTables(), a, b);
    var f := FillRow(id, PendingFill, Some(why), terms, None);
    assert Do(Do(EmptyTables(), a), b).fills == [f];
    assert Do(Do(EmptyTables(), a), b) == EmptyTables().(fills := [f]);
    hide Do, EventsOf;
    NothingToPrecede([a, b]);
    OneFillLost([a, b], f);
  }

  /** A fill reserved again under an id the chain once rejected comes back rejected. */
  lemma RebuildRejectsAgain(id: string, terms: FillTerms, e: Event)
    requires Rejects(e, id)
    ensures var t0, ops := EmptyTables(), [Log(e), InsertFill(id, terms)];
      Orderly(t0, ops) && Replay(Reset(Run(t0, ops)), EventsOf(ops)) != Run(t0, ops)
  {
    var a, b := Log(e), InsertFill(id, terms);
    RunOfTwo(EmptyTables(), a, b);
    var f := FillRow(id, PendingFill, None, terms, None);
    assert Do(Do(EmptyTables(), a), b) == EmptyTables().(fills := [f]);
    assert Rejects(EventsOf([a, b])[0], id);
    hide Do, EventsOf, EverRejected;
    NothingToPrecede([a, b]);
    OneFillLost([a, b], f);
  }

  // ---------------------------------------------------------------- columns agree with the rows they sum up

  predicate MarketAgrees(m: MarketRow, ps: seq<PositionRow>) {
    m.longOI == LongSum(ps, m.id) && m.shortOI == ShortSum(ps, m.id)
  }

  /** Open interest is the sum over positions, and no position is in a market not yet listed. */
  ghost predicate InterestAgrees(t: Tables) {
    && (forall i :: 0 <= i < |t.markets| ==> MarketAgrees(t.markets[i], t.positions))
    && (forall i :: 0 <= i < |t.positions| ==> HasMarket(t.markets, t.positions[i].marketId))
  }

  lemma {:induction false} SumsUnchanged(a: seq<PositionRow>, b: seq<PositionRow>, marketId: int)
    requires |a| <= |b|
    requires forall i :: 0 <= i < |a| ==>
      a[i].marketId == b[i].marketId && (a[i].marketId == marketId ==> a[i].size == b[i].size)
    requires forall i :: |a| <= i < |b| ==> b[i].marketId != marketId
    ensures LongSum(b, marketId) == LongSum(a, marketId) && ShortSum(b, marketId) == ShortSum(a, marketId)
    decreases |b|
  {
    if |b| > |a| {
      SumsUnchanged(a, b[..|b| - 1], marketId);
    } else if |b| > 0 {
      SumsUnchanged(a[..|a| - 1], b[..|b| - 1], marketId);
    }
  }

  lemma {:induction false} SumsEmpty(ps: seq<PositionRow>, marketId: int)
    requires forall i :: 0 <= i < |ps| ==> ps[i].marketId != marketId
    ensures LongSum(ps, marketId) == 0 && ShortSum(ps, marketId) == 0
  {
    if ps != [] { SumsEmpty(ps[..|ps| - 1], marketId); }
  }

  /** An event whose position refuses it, being no newer than the last one taken, changes no sum. */
  lemma PositionSums(ps: seq<PositionRow>, e: Event, marketId: int)
    requires e.body.PositionChanged? && (marketId != e.body.marketId || !Takes(ps, e))
    requires forall i, j :: 0 <= i < j < |ps| ==> !(ps[i].trader == ps[j].trader && ps[i].marketId == ps[j].marketId)
    ensures LongSum(PositionsAfter(ps, e), marketId) == LongSum(ps, marketId)
    ensures ShortSum(PositionsAfter(ps, e), marketId) == ShortSum(ps, marketId)
  {
    var after := PositionsAfter(ps, e);
    if !Takes(ps, e) {
      var k :| 0 <= k < |ps| && IsPosition(ps[k], e.body.trader, e.body.marketId) && !Before(ps[k].last, e.pos);
      forall i | 0 <= i < |ps| ensures after[i] == ps[i] {
        if i < k { assert !IsPosition(ps[i], e.body.trader, e.body.marketId); }
        if i > k { assert !IsPosition(ps[i], e.body.trader, e.body.marketId); }
      }
    }
    SumsUnchanged(ps, after, marketId);
  }

  ghost predicate OnePositionEach(ps: seq<PositionRow>) {
    forall i, j :: 0 <= i < j < |ps| ==> !(ps[i].trader == ps[j].trader && ps[i].marketId == ps[j].marketId)
  }

  lemma PositionsStayUnique(ps: seq<PositionRow>, e: Event)
    requires OnePositionEach(ps)
    ensures OnePositionEach(PositionsAfter(ps, e))
  {
    var after := PositionsAfter(ps, e);
    forall i, j | 0 <= i < j < |after|
      ensures !(after[i].trader == after[j].trader && after[i].marketId == after[j].marketId)
    {
      if j == |ps| { assert !IsPosition(ps[i], e.body.trader, e.body.marketId); }
    }
  }

  lemma InterestKept(t: Tables, e: Event)
    requires InterestAgrees(t) && OnePositionEach(t.positions)
    requires e.body.PositionChanged? ==> HasMarket(t.markets, e.body.marketId)
    ensures InterestAgrees(Apply(t, e))
  {
    var t' := Apply(t, e);
    forall i | 0 <= i < |t'.markets| ensures MarketAgrees(t'.markets[i], t'.positions) {
      if i < |t.markets| {
        assert MarketAgrees(t.markets[i], t.positions);
        if e.body.PositionChanged? && (t.markets[i].id != e.body.marketId || !Takes(t.positions, e)) {
          PositionSums(t.positions, e, t.markets[i].id);
        }
      } else {
        forall k | 0 <= k < |t.positions| ensures t.positions[k].marketId != e.body.marketId {
          assert HasMarket(t.markets, t.positions[k].marketId);
        }
        SumsEmpty(t.positions, e.body.marketId);
      }
    }
    forall i | 0 <= i < |t'.positions| ensures HasMarket(t'.markets, t'.positions[i].marketId) {
      var id := t'.positions[i].marketId;
      assert HasMarket(t.markets, id) by {
        if i < |t.positions| { assert HasMarket(t.markets, t.positions[i].marketId); }
      }
      var k :| 0 <= k < |t.markets| && t.markets[k].id == id;
      assert t'.markets[k].id == id;
    }
  }

  /** Every position event comes after its market was listed. */
  ghost predicate ListedFirst(t0: Tables, ops: seq<Op>) {
    forall k :: 0 <= k < |ops| && ops[k].Log? && ops[k].e.body.PositionChanged? ==>
      HasMarket(Run(t0, ops[..k]).markets, ops[k].e.body.marketId)
  }

  lemma InterestStep(t: Tables, op: Op)
    requires InterestAgrees(t) && OnePositionEach(t.positions)
    requires op.Log? && op.e.body.PositionChanged? ==> HasMarket(t.markets, op.e.body.marketId)
    ensures InterestAgrees(Do(t, op)) && OnePositionEach(Do(t, op).positions)
  {
    if op.Log? {
      InterestKept(t, op.e);
      PositionsStayUnique(t.positions, op.e);
      hide InterestAgrees, OnePositionEach;
    } else {
      assert Do(t, op).positions == t.positions && Do(t, op).markets == t.markets;
    }
  }

  /** In every state of every run, long and short open interest are the sums over the positions. */
  lemma {:induction false} InterestAlwaysAgrees(t0: Tables, ops: seq<Op>)
    requires Untouched(t0) && ListedFirst(t0, ops)
    ensures InterestAgrees(Run(t0, ops)) && OnePositionEach(Run(t0, ops).positions)
  {
    if ops == [] {
      forall i | 0 <= i < |t0.markets| ensures MarketAgrees(t0.markets[i], t0.positions) {
        assert ResetMarket(t0.markets[i]) == t0.markets[i];
      }
    } else {
      var before, op := ops[..|ops| - 1], ops[|ops| - 1];
      forall k | 0 <= k < |before| && before[k].Log? && before[k].e.body.PositionChanged?
        ensures HasMarket(Run(t0, before[..k]).markets, before[k].e.body.marketId)
      {
        assert before[..k] == ops[..k];
        assert HasMarket(Run(t0, ops[..k]).markets, ops[k].e.body.marketId);
      }
      assert ops[..|ops| - 1] == before;
      assert op.Log? && op.e.body.PositionChanged? ==> HasMarket(Run(t0, before).markets, op.e.body.marketId);
      hide Do, InterestAgrees, OnePositionEach;
      InterestAlwaysAgrees(t0, before);
      InterestStep(Run(t0, before), op);
    }
  }

  /** Realised profit of one trader in one market over a list of events. */
  function RealizedSum(es: seq<Event>, trader: string, marketId: int): int {
    if es == [] then 0
    else
      var b := es[|es| - 1].body;
      RealizedSum(es[..|es| - 1], trader, marketId)
      + if b.PositionChanged? && b.trader == trader && b.marketId == marketId then b.realizedPnl else 0
  }

  predicate InOrder(es: seq<Event>) {
    forall i, j :: 0 <= i < j < |es| ==> Before(es[i].pos, es[j].pos)
  }

  ghost predicate RealizedAgrees(ps: seq<PositionRow>, es: seq<Event>) {
    && (forall i :: 0 <= i < |ps| ==>
          && ps[i].realizedCum == RealizedSum(es, ps[i].trader, ps[i].marketId)
          && exists j :: 0 <= j < |es| && es[j].pos == ps[i].last)
    && (forall trader, marketId :: !HasPosition(ps, trader, marketId) ==> RealizedSum(es, trader, marketId) == 0)
  }

  lemma RealizedKept(ps: seq<PositionRow>, es: seq<Event>, e: Event)
    requires RealizedAgrees(ps, es) && InOrder(es + [e])
    ensures RealizedAgrees(PositionsAfter(ps, e), es + [e])
  {
    var after, es' := PositionsAfter(ps, e), es + [e];
    assert es'[..|es|] == es;
    forall j | 0 <= j < |es| ensures Before(es[j].pos, e.pos) {
      assert Before(es'[j].pos, es'[|es|].pos);
    }
    forall i | 0 <= i < |after|
      ensures after[i].realizedCum == RealizedSum(es', after[i].trader, after[i].marketId)
      ensures exists j :: 0 <= j < |es'| && es'[j].pos == after[i].last
    {
      if i < |ps| {
        var j :| 0 <= j < |es| && es[j].pos == ps[i].last;
        assert es'[j].pos == ps[i].last && es'[|es|].pos == e.pos;
      } else {
        assert !HasPosition(ps, e.body.trader, e.body.marketId);
        assert es'[|es|].pos == e.pos;
      }
    }
    forall trader, marketId | !HasPosition(after, trader, marketId)
      ensures RealizedSum(es', trader, marketId) == 0
    {
      forall i | 0 <= i < |ps| ensures !IsPosition(ps[i], trader, marketId) {
        assert !IsPosition(after[i], trader, marketId);
      }
      assert |after| > |ps| ==> !IsPosition(after[|ps|], trader, marketId);
    }
  }

  /** Every position carries exactly the profit its events realised, each counted once. */
  lemma {:induction false} RealizedAlwaysAgrees(t0: Tables, ops: seq<Op>)
    requires Untouched(t0) && InOrder(EventsOf(ops))
    ensures RealizedAgrees(Run(t0, ops).positions, EventsOf(ops))
  {
    if ops != [] {
      var before, op := ops[..|ops| - 1], ops[|ops| - 1];
      var es := EventsOf(before);
      if op.Log? {
        assert EventsOf(ops) == es + [op.e];
        forall i, j | 0 <= i < j < |es| ensures Before(es[i].pos, es[j].pos) {
          assert es[i] == EventsOf(ops)[i] && es[j] == EventsOf(ops)[j];
        }
        RealizedAlwaysAgrees(t0, before);
        RealizedKept(Run(t0, before).positions, es, op.e);
      } else {
        assert EventsOf(ops) == es;
        RealizedAlwaysAgrees(t0, before);
      }
    }
  }
}
