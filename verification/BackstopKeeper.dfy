/** The backstop unwinder: closing finished intents and posting a tick's slices (client/lib/keepers/backstop.ts). */
module BackstopKeeper {
  import opened Arithmetic
  import opened Backstop
  import opened Wrappers

  const MAX_UNWIND_TTL_SECONDS: nat := 3_600

  /** An unwind order; its hash stands for it, so the order itself is its key. */
  datatype Order = Order(marketId: int, isLong: bool, size: nat, limitPrice: int, nonce: nat, expiry: nat)

  datatype OrderStatus = Open | PartiallyFilled | Filled | Cancelled | Expired

  /** The indexer's Order row. */
  datatype OrderRow = OrderRow(order: Order, status: OrderStatus, filled: nat)

  datatype ActionStatus = Planned | Submitted | Confirmed | Failed | SkippedAction

  /** A KeeperAction: the intent to unwind, and how its order ended. */
  datatype Action = Action(marketId: int, order: Option<Order>, status: ActionStatus, filled: nat)

  // ---------------------------------------------------------------- the book

  predicate Live(r: OrderRow, now: nat) {
    (r.status.Open? || r.status.PartiallyFilled?) && r.order.expiry > now
  }

  function Find(rows: seq<OrderRow>, o: Order): (r: Option<OrderRow>)
    ensures r.Some? ==> r.value in rows && r.value.order == o
    ensures r.None? ==> forall x :: x in rows ==> x.order != o
  {
    if rows == [] then None
    else
      var last := rows[|rows| - 1];
      if last.order == o then Some(last) else Find(rows[..|rows| - 1], o)
  }

  function ToOpen(r: OrderRow): OpenOrder {
    OpenOrder(r.order.marketId, r.order.isLong, Max(0, r.order.size - r.filled), Max(0, r.order.limitPrice))
  }

  /** The open orders a tick reads: status open, expiry ahead, what remains unfilled. */
  function OpenOrders(rows: seq<OrderRow>, now: nat): seq<OpenOrder> {
    if rows == [] then []
    else
      var last := rows[|rows| - 1];
      OpenOrders(rows[..|rows| - 1], now) + if Live(last, now) then [ToOpen(last)] else []
  }

  predicate LiveIn(rows: seq<OrderRow>, now: nat, marketId: int) {
    exists r :: r in rows && Live(r, now) && r.order.marketId == marketId
  }

  predicate OpenIn(open: seq<OpenOrder>, marketId: int) {
    exists k :: 0 <= k < |open| && open[k].marketId == marketId
  }

  lemma {:induction false} OpenIffLive(rows: seq<OrderRow>, now: nat, marketId: int)
    ensures OpenIn(OpenOrders(rows, now), marketId) <==> LiveIn(rows, now, marketId)
  {
    if rows != [] {
      var init, last := rows[..|rows| - 1], rows[|rows| - 1];
      OpenIffLive(init, now, marketId);
      var before, all := OpenOrders(init, now), OpenOrders(rows, now);
      assert forall k :: 0 <= k < |before| ==> all[k] == before[k];
      if Live(last, now) && last.order.marketId == marketId { assert all[|before|].marketId == marketId; }
      if OpenIn(before, marketId) {
        var k :| 0 <= k < |before| && before[k].marketId == marketId;
        assert all[k].marketId == marketId;
      }
    }
  }

  predicate LiveOrder(rows: seq<OrderRow>, now: nat, o: Order) {
    exists r :: r in rows && r.order == o && Live(r, now)
  }

  datatype Intake = Accepted | Refused

  predicate NonceUsed(rows: seq<OrderRow>, nonce: nat) {
    exists r :: r in rows && r.order.nonce == nonce
  }

  /** Intake: `valid` is the verdict of its signature and field checks beyond a positive size and price. */
  function SubmitTo(rows: seq<OrderRow>, o: Order, valid: bool): (Intake, seq<OrderRow>) {
    if !valid || o.size == 0 || o.limitPrice <= 0 then (Refused, rows)
    else if Find(rows, o).Some? then (Accepted, rows)
    else if NonceUsed(rows, o.nonce) then (Refused, rows)
    else (Accepted, rows + [OrderRow(o, Open, 0)])
  }

  // ---------------------------------------------------------------- closing intents

  predicate OpenIntent(a: Action) {
    a.status.Planned? || a.status.Submitted?
  }

  predicate Ended(rows: seq<OrderRow>, o: Order, now: nat) {
    var st := Find(rows, o);
    || st.None? || st.value.order.expiry <= now
    || st.value.status.Filled? || st.value.status.Expired? || st.value.status.Cancelled?
  }

  function CloseOne(a: Action, rows: seq<OrderRow>, now: nat): Action {
    if !OpenIntent(a) then a
    else if a.order.None? then a.(status := Failed)
    else if !Ended(rows, a.order.value, now) then a
    else
      var st := Find(rows, a.order.value);
      var filled := if st.Some? then st.value.filled else 0;
      a.(status := if filled > 0 then Confirmed else SkippedAction, filled := filled)
  }

  predicate Closes(a: Action, rows: seq<OrderRow>, now: nat) {
    OpenIntent(a) && a.order.Some? && Ended(rows, a.order.value, now)
  }

  function CloseAll(actions: seq<Action>, rows: seq<OrderRow>, now: nat): (r: seq<Action>)
    ensures |r| == |actions| && forall k :: 0 <= k < |actions| ==> r[k] == CloseOne(actions[k], rows, now)
  {
    seq(|actions|, k requires 0 <= k < |actions| => CloseOne(actions[k], rows, now))
  }

  function CountClosed(actions: seq<Action>, rows: seq<OrderRow>, now: nat): nat {
    if actions == [] then 0
    else
      CountClosed(actions[..|actions| - 1], rows, now) + if Closes(actions[|actions| - 1], rows, now) then 1 else 0
  }

  predicate OneRowPerOrder(rows: seq<OrderRow>) {
    forall j, k :: 0 <= j < k < |rows| ==> rows[j].order.nonce != rows[k].order.nonce
  }

  lemma FindIs(rows: seq<OrderRow>, r: OrderRow)
    requires OneRowPerOrder(rows) && r in rows
    ensures Find(rows, r.order) == Some(r)
  {
    var found := Find(rows, r.order).value;
    var j :| 0 <= j < |rows| && rows[j] == r;
    var k :| 0 <= k < |rows| && rows[k] == found;
    assert !(j < k) && !(k < j);
  }

  /**
    * An intent stays open exactly while its order is live on the book; otherwise it ends, as confirmed exactly
    * when the row shows a fill, and an ended intent is never touched again.
    */
  lemma ClosedExactlyWhenEnded(a: Action, rows: seq<OrderRow>, now: nat, later: seq<OrderRow>, t: nat)
    requires OneRowPerOrder(rows)
    ensures var c := CloseOne(a, rows, now);
      && (OpenIntent(c) <==> (OpenIntent(a) && a.order.Some? && LiveOrder(rows, now, a.order.value)))
      && (OpenIntent(c) ==> c == a)
      && (!OpenIntent(c) ==> CloseOne(c, later, t) == c)
      && (Closes(a, rows, now) ==>
            (c.status.Confirmed? <==> exists r :: r in rows && r.order == a.order.value && r.filled > 0))
  {
    if a.order.Some? {
      forall r | r in rows && r.order == a.order.value ensures Find(rows, a.order.value) == Some(r) {
        FindIs(rows, r);
      }
    }
  }

  class ActionTable {
    var rows: seq<Action>

    constructor ()
      ensures rows == []
    {
      rows := [];
    }
  }

  class OrderBook {
    var rows: seq<OrderRow>

    constructor ()
      ensures rows == []
    {
      rows := [];
    }

    method Submit(o: Order, valid: bool) returns (r: Intake)
      modifies this
      ensures (r, rows) == SubmitTo(old(rows), o, valid)
    {
      var result := SubmitTo(rows, o, valid);
      rows := result.1;
      r := result.0;
    }
  }

  // ---------------------------------------------------------------- posting

  /** Microseconds and a sequence: the order's nonce. */
  function Nonce(ms: nat, count: nat): nat { ms * 1_000 + count % 1_000 }

  /** Two nonces collide exactly when drawn in one millisecond a whole number of thousands apart. */
  lemma NoncesCollideIff(ms: nat, count: nat, ms': nat, count': nat)
    ensures Nonce(ms, count) == Nonce(ms', count') <==> ms == ms' && count % 1_000 == count' % 1_000
  {}

  function OrderFor(s: Slice, nonce: nat, expiry: nat): Order {
    Order(s.marketId, s.isLong, s.size, s.limitPrice, nonce, expiry)
  }

  /** The orders of a tick's slices: `clock(k)` is the wall clock, in milliseconds, as the k-th is built. */
  function OrdersFor(slices: seq<Slice>, clock: nat -> nat, count: nat, expiry: nat): (r: seq<Order>)
    ensures |r| == |slices|
    ensures forall k :: 0 <= k < |slices| ==> r[k] == OrderFor(slices[k], Nonce(clock(k), count + k), expiry)
  {
    seq(|slices|, k requires 0 <= k < |slices| => OrderFor(slices[k], Nonce(clock(k), count + k), expiry))
  }

  function PostAll(rows: seq<OrderRow>, orders: seq<Order>, valid: Order -> bool): seq<OrderRow> {
    if orders == [] then rows
    else
      var o := orders[|orders| - 1];
      SubmitTo(PostAll(rows, orders[..|orders| - 1], valid), o, valid(o)).1
  }

  function RecordFor(o: Order, intake: Intake): Action {
    if intake == Accepted then Action(o.marketId, Some(o), Submitted, 0) else Action(o.marketId, None, Failed, 0)
  }

  /** The intents recorded for `orders`, in order: submitted with the order, or failed. */
  function Records(rows: seq<OrderRow>, orders: seq<Order>, valid: Order -> bool): (r: seq<Action>)
    ensures |r| == |orders|
  {
    if orders == [] then []
    else
      var init, o := orders[..|orders| - 1], orders[|orders| - 1];
      Records(rows, init, valid) + [RecordFor(o, SubmitTo(PostAll(rows, init, valid), o, valid(o)).0)]
  }

  lemma PostStep(rows: seq<OrderRow>, orders: seq<Order>, valid: Order -> bool, k: nat)
    requires k < |orders|
    ensures var (intake, after) := SubmitTo(PostAll(rows, orders[..k], valid), orders[k], valid(orders[k]));
      && PostAll(rows, orders[..k + 1], valid) == after
      && Records(rows, orders[..k + 1], valid) == Records(rows, orders[..k], valid) + [RecordFor(orders[k], intake)]
  {
    hide SubmitTo;
    assert orders[..k + 1][..k] == orders[..k];
  }

  ghost predicate PostedUpTo(
    rows: seq<OrderRow>, recorded: seq<Action>, orders: seq<Order>, valid: Order -> bool, k: nat,
    now: seq<OrderRow>, intents: seq<Action>)
  {
    && k <= |orders| && now == PostAll(rows, orders[..k], valid)
    && intents == recorded + Records(rows, orders[..k], valid)
  }

  lemma PostedNone(rows: seq<OrderRow>, recorded: seq<Action>, orders: seq<Order>, valid: Order -> bool)
    ensures PostedUpTo(rows, recorded, orders, valid, 0, rows, recorded)
  {}

  lemma PostedNext(rows: seq<OrderRow>, recorded: seq<Action>, orders: seq<Order>, valid: Order -> bool, k: nat,
                   now: seq<OrderRow>, intents: seq<Action>)
    requires k < |orders| && PostedUpTo(rows, recorded, orders, valid, k, now, intents)
    ensures var (intake, after) := SubmitTo(now, orders[k], valid(orders[k]));
      PostedUpTo(rows, recorded, orders, valid, k + 1, after, intents + [RecordFor(orders[k], intake)])
  {
    hide PostAll, Records, SubmitTo;
    PostStep(rows, orders, valid, k);
  }

  lemma PostedEach(rows: seq<OrderRow>, recorded: seq<Action>, orders: seq<Order>, valid: Order -> bool,
                   now: seq<OrderRow>, intents: seq<Action>)
    requires PostedUpTo(rows, recorded, orders, valid, |orders|, now, intents)
    ensures now == PostAll(rows, orders, valid) && intents == recorded + Records(rows, orders, valid)
  {
    assert orders[..|orders|] == orders;
  }

  // ---------------------------------------------------------------- the tick

  datatype IdleReason = LimitsUnset | Paused | SignerLacksRole | Flat

  datatype Chain = Chain(limits: Limits, paused: bool, hasRole: bool, positions: seq<Holding>,
                         index: map<int, Option<int>>, minFill: map<int, Option<int>>)

  datatype TickResult = Idle(reason: IdleReason, closed: nat) | Ran(plan: Plan, closed: nat)

  function Held(ps: seq<Holding>): (r: seq<Holding>)
    ensures forall p :: p in r <==> p in ps && p.size != 0
  {
    if ps == [] then [] else Held(ps[..|ps| - 1]) + if ps[|ps| - 1].size != 0 then [ps[|ps| - 1]] else []
  }

  function Gate(c: Chain): Option<IdleReason> {
    if c.limits.maxDeviationBps == 0 then Some(LimitsUnset)
    else if c.paused then Some(Paused)
    else if !c.hasRole then Some(SignerLacksRole)
    else if Held(c.positions) == [] then Some(Flat)
    else None
  }

  function InputFor(c: Chain, rows: seq<OrderRow>, now: nat, offset: int, maxOrders: int): PlanInput {
    PlanInput(Held(c.positions), c.limits, c.index, c.minFill, OpenOrders(rows, now), offset, maxOrders)
  }

  class BackstopUnwinder {
    const ttl: nat
    const offset: int
    const maxOrders: int
    var lastIdle: Option<IdleReason>
    var nonceSeq: nat

    constructor (ttl: nat, offset: Option<int>, maxOrders: Option<int>)
      ensures this.ttl == ttl && lastIdle == None && nonceSeq == 0
      ensures this.offset == (if offset.Some? then offset.value else 25)
      ensures this.maxOrders == (if maxOrders.Some? then maxOrders.value else 4)
    {
      this.ttl, lastIdle, nonceSeq := ttl, None, 0;
      this.offset := if offset.Some? then offset.value else 25;
      this.maxOrders := if maxOrders.Some? then maxOrders.value else 4;
    }

    /** A TTL outside (0, 3600] is refused; the default is half an hour. */
    static method Create(ttl: Option<int>, offset: Option<int>, maxOrders: Option<int>) returns (u: BackstopUnwinder?)
      ensures u == null <==> ttl.Some? && (ttl.value <= 0 || ttl.value > MAX_UNWIND_TTL_SECONDS)
      ensures u != null ==> 0 < u.ttl <= MAX_UNWIND_TTL_SECONDS && u.ttl == (if ttl.Some? then ttl.value else 1_800)
    {
      var seconds := if ttl.Some? then ttl.value else 1_800;
      if seconds <= 0 || seconds > MAX_UNWIND_TTL_SECONDS { return null; }
      u := new BackstopUnwinder(seconds, offset, maxOrders);
    }

    method CloseFinished(actions: ActionTable, book: OrderBook, now: nat) returns (closed: nat)
      modifies actions
      ensures actions.rows == CloseAll(old(actions.rows), book.rows, now)
      ensures closed == CountClosed(old(actions.rows), book.rows, now)
    {
      closed := 0;
      ghost var was := actions.rows;
      for k := 0 to |actions.rows|
        invariant |actions.rows| == |was|
        invariant forall j :: 0 <= j < |was| ==>
          actions.rows[j] == if j < k then CloseOne(was[j], book.rows, now) else was[j]
        invariant closed == CountClosed(was[..k], book.rows, now)
      {
        var a := actions.rows[k];
        assert was[..k + 1][..k] == was[..k];
        if OpenIntent(a) {
          if a.order.None? {
            actions.rows := actions.rows[k := a.(status := Failed)];
          } else if Ended(book.rows, a.order.value, now) {
            var st := Find(book.rows, a.order.value);
            var filled := if st.Some? then st.value.filled else 0;
            var ended := if filled > 0 then Confirmed else SkippedAction;
            actions.rows := actions.rows[k := a.(status := ended, filled := filled)];
            closed := closed + 1;
          }
        }
      }
      assert was[..|was|] == was;
    }

    /** One slice: its order, its submission, and the intent recorded for it. */
    method PostOne(o: Order, actions: ActionTable, book: OrderBook, valid: bool)
      modifies this`nonceSeq, actions, book
      ensures nonceSeq == old(nonceSeq) + 1
      ensures book.rows == SubmitTo(old(book.rows), o, valid).1
      ensures actions.rows == old(actions.rows) + [RecordFor(o, SubmitTo(old(book.rows), o, valid).0)]
    {
      nonceSeq := nonceSeq + 1;
      var res := book.Submit(o, valid);
      if res == Refused {
        actions.rows := actions.rows + [Action(o.marketId, None, Failed, 0)];
      } else {
        actions.rows := actions.rows + [Action(o.marketId, Some(o), Submitted, 0)];
      }
    }

    method Post(
      slices: seq<Slice>, actions: ActionTable, book: OrderBook, now: nat, clock: nat -> nat, valid: Order -> bool)
      modifies this`nonceSeq, actions, book
      ensures nonceSeq == old(nonceSeq) + |slices|
      ensures PostedUpTo(old(book.rows), old(actions.rows), OrdersFor(slices, clock, old(nonceSeq), now + ttl), valid,
                         |slices|, book.rows, actions.rows)
    {
      hide *;
      ghost var orders := OrdersFor(slices, clock, nonceSeq, now + ttl);
      PostedNone(book.rows, actions.rows, orders, valid);
      for k := 0 to |slices|
        invariant nonceSeq == old(nonceSeq) + k
        invariant PostedUpTo(old(book.rows), old(actions.rows), orders, valid, k, book.rows, actions.rows)
      {
        var o := OrderFor(slices[k], Nonce(clock(k), nonceSeq), now + ttl);
        PostedNext(old(book.rows), old(actions.rows), orders, valid, k, book.rows, actions.rows);
        PostOne(o, actions, book, valid(o));
      }
    }

    /** One tick: close what ended, then, unless a gate is shut, plan over the open orders and post each slice. */
    method RunTick(
      actions: ActionTable, book: OrderBook, chain: Chain, now: nat, clock: nat -> nat, valid: Order -> bool)
        returns (r: TickResult)
      modifies this, actions, book
      ensures r.closed == CountClosed(old(actions.rows), old(book.rows), now)
      ensures r.Idle? <==> Gate(chain).Some?
      ensures r.Idle? ==> Gate(chain) == Some(r.reason) == lastIdle && nonceSeq == old(nonceSeq)
      ensures r.Idle? ==>
        book.rows == old(book.rows) && actions.rows == CloseAll(old(actions.rows), old(book.rows), now)
      ensures r.Ran? ==>
        var orders := OrdersFor(r.plan.slices, clock, old(nonceSeq), now + ttl);
        && lastIdle == None && nonceSeq == old(nonceSeq) + |orders|
        && r.plan == PlanFor(InputFor(chain, old(book.rows), now, offset, maxOrders))
        && book.rows == PostAll(old(book.rows), orders, valid)
        && actions.rows == CloseAll(old(actions.rows), old(book.rows), now) + Records(old(book.rows), orders, valid)
    {
      hide CloseAll, CountClosed, PlanFor, PostAll, Records, OpenOrders, PostedUpTo;
      var closed := CloseFinished(actions, book, now);
      lastIdle := Gate(chain);
      if lastIdle.Some? { return Idle(lastIdle.value, closed); }
      var plan := PlanUnwind(InputFor(chain, book.rows, now, offset, maxOrders));
      ghost var orders := OrdersFor(plan.slices, clock, nonceSeq, now + ttl);
      ghost var rows, recorded := book.rows, actions.rows;
      Post(plan.slices, actions, book, now, clock, valid);
      PostedEach(rows, recorded, orders, valid, book.rows, actions.rows);
      r := Ran(plan, closed);
    }
  }

  // ---------------------------------------------------------------- one order a market

  /** No market ever has two live unwind orders. */
  predicate OneLivePerMarket(rows: seq<OrderRow>, now: nat) {
    forall j, k :: 0 <= j < k < |rows| && Live(rows[j], now) && Live(rows[k], now) ==>
      rows[j].order.marketId != rows[k].order.marketId
  }

  predicate DistinctMarkets(ps: seq<Holding>) {
    forall j, k :: 0 <= j < k < |ps| ==> ps[j].marketId != ps[k].marketId
  }

  lemma {:induction false} MarketsCount(ps: seq<Holding>, m: int)
    requires DistinctMarkets(ps)
    ensures NonFlatMarkets(ps)[m] <= 1
    ensures NonFlatMarkets(ps)[m] > 0 ==> exists k :: 0 <= k < |ps| && ps[k].marketId == m
  {
    if ps != [] {
      var init := ps[..|ps| - 1];
      MarketsCount(init, m);
      if NonFlatMarkets(init)[m] > 0 {
        var k :| 0 <= k < |init| && init[k].marketId == m;
        assert ps[k].marketId == m;
      }
    }
  }

  lemma {:induction false} SlicesCount(slices: seq<Slice>, j: nat, k: nat)
    requires j < |slices| && k < |slices| && slices[j].marketId == slices[k].marketId
    ensures SliceMarkets(slices)[slices[k].marketId] >= if j == k then 1 else 2
    decreases |slices|
  {
    var n := |slices| - 1;
    var init := slices[..n];
    if j < n && k < n {
      SlicesCount(init, j, k);
    } else if j < n {
      SlicesCount(init, j, j);
    } else if k < n {
      SlicesCount(init, k, k);
    }
  }

  lemma HeldDistinct(ps: seq<Holding>)
    requires DistinctMarkets(ps)
    ensures DistinctMarkets(Held(ps))
  {
    if ps != [] {
      var init, last := ps[..|ps| - 1], ps[|ps| - 1];
      HeldDistinct(init);
      forall p | p in Held(init) ensures p.marketId != last.marketId {
        var k :| 0 <= k < |init| && init[k] == p;
        assert ps[k].marketId != ps[|ps| - 1].marketId;
      }
    }
  }

  /** A plan over distinct positions slices no market twice, and none where an order is live. */
  lemma PlannedMarkets(c: Chain, rows: seq<OrderRow>, now: nat, offset: int, maxOrders: int)
    requires DistinctMarkets(c.positions)
    ensures var slices := PlanFor(InputFor(c, rows, now, offset, maxOrders)).slices;
      && (forall j, k :: 0 <= j < k < |slices| ==> slices[j].marketId != slices[k].marketId)
      && (forall k :: 0 <= k < |slices| ==> !LiveIn(rows, now, slices[k].marketId))
  {
    var i := InputFor(c, rows, now, offset, maxOrders);
    var slices := PlanFor(i).slices;
    EveryPositionOnce(i);
    SlicesAreSound(i);
    HeldDistinct(c.positions);
    hide PlanFor, NonFlatMarkets, SliceMarkets, SkipMarkets;
    forall j, k | 0 <= j < k < |slices| ensures slices[j].marketId != slices[k].marketId {
      MarketsCount(i.positions, slices[k].marketId);
      if slices[j].marketId == slices[k].marketId {
        SlicesCount(slices, j, k);
        assert false;
      }
    }
    forall k | 0 <= k < |slices| ensures !LiveIn(rows, now, slices[k].marketId) {
      OpenIffLive(rows, now, slices[k].marketId);
      assert SoundSlice(i, slices[k]);
    }
  }

  // ---------------------------------------------------------------- runs

  predicate DistinctOrderMarkets(orders: seq<Order>) {
    forall j, k :: 0 <= j < k < |orders| ==> orders[j].marketId != orders[k].marketId
  }

  predicate NoneLiveFor(rows: seq<OrderRow>, orders: seq<Order>, now: nat) {
    forall k :: 0 <= k < |orders| ==> !LiveIn(rows, now, orders[k].marketId)
  }

  lemma OneMoreRow(rows: seq<OrderRow>, o: Order, now: nat)
    requires OneLivePerMarket(rows, now) && OneRowPerOrder(rows)
    requires !LiveIn(rows, now, o.marketId) && !NonceUsed(rows, o.nonce)
    ensures OneLivePerMarket(rows + [OrderRow(o, Open, 0)], now) && OneRowPerOrder(rows + [OrderRow(o, Open, 0)])
  {
    var all := rows + [OrderRow(o, Open, 0)];
    forall j | 0 <= j < |rows| ensures all[j] == rows[j] && rows[j].order.nonce != o.nonce
      && !(Live(rows[j], now) && rows[j].order.marketId == o.marketId)
    {
      assert rows[j] in rows;
    }
  }

  /** Posting to markets without a live order keeps one live order a market, and adds only rows of the orders posted. */
  lemma {:induction false} PostingKeeps(rows: seq<OrderRow>, orders: seq<Order>, valid: Order -> bool, now: nat)
    requires OneLivePerMarket(rows, now) && OneRowPerOrder(rows)
    requires DistinctOrderMarkets(orders) && NoneLiveFor(rows, orders, now)
    ensures var after := PostAll(rows, orders, valid);
      && OneLivePerMarket(after, now) && OneRowPerOrder(after) && rows <= after
      && forall r :: r in after ==> r in rows || r.order in orders
  {
    if orders != [] {
      var n := |orders| - 1;
      var before, o := PostAll(rows, orders[..n], valid), orders[n];
      PostingKeeps(rows, orders[..n], valid, now);
      hide PostAll, Live, OneLivePerMarket, OneRowPerOrder;
      forall r | r in before && Live(r, now) ensures r.order.marketId != o.marketId {
        if r !in rows {
          var k :| 0 <= k < n && orders[..n][k] == r.order;
          assert orders[k].marketId != orders[n].marketId;
        } else {
          assert !LiveIn(rows, now, o.marketId);
        }
      }
      if !NonceUsed(before, o.nonce) { OneMoreRow(before, o, now); }
      PostLast(rows, orders, valid);
    }
  }

  lemma PostLast(rows: seq<OrderRow>, orders: seq<Order>, valid: Order -> bool)
    requires orders != []
    ensures var n := |orders| - 1;
      var before, after := PostAll(rows, orders[..n], valid), PostAll(rows, orders, valid);
      after == before || (!NonceUsed(before, orders[n].nonce) && after == before + [OrderRow(orders[n], Open, 0)])
  {
    hide Find, NonceUsed;
  }

  /** A row that posting added has its order among the records as a submitted intent. */
  lemma {:induction false} AddedIsRecorded(rows: seq<OrderRow>, orders: seq<Order>, valid: Order -> bool, r: OrderRow)
    requires r in PostAll(rows, orders, valid) && r !in rows
    ensures exists k ::
      0 <= k < |orders| && Records(rows, orders, valid)[k] == Action(r.order.marketId, Some(r.order), Submitted, 0)
  {
    var n := |orders| - 1;
    var before, o := PostAll(rows, orders[..n], valid), orders[n];
    hide Find, NonceUsed;
    if r in before {
      AddedIsRecorded(rows, orders[..n], valid, r);
      var k :| 0 <= k < n &&
        Records(rows, orders[..n], valid)[k] == Action(r.order.marketId, Some(r.order), Submitted, 0);
      assert Records(rows, orders, valid)[k] == Records(rows, orders[..n], valid)[k];
    } else {
      assert Records(rows, orders, valid)[n] == RecordFor(o, Accepted);
    }
  }

  /** The k-th record speaks of the k-th order or of none. */
  lemma {:induction false} RecordsAre(rows: seq<OrderRow>, orders: seq<Order>, valid: Order -> bool, k: nat)
    requires k < |orders| && OpenIntent(Records(rows, orders, valid)[k])
    ensures Records(rows, orders, valid)[k].order == Some(orders[k])
  {
    hide SubmitTo, PostAll;
    if k < |orders| - 1 { RecordsAre(rows, orders[..|orders| - 1], valid, k); }
  }

  datatype State = State(rows: seq<OrderRow>, actions: seq<Action>, now: nat)

  /** No market has two live unwind orders, and no order two open intents. */
  ghost predicate Inv(s: State) {
    && OneLivePerMarket(s.rows, s.now) && OneRowPerOrder(s.rows)
    && AtMostOneIntent(s)
  }

  ghost predicate AtMostOneIntent(s: State) {
    forall j, k :: 0 <= j < k < |s.actions| && OpenIntent(s.actions[j]) && OpenIntent(s.actions[k]) ==>
      s.actions[j].order.Some? ==> s.actions[j].order != s.actions[k].order
  }

  /** Every live order has its open intent. */
  ghost predicate Tracked(s: State) {
    forall r :: r in s.rows && Live(r, s.now) ==> HasIntent(s.actions, r.order)
  }

  predicate HasIntent(actions: seq<Action>, o: Order) {
    exists k :: 0 <= k < |actions| && OpenIntent(actions[k]) && actions[k].order == Some(o)
  }

  /**
    * A tick that sends the first `sent` of the orders it planned and records the first `recorded`; a crash leaves
    * them short.
    */
  ghost predicate TickStep(s: State, t: State, orders: seq<Order>, valid: Order -> bool, sent: nat, recorded: nat) {
    && recorded <= sent <= |orders| && sent <= recorded + 1
    && t.now == s.now
    && t.rows == PostAll(s.rows, orders[..sent], valid)
    && t.actions == CloseAll(s.actions, s.rows, s.now) + Records(s.rows, orders[..recorded], valid)
  }

  /** Orders planned from this state: one a market, none where an order is live. */
  ghost predicate PlannedIn(s: State, orders: seq<Order>) {
    exists c: Chain, offset: int, maxOrders: int, clock: nat -> nat, count: nat, expiry: nat ::
      DistinctMarkets(c.positions)
      && orders == OrdersFor(PlanFor(InputFor(c, s.rows, s.now, offset, maxOrders)).slices, clock, count, expiry)
  }

  /** The exchange moves on: fills, cancels and expiries; an order that has ended stays ended. */
  ghost predicate WorldStep(s: State, t: State) {
    && t.now >= s.now && t.actions == s.actions && |t.rows| == |s.rows|
    && (forall k :: 0 <= k < |s.rows| ==> t.rows[k].order == s.rows[k].order)
    && (forall k :: 0 <= k < |s.rows| && Live(t.rows[k], t.now) ==> Live(s.rows[k], s.now))
  }

  lemma PlannedOrdersFit(s: State, orders: seq<Order>)
    requires PlannedIn(s, orders)
    ensures DistinctOrderMarkets(orders) && NoneLiveFor(s.rows, orders, s.now)
  {
    hide PlanFor, LiveIn;
    var c: Chain, offset: int, maxOrders: int, clock: nat -> nat, count: nat, expiry: nat :|
      DistinctMarkets(c.positions)
      && orders == OrdersFor(PlanFor(InputFor(c, s.rows, s.now, offset, maxOrders)).slices, clock, count, expiry);
    PlannedMarkets(c, s.rows, s.now, offset, maxOrders);
  }

  lemma PrefixFits(rows: seq<OrderRow>, orders: seq<Order>, now: nat, n: nat)
    requires DistinctOrderMarkets(orders) && NoneLiveFor(rows, orders, now) && n <= |orders|
    ensures DistinctOrderMarkets(orders[..n]) && NoneLiveFor(rows, orders[..n], now)
  {
    hide LiveIn;
  }

  /**
    * What is still an open intent after a tick was one before it, for an order live on the book; or the tick recorded
    * it.
    */
  lemma OldIntent(s: State, t: State, orders: seq<Order>, valid: Order -> bool, sent: nat, recorded: nat, k: nat)
    requires OneRowPerOrder(s.rows) && TickStep(s, t, orders, valid, sent, recorded)
    requires k < |t.actions| && OpenIntent(t.actions[k]) && t.actions[k].order.Some?
    ensures k < |s.actions| ==> t.actions[k] == s.actions[k] && LiveOrder(s.rows, s.now, t.actions[k].order.value)
    ensures k >= |s.actions| ==> k - |s.actions| < recorded && t.actions[k].order.value == orders[k - |s.actions|]
  {
    if k < |s.actions| {
      ClosedExactlyWhenEnded(s.actions[k], s.rows, s.now, [], 0);
    } else {
      RecordsAre(s.rows, orders[..recorded], valid, k - |s.actions|);
    }
  }

  lemma TickKeepsIntents(s: State, t: State, orders: seq<Order>, valid: Order -> bool, sent: nat, recorded: nat)
    requires Inv(s) && DistinctOrderMarkets(orders) && NoneLiveFor(s.rows, orders, s.now)
    requires TickStep(s, t, orders, valid, sent, recorded)
    ensures AtMostOneIntent(t)
  {
    forall j, k | 0 <= j < k < |t.actions| && OpenIntent(t.actions[j]) && OpenIntent(t.actions[k])
      && t.actions[j].order.Some? && t.actions[k].order.Some?
      ensures t.actions[j].order != t.actions[k].order
    {
      OldIntent(s, t, orders, valid, sent, recorded, j);
      OldIntent(s, t, orders, valid, sent, recorded, k);
      hide TickStep, LiveOrder, LiveIn, OpenIntent;
      var o := t.actions[j].order.value;
      if j < |s.actions| && k >= |s.actions| {
        LiveOrderIsLiveIn(s.rows, s.now, o);
        assert !LiveIn(s.rows, s.now, orders[k - |s.actions|].marketId);
      }
    }
  }

  lemma LiveOrderIsLiveIn(rows: seq<OrderRow>, now: nat, o: Order)
    requires LiveOrder(rows, now, o)
    ensures LiveIn(rows, now, o.marketId)
  {}

  lemma TickKeepsTracked(s: State, t: State, orders: seq<Order>, valid: Order -> bool, n: nat)
    requires Inv(s) && Tracked(s) && DistinctOrderMarkets(orders) && NoneLiveFor(s.rows, orders, s.now)
    requires TickStep(s, t, orders, valid, n, n)
    ensures Tracked(t)
  {
    var sentOrders := orders[..n];
    forall r | r in t.rows && Live(r, t.now) ensures HasIntent(t.actions, r.order) {
      if r in s.rows {
        var k :| 0 <= k < |s.actions| && OpenIntent(s.actions[k]) && s.actions[k].order == Some(r.order);
        ClosedExactlyWhenEnded(s.actions[k], s.rows, s.now, [], 0);
        assert t.actions[k] == s.actions[k];
      } else {
        AddedIsRecorded(s.rows, sentOrders, valid, r);
        var k :| 0 <= k < n &&
          Records(s.rows, sentOrders, valid)[k] == Action(r.order.marketId, Some(r.order), Submitted, 0);
        assert t.actions[|s.actions| + k] == Records(s.rows, sentOrders, valid)[k];
      }
    }
  }

  lemma WorldKeeps(s: State, t: State)
    requires Inv(s) && WorldStep(s, t)
    ensures Inv(t) && (Tracked(s) ==> Tracked(t))
  {
    hide Live;
    forall r | r in t.rows && Live(r, t.now) ensures LiveOrder(s.rows, s.now, r.order) {
      var k :| 0 <= k < |t.rows| && t.rows[k] == r;
      assert s.rows[k] in s.rows;
    }
  }

  /** A run: ticks, each perhaps cut short by a crash, between moves of the exchange. */
  datatype Step = Tick(orders: seq<Order>, valid: Order -> bool, sent: nat, recorded: nat) | World

  ghost predicate CanStep(s: State, step: Step, t: State) {
    match step
    case Tick(orders, valid, sent, recorded) => PlannedIn(s, orders) && TickStep(s, t, orders, valid, sent, recorded)
    case World => WorldStep(s, t)
  }

  ghost predicate ValidTrace(steps: seq<Step>, states: seq<State>) {
    && |states| == |steps| + 1 && states[0].rows == [] && states[0].actions == []
    && forall k :: 0 <= k < |steps| ==> CanStep(states[k], steps[k], states[k + 1])
  }

  predicate Whole(step: Step) {
    step.Tick? ==> step.sent == step.recorded
  }

  /** The state RunTick leaves, when it posts, is one whole tick of a run. */
  lemma RunTickIsStep(
    c: Chain, s: State, offset: int, maxOrders: int, clock: nat -> nat, count: nat, expiry: nat, valid: Order -> bool)
    requires DistinctMarkets(c.positions)
    ensures var plan := PlanFor(InputFor(c, s.rows, s.now, offset, maxOrders));
      var orders := OrdersFor(plan.slices, clock, count, expiry);
      var actions := CloseAll(s.actions, s.rows, s.now) + Records(s.rows, orders, valid);
      CanStep(s, Tick(orders, valid, |orders|, |orders|), State(PostAll(s.rows, orders, valid), actions, s.now))
  {
    hide PlanFor, InputFor, PostAll, Records, CloseAll;
    var orders := OrdersFor(PlanFor(InputFor(c, s.rows, s.now, offset, maxOrders)).slices, clock, count, expiry);
    assert orders[..|orders|] == orders;
    assert PlannedIn(s, orders);
  }

  lemma StepKeeps(s: State, step: Step, t: State)
    requires Inv(s) && CanStep(s, step, t)
    ensures Inv(t) && (Tracked(s) && Whole(step) ==> Tracked(t))
  {
    match step
    case Tick(orders, valid, sent, recorded) =>
      PlannedOrdersFit(s, orders);
      PrefixFits(s.rows, orders, s.now, sent);
      PostingKeeps(s.rows, orders[..sent], valid, s.now);
      TickKeepsIntents(s, t, orders, valid, sent, recorded);
      if Tracked(s) && Whole(step) { TickKeepsTracked(s, t, orders, valid, sent); }
    case World =>
      WorldKeeps(s, t);
  }

  /**
    * Over every run, crashes included, no market ever has two live unwind orders and no order two open
    * intents; with no crash between submitting and recording, every live order has exactly one.
    */
  lemma {:induction false} RunsKeepOneOrder(steps: seq<Step>, states: seq<State>, k: nat)
    requires ValidTrace(steps, states) && k < |states|
    ensures Inv(states[k])
    ensures (forall j :: 0 <= j < k ==> Whole(steps[j])) ==> Tracked(states[k])
  {
    if k > 0 {
      RunsKeepOneOrder(steps, states, k - 1);
      hide Inv, Tracked, Whole, CanStep;
      StepKeeps(states[k - 1], steps[k - 1], states[k]);
    }
  }
}
