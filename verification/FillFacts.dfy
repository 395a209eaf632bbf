/**
  * Orders against the fills that settled of them, and fills against the events about them
  * (client/lib/indexer/projections.ts).
  */
module FillFacts {
  import opened Arithmetic
  import opened Projections
  import opened Wrappers

  // ---------------------------------------------------------------- filled sizes

  predicate OrderAgrees(o: OrderRow, fs: seq<FillRow>) {
    o.filled == Min(o.size, SettledSum(fs, o.hash))
  }

  ghost predicate FilledAgrees(t: Tables) {
    forall i :: 0 <= i < |t.orders| ==> OrderAgrees(t.orders[i], t.fills)
  }

  /**
    * A fill settled before, under terms that named an order the new terms do not, whose filled size showed it:
    * without that fill less than the whole order has settled.
    */
  predicate Strands(f: FillRow, o: OrderRow, fs: seq<FillRow>, e: Event) {
    && Settles(e, f.id) && f.status == SettledFill && f.terms.size > 0
    && Names(f.terms, o.hash) && !Names(e.body.terms, o.hash)
    && SettledSum(fs, o.hash) - f.terms.size < o.size
  }

  /** A write after which some order's filled size is not what has settled of it. */
  predicate Breaks(t: Tables, op: Op) {
    match op
    case Log(e) => exists f, o :: f in t.fills && o in t.orders && Strands(f, o, t.fills, e)
    case InsertOrder(row) =>
      && !HasOrder(t.orders, row.hash) && !NonceTaken(t.orders, row.owner, row.nonce)
      && Min(row.size, SettledSum(t.fills, row.hash)) != 0
    case _ => false
  }

  lemma {:induction false} SumKept(a: seq<FillRow>, b: seq<FillRow>, hash: string)
    requires |a| <= |b|
    requires forall i :: 0 <= i < |a| ==> Contribution(b[i], hash) == Contribution(a[i], hash)
    requires forall i :: |a| <= i < |b| ==> Contribution(b[i], hash) == 0
    ensures SettledSum(b, hash) == SettledSum(a, hash)
    decreases |b|
  {
    if |b| > |a| {
      SumKept(a, b[..|b| - 1], hash);
    } else if |b| > 0 {
      SumKept(a[..|a| - 1], b[..|b| - 1], hash);
    }
  }

  lemma {:induction false} ReleasedSum(fs: seq<FillRow>, id: string, hash: string)
    ensures SettledSum(Released(fs, id), hash) == SettledSum(fs, hash)
  {
    if fs != [] {
      var before, last := fs[..|fs| - 1], fs[|fs| - 1];
      ReleasedSum(before, id, hash);
      var r := Released(before, id);
      assert (r + [last])[..|r|] == r;
      assert r + [] == r;
    }
  }

  /** Writes of the API and the matcher settle nothing. */
  lemma SettledSumKept(t: Tables, op: Op, hash: string)
    requires !op.Log?
    ensures SettledSum(Do(t, op).fills, hash) == SettledSum(t.fills, hash)
  {
    if op.ReleaseFill? { ReleasedSum(t.fills, op.id, hash); } else { SumKept(t.fills, Do(t, op).fills, hash); }
  }

  /** Settling a fill under terms that do not name an order takes from it what the fill's row had settled before. */
  lemma SumResettled(fs: seq<FillRow>, e: Event, j: nat, hash: string)
    requires KeyedFills(fs) && e.body.FillSettled? && !Names(e.body.terms, hash)
    requires j < |fs| && fs[j].id == e.body.fillId
    ensures SettledSum(FillsAfter(fs, e), hash) == SettledSum(fs, hash) - Contribution(fs[j], hash)
  {
    var r := FillsAfter(fs, e);
    assert HasFill(fs, e.body.fillId);
    assert Contribution(r[j], hash) == 0;
    SumWithout(fs, j, hash);
    SumWithout(r, j, hash);
    assert |r| == |fs|;
    forall i | 0 <= i < |fs| && i != j ensures r[i] == fs[i] {}
    hide SettledSum, Contribution, FillsAfter, FillStep, KeyedFills;
    assert r[..j] + r[j + 1..] == fs[..j] + fs[j + 1..];
  }

  lemma SumAfterLog(fs: seq<FillRow>, e: Event, hash: string)
    requires KeyedFills(fs) && (e.body.FillSettled? ==> !Names(e.body.terms, hash))
    ensures var f := if e.body.FillSettled? then FindFill(fs, e.body.fillId) else None;
      SettledSum(FillsAfter(fs, e), hash) == SettledSum(fs, hash) - if f.Some? then Contribution(f.value, hash) else 0
  {
    if e.body.FillSettled? && HasFill(fs, e.body.fillId) {
      var j :| 0 <= j < |fs| && fs[j].id == e.body.fillId;
      FindIn(fs, fs[j]);
      SumResettled(fs, e, j, hash);
      hide *;
    } else {
      SumKept(fs, FillsAfter(fs, e), hash);
    }
  }

  /** The filled size of one order after one event: out of date exactly when the event strands it. */
  lemma OrderKeptIff(t: Tables, e: Event, i: nat)
    requires KeyedFills(t.fills) && i < |t.orders| && OrderAgrees(t.orders[i], t.fills)
    ensures OrderAgrees(Apply(t, e).orders[i], Apply(t, e).fills)
            <==> forall f <- t.fills :: !Strands(f, t.orders[i], t.fills, e)
  {
    var o, fs := t.orders[i], t.fills;
    var fs' := FillsAfter(fs, e);
    assert Apply(t, e).orders[i] == OrderStep(o, fs', e);
    if !(e.body.FillSettled? && Names(e.body.terms, o.hash)) {
      SumAfterLog(fs, e, o.hash);
      hide SettledSum, FillsAfter, Apply;
      if e.body.FillSettled? && HasFill(fs, e.body.fillId) {
        var f := FindFill(fs, e.body.fillId).value;
        forall g | g in fs && g.id == f.id ensures g == f { FindIn(fs, g); }
      }
    }
  }

  lemma LogBreaksIff(t: Tables, e: Event)
    requires KeyedFills(t.fills) && FilledAgrees(t)
    ensures FilledAgrees(Apply(t, e)) <==> !Breaks(t, Log(e))
  {
    forall i | 0 <= i < |t.orders|
      ensures OrderAgrees(Apply(t, e).orders[i], Apply(t, e).fills)
              <==> forall f <- t.fills :: !Strands(f, t.orders[i], t.fills, e)
    {
      OrderKeptIff(t, e, i);
    }
    assert |Apply(t, e).orders| == |t.orders|;
    hide Strands, OrderAgrees, Apply;
    if !FilledAgrees(Apply(t, e)) {
      var i :| 0 <= i < |t.orders| && !OrderAgrees(Apply(t, e).orders[i], Apply(t, e).fills);
      var f :| f in t.fills && Strands(f, t.orders[i], t.fills, e);
      assert t.orders[i] in t.orders;
    }
    if Breaks(t, Log(e)) {
      var f, o :| f in t.fills && o in t.orders && Strands(f, o, t.fills, e);
      var i :| 0 <= i < |t.orders| && t.orders[i] == o;
      assert !OrderAgrees(Apply(t, e).orders[i], Apply(t, e).fills);
    }
  }

  lemma WriteBreaksIff(t: Tables, op: Op)
    requires FilledAgrees(t) && !op.Log?
    ensures FilledAgrees(Do(t, op)) <==> !Breaks(t, op)
  {
    var t' := Do(t, op);
    forall hash: string ensures SettledSum(t'.fills, hash) == SettledSum(t.fills, hash) { SettledSumKept(t, op, hash); }
    hide SettledSum;
    forall i | 0 <= i < |t.orders| ensures OrderAgrees(t'.orders[i], t'.fills) {
      assert OrderAgrees(t.orders[i], t.fills);
    }
    if op.InsertOrder? && |t'.orders| > |t.orders| {
      assert t'.orders[|t.orders|] == op.row.(filled := 0, status := Live);
      assert FilledAgrees(t') <==> OrderAgrees(t'.orders[|t.orders|], t'.fills);
    }
  }

  /** One write, exactly: it leaves filled sizes in agreement with the settled fills unless it breaks one. */
  lemma BreaksIff(t: Tables, op: Op)
    requires KeyedFills(t.fills) && FilledAgrees(t)
    ensures FilledAgrees(Do(t, op)) <==> !Breaks(t, op)
  {
    if op.Log? { LogBreaksIff(t, op.e); } else { WriteBreaksIff(t, op); }
  }

  /**
    * Over runs: every order's filled size is its settled fills, capped at its size, in every state, if and
    * only if no settlement strands an order and no order arrives after something of it has settled.
    */
  lemma {:induction false} FilledAlwaysAgrees(t0: Tables, ops: seq<Op>)
    requires Untouched(t0) && Keyed(t0)
    ensures (forall k :: 0 <= k <= |ops| ==> FilledAgrees(Run(t0, ops[..k])))
            <==> (forall k :: 0 <= k < |ops| ==> !Breaks(Run(t0, ops[..k]), ops[k]))
  {
    hide Do, Breaks;
    if forall k :: 0 <= k <= |ops| ==> FilledAgrees(Run(t0, ops[..k])) {
      forall k | 0 <= k < |ops| ensures !Breaks(Run(t0, ops[..k]), ops[k]) {
        FilledStep(t0, ops, k);
        assert FilledAgrees(Run(t0, ops[..k + 1]));
      }
    }
    if forall k :: 0 <= k < |ops| ==> !Breaks(Run(t0, ops[..k]), ops[k]) {
      forall k | 0 <= k <= |ops| ensures FilledAgrees(Run(t0, ops[..k])) {
        FilledSoFar(t0, ops, k);
      }
    }
  }

  lemma FilledStep(t0: Tables, ops: seq<Op>, k: nat)
    requires Keyed(t0) && k < |ops| && FilledAgrees(Run(t0, ops[..k]))
    ensures FilledAgrees(Run(t0, ops[..k + 1])) <==> !Breaks(Run(t0, ops[..k]), ops[k])
  {
    RunKeyed(t0, ops[..k]);
    assert ops[..k + 1] == ops[..k] + [ops[k]];
    RunSnoc(t0, t0, ops[..k], ops[k]);
    BreaksIff(Run(t0, ops[..k]), ops[k]);
  }

  lemma {:induction false} FilledSoFar(t0: Tables, ops: seq<Op>, k: nat)
    requires Untouched(t0) && Keyed(t0) && k <= |ops|
    requires forall j :: 0 <= j < k ==> !Breaks(Run(t0, ops[..j]), ops[j])
    ensures FilledAgrees(Run(t0, ops[..k]))
  {
    if k == 0 {
      NothingFilled(t0);
    } else {
      FilledSoFar(t0, ops, k - 1);
      FilledStep(t0, ops, k - 1);
    }
  }

  lemma NothingFilled(t0: Tables)
    requires Untouched(t0)
    ensures FilledAgrees(t0)
  {
    forall f | f in t0.fills ensures !IsSettled(f) {
      var i :| 0 <= i < |t0.fills| && t0.fills[i] == f;
      assert ResetFill(f) == f;
    }
    forall i | 0 <= i < |t0.orders| ensures OrderAgrees(t0.orders[i], t0.fills) {
      assert ResetOrder(t0.orders[i]) == t0.orders[i];
      NoneSettledSum(t0.fills, t0.orders[i].hash);
    }
  }

  function OrderPlaced(row: OrderRow): Tables {
    Tables([], [], [], [row.(filled := 0, status := Live)], [AccountRow(row.owner, 0)], [])
  }

  function SettledBy(e: Event): FillRow
    requires e.body.FillSettled?
  {
    FillRow(e.body.fillId, SettledFill, None, e.body.terms, Some(e.pos))
  }

  lemma OneSettled(e: Event, hash: string)
    requires e.body.FillSettled? && Names(e.body.terms, hash)
    ensures FillsAfter([], e) == [SettledBy(e)] && SettledSum([SettledBy(e)], hash) == e.body.terms.size
  {
    assert !HasFill([], e.body.fillId);
    assert [SettledBy(e)][..0] == [];
  }

  lemma FirstSettled(first: Event, row: OrderRow)
    requires first.body.FillSettled? && Names(first.body.terms, row.hash)
    ensures var t := Apply(OrderPlaced(row), first);
      t.fills == [SettledBy(first)] && |t.orders| == 1 && t.orders[0].hash == row.hash && t.orders[0].size == row.size
  {
    OneSettled(first, row.hash);
  }

  lemma SecondStrands(t: Tables, first: Event, second: Event)
    requires first.body.FillSettled? && Settles(second, first.body.fillId) && first.body.terms.size > 0
    requires t.fills == [SettledBy(first)] && |t.orders| == 1 && t.orders[0].size > 0
    requires Names(first.body.terms, t.orders[0].hash) && !Names(second.body.terms, t.orders[0].hash)
    ensures Breaks(t, Log(second))
  {
    var f, o := SettledBy(first), t.orders[0];
    OneSettled(first, o.hash);
    assert f in t.fills && o in t.orders;
    assert Strands(f, o, t.fills, second);
  }

  lemma RunOfThree(t0: Tables, a: Op, b: Op, c: Op)
    ensures Run(t0, [a, b, c]) == Do(Do(Do(t0, a), b), c)
  {
    RunOfTwo(t0, a, b);
    RunSnoc(t0, t0, [a, b], c);
    assert [a, b] + [c] == [a, b, c];
  }

  /** From empty tables: a fill settled again under other orders leaves the first order showing a fill that is gone. */
  lemma ResettlingStrands(first: Event, second: Event, row: OrderRow)
    requires first.body.FillSettled? && Settles(second, first.body.fillId)
    requires row.size > 0 && first.body.terms.size > 0
    requires Names(first.body.terms, row.hash) && !Names(second.body.terms, row.hash)
    ensures FilledAgrees(Run(EmptyTables(), [InsertOrder(row), Log(first)]))
    ensures !FilledAgrees(Run(EmptyTables(), [InsertOrder(row), Log(first), Log(second)]))
  {
    var t1 := OrderPlaced(row);
    PlacedAgrees(row);
    LogBreaksIff(t1, first);
    assert !Breaks(t1, Log(first));
    FirstSettled(first, row);
    SecondStrands(Apply(t1, first), first, second);
    LogBreaksIff(Apply(t1, first), second);
    hide *;
    RunOfTwo(EmptyTables(), InsertOrder(row), Log(first));
    RunOfThree(EmptyTables(), InsertOrder(row), Log(first), Log(second));
    DoLog(t1, first);
    DoLog(Apply(t1, first), second);
  }

  lemma DoLog(t: Tables, e: Event)
    ensures Do(t, Log(e)) == Apply(t, e)
  {}

  lemma PlacedAgrees(row: OrderRow)
    ensures Do(EmptyTables(), InsertOrder(row)) == OrderPlaced(row)
    ensures FilledAgrees(OrderPlaced(row))
  {
    assert SettledSum([], row.hash) == 0;
  }

  /** From empty tables: an order that arrives after a settlement naming it starts at zero. */
  lemma LateOrderUnfilled(e: Event, row: OrderRow)
    requires e.body.FillSettled? && Names(e.body.terms, row.hash)
    requires row.size > 0 && e.body.terms.size > 0
    ensures !FilledAgrees(Run(EmptyTables(), [Log(e), InsertOrder(row)]))
  {
    var t0, a, b := EmptyTables(), Log(e), InsertOrder(row);
    RunOfTwo(t0, a, b);
    var t1 := Apply(t0, e);
    OneSettled(e, row.hash);
    assert t1.fills == [SettledBy(e)] && t1.orders == [];
    WriteBreaksIff(t1, b);
  }

  // ---------------------------------------------------------------- order status

  /** An order that is not dead is Filled, Partial or Live as its own filled size says. */
  predicate StatusMatches(o: OrderRow) {
    Dead(o.status) || o.status == if o.filled >= o.size then Filled else if o.filled > 0 then Partial else Live
  }

  /** An order that is not dead shows how much of it has settled. */
  predicate StatusAgrees(o: OrderRow, fs: seq<FillRow>) {
    var settled := SettledSum(fs, o.hash);
    Dead(o.status) || o.status == if settled >= o.size then Filled else if settled > 0 then Partial else Live
  }

  /** Orders arrive with a positive size, as intake demands. */
  predicate PositiveOrders(t0: Tables, ops: seq<Op>) {
    && (forall i :: 0 <= i < |t0.orders| ==> t0.orders[i].size > 0)
    && (forall k :: 0 <= k < |ops| && ops[k].InsertOrder? ==> ops[k].row.size > 0)
  }

  ghost predicate AllMatch(os: seq<OrderRow>) {
    forall i :: 0 <= i < |os| ==> os[i].size > 0 && StatusMatches(os[i])
  }

  lemma StatusKept(t: Tables, op: Op)
    requires AllMatch(t.orders) && (op.InsertOrder? ==> op.row.size > 0)
    ensures AllMatch(Do(t, op).orders)
  {
    hide SettledSum, FillsAfter;
  }

  /**
    * In every state of every run status and filled size say the same of an order, so wherever the filled size
    * agrees with the settled fills, the status does.
    */
  lemma {:induction false} StatusAlwaysAgrees(t0: Tables, ops: seq<Op>)
    requires Untouched(t0) && PositiveOrders(t0, ops)
    ensures AllMatch(Run(t0, ops).orders)
    ensures forall o <- Run(t0, ops).orders :: OrderAgrees(o, Run(t0, ops).fills) ==>
      StatusAgrees(o, Run(t0, ops).fills)
  {
    if ops == [] {
      forall i | 0 <= i < |t0.orders| ensures StatusMatches(t0.orders[i]) {
        assert ResetOrder(t0.orders[i]) == t0.orders[i];
      }
    } else {
      hide Do, StatusMatches, OrderAgrees, StatusAgrees;
      StatusAlwaysAgrees(t0, ops[..|ops| - 1]);
      StatusKept(Run(t0, ops[..|ops| - 1]), ops[|ops| - 1]);
    }
    AgreesIfFilledDoes(Run(t0, ops));
  }

  lemma AgreesIfFilledDoes(t: Tables)
    requires AllMatch(t.orders)
    ensures forall o <- t.orders :: OrderAgrees(o, t.fills) ==> StatusAgrees(o, t.fills)
  {
    hide SettledSum;
  }

  // ---------------------------------------------------------------- fill status

  predicate HasSettled(fs: seq<FillRow>, id: string) {
    exists i :: 0 <= i < |fs| && fs[i].id == id && IsSettled(fs[i])
  }

  lemma {:induction false} ReleasedSettled(fs: seq<FillRow>, id: string, other: string)
    ensures HasSettled(Released(fs, id), other) <==> HasSettled(fs, other)
  {
    var r := Released(fs, id);
    if HasSettled(fs, other) {
      var i :| 0 <= i < |fs| && fs[i].id == other && IsSettled(fs[i]);
      assert fs[i] in r;
    }
    if HasSettled(r, other) {
      var i :| 0 <= i < |r| && r[i].id == other && IsSettled(r[i]);
      assert r[i] in fs;
    }
  }

  lemma SettledAfterLog(fs: seq<FillRow>, e: Event, id: string)
    ensures HasSettled(FillsAfter(fs, e), id) <==> HasSettled(fs, id) || Settles(e, id)
  {
    var fs' := FillsAfter(fs, e);
    if HasSettled(fs, id) {
      var i :| 0 <= i < |fs| && fs[i].id == id && IsSettled(fs[i]);
      assert fs'[i].id == id && IsSettled(fs'[i]);
    }
    if Settles(e, id) {
      if HasFill(fs, id) {
        var i :| 0 <= i < |fs| && fs[i].id == id;
        assert IsSettled(fs'[i]);
      } else {
        assert IsSettled(fs'[|fs|]);
      }
    }
  }

  /** One write settles a fill only if it is the fill's settlement, and never unsettles one. */
  lemma StatusStep(t: Tables, op: Op, id: string)
    ensures HasSettled(Do(t, op).fills, id) <==> HasSettled(t.fills, id) || (op.Log? && Settles(op.e, id))
  {
    if op.ReleaseFill? {
      ReleasedSettled(t.fills, op.id, id);
    } else if op.Log? {
      SettledAfterLog(t.fills, op.e, id);
      hide HasSettled, FillsAfter, Settles;
    } else {
      var fs, fs' := t.fills, Do(t, op).fills;
      if HasSettled(fs, id) {
        var i :| 0 <= i < |fs| && fs[i].id == id && IsSettled(fs[i]);
        assert fs'[i].id == id && IsSettled(fs'[i]);
      }
    }
  }

  /**
    * A fill is recorded as settled exactly when some event settled it, however settlements, rejections and releases
    * interleave.
    */
  lemma {:induction false} SettledIffEverSettled(t0: Tables, ops: seq<Op>, id: string)
    requires Untouched(t0)
    ensures HasSettled(Run(t0, ops).fills, id) <==> EverSettled(EventsOf(ops), id)
  {
    if ops == [] {
      forall i | 0 <= i < |t0.fills| ensures !IsSettled(t0.fills[i]) {
        assert ResetFill(t0.fills[i]) == t0.fills[i];
      }
    } else {
      hide Do;
      var before, op := ops[..|ops| - 1], ops[|ops| - 1];
      assert ops == before + [op];
      SettledIffEverSettled(t0, before, id);
      StatusStep(Run(t0, before), op, id);
      if op.Log? {
        EverSnoc(EventsOf(before), op.e, id);
        assert EventsOf(ops) == EventsOf(before) + [op.e];
      } else {
        assert EventsOf(ops) == EventsOf(before);
      }
    }
  }
}
