/** Indexing that goes on after rebuilds, clean or not (client/lib/indexer/indexer.ts). */
module RebuildRuns {
  import opened Projections
  import opened Indexing
  import opened Wrappers

  /** The same tables, but for fills that are not settled. */
  ghost predicate SameButOpenFills(a: Tables, b: Tables) {
    && a.(fills := b.fills) == b && KeyedFills(a.fills) && KeyedFills(b.fills)
    && forall f :: IsSettled(f) ==> (f in a.fills <==> f in b.fills)
  }

  lemma SameTrans(a: Tables, b: Tables, c: Tables)
    requires SameButOpenFills(a, b) && SameButOpenFills(b, c)
    ensures SameButOpenFills(a, c)
  {
    hide KeyedFills;
    forall f | IsSettled(f) ensures f in a.fills <==> f in c.fills {
      assert f in a.fills <==> f in b.fills;
    }
  }

  // ---------------------------------------------------------------- one write on both sides

  /** The settled fills after an event: those before, and the one it settles in place of any row of its id. */
  lemma SettledRowsAfter(fs: seq<FillRow>, e: Event, f: FillRow)
    requires IsSettled(f)
    ensures f in FillsAfter(fs, e) <==>
      if e.body.FillSettled? && f.id == e.body.fillId
      then f == FillRow(f.id, SettledFill, None, e.body.terms, Some(e.pos))
      else f in fs
  {
    var r := FillsAfter(fs, e);
    if f in r {
      var i :| 0 <= i < |r| && r[i] == f;
    }
    if e.body.FillSettled? && f.id == e.body.fillId {
      if HasFill(fs, f.id) {
        var i :| 0 <= i < |fs| && fs[i].id == f.id;
        assert r[i] in r;
      } else {
        assert r[|fs|] in r;
      }
    } else if f in fs {
      var i :| 0 <= i < |fs| && fs[i] == f;
      assert r[i] == f;
    }
  }

  lemma FillsAgree(a: seq<FillRow>, b: seq<FillRow>, e: Event)
    requires KeyedFills(a) && KeyedFills(b) && forall f :: IsSettled(f) ==> (f in a <==> f in b)
    ensures KeyedFills(FillsAfter(a, e)) && KeyedFills(FillsAfter(b, e))
    ensures forall f :: IsSettled(f) ==> (f in FillsAfter(a, e) <==> f in FillsAfter(b, e))
  {
    FindAfterLog(a, e, "");
    FindAfterLog(b, e, "");
    hide FillsAfter, KeyedFills;
    forall f | IsSettled(f) ensures f in FillsAfter(a, e) <==> f in FillsAfter(b, e) {
      SettledRowsAfter(a, e, f);
      SettledRowsAfter(b, e, f);
    }
  }

  lemma OrdersAgree(os: seq<OrderRow>, a: seq<FillRow>, b: seq<FillRow>, e: Event)
    requires KeyedFills(a) && KeyedFills(b) && forall f :: IsSettled(f) ==> (f in a <==> f in b)
    ensures OrdersAfter(os, a, e) == OrdersAfter(os, b, e)
  {
    forall hash: string ensures SettledSum(a, hash) == SettledSum(b, hash) { SumBySettled(a, b, hash); }
    hide SettledSum, KeyedFills;
    forall i | 0 <= i < |os| ensures OrderStep(os[i], a, e) == OrderStep(os[i], b, e) {}
  }

  lemma ApplyAgrees(a: Tables, b: Tables, e: Event)
    requires SameButOpenFills(a, b)
    ensures SameButOpenFills(Apply(a, e), Apply(b, e))
  {
    FillsAgree(a.fills, b.fills, e);
    OrdersAgree(a.orders, FillsAfter(a.fills, e), FillsAfter(b.fills, e), e);
    hide FillsAfter, KeyedFills, OrdersAfter, IsSettled;
  }

  lemma WriteKeepsSettled(t: Tables, op: Op, f: FillRow)
    requires !op.Log? && IsSettled(f)
    ensures f in Do(t, op).fills <==> f in t.fills
  {
    var r := Do(t, op).fills;
    if !op.ReleaseFill? {
      if f in t.fills {
        var i :| 0 <= i < |t.fills| && t.fills[i] == f;
        assert r[i] == f;
      }
      if f in r {
        var i :| 0 <= i < |r| && r[i] == f;
        assert i < |t.fills| ==> t.fills[i] in t.fills;
      }
    }
  }

  lemma DoAgrees(a: Tables, b: Tables, op: Op)
    requires SameButOpenFills(a, b)
    ensures SameButOpenFills(Do(a, op), Do(b, op))
  {
    if op.Log? {
      ApplyAgrees(a, b, op.e);
    } else {
      DoKeepsFills(a, op);
      DoKeepsFills(b, op);
      forall f | IsSettled(f) ensures f in Do(a, op).fills <==> f in Do(b, op).fills {
        WriteKeepsSettled(a, op, f);
        WriteKeepsSettled(b, op, f);
      }
      hide KeyedFills, FillsGrow, IsSettled;
      RestAgrees(a, b, op);
    }
  }

  lemma RestAgrees(a: Tables, b: Tables, op: Op)
    requires a.(fills := b.fills) == b && !op.Log?
    ensures Do(a, op).(fills := Do(b, op).fills) == Do(b, op)
  {
    hide Released;
  }

  lemma {:induction false} ReplayAgrees(a: Tables, b: Tables, es: seq<Event>)
    requires SameButOpenFills(a, b)
    ensures SameButOpenFills(Replay(a, es), Replay(b, es))
  {
    if es != [] {
      hide SameButOpenFills, Apply;
      ReplayAgrees(a, b, es[..|es| - 1]);
      ApplyAgrees(Replay(a, es[..|es| - 1]), Replay(b, es[..|es| - 1]), es[|es| - 1]);
    }
  }

  // ---------------------------------------------------------------- a rebuild

  lemma ResetAgrees(a: Tables, b: Tables)
    requires SameButOpenFills(a, b)
    ensures SameButOpenFills(Reset(a), Reset(b))
  {
    NothingSettledAfterReset(a);
    NothingSettledAfterReset(b);
    var x, y := Reset(a), Reset(b);
    assert x.markets == y.markets && x.orders == y.orders && x.accounts == y.accounts;
  }

  lemma NothingSettledAfterReset(t: Tables)
    requires KeyedFills(t.fills)
    ensures KeyedFills(Reset(t).fills) && forall f <- Reset(t).fills :: !IsSettled(f)
  {
    var r := Reset(t).fills;
    forall f | f in r ensures !IsSettled(f) {
      var i :| 0 <= i < |r| && r[i] == f;
    }
  }

  /** Rebuilding the live tables changes none but fills that are not settled. */
  lemma RebuildKeepsSettled(t0: Tables, ops: seq<Op>)
    requires Projections.Untouched(t0) && Keyed(t0) && Orderly(t0, ops)
    ensures SameButOpenFills(Replay(Reset(Run(t0, ops)), EventsOf(ops)), Run(t0, ops))
  {
    var live, es := Run(t0, ops), EventsOf(ops);
    RebuildEqualsLive(t0, ops);
    RunKeyed(t0, ops);
    MatchesAlong(t0, ops, |ops|);
    assert ops[..|ops|] == ops;
    SettledSame(live.fills, Replay(Reset(live), es).fills, live.fills, es);
    hide Replay, Reset, Run, EventsOf, Orderly, KeyedFills;
  }

  /** So does rebuilding tables that agree with the live ones that far. */
  lemma RebuildAgrees(t0: Tables, ops: seq<Op>, t: Tables)
    requires Projections.Untouched(t0) && Keyed(t0) && Orderly(t0, ops)
    requires SameButOpenFills(t, Run(t0, ops))
    ensures SameButOpenFills(Replay(Reset(t), EventsOf(ops)), Run(t0, ops))
  {
    hide *;
    var live, es := Run(t0, ops), EventsOf(ops);
    ResetAgrees(t, live);
    ReplayAgrees(Reset(t), Reset(live), es);
    RebuildKeepsSettled(t0, ops);
    SameTrans(Replay(Reset(t), es), Replay(Reset(live), es), live);
  }

  // ---------------------------------------------------------------- runs

  /** What holds of an orderly history holds of every part of it. */
  lemma OrderlyBefore(t0: Tables, ops: seq<Op>, k: nat)
    requires Keyed(t0) && k <= |ops| && Orderly(t0, ops)
    ensures Orderly(t0, ops[..k])
  {
    var before := ops[..k];
    RunGrows(t0, ops, k);
    forall j | 0 <= j < |before| ensures Timely(t0, before, j) {
      assert before[..j] == ops[..j];
      assert Timely(t0, ops, j);
      hide Run, Orderly, Keyed, FillsGrow, Timely;
      TimelyBefore(t0, ops, before, j);
    }
  }

  lemma TimelyBefore(t0: Tables, ops: seq<Op>, before: seq<Op>, j: nat)
    requires j < |before| <= |ops| && before[j] == ops[j] && before[..j] == ops[..j]
    requires Grows(Run(t0, before), Run(t0, ops)) && Timely(t0, ops, j)
    ensures Timely(t0, before, j)
  {
    hide Run, FillsGrow;
    if before[j].Log? {
      var e, live, some, final := before[j].e, Run(t0, before[..j]), Run(t0, before), Run(t0, ops);
      forall i | |live.markets| <= i < |some.markets| ensures !OnMarket(e, some.markets[i].id) {
        assert !OnMarket(e, final.markets[i].id);
      }
      forall i | |live.orders| <= i < |some.orders| ensures !TouchesOrder(e, some.orders[i]) {
        assert !TouchesOrder(e, final.orders[i]) && SameOrder(some.orders[i], final.orders[i]);
      }
    }
  }

  ghost predicate NextOrRebuild(chain: seq<Event>, start: nat, a: DbState, b: DbState) {
    DbNext(chain, start, a, b) || Rebuilds(a, b)
  }

  ghost predicate RunWithRebuilds(chain: seq<Event>, start: nat, t: seq<DbState>) {
    t != [] && forall k :: 0 <= k < |t| - 1 ==> NextOrRebuild(chain, start, t[k], t[k + 1])
  }

  /** The stored events are exact, and the tables are the live ones but for fills that are not settled. */
  ghost predicate Agrees(chain: seq<Event>, start: nat, t0: Tables, db: DbState) {
    Stored(chain, start, db) && SameButOpenFills(db.tables, Run(t0, db.ops))
  }

  lemma {:induction false} StoreAgrees(t0: Tables, db: DbState, es: seq<Event>)
    requires SameButOpenFills(db.tables, Run(t0, db.ops))
    ensures SameButOpenFills(StoreAll(db, es).tables, Run(t0, StoreAll(db, es).ops))
  {
    if es != [] {
      hide Apply, SameButOpenFills, HasEvent;
      var before, e := es[..|es| - 1], es[|es| - 1];
      StoreAgrees(t0, db, before);
      var mid := StoreAll(db, before);
      RunSnoc(t0, t0, mid.ops, Log(e));
      ApplyAgrees(mid.tables, Run(t0, mid.ops), e);
    }
  }

  lemma CommitAgrees(chain: seq<Event>, start: nat, t0: Tables, a: DbState, to: int, logs: seq<Event>, b: DbState)
    requires Commits(chain, start, a, to, logs, b) && SameButOpenFills(a.tables, Run(t0, a.ops))
    ensures SameButOpenFills(b.tables, Run(t0, b.ops))
  {
    StoreAgrees(t0, a, Sorting.SortBy(logs, ByPos));
    hide Run, StoreAll, Delivers, SameButOpenFills, Sorting.SortBy;
  }

  lemma WriteAgrees(t0: Tables, a: DbState, op: Op, b: DbState)
    requires Writes(a, op, b) && SameButOpenFills(a.tables, Run(t0, a.ops))
    ensures SameButOpenFills(b.tables, Run(t0, b.ops))
  {
    RunSnoc(t0, t0, a.ops, op);
    DoAgrees(a.tables, Run(t0, a.ops), op);
    hide Run, Do, SameButOpenFills;
  }

  lemma NextAgrees(chain: seq<Event>, start: nat, t0: Tables, a: DbState, b: DbState)
    requires ChainOk(chain) && Agrees(chain, start, t0, a) && DbNext(chain, start, a, b)
    ensures Agrees(chain, start, t0, b) && a.ops <= b.ops
  {
    hide Commits, Writes, SameButOpenFills, Run, ChainOk, Stored;
    NextKeepsDbOk(chain, start, a, b);
    if b == a {
    } else if exists to: int, logs: seq<Event> :: Commits(chain, start, a, to, logs, b) {
      var to: int, logs: seq<Event> :| Commits(chain, start, a, to, logs, b);
      CommitAgrees(chain, start, t0, a, to, logs, b);
    } else {
      var op: Op :| Writes(a, op, b);
      WriteAgrees(t0, a, op, b);
    }
  }

  /**
    * Indexing goes on after any rebuilds, clean or not: over every run of commits, other writers' writes and
    * rebuilds the stored events are the chain's logs up to the cursor, every table but the fills equals the one
    * live indexing alone would hold, and so do the settled fills.
    */
  lemma {:induction false} RebuildsKeepLive(chain: seq<Event>, start: nat, t0: Tables, t: seq<DbState>)
    requires ChainOk(chain) && RunWithRebuilds(chain, start, t) && t[0] == EmptyDb(t0)
    requires Projections.Untouched(t0) && Keyed(t0) && Orderly(t0, t[|t| - 1].ops)
    ensures Agrees(chain, start, t0, t[|t| - 1])
    decreases |t|
  {
    if |t| == 1 {
      NothingIndexed(chain, start);
    } else {
      hide Agrees, Stored, Orderly, Run, ChainOk, Keyed, Projections.Untouched, NextOrRebuild;
      var u, a, b := t[..|t| - 1], t[|t| - 2], t[|t| - 1];
      forall k | 0 <= k < |u| - 1 ensures NextOrRebuild(chain, start, u[k], u[k + 1]) {
        assert NextOrRebuild(chain, start, t[k], t[k + 1]);
      }
      assert NextOrRebuild(chain, start, a, b);
      OpsGrow(chain, start, a, b);
      assert b.ops[..|a.ops|] == a.ops;
      OrderlyBefore(t0, b.ops, |a.ops|);
      RebuildsKeepLive(chain, start, t0, u);
      StepAgrees(chain, start, t0, a, b);
    }
  }

  lemma OpsGrow(chain: seq<Event>, start: nat, a: DbState, b: DbState)
    requires NextOrRebuild(chain, start, a, b)
    ensures a.ops <= b.ops
  {
    hide Replay, Reset, Do, SettledSum;
    if DbNext(chain, start, a, b) && b != a {
      if exists to: int, logs: seq<Event> :: Commits(chain, start, a, to, logs, b) {
        var to: int, logs: seq<Event> :| Commits(chain, start, a, to, logs, b);
        StoreGrows(a, Sorting.SortBy(logs, ByPos));
      }
    }
  }

  lemma {:induction false} StoreGrows(db: DbState, es: seq<Event>)
    ensures db.ops <= StoreAll(db, es).ops
  {
    if es != [] { StoreGrows(db, es[..|es| - 1]); }
  }

  lemma StepAgrees(chain: seq<Event>, start: nat, t0: Tables, a: DbState, b: DbState)
    requires ChainOk(chain) && NextOrRebuild(chain, start, a, b) && Agrees(chain, start, t0, a)
    requires Projections.Untouched(t0) && Keyed(t0) && Orderly(t0, a.ops)
    ensures Agrees(chain, start, t0, b)
  {
    hide SameButOpenFills, Run, ChainOk, Keyed, Projections.Untouched, Orderly, DbNext, Replay, Reset;
    if DbNext(chain, start, a, b) {
      NextAgrees(chain, start, t0, a, b);
    } else {
      RebuildKeepsStored(chain, start, a, b);
      RebuildAgrees(t0, a.ops, a.tables);
    }
  }
}
