/**
  * The protocol indexer: windows of logs committed atomically with the cursor, and the rebuild of every
  * projection from the stored events (client/lib/indexer/indexer.ts).
  */
module Indexing {
  import opened Sorting
  import opened Projections
  import opened ProjectionStore
  import opened Wrappers

  // ---------------------------------------------------------------- the chain

  predicate SameLog(a: Event, b: Event) {
    a.txHash == b.txHash && a.pos.logIndex == b.pos.logIndex
  }

  /** Finality: the contracts' logs, decoded, in chain order, each with its own key. */
  ghost predicate ChainOk(chain: seq<Event>) {
    InOrder(chain) && forall i, j :: 0 <= i < j < |chain| ==> !SameLog(chain[i], chain[j])
  }

  /** The chain's logs in a range of blocks. */
  function Range(chain: seq<Event>, from: int, to: int): (r: seq<Event>)
    ensures forall e :: e in r <==> e in chain && from <= e.pos.block <= to
  {
    if chain == [] then []
    else
      var last := chain[|chain| - 1];
      Range(chain[..|chain| - 1], from, to) + if from <= last.pos.block <= to then [last] else []
  }

  /** What getLogs may return for a range: all of it, in any order, logs possibly repeated. */
  ghost predicate Delivers(chain: seq<Event>, from: int, to: int, logs: seq<Event>) {
    forall e :: e in logs <==> e in Range(chain, from, to)
  }

  lemma {:induction false} RangeInOrder(chain: seq<Event>, from: int, to: int)
    requires InOrder(chain)
    ensures InOrder(Range(chain, from, to))
  {
    if chain != [] {
      var before, last := chain[..|chain| - 1], chain[|chain| - 1];
      RangeInOrder(before, from, to);
      var r := Range(before, from, to);
      forall i | 0 <= i < |r| ensures Before(r[i].pos, last.pos) {
        assert r[i] in before;
        var k :| 0 <= k < |before| && before[k] == r[i];
        assert Before(chain[k].pos, chain[|chain| - 1].pos);
      }
    }
  }

  lemma {:induction false} RangeEmpty(chain: seq<Event>, from: int, to: int)
    requires forall e <- chain :: !(from <= e.pos.block <= to)
    ensures Range(chain, from, to) == []
  {
    if chain != [] {
      assert chain[|chain| - 1] in chain;
      RangeEmpty(chain[..|chain| - 1], from, to);
    }
  }

  lemma BlocksRise(chain: seq<Event>, e: Event)
    requires InOrder(chain) && e in chain
    ensures e.pos.block <= chain[|chain| - 1].pos.block
  {
    var k :| 0 <= k < |chain| && chain[k] == e;
    assert k == |chain| - 1 || Before(chain[k].pos, chain[|chain| - 1].pos);
  }

  lemma {:induction false} RangeSplit(chain: seq<Event>, a: int, m: int, b: int)
    requires InOrder(chain) && a <= m <= b + 1
    ensures Range(chain, a, b) == Range(chain, a, m - 1) + Range(chain, m, b)
  {
    if chain == [] {
      assert Range(chain, a, b) == [] + [];
    }
    hide Range, InOrder, Before;
    if chain != [] {
      var before, last := chain[..|chain| - 1], chain[|chain| - 1];
      DropLast(chain);
      RangeSplit(before, a, m, b);
      if last.pos.block < m {
        forall e | e in before ensures e.pos.block < m { BlocksRise(chain, e); }
        RangeEmpty(before, m, b);
      }
      SplitSnoc(before, last, a, m, b);
      assert chain == before + [last];
    }
  }

  lemma SplitSnoc(before: seq<Event>, last: Event, a: int, m: int, b: int)
    requires a <= m <= b + 1
    requires Range(before, a, b) == Range(before, a, m - 1) + Range(before, m, b)
    requires last.pos.block < m ==> Range(before, m, b) == []
    ensures var chain := before + [last];
      Range(chain, a, b) == Range(chain, a, m - 1) + Range(chain, m, b)
  {
    RangeSnoc(before, last, a, b);
    RangeSnoc(before, last, a, m - 1);
    RangeSnoc(before, last, m, b);
    hide Range;
    var chain := before + [last];
    if last.pos.block < m {
      assert Range(chain, m, b) == [];
    } else {
      assert Range(chain, a, m - 1) == Range(before, a, m - 1);
    }
  }

  lemma RangeSnoc(before: seq<Event>, last: Event, from: int, to: int)
    ensures Range(before + [last], from, to)
      == Range(before, from, to) + if from <= last.pos.block <= to then [last] else []
  {
    assert (before + [last])[..|before|] == before;
  }

  // ---------------------------------------------------------------- one transaction

  /** Durable state; `ops` is the history of everything that wrote the projected tables. */
  datatype DbState = DbState(events: seq<Event>, cursor: Option<int>, tables: Tables, ops: seq<Op>)

  predicate HasEvent(es: seq<Event>, e: Event) {
    exists i :: 0 <= i < |es| && SameLog(es[i], e)
  }

  predicate ByPos(a: Event, b: Event) { !Before(b.pos, a.pos) }

  /** Insert unless the key is taken; project only what was inserted. */
  function StoreOne(db: DbState, e: Event): DbState {
    if HasEvent(db.events, e) then db
    else DbState(db.events + [e], db.cursor, Apply(db.tables, e), db.ops + [Log(e)])
  }

  function StoreAll(db: DbState, es: seq<Event>): DbState {
    if es == [] then db else StoreOne(StoreAll(db, es[..|es| - 1]), es[|es| - 1])
  }

  predicate Inside(e: Event, from: int, to: int) { from <= e.pos.block <= to }

  /** The transaction of one window; a log outside it aborts, leaving nothing. */
  function CommitWindow(db: DbState, from: int, to: int, logs: seq<Event>): Option<DbState> {
    if forall e <- logs :: Inside(e, from, to)
    then Some(StoreAll(db, SortBy(logs, ByPos)).(cursor := Some(to)))
    else None
  }

  function NextBlock(start: nat, cursor: Option<int>): int {
    if cursor.None? then start else cursor.value + 1
  }

  /** The stored events are exactly the chain's logs up to the cursor, each projected once, in order. */
  ghost predicate Stored(chain: seq<Event>, start: nat, db: DbState) {
    && db.events == Range(chain, start, NextBlock(start, db.cursor) - 1)
    && (db.cursor.Some? ==> db.cursor.value >= start)
    && EventsOf(db.ops) == db.events
  }

  /** The tables are what those events and the other writers' writes made of the initial ones. */
  ghost predicate DbOk(chain: seq<Event>, start: nat, t0: Tables, db: DbState) {
    Stored(chain, start, db) && db.tables == Run(t0, db.ops)
  }

  lemma MembersNonEmpty(a: seq<Event>, b: seq<Event>)
    requires a != [] && forall e <- a :: e in b
    ensures b != []
  {
    assert a[0] in b;
  }

  lemma {:induction false} SameMembersSameOrder(a: seq<Event>, b: seq<Event>)
    requires InOrder(a) && InOrder(b)
    requires forall e :: e in a <==> e in b
    ensures a == b
  {
    if a == [] {
      if b != [] {
        MembersNonEmpty(b, a);
        assert false;
      }
    } else {
      assert a[|a| - 1] in b && b != [];
      assert b[|b| - 1] in a;
      LastIsGreatest(a, b[|b| - 1]);
      LastIsGreatest(b, a[|a| - 1]);
      DropLast(a);
      DropLast(b);
      assert a[|a| - 1] == b[|b| - 1];
      var a', b' := a[..|a| - 1], b[..|b| - 1];
      forall e | e in a' ensures e in b' { assert e in a && e in b; }
      forall e | e in b' ensures e in a' { assert e in b && e in a; }
      SameMembersSameOrder(a', b');
      assert a == a[..|a| - 1] + [a[|a| - 1]] && b == b[..|b| - 1] + [b[|b| - 1]];
    }
  }

  lemma LastIsGreatest(a: seq<Event>, e: Event)
    requires InOrder(a) && e in a
    ensures e == a[|a| - 1] || Before(e.pos, a[|a| - 1].pos)
  {
    var k :| 0 <= k < |a| && a[k] == e;
  }

  lemma DropLast(a: seq<Event>)
    requires InOrder(a) && a != []
    ensures InOrder(a[..|a| - 1])
    ensures forall e :: e in a[..|a| - 1] <==> e in a && e != a[|a| - 1]
  {
    var last := a[|a| - 1];
    forall e | e in a && e != last ensures e in a[..|a| - 1] {
      var k :| 0 <= k < |a| && a[k] == e;
      assert a[..|a| - 1][k] == e;
    }
    forall k | 0 <= k < |a| - 1 ensures a[k] != last { assert Before(a[k].pos, last.pos); }
  }

  lemma KeyIsIdentity(chain: seq<Event>, es: seq<Event>, e: Event)
    requires ChainOk(chain) && e in chain && forall d <- es :: d in chain
    ensures HasEvent(es, e) <==> e in es
  {
    if HasEvent(es, e) {
      var i :| 0 <= i < |es| && SameLog(es[i], e);
      assert es[i] in chain;
      var p :| 0 <= p < |chain| && chain[p] == es[i];
      var q :| 0 <= q < |chain| && chain[q] == e;
      assert p == q;
    }
    if e in es {
      var i :| 0 <= i < |es| && es[i] == e;
      assert SameLog(es[i], e);
    }
  }

  lemma DistinctPositions(chain: seq<Event>, a: Event, b: Event)
    requires InOrder(chain) && a in chain && b in chain
    ensures a == b || Before(a.pos, b.pos) || Before(b.pos, a.pos)
  {
    var p :| 0 <= p < |chain| && chain[p] == a;
    var q :| 0 <= q < |chain| && chain[q] == b;
  }

  /** A log at or after the last one stored of its window lands behind everything stored, or is stored already. */
  lemma StoreOneInOrder(
    chain: seq<Event>, stored: seq<Event>, events: seq<Event>, before: seq<Event>, from: int, e: Event)
    requires ChainOk(chain) && InOrder(events)
    requires forall d :: d in events <==> d in stored || d in before
    requires forall d <- stored :: d in chain && d.pos.block < from
    requires forall d <- before :: d in chain && ByPos(d, e)
    requires e in chain && from <= e.pos.block
    ensures HasEvent(events, e) <==> e in events
    ensures !HasEvent(events, e) ==> InOrder(events + [e])
  {
    KeyIsIdentity(chain, events, e);
    if e !in events {
      forall d | d in events ensures Before(d.pos, e.pos) {
        DistinctPositions(chain, d, e);
      }
    }
  }

  /** Storing sorted logs of a later window appends each new one once, in order, repeats and all. */
  lemma {:induction false} StoredInOrder(chain: seq<Event>, db: DbState, from: int, es: seq<Event>)
    requires ChainOk(chain) && InOrder(db.events)
    requires forall d <- db.events :: d in chain && d.pos.block < from
    requires forall e <- es :: e in chain && from <= e.pos.block
    requires Sorted(es, ByPos)
    ensures var events := StoreAll(db, es).events;
      InOrder(events) && forall e :: e in events <==> e in db.events || e in es
  {
    if es != [] {
      hide ChainOk, InOrder, Apply, HasEvent;
      var before, e := es[..|es| - 1], es[|es| - 1];
      assert es == before + [e];
      StoredInOrder(chain, db, from, before);
      assert StoreAll(db, es) == StoreOne(StoreAll(db, before), e);
      hide StoreAll;
      forall d | d in before ensures ByPos(d, e) {
        var k :| 0 <= k < |before| && before[k] == d;
        assert ByPos(es[k], es[|es| - 1]);
      }
      StoreOneInOrder(chain, db.events, StoreAll(db, before).events, before, from, e);
    }
  }

  lemma {:induction false} StoreKeepsHistory(db: DbState, es: seq<Event>)
    requires EventsOf(db.ops) == db.events
    ensures var r := StoreAll(db, es);
      EventsOf(r.ops) == r.events && r.cursor == db.cursor && db.ops <= r.ops
  {
    if es != [] {
      hide Apply;
      var before, e := es[..|es| - 1], es[|es| - 1];
      StoreKeepsHistory(db, before);
      var mid := StoreAll(db, before);
      RunSnoc(db.tables, db.tables, mid.ops, Log(e));
    }
  }

  lemma {:induction false} StoreKeepsTables(t0: Tables, db: DbState, es: seq<Event>)
    requires db.tables == Run(t0, db.ops)
    ensures StoreAll(db, es).tables == Run(t0, StoreAll(db, es).ops)
  {
    if es != [] {
      hide Apply;
      var before, e := es[..|es| - 1], es[|es| - 1];
      StoreKeepsTables(t0, db, before);
      RunSnoc(t0, t0, StoreAll(db, before).ops, Log(e));
    }
  }

  /** Committing the next window extends the indexed range by exactly that window, whatever the tables hold. */
  lemma CommitIsExact(chain: seq<Event>, start: nat, db: DbState, to: int, logs: seq<Event>)
    requires ChainOk(chain) && Stored(chain, start, db)
    requires NextBlock(start, db.cursor) <= to
    requires Delivers(chain, NextBlock(start, db.cursor), to, logs)
    ensures CommitWindow(db, NextBlock(start, db.cursor), to, logs).Some?
    ensures var r := CommitWindow(db, NextBlock(start, db.cursor), to, logs).value;
      && Stored(chain, start, r) && r.cursor == Some(to) && db.ops <= r.ops
      && r.events == db.events + Range(chain, NextBlock(start, db.cursor), to)
      && forall t0 :: DbOk(chain, start, t0, db) ==> DbOk(chain, start, t0, r)
  {
    var stored := StoreAll(db, SortBy(logs, ByPos));
    CommitValue(chain, start, db, to, logs);
    StoredIsRange(chain, start, db, to, logs);
    assert EventsOf(db.ops) == db.events;
    StoreKeepsHistory(db, SortBy(logs, ByPos));
    hide *;
    StoredOk(chain, start, db, to, stored);
    forall t0 | DbOk(chain, start, t0, db) ensures DbOk(chain, start, t0, stored.(cursor := Some(to))) {
      StoredTables(chain, start, t0, db, to, logs);
    }
  }

  lemma StoredTables(chain: seq<Event>, start: nat, t0: Tables, db: DbState, to: int, logs: seq<Event>)
    requires DbOk(chain, start, t0, db)
    requires Stored(chain, start, StoreAll(db, SortBy(logs, ByPos)).(cursor := Some(to)))
    ensures DbOk(chain, start, t0, StoreAll(db, SortBy(logs, ByPos)).(cursor := Some(to)))
  {
    StoreKeepsTables(t0, db, SortBy(logs, ByPos));
    hide Stored, StoreAll, Run, SortBy;
  }

  lemma CommitValue(chain: seq<Event>, start: nat, db: DbState, to: int, logs: seq<Event>)
    requires Delivers(chain, NextBlock(start, db.cursor), to, logs)
    ensures CommitWindow(db, NextBlock(start, db.cursor), to, logs)
            == Some(StoreAll(db, SortBy(logs, ByPos)).(cursor := Some(to)))
  {
    LogsInside(chain, NextBlock(start, db.cursor), to, logs);
    hide Inside, StoreAll, SortBy, Delivers;
  }

  lemma StoredOk(chain: seq<Event>, start: nat, db: DbState, to: int, stored: DbState)
    requires ChainOk(chain) && Stored(chain, start, db) && NextBlock(start, db.cursor) <= to
    requires stored.events == Range(chain, start, to) && EventsOf(stored.ops) == stored.events
    ensures Stored(chain, start, stored.(cursor := Some(to)))
    ensures stored.events == db.events + Range(chain, NextBlock(start, db.cursor), to)
  {
    WindowAppended(chain, start, db, to);
    StoredSoFar(chain, start, db);
    assert to + 1 - 1 == to;
    hide Range, EventsOf, ChainOk, InOrder;
  }

  lemma WindowAppended(chain: seq<Event>, start: nat, db: DbState, to: int)
    requires ChainOk(chain) && Stored(chain, start, db) && NextBlock(start, db.cursor) <= to
    ensures Range(chain, start, to) == db.events + Range(chain, NextBlock(start, db.cursor), to)
  {
    hide *;
    StoredSoFar(chain, start, db);
    RangeSplit(chain, start, NextBlock(start, db.cursor), to);
  }

  lemma StoredSoFar(chain: seq<Event>, start: nat, db: DbState)
    requires ChainOk(chain) && Stored(chain, start, db)
    ensures InOrder(chain) && start <= NextBlock(start, db.cursor)
    ensures db.events == Range(chain, start, NextBlock(start, db.cursor) - 1)
  {
    hide InOrder, Range, EventsOf;
  }

  lemma LogsInside(chain: seq<Event>, from: int, to: int, logs: seq<Event>)
    requires Delivers(chain, from, to, logs)
    ensures forall e <- logs :: Inside(e, from, to)
  {
    forall e | e in logs ensures Inside(e, from, to) {
      assert e in Range(chain, from, to);
    }
  }

  lemma StoredIsRange(chain: seq<Event>, start: nat, db: DbState, to: int, logs: seq<Event>)
    requires ChainOk(chain) && Stored(chain, start, db)
    requires NextBlock(start, db.cursor) <= to
    requires Delivers(chain, NextBlock(start, db.cursor), to, logs)
    ensures StoreAll(db, SortBy(logs, ByPos)).events == Range(chain, start, to)
  {
    var from: int := NextBlock(start, db.cursor);
    var sorted := SortBy(logs, ByPos);
    SortMembers(logs, ByPos);
    SortSorted(logs, ByPos);
    assert InOrder(chain);
    hide ChainOk, InOrder, SortBy, Sorted, StoreAll, EventsOf, Before, ByPos;
    RangeInOrder(chain, start, from - 1);
    RangeInOrder(chain, start, to);
    StoredInOrder(chain, db, from, sorted);
    var stored, range := StoreAll(db, sorted).events, Range(chain, start, to);
    forall e ensures e in stored <==> e in range {
      WindowMember(chain, start, from, to, e);
    }
    hide Range;
    SameMembersSameOrder(stored, range);
  }

  lemma WindowMember(chain: seq<Event>, start: int, from: int, to: int, e: Event)
    requires start <= from <= to
    ensures e in Range(chain, start, to) <==> e in Range(chain, start, from - 1) || e in Range(chain, from, to)
  {
    hide Range;
  }

  /** Logs of an empty range: none, and committing them moves nothing but the cursor. */
  lemma EmptyWindow(chain: seq<Event>, db: DbState, from: int, to: int, logs: seq<Event>)
    requires Delivers(chain, from, to, logs) && to < from
    ensures logs == [] && CommitWindow(db, from, to, logs) == Some(db.(cursor := Some(to)))
  {
    LogsInside(chain, from, to, logs);
    assert logs != [] ==> Inside(logs[0], from, to);
    assert SortBy(logs, ByPos) == [];
  }

  // ---------------------------------------------------------------- every run

  /**
    * What can happen to the database: a window commits, or the API or the matcher writes. Crashes, range
    * errors, failed reads and aborted transactions change nothing.
    */
  ghost predicate DbNext(chain: seq<Event>, start: nat, a: DbState, b: DbState) {
    || b == a
    || (exists to: int, logs: seq<Event> :: Commits(chain, start, a, to, logs, b))
    || (exists op: Op :: Writes(a, op, b))
  }

  /** The next window, delivered in full and committed. */
  ghost predicate Commits(chain: seq<Event>, start: nat, a: DbState, to: int, logs: seq<Event>, b: DbState) {
    && NextBlock(start, a.cursor) <= to
    && Delivers(chain, NextBlock(start, a.cursor), to, logs)
    && CommitWindow(a, NextBlock(start, a.cursor), to, logs) == Some(b)
  }

  /** A write by the intake API or the matcher. */
  ghost predicate Writes(a: DbState, op: Op, b: DbState) {
    !op.Log? && b == a.(tables := Do(a.tables, op), ops := a.ops + [op])
  }

  /** One step keeps the stored events exact and the history growing, and the tables exact where they were. */
  lemma NextKeepsDbOk(chain: seq<Event>, start: nat, a: DbState, b: DbState)
    requires ChainOk(chain) && Stored(chain, start, a) && DbNext(chain, start, a, b)
    ensures Stored(chain, start, b) && a.ops <= b.ops
    ensures forall t0 :: DbOk(chain, start, t0, a) ==> DbOk(chain, start, t0, b)
  {
    hide Apply, Do, CommitWindow, Stored, DbOk, ChainOk, Writes, Commits;
    if b == a {
    } else if exists to: int, logs: seq<Event> :: Commits(chain, start, a, to, logs, b) {
      var to: int, logs: seq<Event> :| Commits(chain, start, a, to, logs, b);
      CommitKeepsDbOk(chain, start, a, to, logs, b);
    } else {
      var op: Op :| Writes(a, op, b);
      WriteStored(chain, start, a, op, b);
      forall t0 | DbOk(chain, start, t0, a) ensures DbOk(chain, start, t0, b) {
        WriteKeepsDbOk(chain, start, t0, a, op, b);
      }
    }
  }

  lemma CommitKeepsDbOk(chain: seq<Event>, start: nat, a: DbState, to: int, logs: seq<Event>, b: DbState)
    requires ChainOk(chain) && Stored(chain, start, a) && Commits(chain, start, a, to, logs, b)
    ensures Stored(chain, start, b) && a.ops <= b.ops
    ensures forall t0 :: DbOk(chain, start, t0, a) ==> DbOk(chain, start, t0, b)
  {
    hide ChainOk, Stored, DbOk, CommitWindow, Delivers;
    CommitIsExact(chain, start, a, to, logs);
  }

  lemma WriteStored(chain: seq<Event>, start: nat, a: DbState, op: Op, b: DbState)
    requires Stored(chain, start, a) && Writes(a, op, b)
    ensures Stored(chain, start, b) && a.ops <= b.ops
  {
    hide Apply, Do, Range;
    RunSnoc(a.tables, a.tables, a.ops, op);
  }

  lemma WriteKeepsDbOk(chain: seq<Event>, start: nat, t0: Tables, a: DbState, op: Op, b: DbState)
    requires DbOk(chain, start, t0, a) && Writes(a, op, b)
    ensures DbOk(chain, start, t0, b)
  {
    hide Apply, Do, Range;
    WriteStored(chain, start, a, op, b);
    RunSnoc(t0, t0, a.ops, op);
  }

  ghost predicate DbRun(chain: seq<Event>, start: nat, t: seq<DbState>) {
    t != [] && forall k :: 0 <= k < |t| - 1 ==> DbNext(chain, start, t[k], t[k + 1])
  }

  function EmptyDb(t0: Tables): DbState { DbState([], None, t0, []) }

  /**
    * Exactly once: after any run, the stored events are the chain's logs from the start block to the cursor,
    * and the tables are what those events, applied once each in (block, logIndex) order among the other
    * writers' writes, make of the initial tables.
    */
  lemma {:induction false} IndexedExactlyOnce(chain: seq<Event>, start: nat, t0: Tables, t: seq<DbState>)
    requires ChainOk(chain) && DbRun(chain, start, t) && t[0] == EmptyDb(t0)
    ensures var db := t[|t| - 1];
      && DbOk(chain, start, t0, db)
      && InOrder(db.events)
      && ((forall op <- db.ops :: op.Log?) ==> db.tables == Replay(t0, db.events))
    decreases |t|
  {
    hide Apply, Do, CommitWindow, Commits, Writes;
    if |t| == 1 {
      NothingIndexed(chain, start);
    } else {
      hide Stored, InOrder, ChainOk;
      var u := t[..|t| - 1];
      forall k | 0 <= k < |u| - 1 ensures DbNext(chain, start, u[k], u[k + 1]) {
        assert DbNext(chain, start, t[k], t[k + 1]);
      }
      IndexedExactlyOnce(chain, start, t0, u);
      assert DbNext(chain, start, t[|t| - 2], t[|t| - 1]);
      NextKeepsDbOk(chain, start, t[|t| - 2], t[|t| - 1]);
    }
    OkMeans(chain, start, t0, t[|t| - 1]);
  }

  lemma StoredInOrderToo(chain: seq<Event>, start: nat, db: DbState)
    requires ChainOk(chain) && Stored(chain, start, db)
    ensures InOrder(db.events)
  {
    RangeInOrder(chain, start, NextBlock(start, db.cursor) - 1);
  }

  lemma OkMeans(chain: seq<Event>, start: nat, t0: Tables, db: DbState)
    requires ChainOk(chain) && DbOk(chain, start, t0, db)
    ensures InOrder(db.events)
    ensures (forall op <- db.ops :: op.Log?) ==> db.tables == Replay(t0, db.events)
  {
    StoredInOrderToo(chain, start, db);
    if forall op <- db.ops :: op.Log? { RunOfLogs(t0, db.ops); }
  }

  lemma {:induction false} NothingIndexed(chain: seq<Event>, start: nat)
    ensures Range(chain, start, start as int - 1) == []
  {
    if chain != [] { NothingIndexed(chain[..|chain| - 1], start); }
  }

  lemma {:induction false} RunOfLogs(t0: Tables, ops: seq<Op>)
    requires forall op <- ops :: op.Log?
    ensures Run(t0, ops) == Replay(t0, EventsOf(ops))
  {
    if ops != [] {
      hide Apply;
      var before, op := ops[..|ops| - 1], ops[|ops| - 1];
      assert ops == before + [op] && op in ops;
      forall o | o in before ensures o.Log? { assert o in ops; }
      RunOfLogs(t0, before);
      RunSnoc(t0, t0, before, op);
    }
  }

  // ---------------------------------------------------------------- rebuild

  /** Rows after a key, in key order, at most `limit` of them. */
  function After(es: seq<Event>, key: Option<LogPos>): seq<Event> {
    if es == [] then []
    else
      var last := es[|es| - 1];
      After(es[..|es| - 1], key) + if key.None? || Before(key.value, last.pos) then [last] else []
  }

  function Page(es: seq<Event>, key: Option<LogPos>, limit: nat): (r: seq<Event>)
    ensures |r| <= limit
  {
    var rows := SortBy(After(es, key), ByPos);
    if |rows| <= limit then rows else rows[..limit]
  }

  lemma {:induction false} AfterKey(es: seq<Event>, k: nat)
    requires InOrder(es) && k <= |es|
    ensures After(es, if k == 0 then None else Some(es[k - 1].pos)) == es[k..]
    decreases |es|
  {
    if es != [] {
      var before := es[..|es| - 1];
      DropLast(es);
      if k < |es| {
        AfterKey(before, k);
        assert es[k..] == before[k..] + [es[|es| - 1]];
        if k > 0 { assert Before(es[k - 1].pos, es[|es| - 1].pos); }
      } else {
        NoneAfter(before, es[|es| - 1].pos);
        assert es[k..] == [];
      }
    }
  }

  lemma {:induction false} NoneAfter(es: seq<Event>, key: LogPos)
    requires forall e <- es :: Before(e.pos, key)
    ensures After(es, Some(key)) == []
  {
    if es != [] {
      assert es[|es| - 1] in es;
      NoneAfter(es[..|es| - 1], key);
    }
  }

  /** Keyset paging over distinct keys skips nothing and repeats nothing. */
  lemma PageIsNextRows(es: seq<Event>, k: nat, limit: nat)
    requires InOrder(es) && k <= |es|
    ensures Page(es, if k == 0 then None else Some(es[k - 1].pos), limit)
            == es[k..if k + limit <= |es| then k + limit else |es|]
  {
    hide After, SortBy, Sorted, InOrder, Before, ByPos;
    var rest := es[k..];
    AfterKey(es, k);
    SuffixSorted(es, k);
    SortOfSorted(rest, ByPos);
    assert k + limit <= |es| ==> rest[..limit] == es[k..k + limit];
  }

  lemma SuffixSorted(es: seq<Event>, k: nat)
    requires InOrder(es) && k <= |es|
    ensures Sorted(es[k..], ByPos)
  {
    var rest := es[k..];
    forall i, j | 0 <= i < j < |rest| ensures ByPos(rest[i], rest[j]) {
      assert Before(es[k + i].pos, es[k + j].pos);
    }
  }

  /**
    * In every reachable state whose markets and orders came before their events, rebuilding from the stored
    * events changes nothing but pending fills, and nothing at all exactly when every pending fill is clean.
    */
  lemma RebuildChangesNothing(chain: seq<Event>, start: nat, t0: Tables, db: DbState)
    requires DbOk(chain, start, t0, db)
    requires Untouched(t0) && Keyed(t0) && Orderly(t0, db.ops)
    ensures var rebuilt := Replay(Reset(db.tables), db.events);
      && rebuilt.(fills := db.tables.fills) == db.tables
      && (rebuilt == db.tables <==> forall f <- db.tables.fills :: CleanIfPending(f, db.events))
  {
    RebuildEqualsLive(t0, db.ops);
  }

  /** A rebuild replays the stored events over the reset tables and touches nothing else. */
  ghost predicate Rebuilds(a: DbState, b: DbState) {
    b == a.(tables := Replay(Reset(a.tables), a.events))
  }

  lemma RebuildKeepsStored(chain: seq<Event>, start: nat, a: DbState, b: DbState)
    requires Rebuilds(a, b)
    ensures b.events == a.events && b.ops == a.ops && (Stored(chain, start, a) ==> Stored(chain, start, b))
  {
    hide Replay, Reset, Range, EventsOf;
  }

  // ---------------------------------------------------------------- the window

  function ToBlock(head: int, from: int, window: int): int {
    if head < from + window - 1 then head else from + window - 1
  }

  /** A window is non-empty, and the cursor advances, exactly when the window size is positive. */
  lemma ProgressIff(head: int, from: int, window: int)
    requires from <= head
    ensures ToBlock(head, from, window) >= from <==> window >= 1
  {}

  /** The window after k halvings. */
  function Halved(window: int, k: nat): int {
    if k == 0 then window else Halved(window, k - 1) / 2
  }

  // ---------------------------------------------------------------- the indexer

  datatype Fetch = Logs(logs: seq<Event>) | RangeError | FetchError

  /** A provider; callers rely on the contracts only. `tip` bounds the blocks it will ever report. */
  class LogSource {
    const chain: seq<Event>
    const tip: nat

    constructor (chain: seq<Event>, tip: nat)
      ensures this.chain == chain && this.tip == tip
    {
      this.chain, this.tip := chain, tip;
    }

    method GetBlockNumber() returns (r: Rpc<nat>)
      ensures r.Got? ==> r.value <= tip
    {
      r := Got(tip);
    }

    method GetLogs(from: int, to: int) returns (r: Fetch)
      ensures r.Logs? ==> Delivers(chain, from, to, r.logs)
    {
      r := Logs(Range(chain, from, to));
    }

    method GetBlock(block: int) returns (ok: bool)
    {
      ok := true;
    }
  }

  class Db {
    var s: DbState

    constructor (s: DbState)
      ensures this.s == s
    {
      this.s := s;
    }
  }

  datatype StepResult = Window(from: int, to: int, logs: nat) | CaughtUp | StepThrew

  class Indexer {
    const source: LogSource
    const db: Db
    const start: nat
    const maxWindow: int
    var window: int

    ghost predicate Valid()
      reads this, db
    {
      && ChainOk(source.chain) && InOrder(db.s.events)
      && if maxWindow >= 1 then Stored(source.chain, start, db.s) && 1 <= window <= maxWindow else window == maxWindow
    }

    /** A start or a restart on whatever the database holds; the window is back at its maximum, whatever that is. */
    constructor (source: LogSource, db: Db, start: nat, maxWindow: int)
      requires ChainOk(source.chain) && Stored(source.chain, start, db.s)
      ensures Valid() && this.db == db && this.source == source && this.start == start
      ensures this.maxWindow == maxWindow == window
    {
      StoredInOrderToo(source.chain, start, db.s);
      this.source, this.db, this.start, this.maxWindow := source, db, start, maxWindow;
      this.window := maxWindow;
    }

    /** All of a window or nothing of it. */
    method Commit(from: int, to: int, logs: seq<Event>) returns (ok: bool)
      modifies db
      ensures ok ==> CommitWindow(old(db.s), from, to, logs) == Some(db.s)
      ensures !ok ==> db.s == old(db.s)
    {
      hide Apply;
      var ordered := SortBy(logs, ByPos);
      SortMembers(logs, ByPos);
      for i := 0 to |ordered|
        invariant db.s == old(db.s)
      {
        var read := source.GetBlock(ordered[i].pos.block);
        if !read { return false; }
      }
      var read := source.GetBlock(to);
      if !read { return false; }

      var q := new TableStore(db.s.tables);
      var events, ops := db.s.events, db.s.ops;
      for i := 0 to |ordered|
        invariant fresh(q)
        invariant db.s == old(db.s)
        invariant DbState(events, db.s.cursor, q.T(), ops) == StoreAll(db.s, ordered[..i])
        invariant forall k :: 0 <= k < i ==> Inside(ordered[k], from, to)
      {
        assert ordered[..i + 1][..i] == ordered[..i];
        var raw := ordered[i];
        if raw.pos.block < from || raw.pos.block > to { return false; }
        // Already stored means already projected.
        if HasEvent(events, raw) { continue; }
        events := events + [raw];
        ops := ops + [Log(raw)];
        q.ApplyEvent(raw);
      }
      assert ordered[..|ordered|] == ordered;
      forall e | e in logs ensures Inside(e, from, to) {
        assert e in ordered;
      }
      db.s := DbState(events, Some(to), q.T(), ops);
      return true;
    }

    /**
      * Index one window. A window that comes back committed is the next one and moves the cursor to its
      * end; anything else leaves the database as it was. The window size stays within its bounds. With a
      * maximum below one a window is empty: nothing is ever stored, and the cursor never moves on.
      */
    method Step() returns (r: StepResult, ghost halvings: nat)
      requires Valid()
      modifies this`window, db
      ensures Valid()
      ensures r.Window? ==>
        r.from == NextBlock(start, old(db.s.cursor)) && db.s.cursor == Some(r.to) && r.to <= source.tip
      ensures !r.Window? ==> db.s == old(db.s)
      ensures maxWindow >= 1 ==> DbNext(source.chain, start, old(db.s), db.s)
      ensures maxWindow >= 1 ==> forall t0 ::
        DbOk(source.chain, start, t0, old(db.s)) ==> DbOk(source.chain, start, t0, db.s)
      ensures r.Window? && maxWindow >= 1 ==>
        r.from <= r.to && db.s.events == old(db.s.events) + Range(source.chain, r.from, r.to)
      ensures r.Window? && maxWindow < 1 ==>
        r.to == r.from + maxWindow - 1 && db.s == old(db.s).(cursor := Some(r.to)) && r.logs == 0 && window == maxWindow
      ensures r.Window? && maxWindow >= 1 ==>
        var used := Halved(old(window), halvings);
        used >= 1 && r.to <= r.from + used - 1 && window == if 2 * used < maxWindow then 2 * used else maxWindow
      ensures r.StepThrew? ==> window == Halved(old(window), halvings)
      ensures r.CaughtUp? ==> window == old(window)
    {
      halvings := 0;
      var from := NextBlock(start, db.s.cursor);
      var head := source.GetBlockNumber();
      if head.Unavailable? { return StepThrew, 0; }
      if from > head.value { return CaughtUp, 0; }

      while true
        invariant Valid() && db.s == old(db.s)
        invariant window == Halved(old(window), halvings)
        decreases window
      {
        ProgressIff(head.value, from, window);
        var to := ToBlock(head.value, from, window);
        var fetched := source.GetLogs(from, to);
        if fetched.RangeError? && window > 1 {
          window := window / 2;
          halvings := halvings + 1;
          continue;
        }
        if !fetched.Logs? { return StepThrew, halvings; }
        if maxWindow >= 1 {
          CommitIsExact(source.chain, start, db.s, to, fetched.logs);
        } else {
          EmptyWindow(source.chain, db.s, from, to, fetched.logs);
        }
        var ok := Commit(from, to, fetched.logs);
        if !ok { return StepThrew, halvings; }
        if maxWindow >= 1 {
          assert Commits(source.chain, start, old(db.s), to, fetched.logs, db.s);
          StoredInOrderToo(source.chain, start, db.s);
        }
        // Grow back gradually after a shrink the provider forced.
        if window < maxWindow { window := if maxWindow < window * 2 then maxWindow else window * 2; }
        return Window(from, to, |fetched.logs|), halvings;
      }
    }

    /** Index until caught up or stopped; each window moves the cursor, so it ends. */
    method CatchUp() returns (windows: nat, threw: bool)
      requires Valid() && maxWindow >= 1
      modifies this`window, db
      ensures Valid()
      ensures forall t0 :: DbOk(source.chain, start, t0, old(db.s)) ==> DbOk(source.chain, start, t0, db.s)
      ensures old(db.s.events) <= db.s.events
      ensures windows == 0 ==> db.s == old(db.s)
      ensures NextBlock(start, old(db.s.cursor)) + windows <= NextBlock(start, db.s.cursor)
    {
      windows := 0;
      while true
        invariant Valid()
        invariant forall t0 :: DbOk(source.chain, start, t0, old(db.s)) ==> DbOk(source.chain, start, t0, db.s)
        invariant old(db.s.events) <= db.s.events
        invariant windows == 0 ==> db.s == old(db.s)
        invariant NextBlock(start, old(db.s.cursor)) + windows <= NextBlock(start, db.s.cursor)
        decreases source.tip + 1 - NextBlock(start, db.s.cursor)
      {
        var r, _ := Step();
        if r.StepThrew? { return windows, true; }
        if r.CaughtUp? { return windows, false; }
        windows := windows + 1;
      }
    }

    /** One page of a rebuild. */
    method ApplyRows(q: TableStore, rows: seq<Event>, ghost base: Tables, ghost events: seq<Event>, ghost k: nat)
      requires k + |rows| <= |events| && rows == events[k..k + |rows|]
      requires q.T() == Replay(base, events[..k])
      modifies q
      ensures q.T() == Replay(base, events[..k + |rows|])
    {
      hide Apply;
      for i := 0 to |rows|
        invariant q.T() == Replay(base, events[..k + i])
      {
        assert events[..k + i + 1][..k + i] == events[..k + i];
        assert rows[i] == events[k + i];
        q.ApplyEvent(rows[i]);
      }
    }

    /**
      * Recompute every projection from the stored events, page by page, in one transaction. A batch size
      * below one cannot page and aborts.
      */
    method Rebuild(batchSize: int) returns (ok: bool)
      requires Valid()
      modifies db
      ensures Valid()
      ensures ok <==> batchSize >= 1
      ensures ok ==> Rebuilds(old(db.s), db.s)
      ensures !ok ==> db.s == old(db.s)
    {
      hide Apply, Reset, ChainOk, Page, Stored, InOrder;
      // LIMIT 0 leaves no last row to page from, and a negative LIMIT is refused.
      if batchSize < 1 { return false; }
      var events := db.s.events;
      var q := new TableStore(Reset(db.s.tables));
      var after: Option<LogPos> := None;
      ghost var k := 0;
      while true
        invariant fresh(q) && db.s == old(db.s)
        invariant 0 <= k <= |events| && after == (if k == 0 then None else Some(events[k - 1].pos))
        invariant q.T() == Replay(Reset(db.s.tables), events[..k])
        decreases |events| - k
      {
        PageIsNextRows(events, k, batchSize);
        var rows := Page(events, after, batchSize);
        ApplyRows(q, rows, Reset(db.s.tables), events, k);
        k := k + |rows|;
        if |rows| < batchSize {
          assert events[..k] == events;
          db.s := db.s.(tables := q.T());
          RebuildKeepsStored(source.chain, start, old(db.s), db.s);
          return true;
        }
        after := Some(rows[|rows| - 1].pos);
      }
    }
  }
}
