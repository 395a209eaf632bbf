/**
  * The send protocol of one service key as a state machine: a node that mines at most one transaction
  * per nonce, a durable table of signed attempts, and the sender's in-memory nonce cursor
  * (client/lib/chain/tx-sender.ts, client/lib/chain/tx-store.ts).
  *
  * Each action is one effect that survives an await, so a run is any interleaving of submits, waiters,
  * crashes and the node's own behaviour. Hashing is injective: a transaction stands for its hash.
  */
module TxProtocol {
  import opened Wrappers

  /** A network and a sending address; addresses are compared case-folded, so they are kept folded here. */
  datatype Key = Key(network: string, address: string)

  /** What a request asks the chain to execute. */
  datatype Call = Call(to: string, data: string, value: int, gasLimit: int)

  datatype Tx =
    | Signed(key: Key, nonce: nat, call: Call, maxFee: int, tip: int)
    | Foreign(nonce: nat)  // signed with the same key by something that keeps no rows here

  datatype Receipt = Receipt(success: bool, gasUsed: nat, gasPrice: nat, block: nat)

  datatype Mined = Mined(tx: Tx, receipt: Receipt)

  datatype Status = Pending | Submitted | Replaced | Confirmed | Reverted | Dropped | Failed

  predicate Open(s: Status) { s == Pending || s == Submitted }

  predicate Final(s: Status) { s == Confirmed || s == Reverted }

  /** One row of the table. `submit` records which submit call the attempt belongs to; it is history only. */
  datatype Job = Job(
    id: string, tx: Tx, submit: nat, status: Status,
    replacedBy: Option<Tx>, receipt: Option<Receipt>, createdAt: int)

  /** The account as the node sees it. `mined[n]` took nonce n; receipts are served for the first `served`. */
  datatype NodeState = NodeState(mined: seq<Mined>, served: nat, mempool: set<Tx>, sent: set<Tx>)

  datatype World = World(node: NodeState, rows: seq<Job>, cursor: Option<nat>)

  predicate Mine(me: Key, j: Job) {
    j.tx.Signed? && j.tx.key == me
  }

  predicate MinedAs(n: NodeState, tx: Tx) {
    tx.nonce < |n.mined| && n.mined[tx.nonce].tx == tx
  }

  // ---------------------------------------------------------------- actions

  ghost predicate NodeOk(n: NodeState) {
    && (forall k :: 0 <= k < |n.mined| ==> n.mined[k].tx.nonce == k)
    && (forall k :: 0 <= k < |n.mined| ==> n.mined[k].tx.Foreign? || n.mined[k].tx in n.sent)
    && n.served <= |n.mined|
    && n.mempool <= n.sent
  }

  /**
    * The chain mines anything ever sent, or something from elsewhere; the node forgets what it likes and serves
    * receipts late.
    */
  ghost predicate Evolve(a: NodeState, b: NodeState) {
    && a.mined <= b.mined
    && (forall k :: |a.mined| <= k < |b.mined| ==>
          && b.mined[k].tx.nonce == k
          && (b.mined[k].tx.Foreign? || b.mined[k].tx in a.sent))
    && a.served <= b.served <= |b.mined|
    && b.mempool <= a.mempool
    && b.sent == a.sent
  }

  lemma EvolveKeepsOk(a: NodeState, b: NodeState)
    requires NodeOk(a) && Evolve(a, b)
    ensures NodeOk(b)
  {
    forall k | 0 <= k < |b.mined|
      ensures b.mined[k].tx.nonce == k && (b.mined[k].tx.Foreign? || b.mined[k].tx in b.sent)
    {
      if k < |a.mined| { assert b.mined[k] == a.mined[k]; }
    }
  }

  lemma EvolveSelf(a: NodeState)
    requires NodeOk(a)
    ensures Evolve(a, a)
  {}

  lemma EvolveTrans(a: NodeState, b: NodeState, c: NodeState)
    requires Evolve(a, b) && Evolve(b, c)
    ensures Evolve(a, c)
  {
    forall k | |a.mined| <= k < |c.mined|
      ensures c.mined[k].tx.nonce == k && (c.mined[k].tx.Foreign? || c.mined[k].tx in a.sent)
    {
      if k < |b.mined| { assert c.mined[k] == b.mined[k]; }
    }
  }

  /** The bytes reach the node, which may keep them or not, whatever it answers. */
  ghost predicate Sends(a: NodeState, tx: Tx, b: NodeState) {
    && b.mined == a.mined && b.served == a.served
    && b.sent == a.sent + {tx}
    && b.mempool <= a.mempool + {tx}
  }

  /** The nonce of this attempt went to a transaction other than it. */
  predicate Foreclosed(n: NodeState, tx: Tx) {
    tx.nonce < |n.mined| && n.mined[tx.nonce].tx != tx
  }

  predicate OfSubmit(me: Key, j: Job, s: nat) {
    Mine(me, j) && j.submit == s
  }

  /** Another attempt at the same nonce, for the same call, with both fees raised. */
  predicate Replaces(prior: Job, submit: nat, tx: Tx) {
    && prior.tx.Signed? && tx.Signed?
    && submit == prior.submit
    && tx.nonce == prior.tx.nonce && tx.call == prior.tx.call
    && tx.maxFee > prior.tx.maxFee && tx.tip > prior.tx.tip
  }

  /** Why a row of this key may be written. */
  ghost predicate MayInsert(me: Key, w: World, submit: nat, tx: Tx) {
    || (forall j <- w.rows :: !OfSubmit(me, j, submit))                                // first attempt
    || (forall j <- w.rows :: OfSubmit(me, j, submit) ==> Foreclosed(w.node, j.tx))    // retry at a new nonce
    || (exists j <- w.rows :: Mine(me, j) && Replaces(j, submit, tx))                  // fee bump
  }

  /** Rows are keyed by id, and the table holds one row per hash. */
  ghost predicate FreshRow(rows: seq<Job>, row: Job) {
    forall j <- rows :: j.id != row.id && j.tx != row.tx
  }

  datatype Action =
    | NodeMoves
    | Insert(row: Job)
    | Send(i: nat)
    | Patch(i: nat, row: Job)
    | Seed(pending: nat)
    | Advance(used: nat)
    | Forget

  predicate SameAttempt(a: Job, b: Job) {
    a.id == b.id && a.tx == b.tx && a.submit == b.submit && a.createdAt == b.createdAt
  }

  ghost predicate Does(me: Key, a: World, act: Action, b: World) {
    match act
    case NodeMoves => b.rows == a.rows && b.cursor == a.cursor && Evolve(a.node, b.node)
    case Insert(row) =>
      && b.node == a.node && b.cursor == a.cursor && b.rows == a.rows + [row]
      && FreshRow(a.rows, row) && row.status == Pending
      && (Mine(me, row) ==> MayInsert(me, a, row.submit, row.tx))
    case Send(i) =>
      && i < |a.rows| && Mine(me, a.rows[i])
      && b.rows == a.rows && b.cursor == a.cursor && Sends(a.node, a.rows[i].tx, b.node)
    case Patch(i, row) =>
      && i < |a.rows| && SameAttempt(a.rows[i], row)
      && b.node == a.node && b.cursor == a.cursor && b.rows == a.rows[i := row]
      // a row is settled only on the receipt of its own hash
      && (Mine(me, row) && Final(row.status) ==> row.tx.nonce < a.node.served && MinedAs(a.node, row.tx))
    case Seed(pending) =>
      && b.rows == a.rows && b.node == a.node && b.cursor == Some(pending)
      && (a.cursor.None? || a.cursor.value < pending)
    case Advance(used) =>
      && b.rows == a.rows && b.node == a.node && b.cursor == Some(used + 1)
      && (a.cursor.None? || a.cursor.value < used + 1)
    // a crash, or a resync after "nonce too low": the cursor goes, the rows stay
    case Forget => b.rows == a.rows && b.node == a.node && b.cursor == None
  }

  ghost predicate Next(me: Key, a: World, b: World) {
    exists act :: Does(me, a, act, b)
  }

  // ---------------------------------------------------------------- runs

  ghost predicate IsRun(me: Key, t: seq<World>) {
    t != [] && forall k :: 0 <= k < |t| - 1 ==> Next(me, t[k], t[k + 1])
  }

  ghost predicate Reaches(me: Key, a: World, b: World) {
    exists t :: IsRun(me, t) && t[0] == a && t[|t| - 1] == b
  }

  lemma ReachesSelf(me: Key, a: World)
    ensures Reaches(me, a, a)
  {
    assert IsRun(me, [a]) && [a][0] == a;
  }

  lemma ReachesStep(me: Key, a: World, b: World, act: Action, c: World)
    requires Reaches(me, a, b) && Does(me, b, act, c)
    ensures Reaches(me, a, c)
  {
    var t :| IsRun(me, t) && t[0] == a && t[|t| - 1] == b;
    var u := t + [c];
    forall k | 0 <= k < |u| - 1 ensures Next(me, u[k], u[k + 1]) {
      if k < |t| - 1 { assert Next(me, t[k], t[k + 1]); }
    }
    assert IsRun(me, u) && u[0] == a && u[|u| - 1] == c;
  }

  lemma ReachesTrans(me: Key, a: World, b: World, c: World)
    requires Reaches(me, a, b) && Reaches(me, b, c)
    ensures Reaches(me, a, c)
  {
    var t :| IsRun(me, t) && t[0] == a && t[|t| - 1] == b;
    var u :| IsRun(me, u) && u[0] == b && u[|u| - 1] == c;
    var v := t + u[1..];
    forall k | 0 <= k < |v| - 1 ensures Next(me, v[k], v[k + 1]) {
      if k < |t| - 1 {
        assert Next(me, t[k], t[k + 1]);
      } else {
        assert v[k] == u[k - |t| + 1] && v[k + 1] == u[k - |t| + 2];
        assert Next(me, u[k - |t| + 1], u[k - |t| + 2]);
      }
    }
    assert IsRun(me, v) && v[0] == a && v[|v| - 1] == c;
  }

  /** What was mined stays mined, and receipts once served stay served. */
  lemma {:induction false} RunGrows(me: Key, t: seq<World>)
    requires IsRun(me, t)
    ensures t[0].node.mined <= t[|t| - 1].node.mined && t[0].node.served <= t[|t| - 1].node.served
    decreases |t|
  {
    if |t| > 1 {
      var u := t[..|t| - 1];
      forall k | 0 <= k < |u| - 1 ensures Next(me, u[k], u[k + 1]) { assert Next(me, t[k], t[k + 1]); }
      RunGrows(me, u);
      assert Next(me, t[|t| - 2], t[|t| - 1]);
    }
  }

  lemma ReachesGrows(me: Key, a: World, b: World)
    requires Reaches(me, a, b)
    ensures a.node.mined <= b.node.mined && a.node.served <= b.node.served
  {
    var t :| IsRun(me, t) && t[0] == a && t[|t| - 1] == b;
    RunGrows(me, t);
  }

  /** One more action at the end of a run keeps the run and the invariant going. */
  lemma Extend(me: Key, a: World, b: World, act: Action, c: World)
    requires Reaches(me, a, b) && Inv(me, b) && Does(me, b, act, c)
    ensures Reaches(me, a, c) && Inv(me, c)
  {
    ReachesStep(me, a, b, act, c);
    NextKeepsInv(me, b, c);
  }

  // ---------------------------------------------------------------- the invariant

  /** For this submit call the nonce is settled against it: another transaction has it. */
  ghost predicate Burned(me: Key, w: World, s: nat, nonce: nat) {
    && nonce < |w.node.mined|
    && forall j <- w.rows :: OfSubmit(me, j, s) && j.tx.nonce == nonce ==> w.node.mined[nonce].tx != j.tx
  }

  /** At most one nonce of a submit call can still execute or has executed. */
  ghost predicate OneLiveNonce(me: Key, w: World) {
    forall i, j :: 0 <= i < |w.rows| && 0 <= j < |w.rows|
      && Mine(me, w.rows[i]) && Mine(me, w.rows[j]) && w.rows[i].submit == w.rows[j].submit
      && w.rows[i].tx.nonce != w.rows[j].tx.nonce
      ==> Burned(me, w, w.rows[i].submit, w.rows[i].tx.nonce)
          || Burned(me, w, w.rows[i].submit, w.rows[j].tx.nonce)
  }

  ghost predicate DistinctRows(rows: seq<Job>) {
    forall i, j :: 0 <= i < j < |rows| ==> rows[i].id != rows[j].id && rows[i].tx != rows[j].tx
  }

  /** A row exists for every transaction that ever left for the node. */
  ghost predicate RowBeforeBroadcast(w: World) {
    forall tx <- w.node.sent :: exists i :: 0 <= i < |w.rows| && w.rows[i].tx == tx
  }

  ghost predicate SettledByReceipt(me: Key, w: World) {
    forall j <- w.rows :: Mine(me, j) && Final(j.status) ==> j.tx.nonce < w.node.served && MinedAs(w.node, j.tx)
  }

  ghost predicate Inv(me: Key, w: World) {
    && NodeOk(w.node) && DistinctRows(w.rows) && RowBeforeBroadcast(w)
    && OneLiveNonce(me, w) && SettledByReceipt(me, w)
  }

  ghost predicate Initial(w: World) {
    && w.rows == [] && w.cursor == None
    && w.node.sent == {} && w.node.mempool == {} && NodeOk(w.node)
  }

  lemma InitialInv(me: Key, w: World)
    requires Initial(w)
    ensures Inv(me, w)
  {}

  /** New rows are never already mined: mined bytes were sent, so they already have a row. */
  lemma FreshNotMined(w: World, row: Job)
    requires NodeOk(w.node) && RowBeforeBroadcast(w) && FreshRow(w.rows, row) && row.tx.Signed?
    ensures !MinedAs(w.node, row.tx) && row.tx !in w.node.sent
  {
    forall i | 0 <= i < |w.rows| ensures w.rows[i].tx != row.tx {
      assert w.rows[i] in w.rows;
    }
  }

  lemma BurnedKept(me: Key, a: World, b: World, s: nat, nonce: nat)
    requires Burned(me, a, s, nonce)
    requires a.node.mined <= b.node.mined
    requires forall j <- b.rows :: OfSubmit(me, j, s) && j.tx.nonce == nonce ==>
      !MinedAs(a.node, j.tx)
    ensures Burned(me, b, s, nonce)
  {
    assert b.node.mined[nonce] == a.node.mined[nonce];
  }

  lemma NodeStepKeepsInv(me: Key, a: World, b: World)
    requires Inv(me, a)
    requires b.rows == a.rows && NodeOk(b.node) && a.node.mined <= b.node.mined && a.node.served <= b.node.served
    requires forall tx <- b.node.sent :: exists i :: 0 <= i < |a.rows| && a.rows[i].tx == tx
    ensures Inv(me, b)
  {
    forall i, j | 0 <= i < |b.rows| && 0 <= j < |b.rows|
      && Mine(me, b.rows[i]) && Mine(me, b.rows[j]) && b.rows[i].submit == b.rows[j].submit
      && b.rows[i].tx.nonce != b.rows[j].tx.nonce
      ensures Burned(me, b, b.rows[i].submit, b.rows[i].tx.nonce)
              || Burned(me, b, b.rows[i].submit, b.rows[j].tx.nonce)
    {
      var s := b.rows[i].submit;
      if Burned(me, a, s, b.rows[i].tx.nonce) {
        BurnedKept(me, a, b, s, b.rows[i].tx.nonce);
      } else {
        BurnedKept(me, a, b, s, b.rows[j].tx.nonce);
      }
    }
  }

  lemma BurnedAfterInsert(me: Key, a: World, row: Job, b: World, s: nat, nonce: nat)
    requires Inv(me, a) && Does(me, a, Insert(row), b)
    requires Burned(me, a, s, nonce)
    ensures Burned(me, b, s, nonce)
  {
    forall j | j in b.rows && OfSubmit(me, j, s) && j.tx.nonce == nonce ensures !MinedAs(a.node, j.tx) {
      if j == row { FreshNotMined(a, row); } else { assert j in a.rows; }
    }
    BurnedKept(me, a, b, s, nonce);
  }

  /** The heart of at-most-once: a new row never gives its submit call a second live nonce. */
  lemma InsertKeepsOneLive(me: Key, a: World, row: Job, b: World, j: nat)
    requires Inv(me, a) && Does(me, a, Insert(row), b)
    requires j < |a.rows| && Mine(me, row) && OfSubmit(me, a.rows[j], row.submit)
    requires a.rows[j].tx.nonce != row.tx.nonce
    ensures Burned(me, b, row.submit, a.rows[j].tx.nonce) || Burned(me, b, row.submit, row.tx.nonce)
  {
    var s, n := row.submit, a.rows[j].tx.nonce;
    assert a.rows[j] in a.rows;
    if forall q <- a.rows :: OfSubmit(me, q, s) ==> Foreclosed(a.node, q.tx) {
      assert Foreclosed(a.node, a.rows[j].tx);
      assert Burned(me, a, s, n);
      BurnedAfterInsert(me, a, row, b, s, n);
    } else {
      var prior :| prior in a.rows && Mine(me, prior) && Replaces(prior, s, row.tx);
      var i :| 0 <= i < |a.rows| && a.rows[i] == prior;
      assert Burned(me, a, s, a.rows[i].tx.nonce) || Burned(me, a, s, n);
      if Burned(me, a, s, n) {
        BurnedAfterInsert(me, a, row, b, s, n);
      } else {
        BurnedAfterInsert(me, a, row, b, s, row.tx.nonce);
      }
    }
  }

  lemma InsertKeepsInv(me: Key, a: World, row: Job, b: World)
    requires Inv(me, a) && Does(me, a, Insert(row), b)
    ensures Inv(me, b)
  {
    forall i, j | 0 <= i < j < |b.rows| ensures b.rows[i].id != b.rows[j].id && b.rows[i].tx != b.rows[j].tx {
      if j == |a.rows| { assert a.rows[i] in a.rows; }
    }
    forall tx | tx in b.node.sent ensures exists i :: 0 <= i < |b.rows| && b.rows[i].tx == tx {
      var i :| 0 <= i < |a.rows| && a.rows[i].tx == tx;
      assert b.rows[i].tx == tx;
    }
    forall i, j | 0 <= i < |b.rows| && 0 <= j < |b.rows|
      && Mine(me, b.rows[i]) && Mine(me, b.rows[j]) && b.rows[i].submit == b.rows[j].submit
      && b.rows[i].tx.nonce != b.rows[j].tx.nonce
      ensures Burned(me, b, b.rows[i].submit, b.rows[i].tx.nonce)
              || Burned(me, b, b.rows[i].submit, b.rows[j].tx.nonce)
    {
      var s := b.rows[i].submit;
      if i == |a.rows| {
        InsertKeepsOneLive(me, a, row, b, j);
      } else if j == |a.rows| {
        InsertKeepsOneLive(me, a, row, b, i);
      } else if Burned(me, a, s, a.rows[i].tx.nonce) {
        BurnedAfterInsert(me, a, row, b, s, a.rows[i].tx.nonce);
      } else {
        BurnedAfterInsert(me, a, row, b, s, a.rows[j].tx.nonce);
      }
    }
  }

  lemma PatchKeepsInv(me: Key, a: World, i: nat, row: Job, b: World)
    requires Inv(me, a) && Does(me, a, Patch(i, row), b)
    ensures Inv(me, b)
  {
    forall tx | tx in b.node.sent ensures exists k :: 0 <= k < |b.rows| && b.rows[k].tx == tx {
      var k :| 0 <= k < |a.rows| && a.rows[k].tx == tx;
      assert b.rows[k].tx == tx;
    }
    forall s, n | Burned(me, a, s, n) ensures Burned(me, b, s, n) {
      forall q | q in b.rows && OfSubmit(me, q, s) && q.tx.nonce == n ensures !MinedAs(a.node, q.tx) {
        if q == row { assert a.rows[i] in a.rows; } else { assert q in a.rows; }
      }
      BurnedKept(me, a, b, s, n);
    }
    forall q | q in b.rows && Mine(me, q) && Final(q.status)
      ensures q.tx.nonce < b.node.served && MinedAs(b.node, q.tx)
    {
      if q != row { assert q in a.rows; }
    }
    forall p, q | 0 <= p < |b.rows| && 0 <= q < |b.rows|
      && Mine(me, b.rows[p]) && Mine(me, b.rows[q]) && b.rows[p].submit == b.rows[q].submit
      && b.rows[p].tx.nonce != b.rows[q].tx.nonce
      ensures Burned(me, b, b.rows[p].submit, b.rows[p].tx.nonce)
              || Burned(me, b, b.rows[p].submit, b.rows[q].tx.nonce)
    {
      assert SameAttempt(a.rows[p], b.rows[p]) && SameAttempt(a.rows[q], b.rows[q]);
    }
  }

  lemma NextKeepsInv(me: Key, a: World, b: World)
    requires Inv(me, a) && Next(me, a, b)
    ensures Inv(me, b)
  {
    var act :| Does(me, a, act, b);
    match act
    case NodeMoves =>
      EvolveKeepsOk(a.node, b.node);
      NodeStepKeepsInv(me, a, b);
    case Insert(row) => InsertKeepsInv(me, a, row, b);
    case Send(i) =>
      assert forall tx <- b.node.sent :: tx in a.node.sent || tx == a.rows[i].tx;
      NodeStepKeepsInv(me, a, b);
    case Patch(i, row) => PatchKeepsInv(me, a, i, row, b);
    case Seed(_) => NodeStepKeepsInv(me, a, b);
    case Advance(_) => NodeStepKeepsInv(me, a, b);
    case Forget => NodeStepKeepsInv(me, a, b);
  }

  lemma {:induction false} RunKeepsInv(me: Key, t: seq<World>)
    requires IsRun(me, t) && Inv(me, t[0])
    ensures Inv(me, t[|t| - 1])
    decreases |t|
  {
    if |t| > 1 {
      var u := t[..|t| - 1];
      forall k | 0 <= k < |u| - 1 ensures Next(me, u[k], u[k + 1]) { assert Next(me, t[k], t[k + 1]); }
      RunKeepsInv(me, u);
      NextKeepsInv(me, t[|t| - 2], t[|t| - 1]);
    }
  }

  lemma ReachableInv(me: Key, a: World, b: World)
    requires Inv(me, a) && Reaches(me, a, b)
    ensures Inv(me, b)
  {
    var t :| IsRun(me, t) && t[0] == a && t[|t| - 1] == b;
    RunKeepsInv(me, t);
  }

  // ---------------------------------------------------------------- safety over every run

  /** All mined executions of one submit call are one and the same transaction. */
  ghost predicate AtMostOnce(me: Key, w: World, s: nat) {
    forall i, j :: 0 <= i < |w.rows| && 0 <= j < |w.rows|
      && OfSubmit(me, w.rows[i], s) && OfSubmit(me, w.rows[j], s)
      && MinedAs(w.node, w.rows[i].tx) && MinedAs(w.node, w.rows[j].tx)
      ==> i == j
  }

  lemma InvAtMostOnce(me: Key, w: World, s: nat)
    requires Inv(me, w)
    ensures AtMostOnce(me, w, s)
  {
    forall i, j | 0 <= i < |w.rows| && 0 <= j < |w.rows|
      && OfSubmit(me, w.rows[i], s) && OfSubmit(me, w.rows[j], s)
      && MinedAs(w.node, w.rows[i].tx) && MinedAs(w.node, w.rows[j].tx)
      ensures i == j
    {
      assert w.rows[i] in w.rows && w.rows[j] in w.rows;
      assert !Burned(me, w, s, w.rows[i].tx.nonce) && !Burned(me, w, s, w.rows[j].tx.nonce);
      SameTxSameRow(w.rows, i, j);
    }
  }

  lemma SameTxSameRow(rows: seq<Job>, i: nat, j: nat)
    requires DistinctRows(rows) && i < |rows| && j < |rows| && rows[i].tx == rows[j].tx
    ensures i == j
  {}

  /**
    * At most once: over every interleaving of mining, lost mempools, rebroadcasts, replacements, retries,
    * status updates and crashes, a submit call leads to at most one mined execution of its request.
    */
  lemma AtMostOnceOverRuns(me: Key, start: World, w: World, s: nat)
    requires Initial(start) && Reaches(me, start, w)
    ensures AtMostOnce(me, w, s)
  {
    InitialInv(me, start);
    ReachableInv(me, start, w);
    InvAtMostOnce(me, w, s);
  }

  /** Every transaction the node ever saw was written down first, and a settled row has its own receipt. */
  lemma RecordedBeforeSent(me: Key, start: World, w: World, tx: Tx)
    requires Initial(start) && Reaches(me, start, w)
    ensures tx in w.node.sent || (MinedAs(w.node, tx) && tx.Signed?) ==>
      exists i :: 0 <= i < |w.rows| && w.rows[i].tx == tx
    ensures forall j <- w.rows :: Mine(me, j) && Final(j.status) ==> j.tx.nonce < w.node.served && MinedAs(w.node, j.tx)
  {
    InitialInv(me, start);
    ReachableInv(me, start, w);
  }

  /** At most one row per nonce of this key is ever CONFIRMED or REVERTED. */
  lemma OneSettledRowPerNonce(me: Key, start: World, w: World, i: nat, j: nat)
    requires Initial(start) && Reaches(me, start, w)
    requires i < |w.rows| && j < |w.rows| && Mine(me, w.rows[i]) && Mine(me, w.rows[j])
    requires Final(w.rows[i].status) && Final(w.rows[j].status)
    requires w.rows[i].tx.nonce == w.rows[j].tx.nonce
    ensures i == j
  {
    InitialInv(me, start);
    ReachableInv(me, start, w);
    assert w.rows[i] in w.rows && w.rows[j] in w.rows;
    SameTxSameRow(w.rows, i, j);
  }

  // ---------------------------------------------------------------- when a retry is safe

  /** The world after a submit call writes one more attempt, without asking whether it may. */
  function WithRow(w: World, row: Job): World {
    World(w.node, w.rows + [row], w.cursor)
  }

  ghost predicate SafeForever(me: Key, w: World, s: nat) {
    forall later :: Reaches(me, w, later) ==> AtMostOnce(me, later, s)
  }

  function FillTo(mined: seq<Mined>, a: Tx, b: Tx, upTo: nat): (r: seq<Mined>)
    ensures mined <= r && |r| == if |mined| < upTo then upTo else |mined|
    ensures forall k :: |mined| <= k < |r| ==>
      r[k].tx == if k == a.nonce then a else if k == b.nonce then b else Foreign(k)
    decreases upTo - |mined|
  {
    if |mined| >= upTo then mined
    else
      var k := |mined|;
      var tx := if k == a.nonce then a else if k == b.nonce then b else Foreign(k);
      FillTo(mined + [Mined(tx, Receipt(true, 0, 0, 0))], a, b, upTo)
  }

  /** Broadcast two recorded attempts and mine both, if their nonces are still free. */
  lemma BothCanMine(me: Key, w: World, i: nat, j: nat) returns (later: World)
    requires NodeOk(w.node)
    requires i < |w.rows| && j < |w.rows| && Mine(me, w.rows[i]) && Mine(me, w.rows[j])
    requires w.rows[i].tx.nonce != w.rows[j].tx.nonce
    requires w.rows[i].tx.nonce >= |w.node.mined| || MinedAs(w.node, w.rows[i].tx)
    requires w.rows[j].tx.nonce >= |w.node.mined|
    ensures Reaches(me, w, later) && later.rows == w.rows
    ensures MinedAs(later.node, w.rows[i].tx) && MinedAs(later.node, w.rows[j].tx)
  {
    var a, b := w.rows[i].tx, w.rows[j].tx;
    var n0 := w.node;
    var n1 := n0.(sent := n0.sent + {a}, mempool := n0.mempool + {a});
    var n2 := n1.(sent := n1.sent + {b}, mempool := n1.mempool + {b});
    var mined := FillTo(n0.mined, a, b, (if a.nonce > b.nonce then a.nonce else b.nonce) + 1);
    var n3 := n2.(mined := mined);
    ReachesSelf(me, w);
    ReachesStep(me, w, w, Send(i), w.(node := n1));
    ReachesStep(me, w, w.(node := n1), Send(j), w.(node := n2));
    later := w.(node := n3);
    ReachesStep(me, w, w.(node := n2), NodeMoves, later);
  }

  /**
    * Retrying a submit at a fresh nonce is safe exactly when every attempt already made was beaten to its
    * nonce by another transaction. "Nonce too low" alone does not tell that: the node answers it just the
    * same once the attempt itself was mined, for instance after a rebroadcast by another process.
    */
  lemma RetrySafeIff(me: Key, w: World, row: Job)
    requires Inv(me, w) && Mine(me, row) && row.status == Pending && FreshRow(w.rows, row)
    requires row.tx.nonce >= |w.node.mined|
    requires forall j <- w.rows :: OfSubmit(me, j, row.submit) ==> j.tx.nonce != row.tx.nonce
    ensures SafeForever(me, WithRow(w, row), row.submit)
            <==> (forall j <- w.rows :: OfSubmit(me, j, row.submit) ==> Foreclosed(w.node, j.tx))
  {
    var next, s := WithRow(w, row), row.submit;
    if forall j <- w.rows :: OfSubmit(me, j, s) ==> Foreclosed(w.node, j.tx) {
      assert Does(me, w, Insert(row), next);
      InsertKeepsInv(me, w, row, next);
      forall later | Reaches(me, next, later) ensures AtMostOnce(me, later, s) {
        ReachableInv(me, next, later);
        InvAtMostOnce(me, later, s);
      }
    } else {
      var j :| j in w.rows && OfSubmit(me, j, s) && !Foreclosed(w.node, j.tx);
      var i :| 0 <= i < |w.rows| && w.rows[i] == j;
      assert next.rows[i] == j && next.rows[|w.rows|] == row;
      var later := BothCanMine(me, next, i, |w.rows|);
      assert !AtMostOnce(me, later, s);
    }
  }

  /** One attempt, recorded, sent and mined at nonce 0, before anyone reads its receipt. */
  function MinedUnread(me: Key, call: Call): World {
    var tx := Signed(me, 0, call, 2, 1);
    World(NodeState([Mined(tx, Receipt(true, 0, 0, 0))], 0, {}, {tx}), [Job("a", tx, 0, Pending, None, None, 0)], None)
  }

  lemma MinedUnreadReached(me: Key, call: Call) returns (start: World)
    ensures Initial(start) && Reaches(me, start, MinedUnread(me, call)) && Inv(me, MinedUnread(me, call))
  {
    var w := MinedUnread(me, call);
    var tx := w.rows[0].tx;
    start := World(NodeState([], 0, {}, {}), [], None);
    var recorded := start.(rows := w.rows);
    var sent := recorded.(node := NodeState([], 0, {tx}, {tx}));
    InitialInv(me, start);
    ReachesSelf(me, start);
    Extend(me, start, start, Insert(w.rows[0]), recorded);
    Extend(me, start, recorded, Send(0), sent);
    Extend(me, start, sent, NodeMoves, w);
  }

  /** In that world, reached from an empty table, the retry would make two executions possible. */
  lemma MinedRetryUnsafe(me: Key, call: Call) returns (start: World, row: Job)
    ensures Initial(start) && Reaches(me, start, MinedUnread(me, call))
    ensures row.submit == 0 && row.tx == Signed(me, 1, call, 2, 1)
    ensures !SafeForever(me, WithRow(MinedUnread(me, call), row), 0)
  {
    var w := MinedUnread(me, call);
    start := MinedUnreadReached(me, call);
    row := Job("b", Signed(me, 1, call, 2, 1), 0, Pending, None, None, 0);
    RetrySafeIff(me, w, row);
    assert w.rows[0] in w.rows && OfSubmit(me, w.rows[0], 0) && !Foreclosed(w.node, w.rows[0].tx);
  }

  // ---------------------------------------------------------------- the cursor

  /** Between resyncs the cursor never moves back. */
  lemma {:induction false} CursorNeverMovesBack(me: Key, t: seq<World>)
    requires IsRun(me, t) && t[0].cursor.Some?
    requires forall k :: 0 <= k < |t| ==> t[k].cursor.Some?
    ensures t[0].cursor.value <= t[|t| - 1].cursor.value
    decreases |t|
  {
    if |t| > 1 {
      var u := t[..|t| - 1];
      forall k | 0 <= k < |u| - 1 ensures Next(me, u[k], u[k + 1]) { assert Next(me, t[k], t[k + 1]); }
      CursorNeverMovesBack(me, u);
      assert Next(me, t[|t| - 2], t[|t| - 1]);
    }
  }
}
