/**
  * The sender itself: nonce allocation, submit, wait, replace and the reading of receipts, over a node
  * that may do anything its contract allows between two calls. Every method is shown to be a run of the
  * protocol in TxProtocol, so the safety theorems there hold of it (client/lib/chain/tx-sender.ts).
  */
module TxSending {
  import opened Arithmetic
  import opened Sorting
  import opened TxProtocol
  import opened TxStore
  import opened TxFees
  import opened NonceAllocation
  import opened Wrappers

  datatype Answer = Accepted | AlreadyKnown | NonceTooLow | Underpriced | OtherError

  /** The bodies below are one node that fits; callers rely on the contracts only. */
  class Node {
    var s: NodeState
    const prompt: bool  // receipts are served as soon as the count moves

    ghost predicate Valid()
      reads this
    {
      NodeOk(s) && (prompt ==> s.served == |s.mined|)
    }

    method PendingCount() returns (r: Rpc<nat>)
      requires Valid()
      modifies this
      ensures Valid() && Evolve(old(s), s)
    {
      r := Got(|s.mined|);
    }

    method LatestCount() returns (r: Rpc<nat>)
      requires Valid()
      modifies this
      ensures Valid() && Evolve(old(s), s)
      ensures r.Got? ==> r.value <= |s.mined|
    {
      r := Got(|s.mined|);
    }

    method LatestBaseFee() returns (r: Rpc<Option<int>>)
      requires Valid()
      modifies this
      ensures Valid() && Evolve(old(s), s)
    {
      r := Unavailable;
    }

    method EstimateGas(to: string, data: string, value: int) returns (r: Rpc<int>)
      requires Valid()
      modifies this
      ensures Valid() && Evolve(old(s), s)
    {
      r := Unavailable;
    }

    /**
      * The bytes are out, and whatever follows may follow. "Nonce too low" means another transaction
      * has the nonce.
      */
    method SendRaw(tx: Tx) returns (a: Answer, ghost mid: NodeState)
      requires Valid() && tx.Signed?
      modifies this
      ensures Valid()
      ensures Sends(old(s), tx, mid) && Evolve(mid, s)
      ensures a == NonceTooLow ==> Foreclosed(s, tx)
    {
      s := s.(sent := s.sent + {tx});
      mid := s;
      a := if tx.nonce < |s.mined| && s.mined[tx.nonce].tx != tx then NonceTooLow else Underpriced;
    }

    /** A receipt is served only for the transaction that has its nonce. */
    method ReceiptOf(tx: Tx) returns (r: Rpc<Option<Receipt>>)
      requires Valid()
      modifies this
      ensures Valid() && Evolve(old(s), s)
      ensures r.Got? ==> (r.value.Some? <==> tx.nonce < s.served && MinedAs(s, tx))
      ensures r.Got? && r.value.Some? ==> r.value.value == s.mined[tx.nonce].receipt
    {
      r := Got(if tx.nonce < s.served && MinedAs(s, tx) then Some(s.mined[tx.nonce].receipt) else None);
    }

    method InMempool(tx: Tx) returns (r: Rpc<bool>)
      requires Valid()
      modifies this
      ensures Valid() && Evolve(old(s), s)
    {
      r := Got(tx in s.mempool);
    }
  }

  class Clock {
    var now: int

    method Now() returns (t: int)
      modifies this
      ensures t == now >= old(now)
    {
      t := now;
    }

    method Sleep(ms: int)
      modifies this
      ensures now > old(now)
    {
      now := now + 1;
    }
  }

  datatype SenderOptions = SenderOptions(
    minBaseFeeGwei: nat, pollMs: int, rebroadcastAfterMs: int, replaceAfterMs: int,
    bumpPercent: int, maxFeeCapWei: int, waitTimeoutMs: int, gasHeadroomPercent: int)

  datatype TxRequest = TxRequest(to: string, data: string, value: Option<int>, gas: Option<int>)

  predicate CarriesOut(tx: Tx, req: TxRequest) {
    && tx.Signed?
    && tx.call.to == req.to && tx.call.data == req.data
    && tx.call.value == (if req.value.Some? then req.value.value else 0)
    && (req.gas.Some? ==> tx.call.gasLimit == req.gas.value)
  }

  datatype Outcome = Outcome(job: Job, receipt: Receipt)

  datatype TakenCheck = NotTaken | Taken | CheckThrew

  datatype Replacement = Next(job: Job) | AtCap | ReplaceThrew

  datatype WaitResult = Found(outcome: Outcome) | TimedOut | TakenElsewhere | WaitThrew

  function FeesOf(tx: Tx): Fees {
    if tx.Signed? then Fees(tx.maxFee, tx.tip) else Fees(0, 0)
  }

  function FeesOfAll(js: seq<Job>): (r: seq<Fees>)
    ensures |r| == |js| && forall k :: 0 <= k < |js| ==> r[k] == FeesOf(js[k].tx)
  {
    seq(|js|, k requires 0 <= k < |js| => FeesOf(js[k].tx))
  }

  function OpenNonces(me: Key, jobs: seq<Job>): set<nat> {
    set j | j in jobs && IsOpen(me, j) :: j.tx.nonce
  }

  function StatusAfter(a: Answer): Status {
    match a
    case Accepted => Submitted
    case AlreadyKnown => Submitted
    case NonceTooLow => Dropped
    case Underpriced => Failed
    case OtherError => Failed
  }

  /** Rows only ever get patched in place: the attempts they record stay what they are. */
  ghost predicate SameAttempts(a: seq<Job>, b: seq<Job>) {
    |a| <= |b| && forall k :: 0 <= k < |a| ==> SameAttempt(a[k], b[k])
  }

  /** Rows that changed were attempts at this nonce, and none of them is open now. */
  ghost predicate OnlyClosesAt(me: Key, nonce: nat, a: seq<Job>, b: seq<Job>) {
    |a| <= |b| && forall k :: 0 <= k < |a| ==>
      b[k] == a[k] || (AtNonce(me, nonce, a[k]) && !Open(b[k].status))
  }

  predicate NoneOpenAt(me: Key, nonce: nat, jobs: seq<Job>) {
    forall j <- jobs :: AtNonce(me, nonce, j) ==> !Open(j.status)
  }

  /** Every open job of the key lies below a known cursor. */
  ghost predicate OpenBelow(me: Key, w: World) {
    w.cursor.Some? && forall j <- w.rows :: IsOpen(me, j) ==> j.tx.nonce < w.cursor.value
  }

  ghost predicate OwnRows(me: Key, minBaseFeeGwei: nat, calls: nat, jobs: seq<Job>) {
    forall j <- jobs :: Mine(me, j) ==> j.submit < calls && WellPriced(FeesOf(j.tx), minBaseFeeGwei)
  }

  lemma SameAttemptsKeepOwn(me: Key, g: nat, calls: nat, a: seq<Job>, b: seq<Job>)
    requires OwnRows(me, g, calls, a) && SameAttempts(a, b) && |a| == |b|
    ensures OwnRows(me, g, calls, b)
  {
    forall j | j in b && Mine(me, j) ensures j.submit < calls && WellPriced(FeesOf(j.tx), g) {
      var k :| 0 <= k < |b| && b[k] == j;
      assert a[k] in a;
    }
  }

  lemma OwnAdded(me: Key, g: nat, calls: nat, rows: seq<Job>, j: Job)
    requires OwnRows(me, g, calls, rows) && j.submit < calls && WellPriced(FeesOf(j.tx), g)
    ensures OwnRows(me, g, calls, rows + [j])
  {}

  datatype Attempt = Landed(job: Job) | LostNonce | AttemptThrew

  /** A try of this submit that was recorded and then beaten to its nonce. */
  predicate LostAttempt(me: Key, n: NodeState, j: Job, s: nat, req: TxRequest) {
    OfSubmit(me, j, s) && CarriesOut(j.tx, req) && j.status == Dropped && Foreclosed(n, j.tx)
  }

  /** Rows written by one submit so far: every try but the last was lost. */
  ghost predicate Tries(me: Key, n: NodeState, before: seq<Job>, jobs: seq<Job>, s: nat, req: TxRequest) {
    && before <= jobs
    && forall k :: |before| <= k < |jobs| ==>
         && OfSubmit(me, jobs[k], s) && CarriesOut(jobs[k].tx, req)
         && (k < |jobs| - 1 ==> LostAttempt(me, n, jobs[k], s, req))
  }

  ghost predicate AllLost(me: Key, n: NodeState, before: seq<Job>, jobs: seq<Job>, s: nat, req: TxRequest) {
    before <= jobs && forall k :: |before| <= k < |jobs| ==> LostAttempt(me, n, jobs[k], s, req)
  }

  /** A submit's label is new, and nothing was tried under it yet. */
  lemma FreshLabel(me: Key, g: nat, s: nat, jobs: seq<Job>, n: NodeState, req: TxRequest)
    requires OwnRows(me, g, s, jobs)
    ensures forall j <- jobs :: !OfSubmit(me, j, s)
    ensures OwnRows(me, g, s + 1, jobs)
    ensures AllLost(me, n, jobs, jobs, s, req) && Tries(me, n, jobs, jobs, s, req)
  {}

  lemma NothingTried(me: Key, n: NodeState, jobs: seq<Job>, s: nat, req: TxRequest)
    ensures AllLost(me, n, jobs, jobs, s, req)
  {}

  lemma AllForeclosed(me: Key, n: NodeState, before: seq<Job>, jobs: seq<Job>, s: nat, req: TxRequest)
    requires AllLost(me, n, before, jobs, s, req)
    requires forall j <- before :: !OfSubmit(me, j, s)
    ensures forall j <- jobs :: OfSubmit(me, j, s) ==> Foreclosed(n, j.tx)
  {
    forall k | 0 <= k < |before| ensures !OfSubmit(me, jobs[k], s) {
      assert jobs[k] == before[k] && before[k] in before;
    }
  }

  /** One more row, and whatever the node did meanwhile: lost tries stay lost. */
  lemma OneMoreTry(
    me: Key, n: NodeState, n': NodeState, before: seq<Job>, jobs: seq<Job>, jobs': seq<Job>, s: nat, req: TxRequest)
    requires AllLost(me, n, before, jobs, s, req) && n.mined <= n'.mined
    requires jobs <= jobs' && |jobs'| <= |jobs| + 1
    requires |jobs'| > |jobs| ==> OfSubmit(me, jobs'[|jobs|], s) && CarriesOut(jobs'[|jobs|].tx, req)
    ensures Tries(me, n', before, jobs', s, req)
    ensures forall k :: |before| <= k < |jobs| ==> jobs'[k].status == Dropped
    ensures |jobs'| > |jobs| && jobs'[|jobs|].status == Dropped && Foreclosed(n', jobs'[|jobs|].tx)
            ==> AllLost(me, n', before, jobs', s, req)
  {
    forall k | |before| <= k < |jobs| ensures LostAttempt(me, n', jobs'[k], s, req) {
      assert jobs'[k] == jobs[k];
    }
  }

  /** A replacement: same submit, nonce and call; both fees bumped, rounding up; the cap respected. */
  predicate Bumps(me: Key, o: SenderOptions, prior: Job, next: Job) {
    && Mine(me, prior) && Mine(me, next) && next.submit == prior.submit
    && next.tx.nonce == prior.tx.nonce && next.tx.call == prior.tx.call
    && next.tx.maxFee >= Bump(prior.tx.maxFee, o.bumpPercent)
    && next.tx.tip == Bump(prior.tx.tip, o.bumpPercent)
    && next.tx.maxFee <= o.maxFeeCapWei
  }

  /** The attempt a new row at index k took over from: the job watched, or the replacement before it. */
  function Prior(job: Job, n: nat, jobs: seq<Job>, k: nat): Job
    requires n <= k < |jobs|
  {
    if k == n then job else jobs[k - 1]
  }

  /** What watching a job has done to the table: closed attempts at its nonce, and a chain of replacements. */
  ghost predicate Watched(me: Key, o: SenderOptions, job: Job, before: seq<Job>, jobs: seq<Job>) {
    && SameAttempts(before, jobs) && OnlyClosesAt(me, job.tx.nonce, before, jobs)
    && forall k :: |before| <= k < |jobs| ==> Bumps(me, o, Prior(job, |before|, jobs, k), jobs[k])
  }

  lemma {:induction false} WatchedNonce(me: Key, o: SenderOptions, job: Job, before: seq<Job>, jobs: seq<Job>, k: nat)
    requires Watched(me, o, job, before, jobs) && |before| <= k < |jobs|
    ensures AtNonce(me, job.tx.nonce, jobs[k])
    decreases k
  {
    if k > |before| { WatchedNonce(me, o, job, before, jobs, k - 1); }
  }

  lemma WatchedPatched(me: Key, o: SenderOptions, job: Job, before: seq<Job>, jobs: seq<Job>, jobs': seq<Job>)
    requires Watched(me, o, job, before, jobs)
    requires SameAttempts(jobs, jobs') && |jobs| == |jobs'| && OnlyClosesAt(me, job.tx.nonce, jobs, jobs')
    ensures Watched(me, o, job, before, jobs')
  {
    forall k | |before| <= k < |jobs'|
      ensures Bumps(me, o, Prior(job, |before|, jobs', k), jobs'[k])
    {
      assert Bumps(me, o, Prior(job, |before|, jobs, k), jobs[k]);
      assert SameAttempt(jobs[k], jobs'[k]);
      if k > |before| { assert SameAttempt(jobs[k - 1], jobs'[k - 1]); }
    }
  }

  /** A bump over one copy of an attempt is a bump over any other. */
  lemma BumpsCopy(me: Key, o: SenderOptions, row: Job, a: Job, b: Job, next: Job)
    requires SameAttempt(row, a) && SameAttempt(row, b) && Bumps(me, o, a, next)
    ensures Bumps(me, o, b, next)
  {}

  lemma WatchedReplaced(
    me: Key, o: SenderOptions, job: Job, before: seq<Job>, jobs: seq<Job>, jobs': seq<Job>, current: Job)
    requires Watched(me, o, job, before, jobs) && |before| <= |jobs|
    requires SameAttempts(jobs, jobs') && |jobs'| == |jobs| + 1 && OnlyClosesAt(me, job.tx.nonce, jobs, jobs')
    requires SameAttempt(Newest(job, before, jobs), current)
    requires Bumps(me, o, current, jobs'[|jobs|])
    ensures Watched(me, o, job, before, jobs')
  {
    var n := |jobs|;
    SameAsItself(job);
    hide SameAttempts, OnlyClosesAt, Watched, Bumps, SameAttempt;
    PrefixPatched(me, job.tx.nonce, jobs, jobs');
    WatchedPatched(me, o, job, before, jobs, jobs'[..n]);
    if n > |before| {
      SameAttemptAt(jobs, jobs', n - 1);
      BumpsCopy(me, o, jobs[n - 1], current, jobs'[n - 1], jobs'[n]);
    } else {
      BumpsCopy(me, o, job, current, job, jobs'[n]);
    }
    WatchedAppend(me, o, job, before, jobs', n);
  }

  lemma SameAsItself(job: Job)
    ensures SameAttempt(job, job)
  {}

  lemma PrefixPatched(me: Key, nonce: nat, jobs: seq<Job>, jobs': seq<Job>)
    requires SameAttempts(jobs, jobs') && OnlyClosesAt(me, nonce, jobs, jobs')
    ensures SameAttempts(jobs, jobs'[..|jobs|]) && OnlyClosesAt(me, nonce, jobs, jobs'[..|jobs|])
  {
    hide SameAttempt, AtNonce, Open;
  }

  lemma WatchedAppend(me: Key, o: SenderOptions, job: Job, before: seq<Job>, jobs: seq<Job>, n: nat)
    requires |jobs| == n + 1 && Watched(me, o, job, before, jobs[..n]) && |before| <= n
    requires Bumps(me, o, Prior(job, |before|, jobs, n), jobs[n])
    ensures Watched(me, o, job, before, jobs)
  {
    hide Bumps, SameAttempt, AtNonce;
    var init := jobs[..n];
    forall k | |before| <= k < |jobs| ensures Bumps(me, o, Prior(job, |before|, jobs, k), jobs[k]) {
      if k < n {
        assert Bumps(me, o, Prior(job, |before|, init, k), init[k]);
        assert Prior(job, |before|, init, k) == Prior(job, |before|, jobs, k);
      }
    }
  }

  lemma NothingWatchedYet(me: Key, o: SenderOptions, job: Job, before: seq<Job>)
    ensures Watched(me, o, job, before, before)
  {}

  lemma SameAttemptAt(a: seq<Job>, b: seq<Job>, k: nat)
    requires SameAttempts(a, b) && k < |a|
    ensures SameAttempt(a[k], b[k])
  {}

  /** The newest attempt under a watched job. */
  function Newest(job: Job, before: seq<Job>, jobs: seq<Job>): Job {
    if |jobs| <= |before| then job else jobs[|jobs| - 1]
  }

  /** Where a wait stands: `current` is the newest attempt of the job it watches, recorded at row `at`. */
  ghost predicate Watching(
    me: Key, o: SenderOptions, job: Job, before: seq<Job>, jobs: seq<Job>, at: nat, current: Job) {
    && Watched(me, o, job, before, jobs) && |before| <= |jobs|
    && at < |jobs| && SameAttempt(jobs[at], current)
    && SameAttempt(Newest(job, before, jobs), current)
    && Mine(me, current) && current.tx.nonce == job.tx.nonce
  }

  lemma WatchingFacts(me: Key, o: SenderOptions, job: Job, before: seq<Job>, jobs: seq<Job>, at: nat, current: Job)
    requires Watching(me, o, job, before, jobs, at, current)
    ensures Watched(me, o, job, before, jobs) && |before| <= |jobs|
    ensures at < |jobs| && SameAttempt(jobs[at], current) && Mine(me, current) && current.tx.nonce == job.tx.nonce
    ensures SameAttempt(Newest(job, before, jobs), current)
  {
    hide Watched, SameAttempt, Mine, Newest;
  }

  lemma WatchingFold(me: Key, o: SenderOptions, job: Job, before: seq<Job>, jobs: seq<Job>, at: nat, current: Job)
    requires Watched(me, o, job, before, jobs) && |before| <= |jobs|
    requires at < |jobs| && SameAttempt(jobs[at], current) && Mine(me, current) && current.tx.nonce == job.tx.nonce
    requires SameAttempt(Newest(job, before, jobs), current)
    ensures Watching(me, o, job, before, jobs, at, current)
  {
    hide Watched, SameAttempt, Mine, Newest;
  }

  lemma WatchingStarts(me: Key, o: SenderOptions, job: Job, before: seq<Job>, i: nat)
    requires i < |before| && SameAttempt(before[i], job) && Mine(me, job)
    ensures Watching(me, o, job, before, before, i, job)
  {
    NothingWatchedYet(me, o, job, before);
  }

  lemma NewestPatched(job: Job, before: seq<Job>, jobs: seq<Job>, jobs': seq<Job>, current: Job)
    requires SameAttempts(jobs, jobs') && |jobs| == |jobs'| && SameAttempt(Newest(job, before, jobs), current)
    ensures SameAttempt(Newest(job, before, jobs'), current)
  {
    if |jobs| > |before| {
      SameAttemptAt(jobs, jobs', |jobs| - 1);
      CopiesAgree(jobs[|jobs| - 1], current, jobs'[|jobs| - 1]);
    }
    hide SameAttempts, SameAttempt;
  }

  lemma WatchingPatched(
    me: Key, o: SenderOptions, job: Job, before: seq<Job>, jobs: seq<Job>, jobs': seq<Job>, at: nat, current: Job)
    requires Watching(me, o, job, before, jobs, at, current)
    requires SameAttempts(jobs, jobs') && |jobs| == |jobs'| && OnlyClosesAt(me, job.tx.nonce, jobs, jobs')
    ensures Watching(me, o, job, before, jobs', at, current)
  {
    hide *;
    WatchingFacts(me, o, job, before, jobs, at, current);
    WatchedPatched(me, o, job, before, jobs, jobs');
    SameAttemptAt(jobs, jobs', at);
    CopiesAgree(jobs[at], current, jobs'[at]);
    NewestPatched(job, before, jobs, jobs', current);
    WatchingFold(me, o, job, before, jobs', at, current);
  }

  lemma CopiesAgree(row: Job, a: Job, b: Job)
    requires SameAttempt(row, a) && SameAttempt(row, b)
    ensures SameAttempt(b, a)
  {}

  lemma CopyAtNonce(me: Key, nonce: nat, row: Job, copy: Job)
    requires AtNonce(me, nonce, row) && SameAttempt(row, copy)
    ensures Mine(me, copy) && copy.tx.nonce == nonce
  {}

  lemma WatchingReplaced(
    me: Key, o: SenderOptions, job: Job, before: seq<Job>, jobs: seq<Job>, jobs': seq<Job>, at: nat, current: Job,
    next: Job)
    requires Watching(me, o, job, before, jobs, at, current)
    requires SameAttempts(jobs, jobs') && |jobs'| == |jobs| + 1 && OnlyClosesAt(me, job.tx.nonce, jobs, jobs')
    requires Bumps(me, o, current, jobs'[|jobs|])
    ensures Watched(me, o, job, before, jobs')
    ensures SameAttempt(jobs'[|jobs|], next) ==> Watching(me, o, job, before, jobs', |jobs|, next)
  {
    hide *;
    WatchingFacts(me, o, job, before, jobs, at, current);
    WatchedReplaced(me, o, job, before, jobs, jobs', current);
    WatchedNonce(me, o, job, before, jobs', |jobs|);
    if SameAttempt(jobs'[|jobs|], next) {
      CopyAtNonce(me, job.tx.nonce, jobs'[|jobs|], next);
      NewestAdded(job, before, jobs');
      WatchingFold(me, o, job, before, jobs', |jobs|, next);
    }
  }

  lemma NewestAdded(job: Job, before: seq<Job>, jobs: seq<Job>)
    requires |before| < |jobs|
    ensures Newest(job, before, jobs) == jobs[|jobs| - 1]
  {}

  /** The replacements of one wait are a fee chain, so their number is bounded by the cap. */
  lemma ReplacementsAreChain(me: Key, o: SenderOptions, job: Job, before: seq<Job>, jobs: seq<Job>)
    requires Watched(me, o, job, before, jobs) && Mine(me, job)
    ensures IsFeeChain([FeesOf(job.tx)] + FeesOfAll(jobs[|before|..]), o.bumpPercent, o.maxFeeCapWei)
  {
    var fs := [FeesOf(job.tx)] + FeesOfAll(jobs[|before|..]);
    forall k | 0 < k < |fs|
      ensures fs[k].maxFee >= Bump(fs[k - 1].maxFee, o.bumpPercent) && fs[k].tip == Bump(fs[k - 1].tip, o.bumpPercent)
      ensures fs[k].maxFee <= o.maxFeeCapWei
    {
      var q := |before| + k - 1;
      assert Bumps(me, o, Prior(job, |before|, jobs, q), jobs[q]);
      assert fs[k] == FeesOf(jobs[q].tx);
      if k > 1 { assert fs[k - 1] == FeesOf(jobs[q - 1].tx); }
    }
  }

  /** Whatever happens on the chain, a wait with the default options signs at most 23 replacements. */
  lemma WaitSignsAtMost23(me: Key, o: SenderOptions, job: Job, before: seq<Job>, jobs: seq<Job>)
    requires Watched(me, o, job, before, jobs) && Mine(me, job)
    requires o.bumpPercent == 15 && o.maxFeeCapWei == 1000 * GWEI && job.tx.maxFee >= MIN_MAX_FEE
    ensures |jobs| <= |before| + 23
  {
    ReplacementsAreChain(me, o, job, before, jobs);
    AtMost23ByDefault([FeesOf(job.tx)] + FeesOfAll(jobs[|before|..]));
  }

  /** Watching a job below the cursor leaves every open job below it. */
  lemma WatchedKeepsOpenBelow(me: Key, o: SenderOptions, job: Job, a: World, b: World)
    requires Watched(me, o, job, a.rows, b.rows) && a.cursor == b.cursor
    requires OpenBelow(me, a) && job.tx.nonce < a.cursor.value
    ensures OpenBelow(me, b)
  {
    forall j | j in b.rows && IsOpen(me, j) ensures j.tx.nonce < b.cursor.value {
      var k :| 0 <= k < |b.rows| && b.rows[k] == j;
      if k < |a.rows| {
        assert a.rows[k] in a.rows;
      } else {
        WatchedNonce(me, o, job, a.rows, b.rows, k);
      }
    }
  }

  predicate Settles(r: Rpc<Option<Outcome>>) {
    r.Got? && r.value.Some?
  }

  /** The outcome is recorded on its row, backed by the node, and nothing at the nonce is open any more. */
  ghost predicate SettledAt(me: Key, nonce: nat, n: NodeState, jobs: seq<Job>, out: Outcome) {
    && out.job in jobs && AtNonce(me, nonce, out.job)
    && out.job.status == (if out.receipt.success then Confirmed else Reverted)
    && out.job.receipt == Some(out.receipt)
    && MinedAs(n, out.job.tx) && n.mined[nonce].receipt == out.receipt
    && NoneOpenAt(me, nonce, jobs)
  }

  lemma InvDistinct(me: Key, w: World)
    requires Inv(me, w)
    ensures DistinctRows(w.rows)
  {}

  lemma Untouched(me: Key, nonce: nat, jobs: seq<Job>)
    ensures SameAttempts(jobs, jobs) && OnlyClosesAt(me, nonce, jobs, jobs)
  {}

  ghost predicate Recorded(jobs: seq<Job>, a: Job) {
    exists q :: 0 <= q < |jobs| && SameAttempt(jobs[q], a)
  }

  lemma AllClosed(me: Key, nonce: nat, attempts: seq<Job>, jobs: seq<Job>)
    requires forall j :: j in attempts <==> j in jobs && AtNonce(me, nonce, j)
    ensures NoneOpenAt(me, nonce, Drop(jobs, DropIds(attempts, None)))
  {
    var r := Drop(jobs, DropIds(attempts, None));
    forall j | j in r && AtNonce(me, nonce, j) ensures !Open(j.status) {
      var q :| 0 <= q < |r| && r[q] == j;
      assert jobs[q] in jobs;
      if Open(jobs[q].status) { assert jobs[q] in attempts; }
    }
  }

  lemma SettledClosed(
    me: Key, nonce: nat, attempts: seq<Job>, k: nat, before: seq<Job>, i: nat, job: Job, after: seq<Job>)
    requires DistinctRows(before)
    requires forall j :: j in attempts <==> j in before && AtNonce(me, nonce, j)
    requires k < |attempts| && i < |before| && before[i] == attempts[k]
    requires SameAttempt(before[i], job) && !Open(job.status)
    requires after == Drop(before[i := job], DropIds(attempts, Some(before[i].id)))
    ensures after[i] == job && NoneOpenAt(me, nonce, after)
    ensures SameAttempts(before, after) && |after| == |before|
    ensures OnlyClosesAt(me, nonce, before, after)
  {
    var mid := before[i := job];
    forall a | a in attempts ensures Recorded(mid, a) {
      var q :| 0 <= q < |before| && before[q] == a;
      assert SameAttempt(mid[q], a);
    }
    DropKeeps(me, nonce, attempts, Some(before[i].id), mid);
    SettledNoneOpen(me, nonce, attempts, before, i, job, after);
    hide SameAttempts, OnlyClosesAt, AtNonce, SameAttempt, Open, Drop, DropIds, NoneOpenAt;
    PatchThenDrop(me, nonce, before, i, job, mid, after);
  }

  lemma PatchThenDrop(me: Key, nonce: nat, before: seq<Job>, i: nat, job: Job, mid: seq<Job>, after: seq<Job>)
    requires i < |before| && mid == before[i := job] && AtNonce(me, nonce, before[i])
    requires SameAttempt(before[i], job) && !Open(job.status)
    requires SameAttempts(mid, after) && OnlyClosesAt(me, nonce, mid, after) && |after| == |before|
    ensures SameAttempts(before, after) && OnlyClosesAt(me, nonce, before, after)
  {
    forall q | 0 <= q < |before|
      ensures SameAttempt(before[q], after[q])
      ensures after[q] == before[q] || (AtNonce(me, nonce, before[q]) && !Open(after[q].status))
    {
      assert SameAttempt(mid[q], after[q]);
    }
  }

  lemma SettledNoneOpen(
    me: Key, nonce: nat, attempts: seq<Job>, before: seq<Job>, i: nat, job: Job, after: seq<Job>)
    requires DistinctRows(before) && i < |before|
    requires forall j :: j in attempts <==> j in before && AtNonce(me, nonce, j)
    requires SameAttempt(before[i], job) && !Open(job.status)
    requires after == Drop(before[i := job], DropIds(attempts, Some(before[i].id)))
    ensures after[i] == job && NoneOpenAt(me, nonce, after)
  {
    assert before[i].id == job.id;
    forall j | j in after && AtNonce(me, nonce, j) ensures !Open(j.status) {
      var q :| 0 <= q < |after| && after[q] == j;
      if q != i {
        assert before[q] in before && before[q].id != before[i].id;
        if Open(before[q].status) { assert before[q] in attempts; }
      }
    }
  }

  /** None of the first k attempts has a receipt to be read. */
  ghost predicate NoneServed(n: NodeState, nonce: nat, attempts: seq<Job>, k: nat) {
    k <= |attempts| && forall m :: 0 <= m < k ==> !(nonce < n.served && MinedAs(n, attempts[m].tx))
  }

  lemma NoneServedYet(n: NodeState, nonce: nat, attempts: seq<Job>)
    ensures NoneServed(n, nonce, attempts, 0)
  {}

  lemma NoneServedNext(n: NodeState, n': NodeState, nonce: nat, attempts: seq<Job>, k: nat)
    requires NoneServed(n, nonce, attempts, k) && k < |attempts| && attempts[k].tx.nonce == nonce
    requires n.mined <= n'.mined && n.served <= n'.served
    requires !(nonce < n'.served && MinedAs(n', attempts[k].tx))
    ensures NoneServed(n, nonce, attempts, k + 1)
  {}

  lemma NoneServedAny(me: Key, n: NodeState, nonce: nat, attempts: seq<Job>, jobs: seq<Job>)
    requires NoneServed(n, nonce, attempts, |attempts|)
    requires forall j :: j in attempts <==> j in jobs && AtNonce(me, nonce, j)
    ensures forall j <- jobs :: AtNonce(me, nonce, j) ==> !(nonce < n.served && MinedAs(n, j.tx))
  {
    hide AtNonce, MinedAs;
    forall j | j in jobs && AtNonce(me, nonce, j) ensures !(nonce < n.served && MinedAs(n, j.tx)) {
      assert j in attempts;
      var m :| 0 <= m < |attempts| && attempts[m] == j;
    }
  }

  lemma EvolveGrows(a: NodeState, b: NodeState)
    requires Evolve(a, b)
    ensures a.mined <= b.mined && a.served <= b.served
  {}

  // ---------------------------------------------------------------- when "taken" is right

  /**
    * What a verdict of "taken" rests on, from world a to world b: the count read passed the nonce, and at the
    * re-check, with the node at `seen` or later, no attempt on record had a receipt to be read.
    */
  ghost predicate Verdict(me: Key, nonce: nat, a: World, seen: NodeState, b: World) {
    && Evolve(a.node, seen) && Evolve(seen, b.node) && nonce < |seen.mined|
    && (forall j <- a.rows :: AtNonce(me, nonce, j) ==> !(nonce < seen.served && MinedAs(seen, j.tx)))
    && SameAttempts(a.rows, b.rows) && |a.rows| == |b.rows|
  }

  ghost predicate NoneOurs(me: Key, nonce: nat, w: World) {
    forall j <- w.rows :: AtNonce(me, nonce, j) ==> !MinedAs(w.node, j.tx)
  }

  /** One of our attempts has the nonce or may still get it, and its receipt is not served. */
  ghost predicate MayBeOurs(me: Key, nonce: nat, w: World) {
    && nonce >= w.node.served
    && exists j <- w.rows :: AtNonce(me, nonce, j)
         && (MinedAs(w.node, j.tx) || (nonce >= |w.node.mined| && j.tx in w.node.sent))
  }

  /** The verdict is right where the receipt at the nonce was served by the re-check. */
  lemma ServedVerdictRight(me: Key, nonce: nat, a: World, seen: NodeState, b: World)
    requires Verdict(me, nonce, a, seen, b) && nonce < seen.served
    ensures NoneOurs(me, nonce, b)
  {
    forall j | j in b.rows && AtNonce(me, nonce, j) ensures !MinedAs(b.node, j.tx) {
      var q :| 0 <= q < |b.rows| && b.rows[q] == j;
      assert a.rows[q] in a.rows && AtNonce(me, nonce, a.rows[q]);
    }
  }

  lemma UnsentVerdictRight(me: Key, nonce: nat, a: World, seen: NodeState, b: World)
    requires Verdict(me, nonce, a, seen, b) && nonce >= a.node.served && !MayBeOurs(me, nonce, a)
    ensures NoneOurs(me, nonce, b)
  {
    EvolveTrans(a.node, seen, b.node);
    forall j | j in b.rows && AtNonce(me, nonce, j) ensures !MinedAs(b.node, j.tx) {
      var q :| 0 <= q < |b.rows| && b.rows[q] == j;
      assert a.rows[q] in a.rows && AtNonce(me, nonce, a.rows[q]);
    }
  }

  lemma WrongVerdict(me: Key, nonce: nat, a: World) returns (seen: NodeState)
    requires NodeOk(a.node) && MayBeOurs(me, nonce, a)
    ensures Verdict(me, nonce, a, seen, a.(node := seen)) && !NoneOurs(me, nonce, a.(node := seen))
  {
    var j :| j in a.rows && AtNonce(me, nonce, j)
      && (MinedAs(a.node, j.tx) || (nonce >= |a.node.mined| && j.tx in a.node.sent));
    seen := a.node.(mined := FillTo(a.node.mined, j.tx, j.tx, nonce + 1));
    assert MinedAs(seen, j.tx);
    assert forall k :: 0 <= k < |a.rows| ==> SameAttempt(a.rows[k], a.rows[k]);
    EvolveSelf(seen);
  }

  /**
    * Exactly when "taken" can be trusted: every verdict the node allows from a world is right if and only if no
    * attempt of ours has the nonce, or may still get it, with its receipt not yet served.
    */
  lemma TakenRightIff(me: Key, nonce: nat, a: World)
    requires NodeOk(a.node)
    ensures (forall seen, b :: Verdict(me, nonce, a, seen, b) ==> NoneOurs(me, nonce, b))
            <==> !MayBeOurs(me, nonce, a)
  {
    hide Verdict, NoneOurs, MayBeOurs;
    if MayBeOurs(me, nonce, a) {
      var seen := WrongVerdict(me, nonce, a);
    } else {
      forall seen, b | Verdict(me, nonce, a, seen, b) ensures NoneOurs(me, nonce, b) {
        if nonce < a.node.served {
          VerdictGrows(me, nonce, a, seen, b);
          ServedVerdictRight(me, nonce, a, seen, b);
        } else {
          UnsentVerdictRight(me, nonce, a, seen, b);
        }
      }
    }
  }

  lemma VerdictGiven(me: Key, nonce: nat, a: World, seen: NodeState, b: World)
    requires Evolve(a.node, seen) && Evolve(seen, b.node) && nonce < |seen.mined|
    requires forall j <- a.rows :: AtNonce(me, nonce, j) ==> !(nonce < seen.served && MinedAs(seen, j.tx))
    requires SameAttempts(a.rows, b.rows) && |a.rows| == |b.rows|
    ensures Verdict(me, nonce, a, seen, b)
  {}

  lemma VerdictGrows(me: Key, nonce: nat, a: World, seen: NodeState, b: World)
    requires Verdict(me, nonce, a, seen, b)
    ensures a.node.served <= seen.served && nonce < |b.node.mined|
  {}

  /** A world reached from an empty table in which a verdict of "taken" drops the attempt that was mined. */
  lemma TakenWrong(me: Key, call: Call) returns (start: World, dropped: World)
    ensures var w := MinedUnread(me, call);
      && Initial(start) && Reaches(me, start, w) && w.rows[0].status == Pending
      && Verdict(me, 0, w, w.node, dropped)
      && dropped.rows == [w.rows[0].(status := Dropped)] && MinedAs(dropped.node, dropped.rows[0].tx)
  {
    var w := MinedUnread(me, call);
    start := MinedUnreadReached(me, call);
    dropped := w.(rows := [w.rows[0].(status := Dropped)]);
    EvolveSelf(w.node);
  }

  /** Ids of the listed attempts that are open, but for the one to be skipped. */
  function DropIds(attempts: seq<Job>, skip: Option<string>): (r: set<string>)
    ensures forall a <- attempts :: Open(a.status) && skip != Some(a.id) ==> a.id in r
    ensures forall id <- r :: skip != Some(id) && exists a :: a in attempts && a.id == id
  {
    set a | a in attempts && Open(a.status) && skip != Some(a.id) :: a.id
  }

  function Drop(jobs: seq<Job>, ids: set<string>): (r: seq<Job>)
    ensures |r| == |jobs|
    ensures forall q :: 0 <= q < |jobs| ==>
      r[q] == if jobs[q].id in ids then Patched(jobs[q], StatusOnly(Dropped)) else jobs[q]
  {
    seq(|jobs|, q requires 0 <= q < |jobs| =>
      if jobs[q].id in ids then Patched(jobs[q], StatusOnly(Dropped)) else jobs[q])
  }

  lemma DropOne(jobs: seq<Job>, ids: set<string>, q: nat)
    requires DistinctRows(jobs) && q < |jobs|
    ensures Drop(jobs, ids)[q := Patched(Drop(jobs, ids)[q], StatusOnly(Dropped))] == Drop(jobs, ids + {jobs[q].id})
  {
    var a := Drop(jobs, ids)[q := Patched(Drop(jobs, ids)[q], StatusOnly(Dropped))];
    var b := Drop(jobs, ids + {jobs[q].id});
    forall k | 0 <= k < |jobs| ensures a[k] == b[k] {
      if k != q { assert jobs[k].id != jobs[q].id; }
    }
  }

  lemma DropIdsSnoc(attempts: seq<Job>, m: nat, skip: Option<string>)
    requires m < |attempts|
    ensures DropIds(attempts[..m + 1], skip)
      == DropIds(attempts[..m], skip)
         + if Open(attempts[m].status) && skip != Some(attempts[m].id) then {attempts[m].id} else {}
  {
    assert attempts[..m + 1] == attempts[..m] + [attempts[m]];
  }

  lemma DropKeeps(me: Key, nonce: nat, attempts: seq<Job>, skip: Option<string>, jobs: seq<Job>)
    requires DistinctRows(jobs)
    requires forall a <- attempts :: AtNonce(me, nonce, a) && Recorded(jobs, a)
    ensures var r := Drop(jobs, DropIds(attempts, skip));
      SameAttempts(jobs, r) && OnlyClosesAt(me, nonce, jobs, r)
  {
    var ids := DropIds(attempts, skip);
    forall q | 0 <= q < |jobs| && !AtNonce(me, nonce, jobs[q]) ensures jobs[q].id !in ids {
      forall a | a in attempts ensures a.id != jobs[q].id {
        var p :| 0 <= p < |jobs| && SameAttempt(jobs[p], a);
        assert p != q;
      }
    }
  }

  /** Rows added closed, or below the cursor, leave every open job below a cursor that never moved back. */
  lemma OpenBelowMore(me: Key, a: World, b: World)
    requires a.cursor.Some? ==> b.cursor.Some? && a.cursor.value <= b.cursor.value
    requires a.rows <= b.rows
    requires forall k :: |a.rows| <= k < |b.rows| ==>
      !IsOpen(me, b.rows[k]) || (b.cursor.Some? && b.rows[k].tx.nonce < b.cursor.value)
    ensures OpenBelow(me, a) ==> OpenBelow(me, b)
  {
    if OpenBelow(me, a) {
      forall j | j in b.rows && IsOpen(me, j) ensures j.tx.nonce < b.cursor.value {
        var k :| 0 <= k < |b.rows| && b.rows[k] == j;
        if k < |a.rows| { assert a.rows[k] in a.rows; }
      }
    }
  }

  /** What was lost stays lost as the chain grows, so a further attempt of the submit may be written. */
  lemma RetryAllowed(me: Key, a: World, b: World, s: nat, tx: Tx)
    requires a.rows == b.rows && a.node.mined <= b.node.mined
    requires forall j <- a.rows :: OfSubmit(me, j, s) ==> Foreclosed(a.node, j.tx)
    ensures MayInsert(me, b, s, tx)
  {
    hide OfSubmit;
  }

  /** The table after a try: one row more, holding the attempt with what the node answered. */
  lemma TriedRow(me: Key, rows: seq<Job>, job: Job, s: nat, a: Answer, after: seq<Job>)
    requires OfSubmit(me, job, s)
    requires after == (rows + [job])[|rows| := Patched(job, StatusOnly(StatusAfter(a)))]
    ensures after == rows + [job.(status := StatusAfter(a))] && OfSubmit(me, after[|rows|], s)
    ensures IsOpen(me, after[|rows|]) <==> a == Accepted || a == AlreadyKnown
    ensures StatusAfter(a) == Submitted <==> a == Accepted || a == AlreadyKnown
    ensures Open(StatusAfter(a)) <==> a == Accepted || a == AlreadyKnown
    ensures a == NonceTooLow ==> StatusAfter(a) == Dropped
  {}

  lemma OpenAppended(me: Key, rows: seq<Job>, j: Job)
    requires Mine(me, j) && j.status == Submitted
    ensures OpenNonces(me, rows + [j]) == OpenNonces(me, rows) + {j.tx.nonce}
  {
    assert (rows + [j])[|rows|] == j;
    assert j in rows + [j] && IsOpen(me, j);
    forall n | n in OpenNonces(me, rows) ensures n in OpenNonces(me, rows + [j]) {}
  }

  /**
    * What a landed submit leaves: its row last and SUBMITTED, at the nonce and with the cursor of the
    * allocation, which starts from an unknown cursor after a resync and is one `SubmitOnce` without.
    */
  ghost predicate LandedAs(
    me: Key, before: seq<Job>, known: Option<nat>, rows: seq<Job>, cursor: Option<nat>, j: Job, resynced: bool,
    pending: nat)
  {
    var a := Allocate(if resynced then None else known, pending, OpenNonces(me, before));
    && |rows| > |before| && rows[|rows| - 1] == j && j.status == Submitted
    && j.tx.nonce == a.nonce && cursor == Some(CursorAfter(a))
    && (!resynced && known.Some? ==>
          Slots(cursor.value, OpenNonces(me, rows)) == SubmitOnce(Slots(known.value, OpenNonces(me, before)), pending))
  }

  lemma FirstLanded(
    me: Key, before: seq<Job>, known: Option<nat>, rows: seq<Job>, cursor: Option<nat>, j: Job, s: nat, pending: nat)
    requires |rows| == |before| + 1 && before <= rows && rows[|before|] == j
    requires OfSubmit(me, j, s) && j.status == Submitted
    requires var a := Allocate(known, pending, OpenNonces(me, before));
      j.tx.nonce == a.nonce && cursor == Some(CursorAfter(a))
    ensures LandedAs(me, before, known, rows, cursor, j, false, pending)
  {
    assert rows == before + [j];
    OpenAppended(me, before, j);
    hide OpenNonces, Allocate, CursorAfter;
  }

  lemma RetryLanded(
    me: Key, before: seq<Job>, known: Option<nat>, prior: seq<Job>, rows: seq<Job>, cursor: Option<nat>, j: Job,
    pending: nat)
    requires before <= prior && |rows| == |prior| + 1 && rows[|prior|] == j && j.status == Submitted
    requires var a := Allocate(None, pending, OpenNonces(me, prior));
      j.tx.nonce == a.nonce && cursor == Some(CursorAfter(a))
    ensures LandedAs(me, before, known, rows, cursor, j, true, pending)
  {
    AllocateUnknown(pending, OpenNonces(me, prior), OpenNonces(me, before));
    hide OpenNonces, Allocate, CursorAfter;
  }

  /** Every attempt of a submit with the call made of its request carries the request out. */
  lemma CallCarries(me: Key, s: nat, req: TxRequest, call: Call)
    requires call.to == req.to && call.data == req.data
    requires call.value == if req.value.Some? then req.value.value else 0
    requires req.gas.Some? ==> call.gasLimit == req.gas.value
    ensures forall j: Job :: OfSubmit(me, j, s) && j.tx.call == call ==> CarriesOut(j.tx, req)
  {}

  lemma ItsSubmit(me: Key, j: Job, s: nat)
    requires OfSubmit(me, j, s)
    ensures Mine(me, j) && j.submit == s
  {}

  lemma OwnRow(me: Key, g: nat, calls: nat, jobs: seq<Job>, i: nat)
    requires OwnRows(me, g, calls, jobs) && i < |jobs| && Mine(me, jobs[i])
    ensures jobs[i].submit < calls && WellPriced(FeesOf(jobs[i].tx), g)
  {
    assert jobs[i] in jobs;
  }

  lemma BumpAllowed(me: Key, w: World, i: nat, submit: nat, tx: Tx)
    requires i < |w.rows| && Mine(me, w.rows[i]) && Replaces(w.rows[i], submit, tx)
    ensures MayInsert(me, w, submit, tx)
  {
    assert w.rows[i] in w.rows;
  }

  /** The table after a replacement: the old row superseded, the new one appended with what the node answered. */
  lemma ReplacedRows(me: Key, job: Job, rows: seq<Job>, i: nat, next: Job, a: Answer, after: seq<Job>)
    requires i < |rows| && AtNonce(me, job.tx.nonce, rows[i])
    requires after == rows[i := Patched(rows[i], JobPatch(Replaced, Some(next.tx), None))]
      + [Patched(next, StatusOnly(StatusAfter(a)))]
    ensures SameAttempts(rows, after) && OnlyClosesAt(me, job.tx.nonce, rows, after)
    ensures after[|rows|] == next.(status := StatusAfter(a)) && SameAttempt(after[|rows|], next)
  {}

  lemma Bumped(me: Key, o: SenderOptions, prior: Job, next: Job, fees: Fees, baseFee: Option<int>)
    requires Mine(me, prior) && Mine(me, next) && next.submit == prior.submit
    requires next.tx.nonce == prior.tx.nonce && next.tx.call == prior.tx.call
    requires FeesOf(next.tx) == fees == BumpedFees(FeesOf(prior.tx), baseFee, o.minBaseFeeGwei, o.bumpPercent)
    requires fees.maxFee <= o.maxFeeCapWei
    ensures Bumps(me, o, prior, next)
  {}

  class TxSender {
    const me: Key
    const node: Node
    const store: TxJobTable
    const clock: Clock
    const o: SenderOptions
    var cursor: Option<nat>
    var calls: nat  // how many submits have begun; labels the rows they write

    ghost function W(): World
      reads this, node, store
    {
      World(node.s, store.jobs, cursor)
    }

    ghost predicate Valid()
      reads this, node, store
    {
      && node.Valid()
      && Inv(me, W())
      && o.bumpPercent >= 10
      && OwnRows(me, o.minBaseFeeGwei, calls, store.jobs)
    }

    /** A start or a restart: whatever the table holds, the cursor is unknown. */
    constructor (me: Key, node: Node, store: TxJobTable, clock: Clock, o: SenderOptions, calls: nat)
      requires o.bumpPercent >= 10
      requires node.Valid() && Inv(me, World(node.s, store.jobs, None))
      requires OwnRows(me, o.minBaseFeeGwei, calls, store.jobs)
      ensures Valid() && W() == World(node.s, store.jobs, None) && this.o == o
    {
      this.me, this.node, this.store, this.clock, this.o := me, node, store, clock, o;
      this.cursor, this.calls := None, calls;
    }

    /** A bump below ten percent is refused: nodes would not take the replacement. */
    static method Create(
      me: Key, node: Node, store: TxJobTable, clock: Clock, o: SenderOptions, calls: nat) returns (sender: TxSender?)
      requires node.Valid() && Inv(me, World(node.s, store.jobs, None))
      requires OwnRows(me, o.minBaseFeeGwei, calls, store.jobs)
      ensures sender == null <==> o.bumpPercent < 10
      ensures sender != null ==> sender.Valid() && sender.W() == World(node.s, store.jobs, None) && sender.o == o
    {
      hide Inv, OwnRows;
      if o.bumpPercent < 10 { return null; }
      sender := new TxSender(me, node, store, clock, o, calls);
    }

    method AllocateNonce() returns (r: Rpc<nat>, ghost pending: nat)
      requires Valid()
      modifies this`cursor, node
      ensures Valid() && Reaches(me, old(W()), W()) && old(node.s.mined) <= node.s.mined
      ensures r.Unavailable? ==> cursor == old(cursor)
      ensures r.Got? ==>
        var a := Allocate(old(cursor), pending, OpenNonces(me, store.jobs));
        r.value == a.nonce && cursor == Some(a.cursor)
    {
      ghost var w0 := W();
      ReachesSelf(me, w0);
      var p := node.PendingCount();
      Extend(me, w0, w0, NodeMoves, W());
      if p.Unavailable? { return Unavailable, 0; }
      pending := p.value;
      if cursor.None? || p.value > cursor.value {
        ghost var w1 := W();
        cursor := Some(p.value);
        Extend(me, w0, w1, Seed(p.value), W());
        return Got(p.value), p.value;
      }
      if p.value < cursor.value {
        var n := LowestFree(p.value, cursor.value);
        return Got(n), p.value;
      }
      return Got(cursor.value), p.value;
    }

    /** Scan the nonces believed in flight for the first one no open job holds. */
    method LowestFree(from: nat, upTo: nat) returns (n: nat)
      requires from <= upTo
      ensures n == LowestGap(from, upTo, OpenNonces(me, store.jobs))
    {
      var open := store.OpenJobs(me);
      var nonces := set j | j in open :: j.tx.nonce;
      assert nonces == OpenNonces(me, store.jobs);
      n := from;
      while n < upTo && n in nonces
        invariant from <= n <= upTo
        invariant forall m :: from <= m < n ==> m in nonces
      {
        n := n + 1;
      }
      ghost var g := LowestGap(from, upTo, nonces);
      assert !(g < n) && !(n < g);
    }

    /** Nothing is signed below the floor, and the row is written before the bytes exist anywhere else. */
    method SignAndPersist(tx: Tx, submit: nat) returns (r: Option<Job>)
      requires Valid() && tx.Signed? && tx.key == me && submit < calls
      requires 0 < tx.tip <= tx.maxFee
      requires MayInsert(me, W(), submit, tx)
      modifies store, clock
      ensures Valid() && Reaches(me, old(W()), W()) && clock.now >= old(clock.now)
      ensures r.None? ==> store.jobs == old(store.jobs)
      ensures r.Some? ==>
        && store.jobs == old(store.jobs) + [r.value]
        && r.value.tx == tx && r.value.submit == submit && r.value.status == Pending
    {
      ghost var w0 := W();
      InvDistinct(me, w0);
      hide Inv, Reaches, MayInsert, OwnRows;
      ReachesSelf(me, w0);
      if tx.maxFee < Floor(o.minBaseFeeGwei) { return None; }
      var now := clock.Now();
      var id: string := *;
      var job := Job(id, tx, submit, Pending, None, None, now);
      var ok := store.Insert(job);
      if !ok { return None; }
      Extend(me, w0, w0, Insert(job), W());
      OwnAdded(me, o.minBaseFeeGwei, calls, w0.rows, job);
      return Some(job);
    }

    /** Patch one recorded row; settling it takes the receipt of its own hash. */
    method PatchRow(job: Job, patch: JobPatch, ghost i: nat, ghost w0: World)
      requires Valid() && Reaches(me, w0, W())
      requires i < |store.jobs| && SameAttempt(store.jobs[i], job)
      requires Mine(me, job) && Final(patch.status) ==> job.tx.nonce < node.s.served && MinedAs(node.s, job.tx)
      modifies store
      ensures Valid() && Reaches(me, w0, W())
      ensures store.jobs == old(store.jobs)[i := Patched(old(store.jobs)[i], patch)]
    {
      ghost var w1 := W();
      InvDistinct(me, w1);
      hide Inv, Reaches, OwnRows, MinedAs;
      FindDistinct(store.jobs, i);
      var _ := store.Update(job.id, patch);
      Extend(me, w0, w1, Patch(i, Patched(w1.rows[i], patch)), W());
      SameAttemptsKeepOwn(me, o.minBaseFeeGwei, calls, w1.rows, store.jobs);
    }

    method Broadcast(job: Job, ghost i: nat) returns (a: Answer)
      requires Valid() && i < |store.jobs| && SameAttempt(store.jobs[i], job) && Mine(me, job)
      modifies node, store
      ensures Valid() && Reaches(me, old(W()), W()) && old(node.s.mined) <= node.s.mined
      ensures store.jobs == old(store.jobs)[i := Patched(old(store.jobs)[i], StatusOnly(StatusAfter(a)))]
      ensures a == NonceTooLow ==> Foreclosed(node.s, job.tx)
    {
      hide Inv, Reaches, OwnRows, Evolve;
      ghost var w0 := W();
      ReachesSelf(me, w0);
      ghost var mid: NodeState;
      a, mid := node.SendRaw(job.tx);
      Extend(me, w0, w0, Send(i), w0.(node := mid));
      Extend(me, w0, w0.(node := mid), NodeMoves, W());
      EvolveGrows(mid, node.s);
      PatchRow(job, StatusOnly(StatusAfter(a)), i, w0);
    }

    method Rebroadcast(job: Job, ghost i: nat) returns (ok: bool)
      requires Valid() && i < |store.jobs| && SameAttempt(store.jobs[i], job) && Mine(me, job)
      modifies node
      ensures Valid() && Reaches(me, old(W()), W())
    {
      ghost var w0 := W();
      ReachesSelf(me, w0);
      ghost var mid: NodeState;
      var a;
      a, mid := node.SendRaw(job.tx);
      Extend(me, w0, w0, Send(i), w0.(node := mid));
      Extend(me, w0, w0.(node := mid), NodeMoves, W());
      ok := a != OtherError;
    }

    // -------------------------------------------------------------- submit

    /** The first half of a pass: allocate, price, sign and persist. */
    method PrepareTry(call: Call, s: nat) returns (r: Option<Job>, ghost pending: nat)
      requires Valid() && s < calls
      requires forall j <- store.jobs :: OfSubmit(me, j, s) ==> Foreclosed(node.s, j.tx)
      modifies this`cursor, node, store, clock
      ensures Valid() && Reaches(me, old(W()), W()) && old(node.s.mined) <= node.s.mined
      ensures old(cursor).Some? ==> cursor.Some? && old(cursor).value <= cursor.value
      ensures r.None? ==> store.jobs == old(store.jobs)
      ensures r.Some? ==>
        && store.jobs == old(store.jobs) + [r.value]
        && OfSubmit(me, r.value, s) && r.value.tx.call == call && r.value.status == Pending
        && var a := Allocate(old(cursor), pending, old(OpenNonces(me, store.jobs)));
           r.value.tx.nonce == a.nonce && cursor == Some(a.cursor)
    {
      hide Inv, Reaches, OwnRows, Allocate, MayInsert, Evolve, Foreclosed, OpenNonces;
      ghost var w0 := W();
      var n;
      n, pending := AllocateNonce();
      if n.Unavailable? { return None, pending; }
      AllocationFacts(w0.cursor, pending, OpenNonces(me, w0.rows));
      ghost var w1 := W();
      var b := node.LatestBaseFee();
      Extend(me, w0, w1, NodeMoves, W());
      if b.Unavailable? { return None, pending; }
      var fees := InitialFees(b.value, o.minBaseFeeGwei);
      var tx := Signed(me, n.value, call, fees.maxFee, fees.tip);
      ghost var w2 := W();
      RetryAllowed(me, w0, w2, s, tx);
      r := SignAndPersist(tx, s);
      ReachesTrans(me, w0, w2, W());
    }

    /** One pass of submit's loop: prepare an attempt, broadcast it, and move the cursor past it. */
    method TryOnce(call: Call, s: nat) returns (r: Attempt, ghost pending: nat)
      requires Valid() && s < calls
      requires forall j <- store.jobs :: OfSubmit(me, j, s) ==> Foreclosed(node.s, j.tx)
      modifies this`cursor, node, store, clock
      ensures Valid() && Reaches(me, old(W()), W()) && old(node.s.mined) <= node.s.mined
      ensures old(store.jobs) <= store.jobs && |store.jobs| <= |old(store.jobs)| + 1
      ensures |store.jobs| > |old(store.jobs)| ==>
        var j := store.jobs[|old(store.jobs)|];
        && OfSubmit(me, j, s) && j.tx.call == call
        && (r.Landed? ==> r.job == j && j.status == Submitted)
        && (r.LostNonce? ==> j.status == Dropped && Foreclosed(node.s, j.tx))
        && (r.AttemptThrew? ==> !Open(j.status))
      ensures !r.AttemptThrew? ==> |store.jobs| == |old(store.jobs)| + 1
      ensures r.Landed? ==>
        var a := Allocate(old(cursor), pending, old(OpenNonces(me, store.jobs)));
        r.job.tx.nonce == a.nonce && cursor == Some(CursorAfter(a))
      ensures old(cursor).Some? ==> cursor.Some? && old(cursor).value <= cursor.value
      ensures old(OpenBelow(me, W())) ==> OpenBelow(me, W())
    {
      hide Inv, Reaches, OwnRows, Allocate, OpenBelow, Evolve, Foreclosed, OfSubmit, IsOpen, StatusAfter, OpenNonces;
      ghost var w0 := W();
      var prepared;
      prepared, pending := PrepareTry(call, s);
      if prepared.None? {
        OpenBelowMore(me, w0, W());
        return AttemptThrew, pending;
      }
      var job := prepared.value;
      ItsSubmit(me, job, s);
      ghost var w1 := W();
      var a := Broadcast(job, |w0.rows|);
      ReachesTrans(me, w0, w1, W());
      TriedRow(me, w0.rows, job, s, a, store.jobs);
      if a != Accepted && a != AlreadyKnown {
        OpenBelowMore(me, w0, W());
        return if a == NonceTooLow then LostNonce else AttemptThrew, pending;
      }
      // A gap fill sits below nonces already in flight; the cursor is never moved back.
      if cursor.None? || job.tx.nonce + 1 > cursor.value {
        ghost var w2 := W();
        cursor := Some(job.tx.nonce + 1);
        Extend(me, w0, w2, Advance(job.tx.nonce), W());
      }
      OpenBelowMore(me, w0, W());
      return Landed(job.(status := Submitted)), pending;
    }

    /**
      * Sign, persist and broadcast, at most three times. A later attempt is written only after the one
      * before it lost its nonce to another transaction, and nothing is left open on failure.
      */
    method Submit(req: TxRequest) returns (r: Option<Job>, ghost resynced: bool, ghost pending: nat)
      requires Valid()
      modifies this, node, store, clock
      ensures Valid() && Reaches(me, old(W()), W())
      ensures calls == old(calls) + 1
      ensures |store.jobs| <= |old(store.jobs)| + 3
      ensures Tries(me, node.s, old(store.jobs), store.jobs, old(calls), req)
      ensures r.Some? ==>
        && |store.jobs| > |old(store.jobs)| && store.jobs[|store.jobs| - 1] == r.value
        && r.value.status == Submitted
        // a resync forgets the cursor, so the retry seeds it from the node's count
        && var a := Allocate(if resynced then None else old(cursor), pending, old(OpenNonces(me, store.jobs)));
           r.value.tx.nonce == a.nonce && cursor == Some(CursorAfter(a))
      ensures r.Some? && !resynced && old(cursor).Some? ==>
        Slots(cursor.value, OpenNonces(me, store.jobs))
          == SubmitOnce(Slots(old(cursor).value, old(OpenNonces(me, store.jobs))), pending)
      ensures r.None? ==>
        forall k :: |old(store.jobs)| <= k < |store.jobs| ==> !Open(store.jobs[k].status)
      ensures !resynced && old(cursor).Some? ==> cursor.Some? && old(cursor).value <= cursor.value
      ensures !resynced && old(OpenBelow(me, W())) ==> OpenBelow(me, W())
    {
      hide Inv, Reaches, OwnRows, Allocate, Tries, OpenNonces, CarriesOut, OpenBelow, Evolve, SubmitOnce, CursorAfter;
      ghost var w0 := W();
      ghost var before := store.jobs;
      ReachesSelf(me, w0);
      var s := calls;
      FreshLabel(me, o.minBaseFeeGwei, s, before, node.s, req);
      calls := calls + 1;

      var value := if req.value.Some? then req.value.value else 0;
      var gasLimit;
      if req.gas.Some? {
        gasLimit := req.gas.value;
      } else {
        var g := node.EstimateGas(req.to, req.data, value);
        Extend(me, w0, w0, NodeMoves, W());
        FreshLabel(me, o.minBaseFeeGwei, s, before, node.s, req);
        OpenBelowMore(me, w0, W());
        if g.Unavailable? { return None, false, 0; }
        gasLimit := TruncDiv(g.value * o.gasHeadroomPercent, 100);
      }
      var call := Call(req.to, req.data, value, gasLimit);
      CallCarries(me, s, req, call);
      ghost var w1 := W();
      r, resynced, pending := TryThrice(call, s, req);
      ReachesTrans(me, w0, w1, W());
    }

    /** The passes of a submit: a try, and after a lost nonce a resync and another, at most twice. */
    method TryThrice(call: Call, s: nat, ghost req: TxRequest)
      returns (r: Option<Job>, ghost resynced: bool, ghost pending: nat)
      requires Valid() && s < calls
      requires forall j <- store.jobs :: !OfSubmit(me, j, s)
      requires forall j: Job :: OfSubmit(me, j, s) && j.tx.call == call ==> CarriesOut(j.tx, req)
      modifies this`cursor, node, store, clock
      ensures Valid() && Reaches(me, old(W()), W())
      ensures |store.jobs| <= |old(store.jobs)| + 3
      ensures Tries(me, node.s, old(store.jobs), store.jobs, s, req)
      ensures r.Some? ==>
        LandedAs(me, old(store.jobs), old(cursor), store.jobs, cursor, r.value, resynced, pending)
      ensures r.None? ==>
        forall k :: |old(store.jobs)| <= k < |store.jobs| ==> !Open(store.jobs[k].status)
      ensures !resynced && old(cursor).Some? ==> cursor.Some? && old(cursor).value <= cursor.value
      ensures !resynced && old(OpenBelow(me, W())) ==> OpenBelow(me, W())
    {
      hide Inv, Reaches, OwnRows, Allocate, AllLost, Tries, OpenNonces, CarriesOut, Foreclosed, OpenBelow, Evolve;
      hide OfSubmit, CursorAfter, LandedAs;
      ghost var w0 := W();
      ghost var before := store.jobs;
      ReachesSelf(me, w0);
      r, resynced, pending := None, false, 0;
      NothingTried(me, node.s, before, s, req);
      var attempt := 0;
      while true
        invariant 0 <= attempt <= 2
        invariant Valid() && Reaches(me, w0, W())
        invariant r.None? && resynced == (attempt > 0)
        invariant |store.jobs| == |before| + attempt
        invariant AllLost(me, node.s, before, store.jobs, s, req) && before <= store.jobs
        invariant if attempt == 0 then W() == w0 else cursor == None
        decreases 2 - attempt
      {
        ghost var w1 := W();
        AllForeclosed(me, node.s, before, store.jobs, s, req);
        var t;
        t, pending := TryOnce(call, s);
        ReachesTrans(me, w0, w1, W());
        OneMoreTry(me, w1.node, node.s, before, w1.rows, store.jobs, s, req);
        if t.Landed? {
          if attempt == 0 {
            FirstLanded(me, before, w0.cursor, store.jobs, cursor, t.job, s, pending);
          } else {
            RetryLanded(me, before, w0.cursor, w1.rows, store.jobs, cursor, t.job, pending);
          }
          r := Some(t.job);
          return;
        }
        if t.AttemptThrew? || attempt == 2 { return; }
        // Our view of the nonce was stale: resync from the node and try again.
        ghost var w2 := W();
        cursor := None;
        Extend(me, w0, w2, Forget, W());
        resynced := true;
        attempt := attempt + 1;
      }
    }

    // -------------------------------------------------------------- observation

    /**
      * Look for a receipt for any attempt at the nonce, oldest first and whatever its status. On a hit the
      * attempt is settled and no other attempt at the nonce is left open; otherwise nothing changes.
      */
    method FindMined(nonce: nat) returns (r: Rpc<Option<Outcome>>)
      requires Valid()
      modifies node, store
      ensures Valid() && Reaches(me, old(W()), W()) && Evolve(old(node.s), node.s)
      ensures SameAttempts(old(store.jobs), store.jobs) && |store.jobs| == |old(store.jobs)|
      ensures OnlyClosesAt(me, nonce, old(store.jobs), store.jobs)
      ensures !Settles(r) ==> store.jobs == old(store.jobs)
      ensures Settles(r) ==> SettledAt(me, nonce, node.s, store.jobs, r.value.value)
      ensures r.Got? && r.value.None? ==>
        forall j <- old(store.jobs) :: AtNonce(me, nonce, j) ==>
          !(nonce < old(node.s.served) && MinedAs(old(node.s), j.tx))
    {
      hide Inv, Reaches, OwnRows, SameAttempts, OnlyClosesAt, SettledAt, Evolve, NodeOk, NoneServed, MinedAs;
      ghost var w0 := W();
      ReachesSelf(me, w0);
      Untouched(me, nonce, w0.rows);
      var attempts := store.ByNonce(me, nonce);
      EvolveSelf(w0.node) by { assert node.Valid(); }
      assert NoneServed(w0.node, nonce, attempts, 0) by { NoneServedYet(w0.node, nonce, attempts); }
      for k := 0 to |attempts|
        invariant Valid() && Reaches(me, w0, W())
        invariant store.jobs == w0.rows && cursor == w0.cursor
        invariant Evolve(w0.node, node.s) && w0.node.mined <= node.s.mined && w0.node.served <= node.s.served
        invariant NoneServed(w0.node, nonce, attempts, k)
      {
        ghost var w1 := W();
        assert attempts[k] in attempts && AtNonce(me, nonce, attempts[k]);
        var rc := node.ReceiptOf(attempts[k].tx);
        EvolveGrows(w1.node, node.s);
        EvolveTrans(w0.node, w1.node, node.s);
        Extend(me, w0, w1, NodeMoves, W());
        if rc.Unavailable? { return Unavailable; }
        if rc.value.None? {
          NoneServedNext(w0.node, node.s, nonce, attempts, k);
          continue;
        }
        var job := Settle(attempts, k, nonce, rc.value.value, w0);
        return Got(Some(Outcome(job, rc.value.value)));
      }
      NoneServedAny(me, w0.node, nonce, attempts, w0.rows);
      return Got(None);
    }

    /** Record the receipt on the mined row and close the other open attempts at its nonce. */
    method Settle(attempts: seq<Job>, k: nat, nonce: nat, receipt: Receipt, ghost w0: World) returns (job: Job)
      requires Valid() && Reaches(me, w0, W())
      requires k < |attempts|
      requires forall j :: j in attempts <==> j in store.jobs && AtNonce(me, nonce, j)
      requires nonce < node.s.served && MinedAs(node.s, attempts[k].tx)
      requires receipt == node.s.mined[nonce].receipt
      modifies store
      ensures Valid() && Reaches(me, w0, W())
      ensures SameAttempts(old(store.jobs), store.jobs) && |store.jobs| == |old(store.jobs)|
      ensures OnlyClosesAt(me, nonce, old(store.jobs), store.jobs)
      ensures SettledAt(me, nonce, node.s, store.jobs, Outcome(job, receipt))
    {
      hide Inv, Reaches, OwnRows;
      ghost var before := store.jobs;
      InvDistinct(me, W());
      assert attempts[k] in attempts;
      ghost var i :| 0 <= i < |before| && before[i] == attempts[k];
      var patch := JobPatch(if receipt.success then Confirmed else Reverted, None, Some(receipt));
      PatchRow(attempts[k], patch, i, w0);
      job := Patched(attempts[k], patch);
      forall a | a in attempts ensures Recorded(store.jobs, a) {
        var q :| 0 <= q < |before| && before[q] == a;
        assert SameAttempt(store.jobs[q], a);
      }
      DropAttempts(attempts, nonce, Some(attempts[k].id), w0);
      SettledClosed(me, nonce, attempts, k, before, i, job, store.jobs);
    }

    /** Drop every attempt listed that is open, except the one whose id is given. */
    method DropAttempts(attempts: seq<Job>, nonce: nat, skip: Option<string>, ghost w0: World)
      requires Valid() && Reaches(me, w0, W())
      requires forall a <- attempts :: AtNonce(me, nonce, a) && Recorded(store.jobs, a)
      modifies store
      ensures Valid() && Reaches(me, w0, W())
      ensures store.jobs == Drop(old(store.jobs), DropIds(attempts, skip))
      ensures SameAttempts(old(store.jobs), store.jobs) && OnlyClosesAt(me, nonce, old(store.jobs), store.jobs)
    {
      hide Inv, Reaches, OwnRows, SameAttempts, OnlyClosesAt;
      ghost var before := store.jobs;
      InvDistinct(me, W());
      assert DropIds(attempts[..0], skip) == {};
      for m := 0 to |attempts|
        invariant Valid() && Reaches(me, w0, W())
        invariant store.jobs == Drop(before, DropIds(attempts[..m], skip))
      {
        var a := attempts[m];
        DropIdsSnoc(attempts, m, skip);
        if skip != Some(a.id) && Open(a.status) {
          assert Recorded(before, a) && Mine(me, a);
          ghost var q :| 0 <= q < |before| && SameAttempt(before[q], a);
          DropOne(before, DropIds(attempts[..m], skip), q);
          PatchRow(a, StatusOnly(Dropped), q, w0);
        }
      }
      assert attempts[..|attempts|] == attempts;
      DropKeeps(me, nonce, attempts, skip, before);
    }

    /**
      * A consumed nonce with none of our attempts mined belongs to someone else: the open attempts are
      * dropped. The verdict is right where the nonce's receipt is served by the re-check; `TakenRightIff`
      * says exactly when it can be wrong.
      */
    method AssertNonceNotTaken(nonce: nat) returns (r: TakenCheck, ghost seen: NodeState)
      requires Valid()
      modifies node, store
      ensures Valid() && Reaches(me, old(W()), W())
      ensures SameAttempts(old(store.jobs), store.jobs) && |store.jobs| == |old(store.jobs)|
      ensures OnlyClosesAt(me, nonce, old(store.jobs), store.jobs)
      ensures r.Taken? ==> NoneOpenAt(me, nonce, store.jobs) && Verdict(me, nonce, old(W()), seen, W())
      ensures r.Taken? ==> nonce < |node.s.mined| && old(node.s.served) <= seen.served
      ensures r.Taken? && nonce < seen.served ==> NoneOurs(me, nonce, W())
      ensures r.Taken? && node.prompt ==> nonce < seen.served
    {
      hide Inv, Reaches, OwnRows, SameAttempts, OnlyClosesAt, Verdict, Evolve, NoneOurs;
      Untouched(me, nonce, store.jobs);
      ghost var w0 := W();
      ReachesSelf(me, w0);
      var latest := node.LatestCount();
      seen := node.s;
      Extend(me, w0, w0, NodeMoves, W());
      if latest.Unavailable? { return CheckThrew, seen; }
      if latest.value <= nonce { return NotTaken, seen; }
      ghost var w1 := W();
      var f := FindMined(nonce);
      ReachesTrans(me, w0, w1, W());
      if f.Unavailable? { return CheckThrew, seen; }
      if f.value.Some? { return NotTaken, seen; }
      var attempts := store.ByNonce(me, nonce);
      ghost var listed := store.jobs;
      forall a | a in attempts ensures Recorded(store.jobs, a) {
        var q :| 0 <= q < |listed| && listed[q] == a;
        assert SameAttempt(store.jobs[q], a);
      }
      DropAttempts(attempts, nonce, None, w0);
      AllClosed(me, nonce, attempts, listed);
      assert Verdict(me, nonce, w0, seen, W()) by { VerdictGiven(me, nonce, w0, seen, W()); }
      VerdictGrows(me, nonce, w0, seen, W());
      if nonce < seen.served { ServedVerdictRight(me, nonce, w0, seen, W()); }
      return Taken, seen;
    }

    // -------------------------------------------------------------- replace and wait

    /** Same nonce, same call, both fees bumped; refused at the cap. */
    method Replace(job: Job, ghost i: nat) returns (r: Replacement)
      requires Valid() && i < |store.jobs| && SameAttempt(store.jobs[i], job) && Mine(me, job)
      modifies node, store, clock
      ensures Valid() && Reaches(me, old(W()), W()) && clock.now >= old(clock.now)
      ensures SameAttempts(old(store.jobs), store.jobs)
      ensures |old(store.jobs)| <= |store.jobs| <= |old(store.jobs)| + 1
      ensures OnlyClosesAt(me, job.tx.nonce, old(store.jobs), store.jobs)
      ensures r.AtCap? ==> store.jobs == old(store.jobs)
      ensures |store.jobs| > |old(store.jobs)| ==> Bumps(me, o, job, store.jobs[|old(store.jobs)|])
      ensures r.Next? ==>
        |store.jobs| == |old(store.jobs)| + 1 && SameAttempt(store.jobs[|old(store.jobs)|], r.job)
    {
      hide Inv, Reaches, OwnRows, Evolve, SameAttempts, OnlyClosesAt, Bumps, MayInsert;
      ghost var w0 := W();
      ReachesSelf(me, w0);
      OwnRow(me, o.minBaseFeeGwei, calls, store.jobs, i);
      Untouched(me, job.tx.nonce, w0.rows);
      var b := node.LatestBaseFee();
      Extend(me, w0, w0, NodeMoves, W());
      if b.Unavailable? { return ReplaceThrew; }
      var fees := BumpedFees(FeesOf(job.tx), b.value, o.minBaseFeeGwei, o.bumpPercent);
      if fees.maxFee > o.maxFeeCapWei { return AtCap; }
      var tx := Signed(me, job.tx.nonce, job.tx.call, fees.maxFee, fees.tip);
      BumpedWellPriced(FeesOf(job.tx), b.value, o.minBaseFeeGwei, o.bumpPercent);
      BumpAllowed(me, W(), i, job.submit, tx);
      ghost var w1 := W();
      var signed := SignAndPersist(tx, job.submit);
      ReachesTrans(me, w0, w1, W());
      if signed.None? { return ReplaceThrew; }
      var next := signed.value;
      ghost var n := |w0.rows|;
      PatchRow(job, JobPatch(Replaced, Some(next.tx), None), i, w0);
      ghost var w2 := W();
      var a := Broadcast(next, n);
      ReachesTrans(me, w0, w2, W());
      ReplacedRows(me, job, w0.rows, i, next, a, store.jobs);
      Bumped(me, o, job, store.jobs[n], fees, b.value);
      if a == OtherError { return ReplaceThrew; }
      return Next(next.(status := StatusAfter(a)));
    }

    /**
      * Watch a nonce until one of its attempts is mined, rebroadcasting and replacing on schedule.
      * Terminates because every round sleeps; whatever the outcome, all it wrote is a chain of
      * replacements of the job, and every step is a step of the protocol.
      */
    method Wait(job: Job, ghost i: nat) returns (r: WaitResult, ghost checked: World, ghost seen: NodeState)
      requires Valid() && i < |store.jobs| && SameAttempt(store.jobs[i], job) && Mine(me, job)
      modifies node, store, clock
      ensures Valid() && Reaches(me, old(W()), W())
      ensures Watched(me, o, job, old(store.jobs), store.jobs)
      ensures r.Found? ==> SettledAt(me, job.tx.nonce, node.s, store.jobs, r.outcome)
      ensures r.TakenElsewhere? ==>
        job.tx.nonce < |node.s.mined| && NoneOpenAt(me, job.tx.nonce, store.jobs)
      ensures r.TakenElsewhere? ==>
        Reaches(me, old(W()), checked) && Verdict(me, job.tx.nonce, checked, seen, W())
      ensures r.TakenElsewhere? && job.tx.nonce < seen.served ==> NoneOurs(me, job.tx.nonce, W())
      ensures r.TakenElsewhere? && (node.prompt || job.tx.nonce < old(node.s.served)) ==> job.tx.nonce < seen.served
    {
      hide Inv, Reaches, OwnRows, SameAttempts, OnlyClosesAt, Watched, Watching, SettledAt, Bumps, Verdict, NoneOurs;
      ghost var w0 := W();
      checked, seen := w0, node.s;
      ghost var before := store.jobs;
      ReachesSelf(me, w0);
      WatchingStarts(me, o, job, before, i);
      var started := clock.Now();
      var current, lastSubmit, lastRebroadcast := job, started, started;
      ghost var at: nat := i;
      while true
        invariant Valid() && Reaches(me, w0, W())
        invariant Watching(me, o, job, before, store.jobs, at, current)
        decreases o.waitTimeoutMs - (clock.now - started)
      {
        ghost var w1 := W();
        WatchingFacts(me, o, job, before, store.jobs, at, current);
        var mined := FindMined(current.tx.nonce);
        ReachesTrans(me, w0, w1, W());
        WatchingPatched(me, o, job, before, w1.rows, store.jobs, at, current);
        WatchingFacts(me, o, job, before, store.jobs, at, current);
        if mined.Unavailable? { return WaitThrew, checked, seen; }
        if mined.value.Some? { return Found(mined.value.value), checked, seen; }

        var now := clock.Now();
        if now - started >= o.waitTimeoutMs { return TimedOut, checked, seen; }

        if now - lastSubmit >= o.replaceAfterMs {
          ghost var w2 := W();
          var next := Replace(current, at);
          ReachesTrans(me, w0, w2, W());
          if |store.jobs| == |w2.rows| {
            WatchingPatched(me, o, job, before, w2.rows, store.jobs, at, current);
            WatchingFacts(me, o, job, before, store.jobs, at, current);
          } else {
            WatchingReplaced(me, o, job, before, w2.rows, store.jobs, at, current,
                             if next.Next? then next.job else store.jobs[|w2.rows|]);
          }
          if next.ReplaceThrew? { return WaitThrew, checked, seen; }
          if next.Next? {
            current := next.job;
            at := |store.jobs| - 1;
          } else {
            // At the fee cap: keep the transaction visible, try again next window.
            ghost var w3 := W();
            var ok := Rebroadcast(current, at);
            ReachesTrans(me, w0, w3, W());
            if !ok { return WaitThrew, checked, seen; }
          }
          lastSubmit := now;
          lastRebroadcast := now;
        } else if now - lastRebroadcast >= o.rebroadcastAfterMs {
          ghost var w2 := W();
          var check;
          check, seen := AssertNonceNotTaken(current.tx.nonce);
          checked := w2;
          ReachesGrows(me, w0, w2);
          ReachesTrans(me, w0, w2, W());
          WatchingPatched(me, o, job, before, w2.rows, store.jobs, at, current);
          WatchingFacts(me, o, job, before, store.jobs, at, current);
          if check.CheckThrew? { return WaitThrew, checked, seen; }
          if check.Taken? { return TakenElsewhere, checked, seen; }
          ghost var w3 := W();
          var known := node.InMempool(current.tx);
          Extend(me, w0, w3, NodeMoves, W());
          if known.Unavailable? { return WaitThrew, checked, seen; }
          if !known.value {
            ghost var w4 := W();
            var ok := Rebroadcast(current, at);
            ReachesTrans(me, w0, w4, W());
            if !ok { return WaitThrew, checked, seen; }
          }
          lastRebroadcast := now;
        }
        clock.Sleep(o.pollMs);
      }
    }
  }
}
