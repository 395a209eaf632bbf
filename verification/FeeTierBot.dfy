/** The fee-tier bot's tick: its gates, its candidates, and the changes it sends (client/lib/keepers/fee-tier.ts). */
module FeeTierKeeper {
  import opened Arithmetic
  import opened Sorting
  import opened FeeSchedule
  import opened FeeTiers
  import opened Wrappers

  datatype IdleReason = Paused | StatsStale | TierUndefined | LacksRole | InFlight

  datatype Outcome = Confirmed | Reverted | Preflight | Unconfirmed

  datatype Applied = Applied(change: TierChange, outcome: Outcome)

  datatype TickResult =
    | Idled(reason: IdleReason)
    | Ran(dryRun: bool, changes: seq<TierChange>, deferred: nat, applied: seq<Applied>)

  /** What the analytics tables and the indexer answer at one tick. */
  datatype Data = Data(
    statsAgeMs: Option<int>, volumes: map<Address, int>, analytics: seq<Address>, tiered: seq<Address>)

  class FeeRouter {
    var paused: bool
    var tiers: map<Address, nat>
    const defined: set<nat>

    constructor (defined: set<nat>)
      ensures this.defined == defined && !paused && tiers == map[]
    {
      this.defined, paused, tiers := defined, false, map[];
    }
  }

  function AddOnce(list: seq<Address>, more: seq<Address>): (r: seq<Address>)
    requires Distinct(list)
    ensures Distinct(r) && forall a :: a in r <==> a in list || a in more
    decreases more
  {
    if more == [] then list
    else
      var a := more[0];
      AddOnce(if a in list then list else list + [a], more[1..])
  }

  function QualifyingIn(list: seq<Address>, volumes: map<Address, int>, s: seq<TierStep>): (r: seq<Address>)
    requires s != []
    ensures forall a :: a in r <==> a in list && Qualifies(volumes, s, a)
  {
    if list == [] then []
    else (if Qualifies(volumes, s, list[0]) then [list[0]] else []) + QualifyingIn(list[1..], volumes, s)
  }

  /** The accounts whose tier the chain read returned; the others are skipped, not taken to be at tier 0. */
  function Readable(list: seq<Address>, unreadable: set<Address>): (r: seq<Address>)
    ensures forall a :: a in r <==> a in list && a !in unreadable
    ensures Distinct(list) ==> Distinct(r)
    ensures unreadable == {} ==> r == list
  {
    if list == [] then [] else (if list[0] in unreadable then [] else [list[0]]) + Readable(list[1..], unreadable)
  }

  /** Accounts the aggregator shows at or above the first threshold. */
  function Qualifying(d: Data, s: seq<TierStep>): (r: seq<Address>)
    requires s != []
    ensures forall a :: a in r <==> a in d.analytics && Qualifies(d.volumes, s, a)
  {
    QualifyingIn(d.analytics, d.volumes, s)
  }

  function Candidates(d: Data, s: seq<TierStep>): (r: seq<Address>)
    requires s != []
    ensures Distinct(r)
    ensures forall a :: a in r <==> (a in d.analytics && Qualifies(d.volumes, s, a)) || a in d.tiered
  {
    AddOnce(AddOnce([], Qualifying(d, s)), d.tiered)
  }

  /** The rows a tick diffs: candidates whose tier the chain read returned. */
  function Read(tiers: map<Address, nat>, d: Data, s: seq<TierStep>, unreadable: set<Address>): seq<Holding>
    requires s != []
  {
    Rows(tiers, Readable(Candidates(d, s), unreadable))
  }

  lemma QualifiedIsKnown(volumes: map<Address, int>, s: seq<TierStep>, a: Address)
    requires s != [] && Qualifies(volumes, s, a)
    ensures a in volumes
  {}

  /**
    * What a tick diffs is what diffing every account gives exactly when the indexer lists each tiered, unqualified
    * one.
    */
  lemma TickSeesEveryone(tiers: map<Address, nat>, d: Data, s: seq<TierStep>, all: seq<Address>)
    requires Valid(s) && Distinct(all) && forall a :: a in d.volumes <==> a in d.analytics
    requires forall a :: a in Candidates(d, s) ==> a in all
    ensures Queue(d.volumes, Read(tiers, d, s, {}), s) == Queue(d.volumes, Rows(tiers, all), s)
      <==> forall a :: a in all && TierOf(tiers, a) > 0 && !Qualifies(d.volumes, s, a) ==> a in d.tiered
  {
    var list := Candidates(d, s);
    var tiered := set a | a in d.tiered;
    assert Read(tiers, d, s, {}) == Rows(tiers, list);
    hide Queue, TierOf, Candidates, Read, Rows, Qualifies, Valid, Readable;
    assert forall a :: a in tiered <==> a in d.tiered;
    forall a | a in all ensures a in list <==> Qualifies(d.volumes, s, a) || a in tiered {
      if Qualifies(d.volumes, s, a) { QualifiedIsKnown(d.volumes, s, a); }
    }
    CandidatesSufficeIff(d.volumes, tiers, s, tiered, list, all);
  }

  lemma QueuedToTarget(tiers: map<Address, nat>, d: Data, s: seq<TierStep>, unreadable: set<Address>)
    requires s != []
    ensures forall c :: c in Queue(d.volumes, Read(tiers, d, s, unreadable), s) ==>
      c.to == TargetFor(d.volumes, s, c.account)
  {
    RowsOnce(tiers, Readable(Candidates(d, s), unreadable));
    QueueFacts(d.volumes, Read(tiers, d, s, unreadable), s);
  }

  function Landed(applied: seq<Applied>): (r: set<Address>)
    ensures forall a :: a in r <==> exists x :: x in applied && x.outcome == Confirmed && x.change.account == a
  {
    set x | x in applied && x.outcome == Confirmed :: x.change.account
  }

  /** Sends go in order and stop after the first that did not settle. */
  ghost predicate SentInOrder(changes: seq<TierChange>, applied: seq<Applied>, outcome: Address -> Outcome) {
    && |applied| <= |changes|
    && (forall i :: 0 <= i < |applied| ==> applied[i] == Applied(changes[i], outcome(changes[i].account)))
    && (forall i :: 0 <= i < |applied| - 1 ==> applied[i].outcome != Unconfirmed)
    && (|applied| < |changes| ==> |applied| > 0 && applied[|applied| - 1].outcome == Unconfirmed)
  }

  /** The tiers on chain once the landed changes of `changes` are applied. */
  ghost predicate TiersAfter(
    was: map<Address, nat>, now: map<Address, nat>, changes: seq<TierChange>, landed: set<Address>,
    volumes: map<Address, int>, s: seq<TierStep>)
  {
    forall a :: TierOf(now, a) == if Touched(changes, landed, a) then TargetFor(volumes, s, a) else TierOf(was, a)
  }

  /** Any list of accounts, read before and after, shows the tick the convergence results speak of. */
  lemma RowsAfter(was: map<Address, nat>, now: map<Address, nat>, changes: seq<TierChange>, landed: set<Address>,
                  volumes: map<Address, int>, s: seq<TierStep>, list: seq<Address>)
    requires TiersAfter(was, now, changes, landed, volumes, s)
    ensures Rows(now, list) == AfterChanges(volumes, Rows(was, list), s, changes, landed)
  {
    hide Touched, TargetFor, TierOf;
    var r, after := Rows(now, list), AfterChanges(volumes, Rows(was, list), s, changes, landed);
    forall i | 0 <= i < |list| ensures r[i] == after[i] {
      assert r[i].account == after[i].account && r[i].tier == after[i].tier;
    }
  }

  class FeeTierBot {
    const schedule: seq<TierStep>
    const max: int
    const enabled: bool
    const maxStatsAge: int
    var lastIdle: Option<IdleReason>

    constructor (schedule: seq<TierStep>, enabled: bool, max: Option<int>, maxStatsAge: Option<int>)
      ensures this.schedule == schedule && this.enabled == enabled && lastIdle == None
      ensures this.max == (if max.Some? then max.value else 20)
      ensures this.maxStatsAge == (if maxStatsAge.Some? then maxStatsAge.value else 2 * 3_600_000)
    {
      this.schedule, this.enabled, lastIdle := schedule, enabled, None;
      this.max := if max.Some? then max.value else 20;
      this.maxStatsAge := if maxStatsAge.Some? then maxStatsAge.value else 2 * 3_600_000;
    }

    /** An empty schedule is refused. */
    static method Create(
      schedule: seq<TierStep>, enabled: bool, max: Option<int>, maxStatsAge: Option<int>) returns (bot: FeeTierBot?)
      ensures bot == null <==> schedule == []
      ensures bot != null ==> bot.schedule == schedule && bot.enabled == enabled && bot.lastIdle == None
    {
      if schedule == [] { return null; }
      bot := new FeeTierBot(schedule, enabled, max, maxStatsAge);
    }

    /** Why a tick does nothing, if it does: the first gate that is shut. */
    function Gate(router: FeeRouter, d: Data, hasRole: bool, inFlight: bool): Option<IdleReason>
      reads router
    {
      if router.paused then Some(Paused)
      else if d.statsAgeMs.None? || d.statsAgeMs.value > maxStatsAge then Some(StatsStale)
      else if exists x :: x in schedule && x.tier !in router.defined then Some(TierUndefined)
      else if enabled && !hasRole then Some(LacksRole)
      else if enabled && inFlight then Some(InFlight)
      else None
    }

    method RunTick(
      router: FeeRouter, d: Data, hasRole: bool, inFlight: bool, unreadable: set<Address>, outcome: Address -> Outcome)
        returns (r: TickResult)
      requires schedule != []
      modifies this`lastIdle, router`tiers
      ensures r.Idled? <==> old(Gate(router, d, hasRole, inFlight)).Some?
      ensures r.Idled? ==>
        lastIdle == Some(r.reason) == old(Gate(router, d, hasRole, inFlight)) && router.tiers == old(router.tiers)
      ensures r.Ran? ==>
        var queue := Queue(d.volumes, Read(old(router.tiers), d, schedule, unreadable), schedule);
        && lastIdle == None && r.dryRun == !enabled
        && r.changes == TakeFirst(queue, max) && r.deferred == Max(0, |queue| - max)
        && (r.dryRun ==> r.applied == [] && router.tiers == old(router.tiers))
        && (!r.dryRun ==> SentInOrder(r.changes, r.applied, outcome))
        && (!r.dryRun ==>
              TiersAfter(old(router.tiers), router.tiers, r.changes, Landed(r.applied), d.volumes, schedule))
    {
      var gate := Gate(router, d, hasRole, inFlight);
      lastIdle := gate;
      if gate.Some? { return Idled(gate.value); }

      var onChain := Read(router.tiers, d, schedule, unreadable);
      var changes, deferred := DiffTiers(d.volumes, onChain, schedule, max);
      if !enabled { return Ran(true, changes, deferred, []); }

      QueuedToTarget(router.tiers, d, schedule, unreadable);
      var applied := Send(router, d, changes, outcome);
      r := Ran(false, changes, deferred, applied);
    }

    method Send(
      router: FeeRouter, d: Data, changes: seq<TierChange>, outcome: Address -> Outcome) returns (applied: seq<Applied>)
      requires forall c :: c in changes ==> c.to == TargetFor(d.volumes, schedule, c.account)
      modifies router`tiers
      ensures SentInOrder(changes, applied, outcome)
      ensures TiersAfter(old(router.tiers), router.tiers, changes, Landed(applied), d.volumes, schedule)
    {
      applied := [];
      var i := 0;
      while i < |changes|
        invariant i == |applied| <= |changes|
        invariant forall k :: 0 <= k < i ==> applied[k] == Applied(changes[k], outcome(changes[k].account))
        invariant forall k :: 0 <= k < i ==> applied[k].outcome != Unconfirmed
        invariant TiersAfter(old(router.tiers), router.tiers, changes, Landed(applied), d.volumes, schedule)
      {
        var c := changes[i];
        var o := outcome(c.account);
        if o == Confirmed { router.tiers := router.tiers[c.account := c.to]; }
        applied := applied + [Applied(c, o)];
        i := i + 1;
        if o == Unconfirmed { break; }
      }
    }
  }
}
