/**
  * The funding keeper's schedule: who is due, who goes first, and what time is charged
  * (client/lib/keepers/funding.ts).
  */
module Funding {
  import opened Arithmetic
  import opened Sorting

  const MAX_FUNDING_ELAPSED_SECS: int := 3600

  datatype Market = Market(id: int, active: bool, lastUpdate: nat)

  datatype SkipReason = Inactive | NotDue | SameTimestamp

  datatype Plan =
    | Update(id: int, elapsed: int, shortfallSecs: int, first: bool)
    | Skip(id: int, reason: SkipReason)

  function PlanOne(m: Market, now: int, dueAfter: int): Plan {
    if !m.active then Skip(m.id, Inactive)
    else if m.lastUpdate == 0 then Update(m.id, 0, 0, true)
    else
      var elapsed := now - m.lastUpdate;
      if elapsed <= 0 then Skip(m.id, SameTimestamp)
      else if elapsed < dueAfter then Skip(m.id, NotDue)
      else Update(m.id, elapsed, Max(0, elapsed - MAX_FUNDING_ELAPSED_SECS), false)
  }

  function PlanFunding(ms: seq<Market>, now: int, dueAfter: int): (r: seq<Plan>)
    ensures |r| == |ms| && forall i :: 0 <= i < |ms| ==> r[i] == PlanOne(ms[i], now, dueAfter)
  {
    seq(|ms|, i requires 0 <= i < |ms| => PlanOne(ms[i], now, dueAfter))
  }

  function Updates(plans: seq<Plan>): (r: seq<Plan>)
    ensures forall p :: p in r <==> p in plans && p.Update?
  {
    if plans == [] then []
    else
      var last := plans[|plans| - 1];
      Updates(plans[..|plans| - 1]) + if last.Update? then [last] else []
  }

  /** First-ever updates ahead of everything, then the most overdue. */
  predicate Sooner(a: Plan, b: Plan) {
    if a.Update? && b.Update? then if a.first == b.first then b.elapsed <= a.elapsed else a.first
    else a.Update? || !b.Update?
  }

  function OrderDue(plans: seq<Plan>): seq<Plan> {
    SortBy(Updates(plans), Sooner)
  }

  function Chosen(ms: seq<Market>, now: int, dueAfter: int, maxPerTick: int): seq<Plan> {
    TakeFirst(OrderDue(PlanFunding(ms, now, dueAfter)), maxPerTick)
  }

  predicate IsChosen(ms: seq<Market>, now: int, dueAfter: int, maxPerTick: int, id: int) {
    exists p :: p in Chosen(ms, now, dueAfter, maxPerTick) && p.id == id
  }

  // ---------------------------------------------------------------- a tick's effect

  /** A tick that ran: the chain time it read, and when each market's update landed. */
  datatype Tick = Tick(now: nat, landed: map<int, nat>)

  function Landed(m: Market, chosen: bool, t: Tick): Market {
    if chosen && m.id in t.landed then m.(lastUpdate := t.landed[m.id]) else m
  }

  function AfterTick(ms: seq<Market>, dueAfter: int, maxPerTick: int, t: Tick): (r: seq<Market>)
    ensures |r| == |ms|
    ensures forall i :: 0 <= i < |ms| ==>
      r[i] == Landed(ms[i], IsChosen(ms, t.now, dueAfter, maxPerTick, ms[i].id), t)
  {
    seq(|ms|, i requires 0 <= i < |ms| =>
      Landed(ms[i], IsChosen(ms, t.now, dueAfter, maxPerTick, ms[i].id), t))
  }

  function AfterTicks(ms: seq<Market>, dueAfter: int, maxPerTick: int, ts: seq<Tick>): (r: seq<Market>)
    ensures |r| == |ms|
  {
    if ts == [] then ms
    else AfterTick(AfterTicks(ms, dueAfter, maxPerTick, ts[..|ts| - 1]), dueAfter, maxPerTick, ts[|ts| - 1])
  }

  predicate DistinctIds(ms: seq<Market>) {
    forall i, j :: 0 <= i < j < |ms| ==> ms[i].id != ms[j].id
  }

  // ---------------------------------------------------------------- who goes first

  /** Market i is served before market j: the older last update first (0 is never), then the order of the list. */
  predicate Outranks(ms: seq<Market>, i: int, j: int)
    requires 0 <= i < |ms| && 0 <= j < |ms|
  {
    ms[i].lastUpdate < ms[j].lastUpdate || (ms[i].lastUpdate == ms[j].lastUpdate && i < j)
  }

  /** The active markets served before market x. No clock is read, so only a landed update changes it. */
  ghost function Before(ms: seq<Market>, x: nat): set<int>
    requires x < |ms|
  {
    set i | 0 <= i < |ms| && ms[i].active && Outranks(ms, i, x) :: ms[i].id
  }

  lemma SoonerTotal()
    ensures TotalPreorder(Sooner)
  {}

  lemma UpdatesOf(ms: seq<Market>, now: int, dueAfter: int, p: Plan)
    requires p in OrderDue(PlanFunding(ms, now, dueAfter))
    ensures exists i :: 0 <= i < |ms| && p == PlanOne(ms[i], now, dueAfter) && p.Update?
  {
    SortMembers(Updates(PlanFunding(ms, now, dueAfter)), Sooner);
    var plans := PlanFunding(ms, now, dueAfter);
    assert p in plans;
    var i :| 0 <= i < |plans| && plans[i] == p;
    assert p == PlanOne(ms[i], now, dueAfter);
  }

  lemma {:induction false} IdsDistinct(plans: seq<Plan>)
    requires forall i, j :: 0 <= i < j < |plans| ==> plans[i].id != plans[j].id
    ensures Distinct(Updates(plans))
  {
    if plans != [] {
      var before, last := plans[..|plans| - 1], plans[|plans| - 1];
      IdsDistinct(before);
      if last.Update? {
        forall p | p in Updates(before) ensures p != last {
          var i :| 0 <= i < |before| && before[i] == p;
          assert plans[i].id != plans[|plans| - 1].id;
        }
      }
    }
  }

  /** A plan that updates one of the markets. */
  ghost predicate DuePlan(ms: seq<Market>, now: int, dueAfter: int, p: Plan) {
    exists i :: 0 <= i < |ms| && p == PlanOne(ms[i], now, dueAfter) && p.Update?
  }

  /**
    * The due list holds the plan of each due market once and nothing else, first-ever updates first, then the longest
    * overdue.
    */
  lemma DueFacts(ms: seq<Market>, now: int, dueAfter: int)
    requires DistinctIds(ms)
    ensures var due := OrderDue(PlanFunding(ms, now, dueAfter));
      && Sorted(due, Sooner) && Distinct(due)
      && (forall p :: p in due ==> DuePlan(ms, now, dueAfter, p))
      && forall i :: 0 <= i < |ms| && PlanOne(ms[i], now, dueAfter).Update? ==> PlanOne(ms[i], now, dueAfter) in due
  {
    var plans := PlanFunding(ms, now, dueAfter);
    SoonerTotal();
    SortSorted(Updates(plans), Sooner);
    SortMembers(Updates(plans), Sooner);
    IdsDistinct(plans);
    DistinctKept(Updates(plans), Sooner);
    forall p | p in OrderDue(plans) ensures DuePlan(ms, now, dueAfter, p) { UpdatesOf(ms, now, dueAfter, p); }
    forall i | 0 <= i < |ms| && PlanOne(ms[i], now, dueAfter).Update?
      ensures PlanOne(ms[i], now, dueAfter) in OrderDue(plans)
    {
      assert plans[i] in plans;
    }
  }

  predicate OneEach(ps: seq<Plan>) {
    forall p, q :: p in ps && q in ps && p.id == q.id ==> p == q
  }

  lemma DueOnePerMarket(ms: seq<Market>, now: int, dueAfter: int)
    requires DistinctIds(ms)
    ensures OneEach(OrderDue(PlanFunding(ms, now, dueAfter)))
  {
    var due := OrderDue(PlanFunding(ms, now, dueAfter));
    hide OrderDue, PlanFunding;
    forall p, q | p in due && q in due && p.id == q.id ensures p == q {
      UpdatesOf(ms, now, dueAfter, p);
      UpdatesOf(ms, now, dueAfter, q);
    }
  }

  function IdsOf(ps: seq<Plan>): (r: set<int>)
    ensures forall id :: id in r <==> exists p :: p in ps && p.id == id
  {
    set p | p in ps :: p.id
  }

  lemma {:induction false} IdsCount(ps: seq<Plan>)
    requires Distinct(ps) && OneEach(ps)
    ensures |IdsOf(ps)| == |ps|
  {
    if ps != [] {
      var before, last := ps[..|ps| - 1], ps[|ps| - 1];
      assert ps == before + [last];
      IdsCount(before);
      forall p | p in before ensures p.id != last.id {
        var i :| 0 <= i < |before| && before[i] == p;
        assert ps[i] != ps[|ps| - 1] && ps[i] in ps && last in ps;
      }
      assert IdsOf(ps) == IdsOf(before) + {last.id};
    }
  }

  lemma {:induction false} UpdatesKeepOrder(plans: seq<Plan>, i: nat, j: nat)
    requires i < j < |plans| && plans[i].Update? && plans[j].Update?
    ensures Precedes(Updates(plans), plans[i], plans[j])
  {
    var n := |plans| - 1;
    var before := Updates(plans[..n]);
    assert Updates(plans) == before + if plans[n].Update? then [plans[n]] else [];
    if j < n {
      UpdatesKeepOrder(plans[..n], i, j);
      hide Precedes, Updates;
      if plans[n].Update? {
        PrecedesAppend(before, plans[n], plans[i], plans[j]);
      } else {
        assert Updates(plans) == before;
      }
    } else {
      assert plans[..n][i] in plans[..n];
      hide Precedes;
      PrecedesAppend(before, plans[n], plans[i], plans[j]);
    }
  }

  lemma OutrankingPlans(ms: seq<Market>, now: int, dueAfter: int, i: nat, j: nat)
    requires i < |ms| && j < |ms| && ms[i].active && Outranks(ms, i, j) && PlanOne(ms[j], now, dueAfter).Update?
    ensures PlanOne(ms[i], now, dueAfter).Update?
    ensures Sooner(PlanOne(ms[i], now, dueAfter), PlanOne(ms[j], now, dueAfter))
    ensures i > j ==> !Sooner(PlanOne(ms[j], now, dueAfter), PlanOne(ms[i], now, dueAfter))
  {}

  lemma SortedPlace(due: seq<Plan>, p: nat, q: nat)
    requires Sorted(due, Sooner) && p < |due| && q < |due| && due[p] != due[q] && !Sooner(due[q], due[p])
    ensures p < q
  {}

  /** A market that outranks a due one is due itself and stands before it in the due list. */
  lemma OutrankingGoesFirst(ms: seq<Market>, now: int, dueAfter: int, i: nat, j: nat)
    requires DistinctIds(ms) && i < |ms| && j < |ms| && ms[i].active && Outranks(ms, i, j)
    requires PlanOne(ms[j], now, dueAfter).Update?
    ensures var due := OrderDue(PlanFunding(ms, now, dueAfter));
      Precedes(due, PlanOne(ms[i], now, dueAfter), PlanOne(ms[j], now, dueAfter))
  {
    var plans := PlanFunding(ms, now, dueAfter);
    var due, a, b := OrderDue(plans), plans[i], plans[j];
    OutrankingPlans(ms, now, dueAfter, i, j);
    if i < j {
      UpdatesKeepOrder(plans, i, j);
      SortStable(Updates(plans), Sooner, a, b);
    } else {
      DueFacts(ms, now, dueAfter);
      assert a in due && b in due;
      hide OrderDue, PlanFunding, PlanOne, Sooner, Distinct;
      var p :| 0 <= p < |due| && due[p] == a;
      var q :| 0 <= q < |due| && due[q] == b;
      SortedPlace(due, p, q);
    }
  }

  lemma DistinctPlace(due: seq<Plan>, p: int, q: int)
    requires Distinct(due) && 0 <= p < |due| && 0 <= q < |due| && due[p] == due[q]
    ensures p == q
  {}

  lemma PrecedesPlace(due: seq<Plan>, p: nat, q: nat)
    requires Distinct(due) && p < |due| && q < |due| && Precedes(due, due[p], due[q])
    ensures p < q
  {
    var i, j :| 0 <= i < j < |due| && due[i] == due[p] && due[j] == due[q];
  }

  lemma PlanId(ms: seq<Market>, now: int, dueAfter: int, i: nat)
    requires i < |ms|
    ensures PlanOne(ms[i], now, dueAfter).id == ms[i].id
    ensures PlanOne(ms[i], now, dueAfter).Update? ==> ms[i].active
  {}

  /** The place k of a due market's plan in the due list: the plans before it are those of the markets before it. */
  lemma PlacedAt(ms: seq<Market>, now: int, dueAfter: int, x: nat, k: nat)
    requires DistinctIds(ms) && x < |ms| && PlanOne(ms[x], now, dueAfter).Update?
    requires var due := OrderDue(PlanFunding(ms, now, dueAfter)); k < |due| && due[k] == PlanOne(ms[x], now, dueAfter)
    ensures IdsOf(OrderDue(PlanFunding(ms, now, dueAfter))[..k]) == Before(ms, x)
  {
    var due := OrderDue(PlanFunding(ms, now, dueAfter));
    var first := due[..k];
    DueFacts(ms, now, dueAfter);
    hide OrderDue, PlanFunding, PlanOne, Sooner, Sorted, Distinct, Precedes, Outranks;
    forall id | id in Before(ms, x) ensures id in IdsOf(first) {
      var i :| 0 <= i < |ms| && ms[i].active && Outranks(ms, i, x) && ms[i].id == id;
      OutrankingGoesFirst(ms, now, dueAfter, i, x);
      var p, q := Places(due, PlanOne(ms[i], now, dueAfter), due[k]);
      DistinctPlace(due, q, k);
      assert first[p] == PlanOne(ms[i], now, dueAfter);
      PlanId(ms, now, dueAfter, i);
    }
    forall id | id in IdsOf(first) ensures id in Before(ms, x) {
      var p :| 0 <= p < |first| && first[p].id == id;
      assert due[p] in due && due[p] == first[p];
      var i :| 0 <= i < |ms| && due[p] == PlanOne(ms[i], now, dueAfter) && due[p].Update?;
      PlanId(ms, now, dueAfter, i);
      PlanId(ms, now, dueAfter, x);
      if i == x {
        DistinctPlace(due, p, k);
        assert false;
      }
      OneOutranks(ms, i, x);
      if !Outranks(ms, i, x) {
        OutrankingGoesFirst(ms, now, dueAfter, x, i);
        PrecedesPlace(due, k, p);
        assert false;
      }
    }
  }

  lemma OneOutranks(ms: seq<Market>, i: nat, j: nat)
    requires i < |ms| && j < |ms| && i != j
    ensures Outranks(ms, i, j) || Outranks(ms, j, i)
  {}

  lemma Places(due: seq<Plan>, a: Plan, b: Plan) returns (p: nat, q: nat)
    requires Precedes(due, a, b)
    ensures p < q < |due| && due[p] == a && due[q] == b
  {
    p, q :| 0 <= p < q < |due| && due[p] == a && due[q] == b;
  }

  lemma PrefixDistinct(due: seq<Plan>, k: nat)
    requires Distinct(due) && OneEach(due) && k <= |due|
    ensures Distinct(due[..k]) && OneEach(due[..k]) && |IdsOf(due[..k])| == k
  {
    forall p | p in due[..k] ensures p in due {}
    IdsCount(due[..k]);
  }

  /** A due market's place in the due list is the number of markets before it, whatever the clock reads. */
  lemma RankIsBefore(ms: seq<Market>, now: int, dueAfter: int, x: nat)
    requires DistinctIds(ms) && x < |ms| && PlanOne(ms[x], now, dueAfter).Update?
    ensures var due := OrderDue(PlanFunding(ms, now, dueAfter)); var k := |Before(ms, x)|;
      k < |due| && due[k] == PlanOne(ms[x], now, dueAfter) && IdsOf(due[..k]) == Before(ms, x)
  {
    var due := OrderDue(PlanFunding(ms, now, dueAfter));
    DueFacts(ms, now, dueAfter);
    DueOnePerMarket(ms, now, dueAfter);
    hide OrderDue, PlanFunding, PlanOne, Sooner, Sorted, Before, IdsOf, Distinct, OneEach;
    var k :| 0 <= k < |due| && due[k] == PlanOne(ms[x], now, dueAfter);
    PlacedAt(ms, now, dueAfter, x, k);
    PrefixDistinct(due, k);
  }

  /** The k-th of the list is among the first maxPerTick exactly when k is below it. */
  lemma TakenIff(due: seq<Plan>, maxPerTick: nat, k: nat)
    requires Distinct(due) && k < |due|
    ensures due[k] in TakeFirst(due, maxPerTick) <==> k < maxPerTick
    ensures k >= maxPerTick ==> TakeFirst(due, maxPerTick) == due[..k][..maxPerTick]
  {
    var taken := TakeFirst(due, maxPerTick);
    if k < maxPerTick { assert taken[k] == due[k]; }
    if due[k] in taken {
      var j :| 0 <= j < |taken| && taken[j] == due[k];
      assert due[j] == due[k];
    }
  }

  /** A market is picked exactly when it is due and fewer than maxPerTick markets are before it. */
  lemma ChosenIff(ms: seq<Market>, now: int, dueAfter: int, maxPerTick: nat, x: nat)
    requires DistinctIds(ms) && x < |ms|
    ensures IsChosen(ms, now, dueAfter, maxPerTick, ms[x].id)
            <==> PlanOne(ms[x], now, dueAfter).Update? && |Before(ms, x)| < maxPerTick
  {
    var due, chosen := OrderDue(PlanFunding(ms, now, dueAfter)), Chosen(ms, now, dueAfter, maxPerTick);
    DueFacts(ms, now, dueAfter);
    PlanId(ms, now, dueAfter, x);
    hide OrderDue, PlanFunding, PlanOne, Sooner, Sorted, Before, Distinct;
    if IsChosen(ms, now, dueAfter, maxPerTick, ms[x].id) {
      var p :| p in chosen && p.id == ms[x].id;
      assert p in due;
      var i :| 0 <= i < |ms| && p == PlanOne(ms[i], now, dueAfter) && p.Update?;
      PlanId(ms, now, dueAfter, i);
      assert i == x;
    }
    if PlanOne(ms[x], now, dueAfter).Update? {
      RankIsBefore(ms, now, dueAfter, x);
      TakenIff(due, maxPerTick, |Before(ms, x)|);
      if IsChosen(ms, now, dueAfter, maxPerTick, ms[x].id) {
        var p :| p in chosen && p.id == ms[x].id;
        DueOnePerMarket(ms, now, dueAfter);
        assert p in due && due[|Before(ms, x)|] in due;
      }
    }
  }

  // ---------------------------------------------------------------- fairness over runs

  /** The picked markets whose update landed. */
  function LandedIds(ms: seq<Market>, dueAfter: int, maxPerTick: int, t: Tick): (r: set<int>)
    ensures forall id :: id in r <==> IsChosen(ms, t.now, dueAfter, maxPerTick, id) && id in t.landed
  {
    set p | p in Chosen(ms, t.now, dueAfter, maxPerTick) && p.id in t.landed :: p.id
  }

  /** What lands, lands in a block no earlier than the one the tick read. */
  ghost predicate LandsAfter(ms: seq<Market>, dueAfter: int, maxPerTick: int, t: Tick) {
    t.now > 0 && forall id :: id in LandedIds(ms, dueAfter, maxPerTick, t) ==> t.landed[id] >= t.now
  }

  /** A due market is passed over for maxPerTick of the markets before it, and for no other. */
  lemma PassedOver(ms: seq<Market>, dueAfter: int, maxPerTick: nat, t: Tick, x: nat)
    requires DistinctIds(ms) && x < |ms| && PlanOne(ms[x], t.now, dueAfter).Update?
    requires !IsChosen(ms, t.now, dueAfter, maxPerTick, ms[x].id)
    ensures var ids := IdsOf(Chosen(ms, t.now, dueAfter, maxPerTick));
      |ids| == maxPerTick && ids <= Before(ms, x) && LandedIds(ms, dueAfter, maxPerTick, t) <= ids
  {
    var due, k := OrderDue(PlanFunding(ms, t.now, dueAfter)), |Before(ms, x)|;
    DueFacts(ms, t.now, dueAfter);
    DueOnePerMarket(ms, t.now, dueAfter);
    ChosenIff(ms, t.now, dueAfter, maxPerTick, x);
    RankIsBefore(ms, t.now, dueAfter, x);
    hide OrderDue, PlanFunding, PlanOne, Sooner, Sorted, Before, Distinct, OneEach;
    TakenIff(due, maxPerTick, k);
    assert due[..k][..maxPerTick] == due[..maxPerTick];
    PrefixDistinct(due, maxPerTick);
  }

  /** A tick that does not land x itself takes from before it exactly the picked markets that landed. */
  lemma BeforeShrinks(ms: seq<Market>, dueAfter: int, maxPerTick: int, t: Tick, x: nat)
    requires DistinctIds(ms) && x < |ms| && PlanOne(ms[x], t.now, dueAfter).Update?
    requires LandsAfter(ms, dueAfter, maxPerTick, t)
    requires ms[x].id !in LandedIds(ms, dueAfter, maxPerTick, t)
    ensures var next := AfterTick(ms, dueAfter, maxPerTick, t);
      next[x] == ms[x] && Before(next, x) == Before(ms, x) - LandedIds(ms, dueAfter, maxPerTick, t)
  {
    var next, landed := AfterTick(ms, dueAfter, maxPerTick, t), LandedIds(ms, dueAfter, maxPerTick, t);
    hide IsChosen, Chosen;
    assert ms[x].lastUpdate < t.now;
    forall i | 0 <= i < |ms|
      ensures next[i].id == ms[i].id && next[i].active == ms[i].active
      ensures if ms[i].id in landed then next[i].lastUpdate >= t.now else next[i] == ms[i]
    {}
    forall id | id in Before(next, x) ensures id in Before(ms, x) - landed {
      var i :| 0 <= i < |next| && next[i].active && Outranks(next, i, x) && next[i].id == id;
      assert ms[i].id !in landed;
    }
    forall id | id in Before(ms, x) - landed ensures id in Before(next, x) {
      var i :| 0 <= i < |ms| && ms[i].active && Outranks(ms, i, x) && ms[i].id == id;
      assert next[i] == ms[i];
    }
  }

  /** The markets as a run of ticks leaves them before its k-th tick. */
  function StateAt(ms: seq<Market>, dueAfter: int, maxPerTick: int, ts: seq<Tick>, k: nat): (r: seq<Market>)
    requires k <= |ts|
    ensures |r| == |ms|
  {
    AfterTicks(ms, dueAfter, maxPerTick, ts[..k])
  }

  lemma StateAtNext(ms: seq<Market>, dueAfter: int, maxPerTick: int, ts: seq<Tick>, k: nat)
    requires k < |ts|
    ensures StateAt(ms, dueAfter, maxPerTick, ts, k + 1)
            == AfterTick(StateAt(ms, dueAfter, maxPerTick, ts, k), dueAfter, maxPerTick, ts[k])
  {
    assert ts[..k + 1][..k] == ts[..k];
  }

  /** Ticks that read a clock which never runs back, whatever lands. */
  ghost predicate Clocked(ms: seq<Market>, dueAfter: int, maxPerTick: int, ts: seq<Tick>) {
    && (forall k :: 0 <= k < |ts| ==> LandsAfter(StateAt(ms, dueAfter, maxPerTick, ts, k), dueAfter, maxPerTick, ts[k]))
    && (forall j, k :: 0 <= j < k < |ts| ==> ts[j].now <= ts[k].now)
  }

  ghost predicate ChosenAt(ms: seq<Market>, dueAfter: int, maxPerTick: int, ts: seq<Tick>, k: nat, id: int)
    requires k < |ts|
  {
    IsChosen(StateAt(ms, dueAfter, maxPerTick, ts, k), ts[k].now, dueAfter, maxPerTick, id)
  }

  ghost predicate UnpickedFor(ms: seq<Market>, dueAfter: int, maxPerTick: int, ts: seq<Tick>, k: nat, id: int)
    requires k <= |ts|
  {
    forall j :: 0 <= j < k ==> !ChosenAt(ms, dueAfter, maxPerTick, ts, j, id)
  }

  /** How many updates the k-th tick landed. */
  ghost function LandedAt(ms: seq<Market>, dueAfter: int, maxPerTick: int, ts: seq<Tick>, k: nat): nat
    requires k < |ts|
  {
    |LandedIds(StateAt(ms, dueAfter, maxPerTick, ts, k), dueAfter, maxPerTick, ts[k])|
  }

  /** How many updates the first k ticks landed. */
  ghost function Landings(ms: seq<Market>, dueAfter: int, maxPerTick: int, ts: seq<Tick>, k: nat): (n: nat)
    requires k <= |ts|
  {
    if k == 0 then 0
    else Landings(ms, dueAfter, maxPerTick, ts, k - 1)
         + LandedAt(ms, dueAfter, maxPerTick, ts, k - 1)
  }

  lemma StillDue(m: Market, now: nat, later: nat, dueAfter: int)
    requires PlanOne(m, now, dueAfter).Update? && now <= later
    ensures PlanOne(m, later, dueAfter).Update?
  {}

  lemma SameIds(ms: seq<Market>, dueAfter: int, maxPerTick: int, t: Tick)
    requires DistinctIds(ms)
    ensures DistinctIds(AfterTick(ms, dueAfter, maxPerTick, t))
  {
    hide IsChosen;
  }

  lemma {:induction false} IdsKept(ms: seq<Market>, dueAfter: int, maxPerTick: int, ts: seq<Tick>, k: nat)
    requires DistinctIds(ms) && k <= |ts|
    ensures var now := StateAt(ms, dueAfter, maxPerTick, ts, k);
      DistinctIds(now) && forall i :: 0 <= i < |ms| ==> now[i].id == ms[i].id && now[i].active == ms[i].active
  {
    if k > 0 {
      IdsKept(ms, dueAfter, maxPerTick, ts, k - 1);
      StateAtNext(ms, dueAfter, maxPerTick, ts, k - 1);
      hide StateAt, IsChosen;
      SameIds(StateAt(ms, dueAfter, maxPerTick, ts, k - 1), dueAfter, maxPerTick, ts[k - 1]);
    }
  }

  /** While a due market waits, the markets before it go down by exactly the updates that land. */
  lemma {:induction false} WaitingCosts(ms: seq<Market>, dueAfter: int, maxPerTick: nat, ts: seq<Tick>, x: nat, k: nat)
    requires DistinctIds(ms) && x < |ms| && k <= |ts| && |ts| > 0 && Clocked(ms, dueAfter, maxPerTick, ts)
    requires PlanOne(ms[x], ts[0].now, dueAfter).Update?
    requires UnpickedFor(ms, dueAfter, maxPerTick, ts, k, ms[x].id)
    ensures var now := StateAt(ms, dueAfter, maxPerTick, ts, k);
      && now[x] == ms[x] && (k < |ts| ==> PlanOne(ms[x], ts[k].now, dueAfter).Update?)
      && |Before(now, x)| + Landings(ms, dueAfter, maxPerTick, ts, k) == |Before(ms, x)|
    decreases k
  {
    hide IsChosen, Before, LandsAfter, AfterTick, LandedIds;
    if k < |ts| {
      assert k > 0 ==> ts[0].now <= ts[k].now;
      StillDue(ms[x], ts[0].now, ts[k].now, dueAfter);
    }
    if k == 0 {
      assert ts[..0] == [];
    } else {
      var t, before := ts[k - 1], StateAt(ms, dueAfter, maxPerTick, ts, k - 1);
      WaitingCosts(ms, dueAfter, maxPerTick, ts, x, k - 1);
      IdsKept(ms, dueAfter, maxPerTick, ts, k - 1);
      StateAtNext(ms, dueAfter, maxPerTick, ts, k - 1);
      assert !ChosenAt(ms, dueAfter, maxPerTick, ts, k - 1, ms[x].id);
      hide PlanOne, StateAt, Clocked, DistinctIds, UnpickedFor;
      assert LandsAfter(before, dueAfter, maxPerTick, t);
      PassedOver(before, dueAfter, maxPerTick, t, x);
      BeforeShrinks(before, dueAfter, maxPerTick, t, x);
    }
  }

  lemma UnpickedNext(ms: seq<Market>, dueAfter: int, maxPerTick: int, ts: seq<Tick>, k: nat, id: int)
    requires k < |ts|
    ensures UnpickedFor(ms, dueAfter, maxPerTick, ts, k + 1, id)
            <==> UnpickedFor(ms, dueAfter, maxPerTick, ts, k, id)
                 && !IsChosen(StateAt(ms, dueAfter, maxPerTick, ts, k), ts[k].now, dueAfter, maxPerTick, id)
  {
    hide StateAt, IsChosen;
    assert ChosenAt(ms, dueAfter, maxPerTick, ts, k, id)
      <==> IsChosen(StateAt(ms, dueAfter, maxPerTick, ts, k), ts[k].now, dueAfter, maxPerTick, id);
  }

  lemma LandingsNext(ms: seq<Market>, dueAfter: int, maxPerTick: int, ts: seq<Tick>, k: nat)
    requires k < |ts|
    ensures Landings(ms, dueAfter, maxPerTick, ts, k + 1)
            == Landings(ms, dueAfter, maxPerTick, ts, k) + LandedAt(ms, dueAfter, maxPerTick, ts, k)
  {}

  lemma LandingsNone(ms: seq<Market>, dueAfter: int, maxPerTick: int, ts: seq<Tick>)
    ensures Landings(ms, dueAfter, maxPerTick, ts, 0) == 0
  {}

  lemma {:induction false} LandingsGrow(ms: seq<Market>, dueAfter: int, maxPerTick: int, ts: seq<Tick>, j: nat, k: nat)
    requires j <= k <= |ts|
    ensures Landings(ms, dueAfter, maxPerTick, ts, j) <= Landings(ms, dueAfter, maxPerTick, ts, k)
  {
    hide *;
    if j < k {
      LandingsGrow(ms, dueAfter, maxPerTick, ts, j, k - 1);
      LandingsNext(ms, dueAfter, maxPerTick, ts, k - 1);
    }
  }

  /**
    * Exactly how long a due market waits, whatever lands: it is still unpicked after k ticks if and only if
    * the markets before it were maxPerTick more than all the updates landed by the first k - 1.
    */
  lemma {:induction false} WaitsExactly(ms: seq<Market>, dueAfter: int, maxPerTick: nat, ts: seq<Tick>, x: nat, k: nat)
    requires DistinctIds(ms) && x < |ms| && 0 < k <= |ts| && Clocked(ms, dueAfter, maxPerTick, ts)
    requires PlanOne(ms[x], ts[0].now, dueAfter).Update?
    ensures UnpickedFor(ms, dueAfter, maxPerTick, ts, k, ms[x].id)
            <==> |Before(ms, x)| >= maxPerTick + Landings(ms, dueAfter, maxPerTick, ts, k - 1)
  {
    assert UnpickedFor(ms, dueAfter, maxPerTick, ts, 0, ms[x].id);
    hide PlanOne, Before, Clocked, StateAt, IsChosen, DistinctIds, UnpickedFor, Landings;
    if k > 1 {
      WaitsExactly(ms, dueAfter, maxPerTick, ts, x, k - 1);
      LandingsGrow(ms, dueAfter, maxPerTick, ts, k - 2, k - 1);
    }
    UnpickedNext(ms, dueAfter, maxPerTick, ts, k - 1, ms[x].id);
    if UnpickedFor(ms, dueAfter, maxPerTick, ts, k - 1, ms[x].id) {
      WaitingCosts(ms, dueAfter, maxPerTick, ts, x, k - 1);
      IdsKept(ms, dueAfter, maxPerTick, ts, k - 1);
      ChosenIff(StateAt(ms, dueAfter, maxPerTick, ts, k - 1), ts[k - 1].now, dueAfter, maxPerTick, x);
    }
  }

  // ---------------------------------------------------------------- when updates confirm, and when they do not

  function IdSet(ms: seq<Market>): set<int> {
    if ms == [] then {} else IdSet(ms[..|ms| - 1]) + {ms[|ms| - 1].id}
  }

  lemma {:induction false} IdSetFacts(ms: seq<Market>)
    ensures |IdSet(ms)| <= |ms|
    ensures forall m :: m in ms ==> m.id in IdSet(ms)
  {
    if ms != [] { IdSetFacts(ms[..|ms| - 1]); }
  }

  lemma BeforeBound(ms: seq<Market>, x: nat)
    requires x < |ms|
    ensures |Before(ms, x)| <= |ms| - 1
  {
    var others := ms[..x] + ms[x + 1..];
    IdSetFacts(others);
    forall id | id in Before(ms, x) ensures id in IdSet(others) {
      var i :| 0 <= i < |ms| && ms[i].active && Outranks(ms, i, x) && ms[i].id == id;
      assert others[if i < x then i else i - 1] == ms[i];
    }
    SubsetSize(Before(ms, x), IdSet(others));
  }

  /** Every update picked lands. */
  ghost predicate AllLand(ms: seq<Market>, dueAfter: int, maxPerTick: int, ts: seq<Tick>) {
    forall k, id :: 0 <= k < |ts| && ChosenAt(ms, dueAfter, maxPerTick, ts, k, id) ==> id in ts[k].landed
  }

  /** With every update confirmed, each tick a due market waits lands maxPerTick of those before it. */
  lemma {:induction false} ConfirmedLandings(
    ms: seq<Market>, dueAfter: int, maxPerTick: nat, ts: seq<Tick>, x: nat, k: nat)
    requires DistinctIds(ms) && x < |ms| && k <= |ts| && |ts| > 0
    requires Clocked(ms, dueAfter, maxPerTick, ts) && AllLand(ms, dueAfter, maxPerTick, ts)
    requires PlanOne(ms[x], ts[0].now, dueAfter).Update?
    requires UnpickedFor(ms, dueAfter, maxPerTick, ts, k, ms[x].id)
    ensures Landings(ms, dueAfter, maxPerTick, ts, k) == k * maxPerTick
    decreases k
  {
    hide PlanOne, Before, Clocked, StateAt, DistinctIds, Chosen;
    if k > 0 {
      ConfirmedLandings(ms, dueAfter, maxPerTick, ts, x, k - 1);
      WaitingCosts(ms, dueAfter, maxPerTick, ts, x, k - 1);
      IdsKept(ms, dueAfter, maxPerTick, ts, k - 1);
      var before, t := StateAt(ms, dueAfter, maxPerTick, ts, k - 1), ts[k - 1];
      assert !ChosenAt(ms, dueAfter, maxPerTick, ts, k - 1, ms[x].id);
      PassedOver(before, dueAfter, maxPerTick, t, x);
      forall id | IsChosen(before, t.now, dueAfter, maxPerTick, id) ensures id in t.landed {
        assert ChosenAt(ms, dueAfter, maxPerTick, ts, k - 1, id);
      }
      assert LandedIds(before, dueAfter, maxPerTick, t) == IdsOf(Chosen(before, t.now, dueAfter, maxPerTick));
      assert (k - 1) * maxPerTick + maxPerTick == k * maxPerTick;
    }
  }

  /** With every update confirmed a due market is updated within ceil(n / maxPerTick) ticks. */
  lemma DueMarketChosenSoon(ms: seq<Market>, dueAfter: int, maxPerTick: nat, ts: seq<Tick>, x: nat)
    requires DistinctIds(ms) && x < |ms| && maxPerTick > 0
    requires Clocked(ms, dueAfter, maxPerTick, ts) && AllLand(ms, dueAfter, maxPerTick, ts)
    requires |ts| == (|ms| + maxPerTick - 1) / maxPerTick
    requires |ts| > 0 ==> PlanOne(ms[x], ts[0].now, dueAfter).Update?
    ensures exists k :: 0 <= k < |ts| && ChosenAt(ms, dueAfter, maxPerTick, ts, k, ms[x].id)
  {
    hide ChosenAt, Clocked, AllLand, Before, PlanOne, DistinctIds;
    DivBounds(|ms| + maxPerTick - 1, maxPerTick);
    assert (|ts| + 1) * maxPerTick == |ts| * maxPerTick + maxPerTick;
    assert |ts| * maxPerTick >= |ms| && |ts| > 0;
    if UnpickedFor(ms, dueAfter, maxPerTick, ts, |ts|, ms[x].id) {
      WaitingCosts(ms, dueAfter, maxPerTick, ts, x, |ts|);
      ConfirmedLandings(ms, dueAfter, maxPerTick, ts, x, |ts|);
      BeforeBound(ms, x);
      assert false;
    }
  }

  lemma {:induction false} NoLandings(ms: seq<Market>, dueAfter: int, maxPerTick: int, ts: seq<Tick>, k: nat)
    requires k <= |ts|
    requires forall j :: 0 <= j < k ==>
      LandedIds(StateAt(ms, dueAfter, maxPerTick, ts, j), dueAfter, maxPerTick, ts[j]) == {}
    ensures Landings(ms, dueAfter, maxPerTick, ts, k) == 0
  {
    if k > 0 { NoLandings(ms, dueAfter, maxPerTick, ts, k - 1); }
  }

  /** Where no picked update lands, a due market is never picked exactly when maxPerTick markets are before it. */
  lemma StarvesIff(ms: seq<Market>, dueAfter: int, maxPerTick: nat, ts: seq<Tick>, x: nat)
    requires DistinctIds(ms) && x < |ms| && |ts| > 0 && Clocked(ms, dueAfter, maxPerTick, ts)
    requires PlanOne(ms[x], ts[0].now, dueAfter).Update?
    requires forall j :: 0 <= j < |ts| ==>
      LandedIds(StateAt(ms, dueAfter, maxPerTick, ts, j), dueAfter, maxPerTick, ts[j]) == {}
    ensures UnpickedFor(ms, dueAfter, maxPerTick, ts, |ts|, ms[x].id) <==> |Before(ms, x)| >= maxPerTick
  {
    hide LandedIds, StateAt, PlanOne, Clocked, DistinctIds, Before, UnpickedFor, Landings;
    WaitsExactly(ms, dueAfter, maxPerTick, ts, x, |ts|);
    NoLandings(ms, dueAfter, maxPerTick, ts, |ts| - 1);
  }

  /**
    * Confirmation is needed: one market whose update keeps failing at the head of the queue, with one
    * update a tick, is chosen at every tick and the other never is.
    */
  lemma FailingMarketStarves(now: nat, dueAfter: int)
    requires 0 < dueAfter && now >= dueAfter + 2
    ensures var ms := [Market(1, true, 1), Market(2, true, 2)];
      IsChosen(ms, now, dueAfter, 1, 1) && !IsChosen(ms, now, dueAfter, 1, 2)
      && AfterTick(ms, dueAfter, 1, Tick(now, map[])) == ms
  {
    var ms := [Market(1, true, 1), Market(2, true, 2)];
    var plans := PlanFunding(ms, now, dueAfter);
    var a, b := PlanOne(ms[0], now, dueAfter), PlanOne(ms[1], now, dueAfter);
    assert plans == [a, b];
    assert plans[..1] == [a] && [a][..0] == [];
    assert Updates([a]) == [a] && Updates(plans) == [a, b];
    assert [a, b][1..] == [b] && [b][1..] == [];
    assert SortBy([b], Sooner) == [b];
    assert SortBy([a, b], Sooner) == [a, b];
    assert Chosen(ms, now, dueAfter, 1) == [a];
    assert a in [a];
  }

  // ---------------------------------------------------------------- the keeper's tick

  datatype TickStatus = Paused | NotKeeper | InFlight | Idle | Ran

  /** The engine's funding state, as the keeper reads it and its updates change it. */
  class Engine {
    var markets: seq<Market>
    var paused: bool
    var hasRole: bool

    constructor (ms: seq<Market>)
      ensures markets == ms && !paused && hasRole
    {
      markets, paused, hasRole := ms, false, true;
    }

    /** An update that lands at `at` restarts its market's clock there. */
    method Land(id: int, at: nat)
      modifies this`markets
      ensures |markets| == old(|markets|)
      ensures forall i :: 0 <= i < |markets| ==>
        markets[i] == if old(markets[i].id) == id then old(markets[i]).(lastUpdate := at) else old(markets[i])
    {
      var was := markets;
      markets := seq(|was|, i requires 0 <= i < |was| =>
        if was[i].id == id then was[i].(lastUpdate := at) else was[i]);
    }
  }

  predicate Picked(due: seq<Plan>, id: int) {
    exists p :: p in due && p.id == id
  }

  lemma PickedMore(due: seq<Plan>, k: nat, id: int)
    requires k < |due|
    ensures Picked(due[..k + 1], id) <==> Picked(due[..k], id) || due[k].id == id
  {
    assert due[..k + 1] == due[..k] + [due[k]];
    assert due[k] in due[..k + 1];
  }

  class FundingKeeper {
    const dueAfterSecs: int
    const maxPerTick: int

    constructor (dueAfterSecs: int, maxPerTick: int)
      ensures this.dueAfterSecs == dueAfterSecs && this.maxPerTick == maxPerTick
    {
      this.dueAfterSecs, this.maxPerTick := dueAfterSecs, maxPerTick;
    }

    /** A schedule that would lose time on every update is refused: no keeper is made. */
    static method Create(dueAfterSecs: int, maxPerTick: int) returns (keeper: FundingKeeper?)
      ensures keeper != null <==> dueAfterSecs < MAX_FUNDING_ELAPSED_SECS
      ensures keeper != null ==> keeper.dueAfterSecs == dueAfterSecs && keeper.maxPerTick == maxPerTick
    {
      if dueAfterSecs >= MAX_FUNDING_ELAPSED_SECS { return null; }
      keeper := new FundingKeeper(dueAfterSecs, maxPerTick);
    }

    /** One tick at chain time `t.now`; `t.landed` says which updates confirm, and when. */
    method RunTick(engine: Engine, inFlight: bool, t: Tick) returns (status: TickStatus, results: map<int, bool>)
      modifies engine`markets
      ensures status == if engine.paused then Paused else if !engine.hasRole then NotKeeper
        else if inFlight then InFlight
        else if Chosen(old(engine.markets), t.now, dueAfterSecs, maxPerTick) == [] then Idle else Ran
      ensures status != Ran ==> engine.markets == old(engine.markets) && results == map[]
      ensures status == Ran ==> engine.markets == AfterTick(old(engine.markets), dueAfterSecs, maxPerTick, t)
      ensures status == Ran ==>
        forall id :: id in results <==> IsChosen(old(engine.markets), t.now, dueAfterSecs, maxPerTick, id)
      ensures forall id :: id in results ==> results[id] == (id in t.landed)
    {
      results := map[];
      if engine.paused { return Paused, results; }
      if !engine.hasRole { return NotKeeper, results; }
      if inFlight { return InFlight, results; }
      var was := engine.markets;
      var due := TakeFirst(OrderDue(PlanFunding(was, t.now, dueAfterSecs)), maxPerTick);
      if |due| == 0 { return Idle, results; }
      hide OrderDue;
      for k := 0 to |due|
        invariant |engine.markets| == |was|
        invariant forall i :: 0 <= i < |was| ==> engine.markets[i] == Landed(was[i], Picked(due[..k], was[i].id), t)
        invariant forall id :: id in results <==> Picked(due[..k], id)
        invariant forall id :: id in results ==> results[id] == (id in t.landed)
      {
        var id := due[k].id;
        forall other { PickedMore(due, k, other); }
        if id in t.landed { engine.Land(id, t.landed[id]); }
        results := results[id := id in t.landed];
      }
      assert due[..|due|] == due;
      assert engine.markets == AfterTick(was, dueAfterSecs, maxPerTick, t);
      status := Ran;
    }
  }

  // ---------------------------------------------------------------- charged time

  /**
    * One market's books: seconds the engine charged, seconds its hourly cap lost, seconds the keeper
    * reported lost, those it reported for updates that never landed, and seconds updates took to land.
    */
  datatype Books = Books(charged: int, lost: int, reported: int, unlanded: int, delays: int)

  /** A tick in the market's books: an attempt is reported whatever comes of it, and charged where it lands. */
  function Visit(b: Books, m: Market, chosen: bool, dueAfter: int, t: Tick): Books {
    var plan := PlanOne(m, t.now, dueAfter);
    if !chosen || plan.Skip? then b
    else if m.id !in t.landed then
      b.(reported := b.reported + plan.shortfallSecs, unlanded := b.unlanded + plan.shortfallSecs)
    else if plan.first then b
    else
      var elapsed := t.landed[m.id] - m.lastUpdate;
      Books(b.charged + Min(elapsed, MAX_FUNDING_ELAPSED_SECS), b.lost + Max(0, elapsed - MAX_FUNDING_ELAPSED_SECS),
            b.reported + plan.shortfallSecs, b.unlanded, b.delays + t.landed[m.id] - t.now)
  }

  /** Market x's books after the first k ticks of the run, picked and landed as the run has it. */
  ghost function BooksAt(ms: seq<Market>, dueAfter: int, maxPerTick: int, ts: seq<Tick>, x: nat, k: nat): Books
    requires x < |ms| && k <= |ts|
  {
    if k == 0 then Books(0, 0, 0, 0, 0)
    else
      Visit(BooksAt(ms, dueAfter, maxPerTick, ts, x, k - 1), StateAt(ms, dueAfter, maxPerTick, ts, k - 1)[x],
            ChosenAt(ms, dueAfter, maxPerTick, ts, k - 1, ms[x].id), dueAfter, ts[k - 1])
  }

  /** What a tick does to one market whose clock runs: nothing, a report, or a restart of the clock where it landed. */
  lemma VisitFacts(b: Books, m: Market, chosen: bool, dueAfter: int, t: Tick)
    requires m.lastUpdate > 0 && (chosen ==> PlanOne(m, t.now, dueAfter).Update?)
    requires chosen && m.id in t.landed ==> t.landed[m.id] >= t.now
    ensures var e, next := Visit(b, m, chosen, dueAfter, t), Landed(m, chosen, t);
      && next.lastUpdate >= m.lastUpdate
      && (e.charged - b.charged) + (e.lost - b.lost) == next.lastUpdate - m.lastUpdate
      && 0 <= (e.reported - b.reported) - (e.unlanded - b.unlanded) <= e.lost - b.lost
      && e.lost - b.lost <= (e.reported - b.reported) - (e.unlanded - b.unlanded) + (e.delays - b.delays)
  {}

  lemma ChosenLanded(ms: seq<Market>, dueAfter: int, maxPerTick: nat, t: Tick, x: nat)
    requires DistinctIds(ms) && x < |ms| && LandsAfter(ms, dueAfter, maxPerTick, t)
    requires IsChosen(ms, t.now, dueAfter, maxPerTick, ms[x].id)
    ensures PlanOne(ms[x], t.now, dueAfter).Update?
    ensures ms[x].id in t.landed ==> t.landed[ms[x].id] >= t.now
  {
    ChosenIff(ms, t.now, dueAfter, maxPerTick, x);
    hide IsChosen, PlanOne, Before;
    assert ms[x].id in t.landed ==> ms[x].id in LandedIds(ms, dueAfter, maxPerTick, t);
  }

  /** One tick of a run, seen from market x. */
  lemma TickForOne(ms: seq<Market>, dueAfter: int, maxPerTick: nat, ts: seq<Tick>, x: nat, k: nat)
    requires DistinctIds(ms) && x < |ms| && k < |ts| && Clocked(ms, dueAfter, maxPerTick, ts)
    ensures var m := StateAt(ms, dueAfter, maxPerTick, ts, k)[x];
      var chosen := ChosenAt(ms, dueAfter, maxPerTick, ts, k, ms[x].id);
      && DistinctIds(StateAt(ms, dueAfter, maxPerTick, ts, k)) && m.id == ms[x].id && m.active == ms[x].active
      && StateAt(ms, dueAfter, maxPerTick, ts, k + 1)[x] == Landed(m, chosen, ts[k])
      && ts[k].now > 0
      && (chosen ==> PlanOne(m, ts[k].now, dueAfter).Update?)
      && (chosen && m.id in ts[k].landed ==> ts[k].landed[m.id] >= ts[k].now)
  {
    IdsKept(ms, dueAfter, maxPerTick, ts, k);
    StateAtNext(ms, dueAfter, maxPerTick, ts, k);
    hide StateAt, IsChosen, PlanOne, DistinctIds;
    var was := StateAt(ms, dueAfter, maxPerTick, ts, k);
    assert LandsAfter(was, dueAfter, maxPerTick, ts[k]);
    if ChosenAt(ms, dueAfter, maxPerTick, ts, k, ms[x].id) {
      ChosenLanded(was, dueAfter, maxPerTick, ts[k], x);
    }
  }

  /**
    * Time is conserved over every run: once a market's clock runs, charged plus lost is all the time from its
    * first update to its last. What the keeper reports, less what it reported for updates that never landed,
    * falls short of the loss by inclusion delays at most.
    */
  lemma {:induction false} TimeIsConserved(
    ms: seq<Market>, dueAfter: int, maxPerTick: nat, ts: seq<Tick>, x: nat, k: nat)
    requires DistinctIds(ms) && x < |ms| && k <= |ts| && Clocked(ms, dueAfter, maxPerTick, ts)
    requires ms[x].lastUpdate > 0
    ensures var b, m := BooksAt(ms, dueAfter, maxPerTick, ts, x, k), StateAt(ms, dueAfter, maxPerTick, ts, k)[x];
      && m.lastUpdate >= ms[x].lastUpdate
      && b.charged + b.lost == m.lastUpdate - ms[x].lastUpdate
      && b.reported - b.unlanded <= b.lost <= b.reported - b.unlanded + b.delays
  {
    if k == 0 {
      assert ts[..0] == [];
    } else {
      TimeIsConserved(ms, dueAfter, maxPerTick, ts, x, k - 1);
      TickForOne(ms, dueAfter, maxPerTick, ts, x, k - 1);
      hide StateAt, ChosenAt, Visit, Landed, PlanOne, DistinctIds, Clocked;
      VisitFacts(BooksAt(ms, dueAfter, maxPerTick, ts, x, k - 1), StateAt(ms, dueAfter, maxPerTick, ts, k - 1)[x],
                 ChosenAt(ms, dueAfter, maxPerTick, ts, k - 1, ms[x].id), dueAfter, ts[k - 1]);
    }
  }

  // ---------------------------------------------------------------- capacity

  /** Updates land within `delay` of the block their tick read, and ticks are at most `gap` apart. */
  ghost predicate Prompt(ms: seq<Market>, dueAfter: int, maxPerTick: int, ts: seq<Tick>, gap: nat, delay: nat) {
    && (forall k, id :: 0 <= k < |ts| && ChosenAt(ms, dueAfter, maxPerTick, ts, k, id) && id in ts[k].landed ==>
          ts[k].landed[id] <= ts[k].now + delay)
    && (forall k :: 0 < k < |ts| ==> ts[k].now <= ts[k - 1].now + gap)
  }

  /** x has waited w ticks, each of which served maxPerTick of the others, since it was last known not to be due. */
  ghost predicate WaitedOnly(ms: seq<Market>, x: nat, now: int, dueAfter: int, maxPerTick: nat, gap: nat, w: nat)
    requires x < |ms|
  {
    w * maxPerTick + |Before(ms, x)| <= |ms| - 1 && now < ms[x].lastUpdate + dueAfter + (w + 1) * gap
  }

  ghost predicate OnTime(ms: seq<Market>, x: nat, now: int, dueAfter: int, maxPerTick: nat, gap: nat)
    requires x < |ms|
  {
    ms[x].lastUpdate == 0 || exists w: nat :: WaitedOnly(ms, x, now, dueAfter, maxPerTick, gap, w)
  }

  /** Not due at the tick before: the wait starts anew. */
  lemma NewWait(ms: seq<Market>, x: nat, was: int, now: int, dueAfter: int, maxPerTick: nat, gap: nat)
    requires x < |ms| && was < ms[x].lastUpdate + dueAfter && now <= was + gap
    ensures OnTime(ms, x, now, dueAfter, maxPerTick, gap)
  {
    BeforeBound(ms, x);
    hide Before;
    assert WaitedOnly(ms, x, now, dueAfter, maxPerTick, gap, 0);
  }

  lemma MaxWait(n: nat, maxPerTick: nat, gap: nat, w: nat)
    requires maxPerTick > 0 && w * maxPerTick <= n - 1
    ensures (w + 1) * gap <= ((n + maxPerTick - 1) / maxPerTick) * gap
  {
    var c := (n + maxPerTick - 1) / maxPerTick;
    DivBounds(n + maxPerTick - 1, maxPerTick);
    assert (c + 1) * maxPerTick == c * maxPerTick + maxPerTick;
    if w + 1 > c { MulMono(c, w, maxPerTick); }
    MulMono(w + 1, c, gap);
  }

  /** One tick of a run in which everything lands keeps x on time. */
  lemma StaysOnTime(ms: seq<Market>, dueAfter: int, maxPerTick: nat, t: Tick, x: nat, now: int, gap: nat)
    requires DistinctIds(ms) && x < |ms| && ms[x].active && maxPerTick > 0 && dueAfter > 0
    requires LandsAfter(ms, dueAfter, maxPerTick, t) && now <= t.now + gap
    requires forall id :: IsChosen(ms, t.now, dueAfter, maxPerTick, id) ==> id in t.landed
    requires OnTime(ms, x, t.now, dueAfter, maxPerTick, gap)
    ensures OnTime(AfterTick(ms, dueAfter, maxPerTick, t), x, now, dueAfter, maxPerTick, gap)
  {
    var next := AfterTick(ms, dueAfter, maxPerTick, t);
    var chosen := IsChosen(ms, t.now, dueAfter, maxPerTick, ms[x].id);
    assert next[x] == Landed(ms[x], chosen, t);
    if chosen {
      ChosenLanded(ms, dueAfter, maxPerTick, t, x);
      NewWait(next, x, t.now, now, dueAfter, maxPerTick, gap);
    } else if !PlanOne(ms[x], t.now, dueAfter).Update? {
      NewWait(next, x, t.now, now, dueAfter, maxPerTick, gap);
    } else if ms[x].lastUpdate > 0 {
      var w: nat :| WaitedOnly(ms, x, t.now, dueAfter, maxPerTick, gap, w);
      hide IsChosen, Before, PlanOne, DistinctIds, Chosen, AfterTick, LandsAfter;
      PassedOver(ms, dueAfter, maxPerTick, t, x);
      BeforeShrinks(ms, dueAfter, maxPerTick, t, x);
      assert LandedIds(ms, dueAfter, maxPerTick, t) == IdsOf(Chosen(ms, t.now, dueAfter, maxPerTick));
      MoreWait(|Before(ms, x)|, maxPerTick, gap, w);
      assert WaitedOnly(next, x, now, dueAfter, maxPerTick, gap, w + 1);
    }
  }

  lemma MoreWait(before: nat, maxPerTick: nat, gap: nat, w: nat)
    ensures (w + 1) * maxPerTick + (before - maxPerTick) == w * maxPerTick + before
    ensures (w + 2) * gap == (w + 1) * gap + gap
  {}

  /** An update picked while x is on time, and landing promptly, loses nothing and reports nothing. */
  lemma OnTimeVisit(
    b: Books, ms: seq<Market>, x: nat, chosen: bool, dueAfter: int, maxPerTick: nat, t: Tick, gap: nat, delay: nat)
    requires x < |ms| && maxPerTick > 0 && OnTime(ms, x, t.now, dueAfter, maxPerTick, gap)
    requires dueAfter + ((|ms| + maxPerTick - 1) / maxPerTick) * gap + delay <= MAX_FUNDING_ELAPSED_SECS + 1
    requires chosen && ms[x].id in t.landed ==> t.landed[ms[x].id] <= t.now + delay
    ensures var e := Visit(b, ms[x], chosen, dueAfter, t); e.lost == b.lost && e.reported == b.reported
  {
    if ms[x].lastUpdate > 0 {
      var w: nat :| WaitedOnly(ms, x, t.now, dueAfter, maxPerTick, gap, w);
      MaxWait(|ms|, maxPerTick, gap, w);
    }
  }

  lemma {:induction false} AlwaysOnTime(
    ms: seq<Market>, dueAfter: int, maxPerTick: nat, ts: seq<Tick>, x: nat, gap: nat, delay: nat, k: nat)
    requires DistinctIds(ms) && x < |ms| && ms[x].active && maxPerTick > 0 && dueAfter > 0 && k < |ts|
    requires Clocked(ms, dueAfter, maxPerTick, ts) && AllLand(ms, dueAfter, maxPerTick, ts)
    requires Prompt(ms, dueAfter, maxPerTick, ts, gap, delay)
    requires ms[x].lastUpdate > 0 ==> ts[0].now < ms[x].lastUpdate + dueAfter + gap
    ensures OnTime(StateAt(ms, dueAfter, maxPerTick, ts, k), x, ts[k].now, dueAfter, maxPerTick, gap)
  {
    if k == 0 {
      assert ts[..0] == [];
      if ms[x].lastUpdate > 0 {
        BeforeBound(ms, x);
        assert WaitedOnly(ms, x, ts[0].now, dueAfter, maxPerTick, gap, 0);
      }
    } else {
      AlwaysOnTime(ms, dueAfter, maxPerTick, ts, x, gap, delay, k - 1);
      TickForOne(ms, dueAfter, maxPerTick, ts, x, k - 1);
      StateAtNext(ms, dueAfter, maxPerTick, ts, k - 1);
      hide StateAt, OnTime, PlanOne, IsChosen, DistinctIds, LandsAfter, AfterTick;
      var was, t := StateAt(ms, dueAfter, maxPerTick, ts, k - 1), ts[k - 1];
      forall id | IsChosen(was, t.now, dueAfter, maxPerTick, id) ensures id in t.landed {
        assert ChosenAt(ms, dueAfter, maxPerTick, ts, k - 1, id);
      }
      StaysOnTime(was, dueAfter, maxPerTick, t, x, ts[k].now, gap);
    }
  }

  /**
    * Capacity: with every picked update confirmed within `delay`, ticks at most `gap` apart and a clock not
    * already late, no second is lost or reported lost as long as dueAfter + ceil(n / maxPerTick) * gap + delay
    * stays within an hour, to the second.
    */
  lemma {:induction false} NothingLost(
    ms: seq<Market>, dueAfter: int, maxPerTick: nat, ts: seq<Tick>, x: nat, gap: nat, delay: nat, k: nat)
    requires DistinctIds(ms) && x < |ms| && ms[x].active && maxPerTick > 0 && dueAfter > 0 && k <= |ts|
    requires Clocked(ms, dueAfter, maxPerTick, ts) && AllLand(ms, dueAfter, maxPerTick, ts)
    requires Prompt(ms, dueAfter, maxPerTick, ts, gap, delay)
    requires ms[x].lastUpdate > 0 && |ts| > 0 ==> ts[0].now < ms[x].lastUpdate + dueAfter + gap
    requires dueAfter + ((|ms| + maxPerTick - 1) / maxPerTick) * gap + delay <= MAX_FUNDING_ELAPSED_SECS + 1
    ensures var b := BooksAt(ms, dueAfter, maxPerTick, ts, x, k); b.lost == 0 && b.reported == 0
  {
    if k > 0 {
      NothingLost(ms, dueAfter, maxPerTick, ts, x, gap, delay, k - 1);
      AlwaysOnTime(ms, dueAfter, maxPerTick, ts, x, gap, delay, k - 1);
      IdsKept(ms, dueAfter, maxPerTick, ts, k - 1);
      hide StateAt, OnTime, PlanOne, IsChosen, DistinctIds, Clocked, Visit, AllLand;
      OnTimeVisit(BooksAt(ms, dueAfter, maxPerTick, ts, x, k - 1), StateAt(ms, dueAfter, maxPerTick, ts, k - 1), x,
                  ChosenAt(ms, dueAfter, maxPerTick, ts, k - 1, ms[x].id), dueAfter, maxPerTick, ts[k - 1], gap, delay);
    }
  }

  /** n active markets last updated at second 1. */
  function LevelMarkets(n: nat): (r: seq<Market>)
    ensures |r| == n && forall i :: 0 <= i < n ==> r[i] == Market(i, true, 1)
  {
    seq(n, i => Market(i, true, 1))
  }

  function FirstIds(n: nat): (r: set<int>)
    ensures |r| == n && forall id :: id in r <==> 0 <= id < n
  {
    if n == 0 then {} else FirstIds(n - 1) + {n - 1}
  }

  /** A tick at which every update lands `delay` later. */
  function LateTick(n: nat, now: nat, delay: nat): (t: Tick)
    ensures t.now == now && forall id :: id in t.landed <==> 0 <= id < n
    ensures forall id :: id in t.landed ==> t.landed[id] == now + delay
  {
    Tick(now, map id | id in FirstIds(n) :: now + delay)
  }

  /** The first tick a whole gap after the markets were one second short of due. */
  function LateTicks(n: nat, dueAfter: nat, gap: nat, delay: nat, c: nat): (r: seq<Tick>)
    ensures |r| == c
  {
    seq(c, k requires 0 <= k => LateTick(n, dueAfter + (k + 1) * gap, delay))
  }

  lemma LateTickAt(n: nat, dueAfter: nat, gap: nat, delay: nat, c: nat, k: nat)
    requires k < c
    ensures LateTicks(n, dueAfter, gap, delay, c)[k] == LateTick(n, dueAfter + (k + 1) * gap, delay)
  {}

  lemma LevelBefore(n: nat, x: nat, id: int)
    requires x < n
    ensures id in Before(LevelMarkets(n), x) <==> 0 <= id < x
  {
    var ms := LevelMarkets(n);
    if 0 <= id < x { assert ms[id].active && Outranks(ms, id, x) && ms[id].id == id; }
    if id in Before(ms, x) {
      var i :| 0 <= i < |ms| && ms[i].active && Outranks(ms, i, x) && ms[i].id == id;
      assert ms[i] == Market(i, true, 1) && ms[x] == Market(x, true, 1);
    }
  }

  lemma AllLevelBefore(n: nat, x: nat)
    requires x < n
    ensures DistinctIds(LevelMarkets(n)) && |Before(LevelMarkets(n), x)| == x
  {
    var before, first := Before(LevelMarkets(n), x), FirstIds(x);
    forall id ensures id in before <==> id in first { LevelBefore(n, x, id); }
    hide Before;
    assert before == first;
  }

  lemma ChosenIsMarket(ms: seq<Market>, now: int, dueAfter: int, maxPerTick: int, id: int)
    requires DistinctIds(ms) && IsChosen(ms, now, dueAfter, maxPerTick, id)
    ensures exists i :: 0 <= i < |ms| && ms[i].id == id
  {
    var p :| p in Chosen(ms, now, dueAfter, maxPerTick) && p.id == id;
    UpdatesOf(ms, now, dueAfter, p);
  }

  lemma LateTickFacts(n: nat, dueAfter: nat, gap: nat, delay: nat, c: nat, k: nat)
    requires k < c && 0 < gap
    ensures var ts := LateTicks(n, dueAfter, gap, delay, c); var t := ts[k];
      && t.now > 0 && (k > 0 ==> t.now == ts[k - 1].now + gap)
      && (forall id :: id in t.landed <==> 0 <= id < n) && forall id :: id in t.landed ==> t.landed[id] == t.now + delay
  {
    LateTickAt(n, dueAfter, gap, delay, c, k);
    MulMono(1, k + 1, gap);
    if k > 0 {
      LateTickAt(n, dueAfter, gap, delay, c, k - 1);
      assert (k + 1) * gap == k * gap + gap;
    }
  }

  lemma {:induction false} LateTicksRise(n: nat, dueAfter: nat, gap: nat, delay: nat, c: nat, j: nat, k: nat)
    requires j <= k < c && 0 < gap
    ensures LateTicks(n, dueAfter, gap, delay, c)[j].now <= LateTicks(n, dueAfter, gap, delay, c)[k].now
  {
    hide *;
    if j < k {
      LateTicksRise(n, dueAfter, gap, delay, c, j, k - 1);
      LateTickFacts(n, dueAfter, gap, delay, c, k);
    }
  }

  /** The late ticks meet every condition of the capacity theorem but its last. */
  lemma LateTicksFit(n: nat, dueAfter: nat, maxPerTick: nat, gap: nat, delay: nat, c: nat)
    requires 0 < dueAfter && 0 < gap
    ensures var ms, ts := LevelMarkets(n), LateTicks(n, dueAfter, gap, delay, c);
      && Clocked(ms, dueAfter, maxPerTick, ts) && AllLand(ms, dueAfter, maxPerTick, ts)
      && Prompt(ms, dueAfter, maxPerTick, ts, gap, delay)
  {
    var ms, ts := LevelMarkets(n), LateTicks(n, dueAfter, gap, delay, c);
    forall k, id | 0 <= k < c && ChosenAt(ms, dueAfter, maxPerTick, ts, k, id) ensures 0 <= id < n {
      IdsKept(ms, dueAfter, maxPerTick, ts, k);
      ChosenIsMarket(StateAt(ms, dueAfter, maxPerTick, ts, k), ts[k].now, dueAfter, maxPerTick, id);
    }
    hide LevelMarkets, LateTicks, IsChosen, StateAt;
    forall k | 0 <= k < c
      ensures ts[k].now > 0 && (k > 0 ==> ts[k].now == ts[k - 1].now + gap)
      ensures forall id | 0 <= id < n :: id in ts[k].landed && ts[k].landed[id] == ts[k].now + delay
    {
      LateTickFacts(n, dueAfter, gap, delay, c, k);
    }
    forall k | 0 <= k < c ensures LandsAfter(StateAt(ms, dueAfter, maxPerTick, ts, k), dueAfter, maxPerTick, ts[k]) {
      forall id | id in LandedIds(StateAt(ms, dueAfter, maxPerTick, ts, k), dueAfter, maxPerTick, ts[k])
        ensures ts[k].landed[id] >= ts[k].now
      {
        assert ChosenAt(ms, dueAfter, maxPerTick, ts, k, id);
      }
    }
    forall j, k | 0 <= j < k < c ensures ts[j].now <= ts[k].now {
      LateTicksRise(n, dueAfter, gap, delay, c, j, k);
    }
  }

  lemma FewLand(ms: seq<Market>, dueAfter: int, maxPerTick: nat, t: Tick)
    ensures |LandedIds(ms, dueAfter, maxPerTick, t)| <= maxPerTick
  {
    var chosen := Chosen(ms, t.now, dueAfter, maxPerTick);
    assert LandedIds(ms, dueAfter, maxPerTick, t) <= IdsOf(chosen);
    SubsetSize(LandedIds(ms, dueAfter, maxPerTick, t), IdsOf(chosen));
    IdsAtMost(chosen);
  }

  lemma FewLandAt(ms: seq<Market>, dueAfter: int, maxPerTick: nat, ts: seq<Tick>, k: nat)
    requires k < |ts|
    ensures LandedAt(ms, dueAfter, maxPerTick, ts, k) <= maxPerTick
  {
    FewLand(StateAt(ms, dueAfter, maxPerTick, ts, k), dueAfter, maxPerTick, ts[k]);
  }

  lemma {:induction false} IdsAtMost(ps: seq<Plan>)
    ensures |IdsOf(ps)| <= |ps|
  {
    if ps != [] {
      var before, last := ps[..|ps| - 1], ps[|ps| - 1];
      assert ps == before + [last];
      IdsAtMost(before);
      assert IdsOf(ps) == IdsOf(before) + {last.id};
    }
  }

  lemma {:induction false} LandingsAtMost(ms: seq<Market>, dueAfter: int, maxPerTick: nat, ts: seq<Tick>, k: nat)
    requires k <= |ts|
    ensures Landings(ms, dueAfter, maxPerTick, ts, k) <= k * maxPerTick
  {
    LandingsNone(ms, dueAfter, maxPerTick, ts);
    hide *;
    if k > 0 {
      LandingsNext(ms, dueAfter, maxPerTick, ts, k - 1);
      LandingsAtMost(ms, dueAfter, maxPerTick, ts, k - 1);
      FewLandAt(ms, dueAfter, maxPerTick, ts, k - 1);
      OneMore(Landings(ms, dueAfter, maxPerTick, ts, k - 1), LandedAt(ms, dueAfter, maxPerTick, ts, k - 1),
              k, maxPerTick);
    }
  }

  lemma OneMore(sum: int, last: int, k: nat, m: nat)
    requires k > 0 && sum <= (k - 1) * m && last <= m
    ensures sum + last <= k * m
  {}

  /** The last market waits through ceil(n / maxPerTick) - 1 of the ticks and is picked at the next. */
  lemma LastWaitsLongest(ms: seq<Market>, dueAfter: nat, maxPerTick: nat, ts: seq<Tick>, x: nat, c: nat)
    requires DistinctIds(ms) && x < |ms| && c > 0 && c == |ts|
    requires Clocked(ms, dueAfter, maxPerTick, ts) && AllLand(ms, dueAfter, maxPerTick, ts)
    requires PlanOne(ms[x], ts[0].now, dueAfter).Update?
    requires Ceiling(|Before(ms, x)| + 1, maxPerTick, c)
    ensures UnpickedFor(ms, dueAfter, maxPerTick, ts, c - 1, ms[x].id)
    ensures ChosenAt(ms, dueAfter, maxPerTick, ts, c - 1, ms[x].id)
    ensures StateAt(ms, dueAfter, maxPerTick, ts, c - 1)[x] == ms[x]
  {
    assert UnpickedFor(ms, dueAfter, maxPerTick, ts, 0, ms[x].id);
    assert (c - 1) * maxPerTick <= |Before(ms, x)| < c * maxPerTick;
    hide *;
    Multiples(c, maxPerTick);
    if c > 1 {
      LandingsAtMost(ms, dueAfter, maxPerTick, ts, c - 2);
      WaitsExactly(ms, dueAfter, maxPerTick, ts, x, c - 1);
    }
    WaitingCosts(ms, dueAfter, maxPerTick, ts, x, c - 1);
    ConfirmedLandings(ms, dueAfter, maxPerTick, ts, x, c - 1);
    WaitsExactly(ms, dueAfter, maxPerTick, ts, x, c);
    UnpickedNext(ms, dueAfter, maxPerTick, ts, c - 1, ms[x].id);
    PickedThen(ms, dueAfter, maxPerTick, ts, c - 1, ms[x].id);
  }

  lemma Multiples(c: nat, m: nat)
    ensures c * m == (c - 1) * m + m && (c - 1) * m == (c - 2) * m + m
  {}

  lemma PickedThen(ms: seq<Market>, dueAfter: int, maxPerTick: int, ts: seq<Tick>, k: nat, id: int)
    requires k < |ts|
    ensures ChosenAt(ms, dueAfter, maxPerTick, ts, k, id)
            <==> IsChosen(StateAt(ms, dueAfter, maxPerTick, ts, k), ts[k].now, dueAfter, maxPerTick, id)
  {}

  lemma {:induction false} NothingBooked(ms: seq<Market>, dueAfter: int, maxPerTick: int, ts: seq<Tick>, x: nat, k: nat)
    requires x < |ms| && k <= |ts| && UnpickedFor(ms, dueAfter, maxPerTick, ts, k, ms[x].id)
    ensures BooksAt(ms, dueAfter, maxPerTick, ts, x, k) == Books(0, 0, 0, 0, 0)
  {
    if k > 0 {
      NothingBooked(ms, dueAfter, maxPerTick, ts, x, k - 1);
      assert !ChosenAt(ms, dueAfter, maxPerTick, ts, k - 1, ms[x].id);
    }
  }

  /** c is n / m, rounded up. */
  predicate Ceiling(n: nat, m: nat, c: nat) {
    c > 0 && (c - 1) * m < n <= c * m
  }

  /** One second more than the capacity theorem allows with c ticks. */
  predicate OneSecondOver(dueAfter: nat, gap: nat, delay: nat, c: nat) {
    dueAfter + c * gap + delay == MAX_FUNDING_ELAPSED_SECS + 2
  }

  lemma LateRunLoses(x: nat, dueAfter: nat, maxPerTick: nat, gap: nat, delay: nat, c: nat)
    requires maxPerTick > 0 && 0 < dueAfter && 0 < gap && c > 0
    requires Ceiling(x + 1, maxPerTick, c) && OneSecondOver(dueAfter, gap, delay, c)
    ensures LateTicks(x + 1, dueAfter, gap, delay, c)[0].now < LevelMarkets(x + 1)[x].lastUpdate + dueAfter + gap
    ensures var ms, ts := LevelMarkets(x + 1), LateTicks(x + 1, dueAfter, gap, delay, c);
      BooksAt(ms, dueAfter, maxPerTick, ts, x, c).lost == 1
  {
    hide *;
    var ms, ts := LevelMarkets(x + 1), LateTicks(x + 1, dueAfter, gap, delay, c);
    LateTicksFit(x + 1, dueAfter, maxPerTick, gap, delay, c);
    AllLevelBefore(x + 1, x);
    FirstAndLastTick(x + 1, dueAfter, gap, delay, c);
    LastLoses(ms, dueAfter, maxPerTick, ts, x, c);
  }

  /** What the last market loses is what its one update does. */
  lemma LastLoses(ms: seq<Market>, dueAfter: nat, maxPerTick: nat, ts: seq<Tick>, x: nat, c: nat)
    requires DistinctIds(ms) && x < |ms| && c > 0 && c == |ts| && |Before(ms, x)| == x
    requires Clocked(ms, dueAfter, maxPerTick, ts) && AllLand(ms, dueAfter, maxPerTick, ts)
    requires PlanOne(ms[x], ts[0].now, dueAfter).Update?
    requires Ceiling(x + 1, maxPerTick, c)
    requires Visit(Books(0, 0, 0, 0, 0), ms[x], true, dueAfter, ts[c - 1]).lost == 1
    ensures BooksAt(ms, dueAfter, maxPerTick, ts, x, c).lost == 1
  {
    hide *;
    LastWaitsLongest(ms, dueAfter, maxPerTick, ts, x, c);
    NothingBooked(ms, dueAfter, maxPerTick, ts, x, c - 1);
    BooksNext(ms, dueAfter, maxPerTick, ts, x, c - 1);
  }

  lemma FirstAndLastTick(n: nat, dueAfter: nat, gap: nat, delay: nat, c: nat)
    requires n > 0 && c > 0 && 0 < dueAfter && 0 < gap && OneSecondOver(dueAfter, gap, delay, c)
    ensures var m, ts := LevelMarkets(n)[n - 1], LateTicks(n, dueAfter, gap, delay, c);
      && m.id == n - 1 && ts[0].now < m.lastUpdate + dueAfter + gap
      && PlanOne(m, ts[0].now, dueAfter).Update?
      && Visit(Books(0, 0, 0, 0, 0), m, true, dueAfter, ts[c - 1]).lost == 1
  {
    var m, t := LevelMarkets(n)[n - 1], LateTick(n, dueAfter + c * gap, delay);
    LateTickAt(n, dueAfter, gap, delay, c, 0);
    LateTickAt(n, dueAfter, gap, delay, c, c - 1);
    MulMono(1, c, gap);
    assert m.id in t.landed && t.landed[m.id] == dueAfter + c * gap + delay;
  }

  /**
    * The capacity is exact for every number of markets and updates a tick: one second more, and a run that
    * meets every other condition loses a second of the last market.
    */
  lemma CapacityIsTight(n: nat, dueAfter: nat, maxPerTick: nat, gap: nat, delay: nat)
    requires n > 0 && maxPerTick > 0 && 0 < dueAfter && 0 < gap
    requires var c := (n + maxPerTick - 1) / maxPerTick; dueAfter + c * gap + delay == MAX_FUNDING_ELAPSED_SECS + 2
    ensures var c := (n + maxPerTick - 1) / maxPerTick;
      var ms, ts := LevelMarkets(n), LateTicks(n, dueAfter, gap, delay, c);
      && c > 0 && ts[0].now < ms[n - 1].lastUpdate + dueAfter + gap
      && Clocked(ms, dueAfter, maxPerTick, ts) && AllLand(ms, dueAfter, maxPerTick, ts)
      && Prompt(ms, dueAfter, maxPerTick, ts, gap, delay)
      && BooksAt(ms, dueAfter, maxPerTick, ts, n - 1, c).lost == 1
  {
    var c := (n + maxPerTick - 1) / maxPerTick;
    CeilingBounds(n, maxPerTick);
    assert OneSecondOver(dueAfter, gap, delay, c);
    hide *;
    LateTicksFit(n, dueAfter, maxPerTick, gap, delay, c);
    LateRunLoses(n - 1, dueAfter, maxPerTick, gap, delay, c);
  }

  lemma CeilingBounds(n: nat, m: nat)
    requires n > 0 && m > 0
    ensures (n + m - 1) / m > 0 && Ceiling(n, m, (n + m - 1) / m)
  {
    var c := (n + m - 1) / m;
    DivBounds(n + m - 1, m);
    assert (c + 1) * m == c * m + m;
    assert (c - 1) * m == c * m - m;
  }

  lemma BooksNext(ms: seq<Market>, dueAfter: int, maxPerTick: int, ts: seq<Tick>, x: nat, k: nat)
    requires x < |ms| && k < |ts|
    ensures BooksAt(ms, dueAfter, maxPerTick, ts, x, k + 1)
      == Visit(BooksAt(ms, dueAfter, maxPerTick, ts, x, k), StateAt(ms, dueAfter, maxPerTick, ts, k)[x],
               ChosenAt(ms, dueAfter, maxPerTick, ts, k, ms[x].id), dueAfter, ts[k])
  {}
}
