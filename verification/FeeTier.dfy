/**
  * The fee-tier bot: which accounts to move, in what order, and that capped ticks converge
  * (client/lib/keepers/fee-tier.ts).
  */
module FeeTiers {
  import opened Arithmetic
  import opened Sorting
  import opened FeeSchedule

  /** Addresses, lower-cased and of one length, compare as numbers do. */
  type Address = nat

  datatype Holding = Holding(account: Address, tier: nat)

  datatype TierChange = TierChange(account: Address, from: nat, to: nat, volume: int)

  function VolumeOf(volumes: map<Address, int>, a: Address): int {
    if a in volumes then volumes[a] else 0
  }

  function TargetFor(volumes: map<Address, int>, s: seq<TierStep>, a: Address): nat {
    TargetOf(VolumeOf(volumes, a), s)
  }

  function ChangeFor(volumes: map<Address, int>, s: seq<TierStep>, h: Holding): TierChange {
    TierChange(h.account, h.tier, TargetFor(volumes, s, h.account), VolumeOf(volumes, h.account))
  }

  function Move(c: TierChange): nat { Abs(c.to - c.from) }

  /** Larger move first; level moves by volume, then by address. */
  predicate Before(a: TierChange, b: TierChange) {
    if Move(a) != Move(b) then Move(a) > Move(b)
    else if a.volume != b.volume then a.volume > b.volume
    else a.account <= b.account
  }

  /** Every account off its target, in the order the chain read lists them. */
  function Wrong(volumes: map<Address, int>, onChain: seq<Holding>, s: seq<TierStep>): seq<TierChange> {
    if onChain == [] then []
    else
      var h := onChain[|onChain| - 1];
      Wrong(volumes, onChain[..|onChain| - 1], s)
      + if TargetFor(volumes, s, h.account) != h.tier then [ChangeFor(volumes, s, h)] else []
  }

  function Queue(volumes: map<Address, int>, onChain: seq<Holding>, s: seq<TierStep>): seq<TierChange> {
    SortBy(Wrong(volumes, onChain, s), Before)
  }

  method DiffTiers(volumes: map<Address, int>, onChain: seq<Holding>, schedule: seq<TierStep>, max: int)
      returns (changes: seq<TierChange>, deferred: nat)
    ensures changes == TakeFirst(Queue(volumes, onChain, schedule), max)
    ensures deferred == Max(0, |Queue(volumes, onChain, schedule)| - max)
  {
    var all: seq<TierChange> := [];
    for i := 0 to |onChain|
      invariant all == Wrong(volumes, onChain[..i], schedule)
    {
      assert onChain[..i + 1][..i] == onChain[..i];
      var volume := VolumeOf(volumes, onChain[i].account);
      var to := TargetTier(volume, schedule);
      if to != onChain[i].tier {
        all := all + [TierChange(onChain[i].account, onChain[i].tier, to, volume)];
      }
    }
    assert onChain[..|onChain|] == onChain;
    all := SortBy(all, Before);
    changes := TakeFirst(all, max);
    deferred := Max(0, |all| - max);
  }

  // ---------------------------------------------------------------- the queue

  predicate OneRowEach(onChain: seq<Holding>) {
    forall i, j :: 0 <= i < j < |onChain| ==> onChain[i].account != onChain[j].account
  }

  /** A row that is off its target, and the change that would put it right. */
  predicate IsWrong(volumes: map<Address, int>, s: seq<TierStep>, h: Holding) {
    TargetFor(volumes, s, h.account) != h.tier
  }

  lemma {:induction false} WrongMembers(volumes: map<Address, int>, onChain: seq<Holding>, s: seq<TierStep>)
    ensures forall c :: c in Wrong(volumes, onChain, s) <==>
      exists h :: h in onChain && IsWrong(volumes, s, h) && c == ChangeFor(volumes, s, h)
  {
    hide TargetFor, ChangeFor;
    if onChain != [] {
      var n := |onChain| - 1;
      var h := onChain[n];
      WrongMembers(volumes, onChain[..n], s);
      assert onChain == onChain[..n] + [h];
      forall c ensures c in Wrong(volumes, onChain, s) <==>
        (exists h :: h in onChain && IsWrong(volumes, s, h) && c == ChangeFor(volumes, s, h))
      {
        assert h in onChain;
      }
    }
  }

  lemma {:induction false} WrongDistinct(volumes: map<Address, int>, onChain: seq<Holding>, s: seq<TierStep>)
    requires OneRowEach(onChain)
    ensures Distinct(Wrong(volumes, onChain, s))
  {
    hide TargetFor;
    if onChain != [] {
      var n := |onChain| - 1;
      var before := Wrong(volumes, onChain[..n], s);
      WrongDistinct(volumes, onChain[..n], s);
      WrongMembers(volumes, onChain[..n], s);
      forall c | c in before ensures c != ChangeFor(volumes, s, onChain[n]) {
        var h :| h in onChain[..n] && IsWrong(volumes, s, h) && c == ChangeFor(volumes, s, h);
        var i :| 0 <= i < n && onChain[..n][i] == h;
        assert onChain[i].account != onChain[n].account;
      }
      AppendDistinct(before, ChangeFor(volumes, s, onChain[n]));
    }
  }

  lemma AppendDistinct<T>(s: seq<T>, x: T)
    requires Distinct(s) && x !in s
    ensures Distinct(s + [x])
  {}

  lemma BeforeOrder()
    ensures TotalPreorder(Before)
  {}

  /** What the queue holds: each wrong account once, in the order, ties impossible between accounts. */
  lemma QueueFacts(volumes: map<Address, int>, onChain: seq<Holding>, s: seq<TierStep>)
    requires OneRowEach(onChain)
    ensures var q := Queue(volumes, onChain, s);
      && Sorted(q, Before) && Distinct(q) && |q| == |Wrong(volumes, onChain, s)|
      && forall c :: c in q <==> exists h :: h in onChain && IsWrong(volumes, s, h) && c == ChangeFor(volumes, s, h)
  {
    var w := Wrong(volumes, onChain, s);
    BeforeOrder();
    SortSorted(w, Before);
    SortMembers(w, Before);
    WrongMembers(volumes, onChain, s);
    WrongDistinct(volumes, onChain, s);
    DistinctKept(w, Before);
  }

  lemma {:induction false} CountIsMembership<T>(s: seq<T>, x: T)
    requires Distinct(s)
    ensures multiset(s)[x] == if x in s then 1 else 0
  {
    CountDistinct(s, x);
    assert x in s <==> x in multiset(s);
  }

  /** Distinct lists with the same members, sorted without ties, are the same list. */
  lemma SameQueue(a: seq<TierChange>, b: seq<TierChange>)
    requires Sorted(a, Before) && Sorted(b, Before) && Distinct(a) && Distinct(b)
    requires forall c :: c in a <==> c in b
    requires forall x, y :: x in a && y in a && x.account == y.account ==> x == y
    ensures a == b
  {
    forall c ensures multiset(a)[c] == multiset(b)[c] {
      CountIsMembership(a, c);
      CountIsMembership(b, c);
    }
    assert multiset(a) == multiset(b);
    SortedUnique(a, b, Before);
  }

  lemma OneChangeEach(volumes: map<Address, int>, onChain: seq<Holding>, s: seq<TierStep>)
    requires OneRowEach(onChain)
    ensures forall x, y ::
      x in Queue(volumes, onChain, s) && y in Queue(volumes, onChain, s) && x.account == y.account ==> x == y
  {
    QueueFacts(volumes, onChain, s);
    var q := Queue(volumes, onChain, s);
    hide Queue, IsWrong, TargetFor;
    forall x, y | x in q && y in q && x.account == y.account ensures x == y {
      var h :| h in onChain && IsWrong(volumes, s, h) && x == ChangeFor(volumes, s, h);
      var g :| g in onChain && IsWrong(volumes, s, g) && y == ChangeFor(volumes, s, g);
    }
  }

  // ---------------------------------------------------------------- ticks

  predicate Touched(changes: seq<TierChange>, landed: set<Address>, a: Address) {
    a in landed && exists c :: c in changes && c.account == a
  }

  /** After a tick, the accounts whose change landed hold their target. */
  function AfterChanges(volumes: map<Address, int>, onChain: seq<Holding>, s: seq<TierStep>,
                        changes: seq<TierChange>, landed: set<Address>): (r: seq<Holding>)
    ensures |r| == |onChain|
    ensures forall i :: 0 <= i < |r| ==> r[i].account == onChain[i].account
    ensures forall i :: 0 <= i < |r| ==>
      r[i].tier
      == if Touched(changes, landed, r[i].account) then TargetFor(volumes, s, r[i].account) else onChain[i].tier
  {
    seq(|onChain|, i requires 0 <= i < |onChain| =>
      if Touched(changes, landed, onChain[i].account) then
        Holding(onChain[i].account, TargetFor(volumes, s, onChain[i].account))
      else onChain[i])
  }

  function Accounts(changes: seq<TierChange>): (r: set<Address>)
    ensures forall a :: a in r <==> exists c :: c in changes && c.account == a
  {
    set c | c in changes :: c.account
  }

  /** One tick over the whole list in which every send confirms. */
  function TickAll(volumes: map<Address, int>, onChain: seq<Holding>, s: seq<TierStep>, max: int): seq<Holding> {
    var changes := TakeFirst(Queue(volumes, onChain, s), max);
    AfterChanges(volumes, onChain, s, changes, Accounts(changes))
  }

  function Ticks(
    volumes: map<Address, int>, onChain: seq<Holding>, s: seq<TierStep>, max: int, t: nat): (r: seq<Holding>)
    ensures |r| == |onChain|
  {
    if t == 0 then onChain else TickAll(volumes, Ticks(volumes, onChain, s, max, t - 1), s, max)
  }

  lemma TickKeepsRows(
    volumes: map<Address, int>, onChain: seq<Holding>, s: seq<TierStep>, changes: seq<TierChange>, landed: set<Address>)
    requires OneRowEach(onChain)
    ensures OneRowEach(AfterChanges(volumes, onChain, s, changes, landed))
  {
    hide Touched, TargetFor;
  }

  /** A row is still wrong after a tick exactly when it was wrong and its change did not land; it is then unchanged. */
  lemma StillWrong(
    volumes: map<Address, int>, onChain: seq<Holding>, s: seq<TierStep>, changes: seq<TierChange>, landed: set<Address>,
    h: Holding)
    ensures h in AfterChanges(volumes, onChain, s, changes, landed) && IsWrong(volumes, s, h) <==>
      h in onChain && IsWrong(volumes, s, h) && !Touched(changes, landed, h.account)
  {
    hide Touched, TargetFor;
    var next := AfterChanges(volumes, onChain, s, changes, landed);
    if h in next && IsWrong(volumes, s, h) {
      var i :| 0 <= i < |next| && next[i] == h;
      assert onChain[i] == h;
    }
    if h in onChain && IsWrong(volumes, s, h) && !Touched(changes, landed, h.account) {
      var i :| 0 <= i < |onChain| && onChain[i] == h;
      assert next[i] == h;
    }
  }

  /** A confirmed tick removes its changes from the front of the queue and touches nothing behind them. */
  lemma TickTakesFront(volumes: map<Address, int>, onChain: seq<Holding>, s: seq<TierStep>, max: int)
    requires OneRowEach(onChain)
    ensures OneRowEach(TickAll(volumes, onChain, s, max))
    ensures var q := Queue(volumes, onChain, s);
      Queue(volumes, TickAll(volumes, onChain, s, max), s) == q[|TakeFirst(q, max)|..]
  {
    var q := Queue(volumes, onChain, s);
    var changes := TakeFirst(q, max);
    var next := TickAll(volumes, onChain, s, max);
    var rest := q[|changes|..];
    assert next == AfterChanges(volumes, onChain, s, changes, Accounts(changes));
    TickKeepsRows(volumes, onChain, s, changes, Accounts(changes));
    QueueFacts(volumes, onChain, s);
    QueueFacts(volumes, next, s);
    OneChangeEach(volumes, next, s);
    hide Queue, TickAll, AfterChanges, Accounts, TakeFirst, OneRowEach, IsWrong, Before;
    assert q == changes + rest;
    SplitDistinct(changes, rest);
    forall c ensures c in Queue(volumes, next, s) <==> c in rest {
      QueueAfter(volumes, onChain, s, changes, rest, c);
    }
    SortedSuffix(q, |changes|);
    SameQueue(Queue(volumes, next, s), rest);
  }

  lemma SortedSuffix(q: seq<TierChange>, n: nat)
    requires Sorted(q, Before) && n <= |q|
    ensures Sorted(q[n..], Before)
  {
    hide Before;
  }

  lemma SplitDistinct(a: seq<TierChange>, b: seq<TierChange>)
    requires Distinct(a + b)
    ensures Distinct(a) && Distinct(b) && forall c :: !(c in a && c in b)
  {
    var s := a + b;
    assert forall i :: 0 <= i < |a| ==> s[i] == a[i];
    assert forall i :: 0 <= i < |b| ==> s[|a| + i] == b[i];
    assert forall i, j :: 0 <= i < |a| && 0 <= j < |b| ==> a[i] != b[j];
  }

  lemma QueueAfter(volumes: map<Address, int>, onChain: seq<Holding>, s: seq<TierStep>,
                   changes: seq<TierChange>, rest: seq<TierChange>, c: TierChange)
    requires OneRowEach(onChain) && Queue(volumes, onChain, s) == changes + rest
    requires forall c :: !(c in changes && c in rest)
    ensures c in Queue(volumes, AfterChanges(volumes, onChain, s, changes, Accounts(changes)), s) <==> c in rest
  {
    var next := AfterChanges(volumes, onChain, s, changes, Accounts(changes));
    TickKeepsRows(volumes, onChain, s, changes, Accounts(changes));
    QueueFacts(volumes, onChain, s);
    QueueFacts(volumes, next, s);
    OneChangeEach(volumes, onChain, s);
    var q := Queue(volumes, onChain, s);
    hide Queue, IsWrong, TargetFor, AfterChanges, Sorted, OneRowEach;
    if c in Queue(volumes, next, s) {
      var h :| h in next && IsWrong(volumes, s, h) && c == ChangeFor(volumes, s, h);
      StillWrong(volumes, onChain, s, changes, Accounts(changes), h);
      assert c in q && c !in changes;
    }
    if c in rest {
      assert c in q;
      var h :| h in onChain && IsWrong(volumes, s, h) && c == ChangeFor(volumes, s, h);
      forall d | d in changes ensures d.account != c.account {
        assert d in q;
      }
      StillWrong(volumes, onChain, s, changes, Accounts(changes), h);
    }
  }

  /**
    * The changes of tick t are the t-th run of `max` from the queue the first tick saw: each account once, in one
    * order.
    */
  lemma {:induction false} TicksServeQueue(
    volumes: map<Address, int>, onChain: seq<Holding>, s: seq<TierStep>, max: nat, t: nat)
    requires OneRowEach(onChain)
    ensures OneRowEach(Ticks(volumes, onChain, s, max, t))
    ensures var q := Queue(volumes, onChain, s);
      Queue(volumes, Ticks(volumes, onChain, s, max, t), s) == if t * max < |q| then q[t * max..] else []
  {
    hide Queue, OneRowEach, TickAll;
    if t > 0 {
      TicksServeQueue(volumes, onChain, s, max, t - 1);
      TickTakesFront(volumes, Ticks(volumes, onChain, s, max, t - 1), s, max);
      assert t * max == (t - 1) * max + max;
      SuffixOfSuffix(Queue(volumes, onChain, s), (t - 1) * max, max);
    }
  }

  lemma SuffixOfSuffix<T>(q: seq<T>, a: nat, b: nat)
    ensures a < |q| && b < |q| - a ==> q[a..][b..] == q[a + b..]
  {}

  lemma CeilingMeets(n: nat, max: nat, t: nat)
    requires max > 0
    ensures t * max >= n <==> t >= (n + max - 1) / max
  {
    var d := (n + max - 1) / max;
    DivBounds(n + max - 1, max);
    assert (d + 1) * max == d * max + max;
    if t >= d { MulMono(d, t, max); } else {
      MulMono(t + 1, d, max);
      assert (t + 1) * max == t * max + max;
    }
  }

  lemma EmptyQueueIffRight(volumes: map<Address, int>, onChain: seq<Holding>, s: seq<TierStep>)
    requires OneRowEach(onChain)
    ensures Queue(volumes, onChain, s) == [] <==>
      forall h :: h in onChain ==> h.tier == TargetFor(volumes, s, h.account)
  {
    QueueFacts(volumes, onChain, s);
    var q := Queue(volumes, onChain, s);
    hide Queue, TargetFor;
    if q == [] {
      forall h | h in onChain ensures h.tier == TargetFor(volumes, s, h.account) {
        assert ChangeFor(volumes, s, h) !in q;
      }
    } else {
      assert q[0] in q;
    }
  }

  /** With N accounts off target, ceil(N / max) ticks leave none, and no fewer would. */
  lemma Converges(volumes: map<Address, int>, onChain: seq<Holding>, s: seq<TierStep>, max: nat, t: nat)
    requires OneRowEach(onChain) && max > 0
    ensures (forall h :: h in Ticks(volumes, onChain, s, max, t) ==> h.tier == TargetFor(volumes, s, h.account))
      <==> t >= (|Queue(volumes, onChain, s)| + max - 1) / max
  {
    hide Queue, TargetFor, OneRowEach;
    TicksServeQueue(volumes, onChain, s, max, t);
    EmptyQueueIffRight(volumes, Ticks(volumes, onChain, s, max, t), s);
    CeilingMeets(|Queue(volumes, onChain, s)|, max, t);
  }

  /**
    * Without room for one change a tick there is no convergence: what is off target at the start leaves some off for
    * ever.
    */
  lemma {:induction false} NoRoomNeverConverges(
    volumes: map<Address, int>, onChain: seq<Holding>, s: seq<TierStep>, max: int, t: nat)
    requires OneRowEach(onChain) && max <= 0
    ensures OneRowEach(Ticks(volumes, onChain, s, max, t))
    ensures Queue(volumes, Ticks(volumes, onChain, s, max, t), s) == [] <==> Queue(volumes, onChain, s) == []
  {
    hide Queue, OneRowEach, TickAll;
    if t > 0 {
      NoRoomNeverConverges(volumes, onChain, s, max, t - 1);
      TickTakesFront(volumes, Ticks(volumes, onChain, s, max, t - 1), s, max);
    }
  }

  // ---------------------------------------------------------------- any outcomes

  /** Ticks whose changes may fail: `landed[k]` holds the accounts whose change landed at tick k. */
  function Rounds(
    volumes: map<Address, int>, onChain: seq<Holding>, s: seq<TierStep>, max: int, landed: seq<set<Address>>)
    : (r: seq<Holding>)
    ensures |r| == |onChain|
  {
    if landed == [] then onChain
    else
      var before := Rounds(volumes, onChain, s, max, landed[..|landed| - 1]);
      AfterChanges(volumes, before, s, TakeFirst(Queue(volumes, before, s), max), landed[|landed| - 1])
  }

  function ChangesAt(
    volumes: map<Address, int>, onChain: seq<Holding>, s: seq<TierStep>, max: int, landed: seq<set<Address>>, k: nat)
    : seq<TierChange>
    requires k <= |landed|
  {
    TakeFirst(Queue(volumes, Rounds(volumes, onChain, s, max, landed[..k]), s), max)
  }

  /** An account that holds its target is never in the queue. */
  lemma RightIsNotQueued(volumes: map<Address, int>, onChain: seq<Holding>, s: seq<TierStep>, h: Holding, c: TierChange)
    requires OneRowEach(onChain) && h in onChain && !IsWrong(volumes, s, h)
    requires c in Queue(volumes, onChain, s)
    ensures c.account != h.account
  {
    QueueFacts(volumes, onChain, s);
    hide Queue, IsWrong;
    var g :| g in onChain && IsWrong(volumes, s, g) && c == ChangeFor(volumes, s, g);
  }

  /** Row i, once right, is left alone by every later round. */
  lemma {:induction false} RightStays(volumes: map<Address, int>, onChain: seq<Holding>, s: seq<TierStep>, max: int,
                                      landed: seq<set<Address>>, j: nat, k: nat, i: nat)
    requires j <= k <= |landed| && i < |onChain|
    requires !IsWrong(volumes, s, Rounds(volumes, onChain, s, max, landed[..j])[i])
    ensures Rounds(volumes, onChain, s, max, landed[..k])[i] == Rounds(volumes, onChain, s, max, landed[..j])[i]
    decreases k
  {
    hide Queue, Touched, TargetFor, TakeFirst;
    if j < k {
      RightStays(volumes, onChain, s, max, landed, j, k - 1, i);
      assert landed[..k][..k - 1] == landed[..k - 1];
    }
  }

  lemma {:induction false} RoundsKeepRows(
    volumes: map<Address, int>, onChain: seq<Holding>, s: seq<TierStep>, max: int, landed: seq<set<Address>>)
    requires OneRowEach(onChain)
    ensures var now := Rounds(volumes, onChain, s, max, landed);
      OneRowEach(now) && forall i :: 0 <= i < |now| ==> now[i].account == onChain[i].account
  {
    hide Queue, OneRowEach;
    if landed != [] {
      var before := Rounds(volumes, onChain, s, max, landed[..|landed| - 1]);
      RoundsKeepRows(volumes, onChain, s, max, landed[..|landed| - 1]);
      TickKeepsRows(volumes, before, s, TakeFirst(Queue(volumes, before, s), max), landed[|landed| - 1]);
    }
  }

  /** Whatever sends fail, a change that landed is never repeated: no later tick's list names that account. */
  lemma NeverTwice(volumes: map<Address, int>, onChain: seq<Holding>, s: seq<TierStep>, max: int,
                   landed: seq<set<Address>>, j: nat, k: nat, i: nat)
    requires OneRowEach(onChain) && j < k < |landed| && i < |onChain|
    requires Touched(ChangesAt(volumes, onChain, s, max, landed, j), landed[j], onChain[i].account)
    ensures forall c :: c in ChangesAt(volumes, onChain, s, max, landed, k) ==> c.account != onChain[i].account
  {
    var now := Rounds(volumes, onChain, s, max, landed[..k]);
    LandedIsRight(volumes, onChain, s, max, landed, j, i);
    RoundsKeepRows(volumes, onChain, s, max, landed[..k]);
    RightStays(volumes, onChain, s, max, landed, j + 1, k, i);
    hide Queue, OneRowEach, Touched, TargetFor, Rounds, IsWrong;
    forall c | c in ChangesAt(volumes, onChain, s, max, landed, k) ensures c.account != onChain[i].account {
      RightIsNotQueued(volumes, now, s, now[i], c);
    }
  }

  lemma LandedIsRight(volumes: map<Address, int>, onChain: seq<Holding>, s: seq<TierStep>, max: int,
                      landed: seq<set<Address>>, j: nat, i: nat)
    requires OneRowEach(onChain) && j < |landed| && i < |onChain|
    requires Touched(ChangesAt(volumes, onChain, s, max, landed, j), landed[j], onChain[i].account)
    ensures !IsWrong(volumes, s, Rounds(volumes, onChain, s, max, landed[..j + 1])[i])
  {
    RoundsKeepRows(volumes, onChain, s, max, landed[..j]);
    assert landed[..j + 1][..j] == landed[..j];
    hide Queue, OneRowEach, Touched, TargetFor;
  }

  // ---------------------------------------------------------------- candidates

  function TierOf(tiers: map<Address, nat>, a: Address): nat {
    if a in tiers then tiers[a] else 0
  }

  function Rows(tiers: map<Address, nat>, list: seq<Address>): (r: seq<Holding>)
    ensures |r| == |list| && forall i :: 0 <= i < |list| ==> r[i] == Holding(list[i], TierOf(tiers, list[i]))
  {
    seq(|list|, i requires 0 <= i < |list| => Holding(list[i], TierOf(tiers, list[i])))
  }

  lemma RowsOnce(tiers: map<Address, nat>, list: seq<Address>)
    requires Distinct(list)
    ensures OneRowEach(Rows(tiers, list))
    ensures forall h :: h in Rows(tiers, list) <==> h.account in list && h.tier == TierOf(tiers, h.account)
  {
    var r := Rows(tiers, list);
    forall h ensures h in r <==> h.account in list && h.tier == TierOf(tiers, h.account) {
      if h.account in list && h.tier == TierOf(tiers, h.account) {
        var i :| 0 <= i < |list| && list[i] == h.account;
        assert r[i] == h;
      }
    }
  }

  predicate Qualifies(volumes: map<Address, int>, s: seq<TierStep>, a: Address)
    requires s != []
  {
    a in volumes && volumes[a] >= s[0].minVolume
  }

  /** The candidate list: every qualifying account and every account the indexer lists as tiered, each once. */
  predicate CandidateList(
    volumes: map<Address, int>, s: seq<TierStep>, tiered: set<Address>, list: seq<Address>, all: seq<Address>)
    requires s != []
  {
    && Distinct(list) && Distinct(all)
    && (forall a :: a in list ==> a in all)
    && (forall a :: a in all ==> (a in list <==> Qualifies(volumes, s, a) || a in tiered))
  }

  /** No account outside the list is off target. */
  ghost predicate NoneMissed(
    volumes: map<Address, int>, tiers: map<Address, nat>, s: seq<TierStep>, list: seq<Address>, all: seq<Address>) {
    forall a :: a in all && a !in list ==> TierOf(tiers, a) == TargetFor(volumes, s, a)
  }

  lemma SameQueueIffNoneMissed(
    volumes: map<Address, int>, tiers: map<Address, nat>, s: seq<TierStep>, list: seq<Address>, all: seq<Address>)
    requires Distinct(list) && Distinct(all) && forall a :: a in list ==> a in all
    ensures Queue(volumes, Rows(tiers, list), s) == Queue(volumes, Rows(tiers, all), s)
      <==> NoneMissed(volumes, tiers, s, list, all)
  {
    var few, every := Rows(tiers, list), Rows(tiers, all);
    RowsOnce(tiers, list);
    RowsOnce(tiers, all);
    QueueFacts(volumes, few, s);
    QueueFacts(volumes, every, s);
    OneChangeEach(volumes, every, s);
    OneChangeEach(volumes, few, s);
    var p, q := Queue(volumes, few, s), Queue(volumes, every, s);
    hide Queue, TargetFor, TierOf, Rows, OneRowEach, Sorted, Before, Distinct;
    if NoneMissed(volumes, tiers, s, list, all) {
      forall c ensures c in p <==> c in q {
        if c in q {
          var h :| h in every && IsWrong(volumes, s, h) && c == ChangeFor(volumes, s, h);
          assert h in few;
        }
      }
      SameQueue(p, q);
    }
    if p == q {
      forall a | a in all && a !in list ensures TierOf(tiers, a) == TargetFor(volumes, s, a) {
        var h := Holding(a, TierOf(tiers, a));
        assert h in every;
        assert h !in few;
        assert ChangeFor(volumes, s, h) !in p;
      }
    }
  }

  /**
    * Diffing only the candidates is diffing everyone exactly when the indexer lists every tiered account
    * whose volume no longer qualifies: with a valid schedule the rest are at tier 0 and belong there.
    */
  lemma CandidatesSufficeIff(volumes: map<Address, int>, tiers: map<Address, nat>, s: seq<TierStep>,
                             tiered: set<Address>, list: seq<Address>, all: seq<Address>)
    requires Valid(s) && CandidateList(volumes, s, tiered, list, all)
    ensures Queue(volumes, Rows(tiers, list), s) == Queue(volumes, Rows(tiers, all), s)
      <==> forall a :: a in all && TierOf(tiers, a) > 0 && !Qualifies(volumes, s, a) ==> a in tiered
  {
    hide Queue;
    SameQueueIffNoneMissed(volumes, tiers, s, list, all);
    forall a | a in all && a !in list ensures TargetFor(volumes, s, a) == 0 {
      TargetIsHighest(VolumeOf(volumes, a), s);
    }
  }
}
