/** The backstop unwind planner (client/lib/keepers/backstop.ts). */
module Backstop {
  import opened Arithmetic
  import opened Sorting
  import opened Wrappers

  datatype Limits = Limits(
    maxDeviationBps: nat, maxFillNotional: nat, maxDailyNotional: nat, usedToday: nat)

  datatype Holding = Holding(marketId: int, size: int)

  datatype OpenOrder = OpenOrder(marketId: int, isLong: bool, remaining: nat, limitPrice: nat)

  datatype PlanInput = PlanInput(
    positions: seq<Holding>,
    limits: Limits,
    index: map<int, Option<int>>,
    minFillNotional: map<int, Option<int>>,
    open: seq<OpenOrder>,
    priceOffsetBps: int,
    maxOrdersPerTick: int)

  datatype Slice = Slice(
    marketId: int, isLong: bool, size: nat, limitPrice: int, index: nat, worstNotional: int)

  datatype SkipReason = OrderOpen | StaleIndex | NoBudget | BelowMinNotional | NotConfigured | TickLimit

  datatype Skipped = Skipped(marketId: int, reason: SkipReason)

  datatype Plan = Plan(slices: seq<Slice>, skipped: seq<Skipped>, budget: int)

  // ---------------------------------------------------------------- the price band

  function BandWidth(index: int, deviationBps: nat): int {
    TruncDiv(index * deviationBps, BPS)
  }

  function BandLow(index: int, deviationBps: nat): int {
    index - BandWidth(index, deviationBps)
  }

  function BandHigh(index: int, deviationBps: nat): int {
    index + BandWidth(index, deviationBps)
  }

  function WorstFillPrice(isLong: bool, limitPrice: int, index: int, deviationBps: nat): int {
    var high := BandHigh(index, deviationBps);
    if isLong then Min(limitPrice, high) else high
  }

  function CeilDiv(a: int, b: int): int
    requires b != 0
  {
    TruncDiv(a + b - 1, b)
  }

  function EffectiveOffset(offsetBps: int, deviationBps: nat): nat {
    if offsetBps > deviationBps then deviationBps else if offsetBps < 0 then 0 else offsetBps
  }

  function UnwindLimitPrice(isLong: bool, index: int, offsetBps: int, deviationBps: nat): int {
    var off := EffectiveOffset(offsetBps, deviationBps);
    var low, high := BandLow(index, deviationBps), BandHigh(index, deviationBps);
    var p := if isLong then TruncDiv(index * (BPS + off), BPS) else CeilDiv(index * (BPS - off), BPS);
    if p < low then low else if p > high then high else p
  }

  /** The test Insurance.onBackstopFill applies to a fill's price. */
  predicate WithinDeviation(p: int, index: int, deviationBps: nat) {
    Abs(p - index) * BPS <= index * deviationBps
  }

  /** The rounded band admits exactly the integer prices that pass the contract's test. */
  lemma BandIsExact(p: int, index: nat, deviationBps: nat)
    ensures BandLow(index, deviationBps) <= p <= BandHigh(index, deviationBps)
            <==> WithinDeviation(p, index, deviationBps)
  {
    MulMono(0, deviationBps, index);
    var d := BandWidth(index, deviationBps);
    DivBounds(index * deviationBps, BPS);
    assert BandLow(index, deviationBps) <= p <= BandHigh(index, deviationBps) <==> Abs(p - index) <= d;
  }

  /** What rounding toward zero adds to a sell's limit: one, below zero, unless the division is exact. */
  function SellRounding(index: nat, off: nat): nat {
    if index * off / BPS > index && index * off % BPS != BPS - 1 then 1 else 0
  }

  lemma SellMoves(index: nat, off: nat)
    ensures CeilDiv(index * (BPS - off), BPS) == index - index * off / BPS + SellRounding(index, off)
  {
    var moved, rest := index * off / BPS, index * off % BPS;
    var left := index - moved;
    assert index * off == moved * BPS + rest;
    assert index * (BPS - off) == index * BPS - index * off;
    var a := left * BPS + (BPS - 1 - rest);
    assert index * (BPS - off) + BPS - 1 == a;
    if left >= 0 {
      DivUnique(a, BPS, left);
    } else if rest == BPS - 1 {
      DivUnique(-a, BPS, -left);
    } else {
      DivUnique(-a, BPS, -left - 1);
    }
  }

  /**
    * The clamp to the band never bites, at any deviation: a buy's limit is the index moved up by the floored
    * offset, a sell's the index moved down by it, one higher where the offset exceeds the index itself and
    * does not divide.
    */
  lemma LimitPriceIsExact(isLong: bool, index: nat, offsetBps: int, deviationBps: nat)
    ensures var off := EffectiveOffset(offsetBps, deviationBps);
      UnwindLimitPrice(isLong, index, offsetBps, deviationBps)
      == if isLong then index + index * off / BPS else index - index * off / BPS + SellRounding(index, off)
    ensures deviationBps <= BPS ==> SellRounding(index, EffectiveOffset(offsetBps, deviationBps)) == 0
    ensures WithinDeviation(UnwindLimitPrice(isLong, index, offsetBps, deviationBps), index, deviationBps)
  {
    var off := EffectiveOffset(offsetBps, deviationBps);
    MulMono(0, off, index);
    MulMono(off, deviationBps, index);
    assert index * off == off * index && index * deviationBps == deviationBps * index;
    DivMono(index * off, index * deviationBps, BPS);
    DivMono(0, index * off, BPS);
    assert index * (BPS + off) == index * BPS + index * off;
    SellMoves(index, off);
    if deviationBps <= BPS {
      MulMono(off, BPS, index);
      DivMono(index * off, index * BPS, BPS);
    }
    BandIsExact(UnwindLimitPrice(isLong, index, offsetBps, deviationBps), index, deviationBps);
  }

  /** At any deviation a buy's limit stays at or above a positive index, so planning never divides by zero. */
  lemma WorstPricePositive(isLong: bool, index: int, offsetBps: int, deviationBps: nat)
    requires index > 0
    ensures var limitPrice := UnwindLimitPrice(isLong, index, offsetBps, deviationBps);
      WorstFillPrice(isLong, limitPrice, index, deviationBps) >= index
  {
    var off := EffectiveOffset(offsetBps, deviationBps);
    MulMono(0, off, index);
    MulMono(0, deviationBps, index);
    assert index * off == off * index && index * deviationBps == deviationBps * index;
    assert index * (BPS + off) == index * BPS + index * off;
  }

  // ---------------------------------------------------------------- the plan

  function Lookup(m: map<int, Option<int>>, k: int): Option<int> {
    if k in m then m[k] else None
  }

  /** What one open order reserves; without an index, its limit plus the whole band above it. */
  function Reserve(i: PlanInput, o: OpenOrder): int {
    var idx := Lookup(i.index, o.marketId);
    var dev := i.limits.maxDeviationBps;
    var worst :=
      if idx.Some? && idx.value != 0 then WorstFillPrice(o.isLong, o.limitPrice, idx.value, dev)
      else TruncDiv(o.limitPrice * (BPS + dev), BPS);
    TruncDiv(o.remaining * worst, E18) + 1
  }

  function Reserved(i: PlanInput, open: seq<OpenOrder>): int {
    if open == [] then 0 else Reserved(i, open[..|open| - 1]) + Reserve(i, open[|open| - 1])
  }

  function StartBudget(i: PlanInput): int {
    var b := i.limits.maxDailyNotional - i.limits.usedToday - Reserved(i, i.open);
    if b < 0 then 0 else b
  }

  datatype Held = Held(p: Holding, idx: Option<int>)

  function Exposure(h: Held): int {
    if h.idx.Some? && h.idx.value != 0 then Abs(h.p.size) * h.idx.value else 0
  }

  /** Largest exposure first; equal exposures by market id. */
  predicate Larger(a: Held, b: Held) {
    if Exposure(a) == Exposure(b) then a.p.marketId <= b.p.marketId else Exposure(a) > Exposure(b)
  }

  function NonFlat(i: PlanInput, ps: seq<Holding>): seq<Held> {
    if ps == [] then []
    else
      var last := ps[|ps| - 1];
      NonFlat(i, ps[..|ps| - 1])
      + if last.size != 0 then [Held(last, Lookup(i.index, last.marketId))] else []
  }

  function HeldInOrder(i: PlanInput): seq<Held> {
    SortBy(NonFlat(i, i.positions), Larger)
  }

  predicate HasOpenOrder(i: PlanInput, marketId: int) {
    exists k :: 0 <= k < |i.open| && i.open[k].marketId == marketId
  }

  /** floor(cap / worst) in the contract's arithmetic, or the whole position if that is smaller. */
  function SliceSize(held: nat, cap: int, worst: int): nat
    requires cap > 0 && worst > 0
  {
    Min(held, TruncDiv(cap * E18, worst))
  }

  datatype Decision = Skip(reason: SkipReason) | Take(slice: Slice)

  /** What the planner does with one position when `taken` slices are out and `budget` is left. */
  function Decide(i: PlanInput, h: Held, taken: nat, budget: int): Decision {
    if HasOpenOrder(i, h.p.marketId) then Skip(OrderOpen)
    else if h.idx.None? || h.idx.value <= 0 then Skip(StaleIndex)
    else
      var minNotional := Lookup(i.minFillNotional, h.p.marketId);
      if minNotional.None? then Skip(NotConfigured)
      else if taken >= i.maxOrdersPerTick then Skip(TickLimit)
      else
        var isLong := h.p.size < 0;
        var dev := i.limits.maxDeviationBps;
        var limitPrice := UnwindLimitPrice(isLong, h.idx.value, i.priceOffsetBps, dev);
        var worst := WorstFillPrice(isLong, limitPrice, h.idx.value, dev);
        var cap := Min(i.limits.maxFillNotional, budget);
        WorstPricePositive(isLong, h.idx.value, i.priceOffsetBps, dev);
        if cap <= 0 then Skip(NoBudget)
        else
          var size := SliceSize(Abs(h.p.size), cap, worst);
          if size == 0 || TruncDiv(size * limitPrice, E18) < minNotional.value then
            Skip(if size < Abs(h.p.size) then NoBudget else BelowMinNotional)
          else
            Take(Slice(h.p.marketId, isLong, size, limitPrice, h.idx.value, TruncDiv(size * worst, E18)))
  }

  datatype Progress = Progress(slices: seq<Slice>, skipped: seq<Skipped>, budget: int)

  function Advance(i: PlanInput, s: Progress, h: Held): Progress {
    match Decide(i, h, |s.slices|, s.budget)
    case Skip(reason) => s.(skipped := s.skipped + [Skipped(h.p.marketId, reason)])
    case Take(slice) =>
      s.(slices := s.slices + [slice], budget := s.budget - (slice.worstNotional + 1))
  }

  function Walk(i: PlanInput, hs: seq<Held>): Progress {
    if hs == [] then Progress([], [], StartBudget(i))
    else Advance(i, Walk(i, hs[..|hs| - 1]), hs[|hs| - 1])
  }

  function PlanFor(i: PlanInput): Plan {
    var s := Walk(i, HeldInOrder(i));
    Plan(s.slices, s.skipped, StartBudget(i))
  }

  /** The planner as it runs: two loops over mutable totals. */
  method PlanUnwind(i: PlanInput) returns (plan: Plan)
    ensures plan == PlanFor(i)
  {
    hide HasOpenOrder, WorstFillPrice, UnwindLimitPrice, TruncDiv, SliceSize, Larger;
    var dev := i.limits.maxDeviationBps;
    var reserved := 0;
    for k := 0 to |i.open|
      invariant reserved == Reserved(i, i.open[..k])
    {
      var o := i.open[k];
      var idx := Lookup(i.index, o.marketId);
      var worst;
      if idx.Some? && idx.value != 0 {
        worst := WorstFillPrice(o.isLong, o.limitPrice, idx.value, dev);
      } else {
        worst := TruncDiv(o.limitPrice * (BPS + dev), BPS);
      }
      assert i.open[..k + 1][..k] == i.open[..k];
      reserved := reserved + (TruncDiv(o.remaining * worst, E18) + 1);
    }
    assert i.open[..|i.open|] == i.open;
    var budget := i.limits.maxDailyNotional - i.limits.usedToday - reserved;
    if budget < 0 { budget := 0; }
    var slices: seq<Slice>, skipped: seq<Skipped> := [], [];
    var shown := budget;

    var held := HeldInOrder(i);
    for k := 0 to |held|
      invariant Progress(slices, skipped, budget) == Walk(i, held[..k])
    {
      var h := held[k];
      assert held[..k + 1][..k] == held[..k];
      assert Walk(i, held[..k + 1]) == Advance(i, Progress(slices, skipped, budget), h);
      if HasOpenOrder(i, h.p.marketId) {
        skipped := skipped + [Skipped(h.p.marketId, OrderOpen)];
        continue;
      }
      if h.idx.None? || h.idx.value <= 0 {
        skipped := skipped + [Skipped(h.p.marketId, StaleIndex)];
        continue;
      }
      var minNotional := Lookup(i.minFillNotional, h.p.marketId);
      if minNotional.None? {
        skipped := skipped + [Skipped(h.p.marketId, NotConfigured)];
        continue;
      }
      if |slices| >= i.maxOrdersPerTick {
        skipped := skipped + [Skipped(h.p.marketId, TickLimit)];
        continue;
      }
      var isLong := h.p.size < 0;
      var limitPrice := UnwindLimitPrice(isLong, h.idx.value, i.priceOffsetBps, dev);
      var worst := WorstFillPrice(isLong, limitPrice, h.idx.value, dev);
      var cap := Min(i.limits.maxFillNotional, budget);
      if cap <= 0 {
        skipped := skipped + [Skipped(h.p.marketId, NoBudget)];
        continue;
      }
      WorstPricePositive(isLong, h.idx.value, i.priceOffsetBps, dev);
      var size := SliceSize(Abs(h.p.size), cap, worst);
      var worstNotional := TruncDiv(size * worst, E18);
      if size == 0 || TruncDiv(size * limitPrice, E18) < minNotional.value {
        skipped := skipped + [Skipped(h.p.marketId, if size < Abs(h.p.size) then NoBudget else BelowMinNotional)];
        continue;
      }
      slices := slices + [Slice(h.p.marketId, isLong, size, limitPrice, h.idx.value, worstNotional)];
      budget := budget - (worstNotional + 1);
    }
    assert held[..|held|] == held;
    plan := Plan(slices, skipped, shown);
  }

  // ---------------------------------------------------------------- what a slice is

  /** A slice closes part of one held position, inside every limit, and could not have been larger. */
  ghost predicate SoundSlice(i: PlanInput, s: Slice) {
    && !HasOpenOrder(i, s.marketId)
    && s.index > 0 && Lookup(i.index, s.marketId) == Some(s.index)
    && s.limitPrice == UnwindLimitPrice(s.isLong, s.index, i.priceOffsetBps, i.limits.maxDeviationBps)
    && Lookup(i.minFillNotional, s.marketId).Some?
    && TruncDiv(s.size * s.limitPrice, E18) >= Lookup(i.minFillNotional, s.marketId).value
    && s.worstNotional == s.size * SliceWorst(i, s) / E18
    && 0 <= s.worstNotional <= i.limits.maxFillNotional
    && exists p :: p in i.positions && Closes(p, s)
  }

  /** Reduce-only: opposite side, and no larger than what is held. */
  predicate Closes(p: Holding, s: Slice) {
    && p.marketId == s.marketId
    && (if s.isLong then 0 < s.size <= -p.size else 0 < s.size <= p.size)
  }

  function SliceWorst(i: PlanInput, s: Slice): int {
    WorstFillPrice(s.isLong, s.limitPrice, s.index, i.limits.maxDeviationBps)
  }

  lemma {:induction false} NonFlatMembers(i: PlanInput, ps: seq<Holding>, h: Held)
    requires h in NonFlat(i, ps)
    ensures h.p in ps && h.p.size != 0 && h.idx == Lookup(i.index, h.p.marketId)
  {
    if ps != [] && h in NonFlat(i, ps[..|ps| - 1]) {
      NonFlatMembers(i, ps[..|ps| - 1], h);
    }
  }

  lemma HeldMembers(i: PlanInput, h: Held)
    requires h in HeldInOrder(i)
    ensures h.p in i.positions && h.p.size != 0 && h.idx == Lookup(i.index, h.p.marketId)
  {
    SortMembers(NonFlat(i, i.positions), Larger);
    NonFlatMembers(i, i.positions, h);
  }

  /** The size chosen is the largest the position and the cap allow, in the contract's arithmetic. */
  lemma TakenSlice(i: PlanInput, h: Held, taken: nat, budget: int)
    requires h.p in i.positions && h.p.size != 0 && h.idx == Lookup(i.index, h.p.marketId)
    requires Decide(i, h, taken, budget).Take?
    ensures var s := Decide(i, h, taken, budget).slice;
      && SoundSlice(i, s) && s.marketId == h.p.marketId
      && s.worstNotional <= budget && taken < i.maxOrdersPerTick
      && (s.size == Abs(h.p.size)
          || (s.size + 1) * SliceWorst(i, s) > Min(i.limits.maxFillNotional, budget) * E18)
  {
    var s := Decide(i, h, taken, budget).slice;
    var worst, cap := SliceWorst(i, s), Min(i.limits.maxFillNotional, budget);
    WorstPricePositive(s.isLong, s.index, i.priceOffsetBps, i.limits.maxDeviationBps);
    TruncDivNonNegative(cap * E18, worst);
    var most := TruncDiv(cap * E18, worst);
    assert most >= 0 by { if most < 0 { MulMono(most + 1, 0, worst); } }
    MulMono(s.size, most, worst);
    MulMono(0, s.size, worst);
    DivMono(s.size * worst, cap * E18, E18);
    DivMono(0, s.size * worst, E18);
    assert Closes(h.p, s);
  }

  /** Everything the walk promises after any prefix of the held positions. */
  ghost predicate WalkSound(i: PlanInput, s: Progress) {
    && (forall k :: 0 <= k < |s.slices| ==> SoundSlice(i, s.slices[k]))
    && |s.slices| <= Max(0, i.maxOrdersPerTick)
    && WorstSum(s.slices) + |s.slices| + s.budget == StartBudget(i)
    && s.budget >= -1
  }

  function WorstSum(slices: seq<Slice>): int {
    if slices == [] then 0
    else WorstSum(slices[..|slices| - 1]) + slices[|slices| - 1].worstNotional
  }

  lemma {:induction false} WalkIsSound(i: PlanInput, hs: seq<Held>)
    requires forall h <- hs :: h in HeldInOrder(i)
    ensures WalkSound(i, Walk(i, hs))
  {
    if hs != [] {
      var before, h := hs[..|hs| - 1], hs[|hs| - 1];
      WalkIsSound(i, before);
      var s := Walk(i, before);
      assert h in hs;
      HeldMembers(i, h);
      var d := Decide(i, h, |s.slices|, s.budget);
      if d.Take? {
        TakenSlice(i, h, |s.slices|, s.budget);
        assert (s.slices + [d.slice])[..|s.slices|] == s.slices;
      }
    }
  }

  /** Every slice is sound, and there are never more than the tick allows. */
  lemma SlicesAreSound(i: PlanInput)
    ensures forall k :: 0 <= k < |PlanFor(i).slices| ==> SoundSlice(i, PlanFor(i).slices[k])
    ensures |PlanFor(i).slices| <= Max(0, i.maxOrdersPerTick)
  {
    WalkIsSound(i, HeldInOrder(i));
  }

  lemma LargerOrder()
    ensures TotalPreorder(Larger)
  {
    hide Exposure;
  }

  /** Positions are planned largest exposure first, so the budget and the tick's slots go to the largest. */
  lemma LargestFirst(i: PlanInput)
    ensures forall j, k :: 0 <= j < k < |HeldInOrder(i)| ==> Exposure(HeldInOrder(i)[j]) >= Exposure(HeldInOrder(i)[k])
  {
    LargerOrder();
    SortSorted(NonFlat(i, i.positions), Larger);
    var held := HeldInOrder(i);
    hide Exposure, HeldInOrder;
    forall j, k | 0 <= j < k < |held| ensures Exposure(held[j]) >= Exposure(held[k]) {
      assert Larger(held[j], held[k]);
    }
  }

  // ---------------------------------------------------------------- why a position is skipped

  predicate Readable(i: PlanInput, marketId: int) {
    Lookup(i.index, marketId).Some? && Lookup(i.index, marketId).value > 0
  }

  /** The largest slice of the position that fits the caps, when something is left to spend. */
  function Affordable(i: PlanInput, p: Holding, budget: int): nat
    requires Readable(i, p.marketId) && Min(i.limits.maxFillNotional, budget) > 0
  {
    var isLong, index, dev := p.size < 0, Lookup(i.index, p.marketId).value, i.limits.maxDeviationBps;
    var limitPrice := UnwindLimitPrice(isLong, index, i.priceOffsetBps, dev);
    WorstPricePositive(isLong, index, i.priceOffsetBps, dev);
    SliceSize(Abs(p.size), Min(i.limits.maxFillNotional, budget), WorstFillPrice(isLong, limitPrice, index, dev))
  }

  /** A slice of this size would be refused: nothing, or worth less than the market's minimum at its limit price. */
  predicate TooSmall(i: PlanInput, p: Holding, size: nat)
    requires Readable(i, p.marketId) && Lookup(i.minFillNotional, p.marketId).Some?
  {
    var index := Lookup(i.index, p.marketId).value;
    var limitPrice := UnwindLimitPrice(p.size < 0, index, i.priceOffsetBps, i.limits.maxDeviationBps);
    size == 0 || TruncDiv(size * limitPrice, E18) < Lookup(i.minFillNotional, p.marketId).value
  }

  /** Nothing left to spend, or too little for a slice worth posting while the position is larger. */
  predicate OutOfBudget(i: PlanInput, p: Holding, budget: int)
    requires Readable(i, p.marketId) && Lookup(i.minFillNotional, p.marketId).Some?
  {
    Min(i.limits.maxFillNotional, budget) <= 0
    || (Affordable(i, p, budget) < Abs(p.size) && TooSmall(i, p, Affordable(i, p, budget)))
  }

  /** What each reason says of a position, with `taken` slices out and `budget` left when it was considered. */
  predicate Cause(i: PlanInput, p: Holding, reason: SkipReason, taken: nat, budget: int) {
    var m := p.marketId;
    (reason.OrderOpen? <==> HasOpenOrder(i, m))
    && (reason.StaleIndex? <==> !HasOpenOrder(i, m) && !Readable(i, m))
    && (reason.NotConfigured? <==> !HasOpenOrder(i, m) && Readable(i, m) && Lookup(i.minFillNotional, m).None?)
    && (reason.TickLimit? ==> taken >= i.maxOrdersPerTick)
    && (reason.NoBudget? || reason.BelowMinNotional? ==>
          (taken < i.maxOrdersPerTick && Readable(i, m) && Lookup(i.minFillNotional, m).Some?
           && if reason.BelowMinNotional? then TooSmall(i, p, Abs(p.size)) else OutOfBudget(i, p, budget)))
  }

  lemma DecidedForCause(i: PlanInput, h: Held, taken: nat, budget: int)
    requires h.idx == Lookup(i.index, h.p.marketId) && Decide(i, h, taken, budget).Skip?
    ensures Cause(i, h.p, Decide(i, h, taken, budget).reason, taken, budget)
  {
    hide UnwindLimitPrice, WorstFillPrice, TruncDiv, HasOpenOrder;
  }

  function Weight(i: PlanInput, p: Holding): int {
    Exposure(Held(p, Lookup(i.index, p.marketId)))
  }

  /** The slice closes a position at least (or at most) as exposed as p. */
  ghost predicate ClosesBeside(i: PlanInput, s: Slice, p: Holding, larger: bool) {
    exists q :: q in i.positions && Closes(q, s)
      && if larger then Weight(i, q) >= Weight(i, p) else Weight(i, q) <= Weight(i, p)
  }

  /** p came up once `taken` slices were out: those close positions no less exposed, the later ones no more. */
  ghost predicate ConsideredAfter(i: PlanInput, p: Holding, slices: seq<Slice>, taken: nat) {
    taken <= |slices| && forall k :: 0 <= k < |slices| ==> ClosesBeside(i, slices[k], p, k < taken)
  }

  /** The day's budget less what the slices so far reserve, one wei of rounding each. */
  function BudgetAfter(i: PlanInput, slices: seq<Slice>): int {
    StartBudget(i) - WorstSum(slices) - |slices|
  }

  /** The skip names a held position, and its reason holds of the plan as it stood when that position came up. */
  ghost predicate SkippedWell(i: PlanInput, s: Skipped, slices: seq<Slice>) {
    exists p, taken: nat :: SkippedAfter(i, s, slices, p, taken)
  }

  ghost predicate SkippedAfter(i: PlanInput, s: Skipped, slices: seq<Slice>, p: Holding, taken: nat) {
    && p in i.positions && p.size != 0 && p.marketId == s.marketId
    && ConsideredAfter(i, p, slices, taken)
    && Cause(i, p, s.reason, taken, BudgetAfter(i, slices[..taken]))
  }

  lemma WalkSnoc(i: PlanInput, hs: seq<Held>, j: nat)
    requires j < |hs|
    ensures Walk(i, hs[..j + 1]) == Advance(i, Walk(i, hs[..j]), hs[j])
  {
    assert hs[..j + 1][..j] == hs[..j];
  }

  lemma {:induction false} WalkGrows(i: PlanInput, hs: seq<Held>, j: nat, m: nat)
    requires j <= m <= |hs|
    ensures Walk(i, hs[..j]).slices <= Walk(i, hs[..m]).slices
  {
    if j < m {
      hide Decide;
      WalkGrows(i, hs, j, m - 1);
      WalkSnoc(i, hs, m - 1);
    }
  }

  /** The k-th skip was decided at some step j of the walk. */
  lemma {:induction false} SkipDecidedAt(i: PlanInput, hs: seq<Held>, m: nat, k: nat) returns (j: nat)
    requires m <= |hs| && k < |Walk(i, hs[..m]).skipped|
    ensures j < m
    ensures var s := Walk(i, hs[..j]); var d := Decide(i, hs[j], |s.slices|, s.budget);
      d.Skip? && Walk(i, hs[..m]).skipped[k] == Skipped(hs[j].p.marketId, d.reason)
  {
    hide Decide;
    WalkSnoc(i, hs, m - 1);
    if k < |Walk(i, hs[..m - 1]).skipped| {
      j := SkipDecidedAt(i, hs, m - 1, k);
    } else {
      j := m - 1;
    }
  }

  /** The k-th slice was taken at the step j with k slices out before it. */
  lemma {:induction false} SliceTakenAt(i: PlanInput, hs: seq<Held>, m: nat, k: nat) returns (j: nat)
    requires m <= |hs| && k < |Walk(i, hs[..m]).slices|
    ensures j < m
    ensures var s := Walk(i, hs[..j]); var d := Decide(i, hs[j], |s.slices|, s.budget);
      d.Take? && k == |s.slices| && Walk(i, hs[..m]).slices[k] == d.slice
  {
    hide Decide;
    WalkSnoc(i, hs, m - 1);
    if k < |Walk(i, hs[..m - 1]).slices| {
      j := SliceTakenAt(i, hs, m - 1, k);
    } else {
      j := m - 1;
    }
  }

  lemma SliceCloses(i: PlanInput, h: Held, taken: nat, budget: int)
    requires h.p.size != 0 && h.idx == Lookup(i.index, h.p.marketId) && h.p in i.positions
    requires Decide(i, h, taken, budget).Take?
    ensures Closes(h.p, Decide(i, h, taken, budget).slice)
  {
    TakenSlice(i, h, taken, budget);
    hide SoundSlice, UnwindLimitPrice, WorstFillPrice, TruncDiv, HasOpenOrder;
  }

  /** Slices before step j of the walk close positions sorted before it, the others positions sorted after. */
  lemma SliceBeside(i: PlanInput, j: nat, k: nat)
    requires j < |HeldInOrder(i)| && k < |PlanFor(i).slices|
    requires var s := Walk(i, HeldInOrder(i)[..j]); Decide(i, HeldInOrder(i)[j], |s.slices|, s.budget).Skip?
    ensures ClosesBeside(i, PlanFor(i).slices[k], HeldInOrder(i)[j].p, k < |Walk(i, HeldInOrder(i)[..j]).slices|)
  {
    hide Decide, Closes, Exposure;
    var held := HeldInOrder(i);
    assert held[..|held|] == held;
    var at := SliceTakenAt(i, held, |held|, k);
    var s := Walk(i, held[..at]);
    assert held[at] in held && held[j] in held;
    HeldMembers(i, held[at]);
    HeldMembers(i, held[j]);
    SliceCloses(i, held[at], k, s.budget);
    LargestFirst(i);
    if k < |Walk(i, held[..j]).slices| {
      if at >= j { WalkGrows(i, held, j, at); }
      assert at < j;
    } else {
      if at < j {
        WalkSnoc(i, held, at);
        WalkGrows(i, held, at + 1, j);
      }
      assert at >= j;
    }
    assert Weight(i, held[at].p) == Exposure(held[at]) && Weight(i, held[j].p) == Exposure(held[j]);
  }

  /**
   * Every skip names a held position and the true reason: the gates in order, the slots used up, or too little
   * of the day left after the slices of the larger positions. The plan itself fixes how much that was.
   */
  lemma SkippedForCause(i: PlanInput, k: nat)
    requires k < |PlanFor(i).skipped|
    ensures SkippedWell(i, PlanFor(i).skipped[k], PlanFor(i).slices)
  {
    hide Decide, Cause, Closes, Exposure, ClosesBeside;
    var held, plan := HeldInOrder(i), PlanFor(i);
    assert held[..|held|] == held;
    var j := SkipDecidedAt(i, held, |held|, k);
    var s := Walk(i, held[..j]);
    var taken := |s.slices|;
    assert held[j] in held;
    HeldMembers(i, held[j]);
    forall h | h in held[..j] ensures h in HeldInOrder(i) {}
    WalkIsSound(i, held[..j]);
    WalkGrows(i, held, j, |held|);
    assert plan.slices[..taken] == s.slices;
    assert BudgetAfter(i, plan.slices[..taken]) == s.budget;
    DecidedForCause(i, held[j], taken, s.budget);
    forall q: nat | q < |plan.slices| ensures ClosesBeside(i, plan.slices[q], held[j].p, q < taken) {
      SliceBeside(i, j, q);
    }
    assert SkippedAfter(i, plan.skipped[k], plan.slices, held[j].p, taken);
  }

  // ---------------------------------------------------------------- every position accounted for

  function SliceMarkets(slices: seq<Slice>): multiset<int> {
    if slices == [] then multiset{}
    else SliceMarkets(slices[..|slices| - 1]) + multiset{slices[|slices| - 1].marketId}
  }

  function SkipMarkets(skipped: seq<Skipped>): multiset<int> {
    if skipped == [] then multiset{}
    else SkipMarkets(skipped[..|skipped| - 1]) + multiset{skipped[|skipped| - 1].marketId}
  }

  function HeldMarkets(hs: seq<Held>): multiset<int> {
    if hs == [] then multiset{} else multiset{hs[0].p.marketId} + HeldMarkets(hs[1..])
  }

  function NonFlatMarkets(ps: seq<Holding>): multiset<int> {
    if ps == [] then multiset{}
    else
      var last := ps[|ps| - 1];
      NonFlatMarkets(ps[..|ps| - 1]) + if last.size != 0 then multiset{last.marketId} else multiset{}
  }

  lemma {:induction false} HeldMarketsSnoc(hs: seq<Held>, h: Held)
    ensures HeldMarkets(hs + [h]) == HeldMarkets(hs) + multiset{h.p.marketId}
  {
    if hs == [] {
      assert [h][1..] == [];
      assert hs + [h] == [h];
    } else {
      assert (hs + [h])[1..] == hs[1..] + [h];
      HeldMarketsSnoc(hs[1..], h);
    }
  }

  lemma {:induction false} HeldMarketsInsert(h: Held, s: seq<Held>)
    ensures HeldMarkets(Insert(h, s, Larger)) == HeldMarkets(s) + multiset{h.p.marketId}
  {
    var r := Insert(h, s, Larger);
    if s == [] {
      assert r[1..] == s;
    } else if Larger(h, s[0]) {
      assert r[1..] == s;
    } else {
      assert r[1..] == Insert(h, s[1..], Larger);
      HeldMarketsInsert(h, s[1..]);
    }
  }

  lemma {:induction false} HeldMarketsSort(s: seq<Held>)
    ensures HeldMarkets(SortBy(s, Larger)) == HeldMarkets(s)
  {
    if s != [] {
      HeldMarketsSort(s[1..]);
      HeldMarketsInsert(s[0], SortBy(s[1..], Larger));
    }
  }

  lemma {:induction false} NonFlatMarketsHeld(i: PlanInput, ps: seq<Holding>)
    ensures HeldMarkets(NonFlat(i, ps)) == NonFlatMarkets(ps)
  {
    if ps != [] {
      NonFlatMarketsHeld(i, ps[..|ps| - 1]);
      var before, last := NonFlat(i, ps[..|ps| - 1]), ps[|ps| - 1];
      if last.size != 0 {
        HeldMarketsSnoc(before, Held(last, Lookup(i.index, last.marketId)));
      } else {
        assert NonFlat(i, ps) == before;
      }
    }
  }

  function Placed(s: Progress): multiset<int> {
    SliceMarkets(s.slices) + SkipMarkets(s.skipped)
  }

  lemma AdvanceMarkets(i: PlanInput, s: Progress, h: Held)
    ensures Placed(Advance(i, s, h)) == Placed(s) + multiset{h.p.marketId}
  {
    var d := Decide(i, h, |s.slices|, s.budget);
    if d.Take? {
      assert d.slice.marketId == h.p.marketId;
      assert (s.slices + [d.slice])[..|s.slices|] == s.slices;
    } else {
      assert (s.skipped + [Skipped(h.p.marketId, d.reason)])[..|s.skipped|] == s.skipped;
    }
  }

  lemma WalkMarkets(i: PlanInput, before: seq<Held>, h: Held)
    ensures Placed(Walk(i, before + [h])) == Placed(Walk(i, before)) + multiset{h.p.marketId}
  {
    var hs := before + [h];
    assert hs[..|hs| - 1] == before && hs[|hs| - 1] == h;
    AdvanceMarkets(i, Walk(i, before), h);
  }

  lemma {:induction false} WalkPartitions(i: PlanInput, hs: seq<Held>)
    ensures Placed(Walk(i, hs)) == HeldMarkets(hs)
  {
    if hs == [] {
      assert Placed(Walk(i, [])) == multiset{};
    } else {
      var before, h := hs[..|hs| - 1], hs[|hs| - 1];
      assert hs == before + [h];
      WalkPartitions(i, before);
      WalkMarkets(i, before, h);
      HeldMarketsSnoc(before, h);
    }
  }

  /** Each non-zero position ends up in exactly one of the two lists, once. */
  lemma EveryPositionOnce(i: PlanInput)
    ensures SliceMarkets(PlanFor(i).slices) + SkipMarkets(PlanFor(i).skipped) == NonFlatMarkets(i.positions)
  {
    WalkPartitions(i, HeldInOrder(i));
    HeldMarketsSort(NonFlat(i, i.positions));
    NonFlatMarketsHeld(i, i.positions);
  }

  // ---------------------------------------------------------------- fills that follow the plan

  /** An order on the book, open before the tick or posted by it, with the index its fills are judged at. */
  datatype Line = Line(isLong: bool, limitPrice: int, index: nat, remaining: nat)

  datatype PartialFill = PartialFill(line: nat, qty: nat, price: nat)

  function FillNotional(f: PartialFill): nat { f.qty * f.price / E18 }

  function LineWorst(l: Line, dev: nat): int {
    WorstFillPrice(l.isLong, l.limitPrice, l.index, dev)
  }

  /** The gateway respects the order's limit and Insurance the deviation. */
  predicate Admissible(lines: seq<Line>, dev: nat, f: PartialFill) {
    && f.line < |lines|
    && WithinDeviation(f.price, lines[f.line].index, dev)
    && if lines[f.line].isLong then f.price <= lines[f.line].limitPrice
       else f.price >= lines[f.line].limitPrice
  }

  function LineQty(fills: seq<PartialFill>, k: nat): nat {
    if fills == [] then 0
    else
      var f := fills[|fills| - 1];
      LineQty(fills[..|fills| - 1], k) + if f.line == k then f.qty else 0
  }

  function LineTotal(fills: seq<PartialFill>, k: nat): nat {
    if fills == [] then 0
    else
      var f := fills[|fills| - 1];
      LineTotal(fills[..|fills| - 1], k) + if f.line == k then FillNotional(f) else 0
  }

  function Total(fills: seq<PartialFill>): nat {
    if fills == [] then 0 else Total(fills[..|fills| - 1]) + FillNotional(fills[|fills| - 1])
  }

  /** Any interleaving of partial fills, as long as no order is filled beyond what remains of it. */
  ghost predicate ValidRun(lines: seq<Line>, dev: nat, fills: seq<PartialFill>) {
    && (forall f <- fills :: Admissible(lines, dev, f))
    && (forall k :: 0 <= k < |lines| ==> LineQty(fills, k) <= lines[k].remaining)
  }

  lemma AdmissiblePrice(lines: seq<Line>, dev: nat, f: PartialFill)
    requires Admissible(lines, dev, f)
    ensures f.price <= LineWorst(lines[f.line], dev)
  {
    BandIsExact(f.price, lines[f.line].index, dev);
  }

  lemma OneMoreFill(q: nat, qty: nat, price: nat, worst: int, total: nat)
    requires price <= worst && total <= q * worst / E18
    ensures total + qty * price / E18 <= (q + qty) * worst / E18
  {
    MulMono(price, worst, qty);
    assert price * qty == qty * price && worst * qty == qty * worst;
    DivMono(qty * price, qty * worst, E18);
    DivSuperadditive(q * worst, qty * worst, E18);
    assert (q + qty) * worst == q * worst + qty * worst;
  }

  /** Truncating each fill separately never makes a line cost more than filling it at once at the worst price. */
  lemma {:induction false} LineBound(lines: seq<Line>, dev: nat, fills: seq<PartialFill>, k: nat)
    requires k < |lines| && forall f <- fills :: Admissible(lines, dev, f)
    ensures LineTotal(fills, k) <= LineQty(fills, k) * LineWorst(lines[k], dev) / E18
  {
    if fills != [] {
      var before, f := fills[..|fills| - 1], fills[|fills| - 1];
      assert f in fills && forall g <- before :: g in fills;
      LineBound(lines, dev, before, k);
      if f.line == k {
        AdmissiblePrice(lines, dev, f);
        OneMoreFill(LineQty(before, k), f.qty, f.price, LineWorst(lines[k], dev), LineTotal(before, k));
      }
    } else {
      assert 0 * LineWorst(lines[k], dev) == 0;
    }
  }

  function LineTotals(fills: seq<PartialFill>, n: nat): nat {
    if n == 0 then 0 else LineTotals(fills, n - 1) + LineTotal(fills, n - 1)
  }

  lemma {:induction false} LineTotalsExtend(fills: seq<PartialFill>, n: nat)
    requires fills != []
    ensures LineTotals(fills, n) == LineTotals(fills[..|fills| - 1], n)
      + if fills[|fills| - 1].line < n then FillNotional(fills[|fills| - 1]) else 0
  {
    if n > 0 { LineTotalsExtend(fills, n - 1); }
  }

  lemma {:induction false} LineTotalsEmpty(n: nat)
    ensures LineTotals([], n) == 0
  {
    if n > 0 { LineTotalsEmpty(n - 1); }
  }

  lemma {:induction false} TotalByLine(fills: seq<PartialFill>, n: nat)
    requires forall f <- fills :: f.line < n
    ensures Total(fills) == LineTotals(fills, n)
  {
    if fills == [] {
      LineTotalsEmpty(n);
    } else {
      assert fills[|fills| - 1] in fills;
      TotalByLine(fills[..|fills| - 1], n);
      LineTotalsExtend(fills, n);
    }
  }

  function WorstOf(l: Line, dev: nat): int {
    l.remaining * LineWorst(l, dev) / E18
  }

  function WorstOfAll(lines: seq<Line>, dev: nat): int {
    if lines == [] then 0
    else WorstOfAll(lines[..|lines| - 1], dev) + WorstOf(lines[|lines| - 1], dev)
  }

  predicate Fillable(l: Line, dev: nat) {
    && WithinDeviation(LineWorst(l, dev), l.index, dev)
    && 0 <= LineWorst(l, dev)
    && (l.isLong || LineWorst(l, dev) >= l.limitPrice)
  }

  lemma {:induction false} TotalsAtMostWorst(lines: seq<Line>, dev: nat, fills: seq<PartialFill>, n: nat)
    requires ValidRun(lines, dev, fills) && n <= |lines|
    requires forall l <- lines :: LineWorst(l, dev) >= 0
    ensures LineTotals(fills, n) <= WorstOfAll(lines[..n], dev)
  {
    if n > 0 {
      var l := lines[n - 1];
      TotalsAtMostWorst(lines, dev, fills, n - 1);
      assert lines[..n][..n - 1] == lines[..n - 1];
      LineBound(lines, dev, fills, n - 1);
      MulMono(LineQty(fills, n - 1), l.remaining, LineWorst(l, dev));
      DivMono(LineQty(fills, n - 1) * LineWorst(l, dev), l.remaining * LineWorst(l, dev), E18);
    }
  }

  lemma RunAtMostWorst(lines: seq<Line>, dev: nat, fills: seq<PartialFill>)
    requires ValidRun(lines, dev, fills)
    requires forall l <- lines :: LineWorst(l, dev) >= 0
    ensures Total(fills) <= WorstOfAll(lines, dev)
  {
    forall f | f in fills ensures f.line < |lines| { assert Admissible(lines, dev, f); }
    TotalByLine(fills, |lines|);
    TotalsAtMostWorst(lines, dev, fills, |lines|);
    assert lines[..|lines|] == lines;
  }

  /** Every line filled whole at its worst price. */
  function FullRun(lines: seq<Line>, dev: nat): (r: seq<PartialFill>)
    requires forall l <- lines :: Fillable(l, dev)
    ensures |r| == |lines|
  {
    if lines == [] then []
    else
      var n := |lines| - 1;
      assert Fillable(lines[n], dev);
      FullRun(lines[..n], dev) + [PartialFill(n, lines[n].remaining, LineWorst(lines[n], dev))]
  }

  lemma {:induction false} FullRunFacts(lines: seq<Line>, dev: nat, k: nat)
    requires forall l <- lines :: Fillable(l, dev)
    ensures Total(FullRun(lines, dev)) == WorstOfAll(lines, dev)
    ensures LineQty(FullRun(lines, dev), k) == if k < |lines| then lines[k].remaining else 0
    ensures forall f <- FullRun(lines, dev) :: Admissible(lines, dev, f)
  {
    if lines != [] {
      var n := |lines| - 1;
      var before := FullRun(lines[..n], dev);
      FullRunFacts(lines[..n], dev, k);
      assert FullRun(lines, dev)[..n] == before;
      assert Fillable(lines[n], dev) by { assert lines[n] in lines; }
      forall f | f in FullRun(lines, dev) ensures Admissible(lines, dev, f) {
        if f in before { assert Admissible(lines[..n], dev, f); }
      }
    }
  }

  /** A daily cap survives every run of partial fills exactly when it covers each line's worst case. */
  lemma CapHoldsIff(lines: seq<Line>, dev: nat, used: int, cap: int)
    requires forall l <- lines :: Fillable(l, dev)
    ensures (forall fills :: ValidRun(lines, dev, fills) ==> used + Total(fills) <= cap)
            <==> used + WorstOfAll(lines, dev) <= cap
  {
    var full := FullRun(lines, dev);
    FullRunFacts(lines, dev, 0);
    forall k | 0 <= k < |lines| ensures LineQty(full, k) <= lines[k].remaining {
      FullRunFacts(lines, dev, k);
    }
    assert ValidRun(lines, dev, full);
    forall fills | ValidRun(lines, dev, fills) ensures Total(fills) <= WorstOfAll(lines, dev) {
      RunAtMostWorst(lines, dev, fills);
    }
  }

  // ---------------------------------------------------------------- the daily cap over runs

  function OpenLine(i: PlanInput, o: OpenOrder): Line
    requires Readable(i, o.marketId)
  {
    Line(o.isLong, o.limitPrice, Lookup(i.index, o.marketId).value, o.remaining)
  }

  function OpenLines(i: PlanInput, open: seq<OpenOrder>): (r: seq<Line>)
    requires forall o <- open :: Readable(i, o.marketId)
    ensures |r| == |open|
  {
    if open == [] then []
    else OpenLines(i, open[..|open| - 1]) + [OpenLine(i, open[|open| - 1])]
  }

  function SliceLines(slices: seq<Slice>): (r: seq<Line>)
    ensures |r| == |slices|
  {
    if slices == [] then []
    else
      var s := slices[|slices| - 1];
      SliceLines(slices[..|slices| - 1]) + [Line(s.isLong, s.limitPrice, s.index, s.size)]
  }

  lemma {:induction false} WorstOfAllAppend(a: seq<Line>, b: seq<Line>, dev: nat)
    ensures WorstOfAll(a + b, dev) == WorstOfAll(a, dev) + WorstOfAll(b, dev)
  {
    if b == [] {
      assert a + b == a;
    } else {
      assert (a + b)[..|a + b| - 1] == a + b[..|b| - 1];
      WorstOfAllAppend(a, b[..|b| - 1], dev);
    }
  }

  lemma NonNegativeWorst(isLong: bool, limitPrice: int, index: nat, dev: nat)
    requires limitPrice >= 0
    ensures WorstFillPrice(isLong, limitPrice, index, dev) >= 0
  {
    MulMono(0, dev, index);
    assert index * dev == dev * index;
  }

  lemma {:induction false} OpenWorst(i: PlanInput, open: seq<OpenOrder>)
    requires forall o <- open :: Readable(i, o.marketId)
    ensures WorstOfAll(OpenLines(i, open), i.limits.maxDeviationBps) + |open| == Reserved(i, open)
    ensures forall l <- OpenLines(i, open) :: LineWorst(l, i.limits.maxDeviationBps) >= 0
  {
    if open != [] {
      var before, o := open[..|open| - 1], open[|open| - 1];
      assert o in open;
      OpenWorst(i, before);
      assert OpenLines(i, open)[..|before|] == OpenLines(i, before);
      NonNegativeWorst(o.isLong, o.limitPrice, Lookup(i.index, o.marketId).value, i.limits.maxDeviationBps);
      var worst := LineWorst(OpenLine(i, o), i.limits.maxDeviationBps);
      MulMono(0, o.remaining, worst);
      TruncDivNonNegative(o.remaining * worst, E18);
    }
  }

  /** A slice carries the worst case of its own line. */
  predicate Priced(i: PlanInput, s: Slice) {
    && var l := Line(s.isLong, s.limitPrice, s.index, s.size);
       LineWorst(l, i.limits.maxDeviationBps) >= 0
       && WorstOf(l, i.limits.maxDeviationBps) == s.worstNotional >= 0
  }

  lemma SoundSliceIsPriced(i: PlanInput, s: Slice)
    requires SoundSlice(i, s)
    ensures Priced(i, s)
  {
    WorstPricePositive(s.isLong, s.index, i.priceOffsetBps, i.limits.maxDeviationBps);
  }

  lemma {:induction false} SliceWorstSum(i: PlanInput, slices: seq<Slice>)
    requires forall s <- slices :: Priced(i, s)
    ensures WorstOfAll(SliceLines(slices), i.limits.maxDeviationBps) == WorstSum(slices) >= 0
    ensures forall l <- SliceLines(slices) :: LineWorst(l, i.limits.maxDeviationBps) >= 0
  {
    if slices != [] {
      var before, s := slices[..|slices| - 1], slices[|slices| - 1];
      assert s in slices;
      SliceWorstSum(i, before);
      assert SliceLines(slices)[..|before|] == SliceLines(before);
    }
  }

  /** The book after the tick: what was open, then the slices just planned. */
  function Book(i: PlanInput): (r: seq<Line>)
    requires forall o <- i.open :: Readable(i, o.marketId)
    ensures |r| == |i.open| + |PlanFor(i).slices|
  {
    SlicesAreSound(i);
    OpenLines(i, i.open) + SliceLines(PlanFor(i).slices)
  }

  /** If the tick posts anything, today's usage plus the whole book's worst case fits the daily cap. */
  lemma BookFitsDay(i: PlanInput)
    requires forall o <- i.open :: Readable(i, o.marketId)
    requires PlanFor(i).slices != []
    ensures i.limits.usedToday + WorstOfAll(Book(i), i.limits.maxDeviationBps) <= i.limits.maxDailyNotional
    ensures forall l <- Book(i) :: LineWorst(l, i.limits.maxDeviationBps) >= 0
  {
    var plan, dev := PlanFor(i), i.limits.maxDeviationBps;
    PlanSpendsBudget(i);
    OpenWorst(i, i.open);
    WorstOfAllAppend(OpenLines(i, i.open), SliceLines(plan.slices), dev);
    forall l | l in Book(i) ensures LineWorst(l, dev) >= 0 {
      assert l in OpenLines(i, i.open) || l in SliceLines(plan.slices);
    }
  }

  /** Each slice spends its worst case plus one, and the last may overdraw by that one only. */
  lemma PlanSpendsBudget(i: PlanInput)
    ensures forall s <- PlanFor(i).slices :: Priced(i, s)
    ensures WorstOfAll(SliceLines(PlanFor(i).slices), i.limits.maxDeviationBps) + |PlanFor(i).slices|
            <= StartBudget(i) + 1
    ensures forall l <- SliceLines(PlanFor(i).slices) :: LineWorst(l, i.limits.maxDeviationBps) >= 0
    ensures PlanFor(i).slices != [] ==> StartBudget(i) > 0
  {
    var slices := PlanFor(i).slices;
    WalkIsSound(i, HeldInOrder(i));
    forall s | s in slices ensures Priced(i, s) { SoundSliceIsPriced(i, s); }
    SliceWorstSum(i, slices);
    if slices != [] && StartBudget(i) == 0 { NoBudgetNoSlice(i, HeldInOrder(i)); }
  }

  lemma {:induction false} NoBudgetNoSlice(i: PlanInput, hs: seq<Held>)
    requires StartBudget(i) == 0
    ensures Walk(i, hs).slices == [] && Walk(i, hs).budget == 0
  {
    if hs != [] { NoBudgetNoSlice(i, hs[..|hs| - 1]); }
  }

  /**
    * Whatever is filled afterwards, of the orders already open and of the new slices, in any pieces and
    * any order at the planned index, the day's total stays within maxDailyNotional.
    */
  lemma DailyCapOverRuns(i: PlanInput, fills: seq<PartialFill>)
    requires forall o <- i.open :: Readable(i, o.marketId)
    requires PlanFor(i).slices != []
    requires ValidRun(Book(i), i.limits.maxDeviationBps, fills)
    ensures i.limits.usedToday + Total(fills) <= i.limits.maxDailyNotional
  {
    BookFitsDay(i);
    RunAtMostWorst(Book(i), i.limits.maxDeviationBps, fills);
  }

  /** No single fill of a new slice can exceed maxFillNotional, whatever else is on the book. */
  lemma SliceFillWithinCap(i: PlanInput, fills: seq<PartialFill>, f: PartialFill)
    requires ValidRun(SliceLines(PlanFor(i).slices), i.limits.maxDeviationBps, fills) && f in fills
    ensures FillNotional(f) <= i.limits.maxFillNotional
  {
    var dev, slices := i.limits.maxDeviationBps, PlanFor(i).slices;
    assert Admissible(SliceLines(slices), dev, f);
    SlicesAreSound(i);
    var s := slices[f.line];
    SliceLineAt(slices, f.line);
    AdmissiblePrice(SliceLines(slices), dev, f);
    QtyOfMember(fills, f);
    var worst := SliceWorst(i, s);
    MulMono(f.price, worst, f.qty);
    MulMono(f.qty, s.size, worst);
    assert f.qty * worst == worst * f.qty && f.price * f.qty == f.qty * f.price;
    DivMono(f.qty * f.price, s.size * worst, E18);
  }

  lemma {:induction false} SliceLineAt(slices: seq<Slice>, k: nat)
    requires k < |slices|
    ensures SliceLines(slices)[k] == Line(slices[k].isLong, slices[k].limitPrice, slices[k].index, slices[k].size)
  {
    if k < |slices| - 1 { SliceLineAt(slices[..|slices| - 1], k); }
  }

  lemma {:induction false} QtyOfMember(fills: seq<PartialFill>, f: PartialFill)
    requires f in fills
    ensures f.qty <= LineQty(fills, f.line)
  {
    if f != fills[|fills| - 1] { QtyOfMember(fills[..|fills| - 1], f); }
  }
}
