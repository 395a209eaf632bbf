/** Position arithmetic: fills, realised profit and the liquidation price (client/lib/math.ts). */
module PositionMath {
  import opened Arithmetic
  import opened Wrappers

  /** Truncating a * b / d. Every caller passes a non-zero divisor. */
  function MulDiv(a: int, b: int, d: int): int
    requires d != 0
  {
    TruncDiv(a * b, d)
  }

  /** |size| * price / 1e18, truncated. */
  function Notional(size: int, price: int): int {
    MulDiv(Abs(size), price, E18)
  }

  function UnrealizedPnl(size: int, openNotional: int, price: int): int {
    if size == 0 then 0
    else
      (if size < 0 then -MulDiv(-size, price, E18) else MulDiv(size, price, E18)) - openNotional
  }

  datatype Position = Position(size: int, openNotional: int)

  datatype FillResult = FillResult(pos: Position, realized: int, increased: bool)

  const FLAT := Position(0, 0)

  /** The position after a fill of signed `delta` at `price`. */
  function ApplyFill(p: Position, delta: int, price: int): FillResult {
    if delta == 0 then FillResult(p, 0, false)
    else
      var fill := Notional(delta, price);
      var s := p.size;
      if s == 0 || (s > 0) == (delta > 0) then
        FillResult(Position(s + delta, p.openNotional + if delta > 0 then fill else -fill), 0, true)
      else
        var absS := Abs(s);
        var absD := Abs(delta);
        var closeQty := if absD < absS then absD else absS;
        var residual := absD - closeQty;
        var closeNotional := if residual == 0 then fill else Notional(closeQty, price);
        var removedBasis :=
          if closeQty == absS then p.openNotional else MulDiv(p.openNotional, closeQty, absS);
        var realized := (if s > 0 then closeNotional else -closeNotional) - removedBasis;
        var size := if s > 0 then s - closeQty else s + closeQty;
        var openNotional := p.openNotional - removedBasis;
        if residual > 0 then
          var rest := fill - closeNotional;
          FillResult(
            Position(
              size + if delta > 0 then residual else -residual,
              openNotional + if delta > 0 then rest else -rest),
            realized, true)
        else
          FillResult(Position(size, openNotional), realized, false)
  }

  // ---------------------------------------------------------------- single fill

  /** What a fill pays for its delta: its truncated notional, signed like the delta. */
  function SignedFill(delta: int, price: int): int {
    if delta > 0 then Notional(delta, price) else -Notional(delta, price)
  }

  /** No fill creates or destroys money: what leaves the basis is either paid or realised, to the wei. */
  lemma FillIdentity(p: Position, delta: int, price: int)
    ensures ApplyFill(p, delta, price).pos.size == p.size + delta
    ensures ApplyFill(p, delta, price).pos.openNotional
            == p.openNotional + SignedFill(delta, price) + ApplyFill(p, delta, price).realized
  {
    assert delta == 0 ==> Notional(delta, price) == 0;
  }

  /** Opposite deltas at one price pay opposite amounts. */
  lemma SignedFillOdd(delta: int, price: int)
    ensures SignedFill(-delta, price) == -SignedFill(delta, price)
  {
    assert Abs(-delta) == Abs(delta);
    assert delta == 0 ==> Notional(delta, price) == 0;
  }

  lemma NotionalMono(a: nat, b: nat, price: nat)
    requires a <= b
    ensures 0 <= Notional(a, price) <= Notional(b, price)
  {
    MulMono(0, a, price);
    MulMono(a, b, price);
    DivMono(a * price, b * price, E18);
    DivMono(0, a * price, E18);
  }

  /** A flat position carries no basis, and a basis never has the opposite sign of its size. */
  predicate Sound(p: Position) {
    && (p.size == 0 ==> p.openNotional == 0)
    && (p.size > 0 ==> p.openNotional >= 0)
    && (p.size < 0 ==> p.openNotional <= 0)
  }

  /** Removing part of a basis pro rata leaves a remainder of the same sign. */
  lemma ProRataKeepsSign(basis: int, part: nat, whole: nat)
    requires part < whole
    ensures basis >= 0 ==> 0 <= MulDiv(basis, part, whole) <= basis
    ensures basis <= 0 ==> basis <= MulDiv(basis, part, whole) <= 0
  {
    var b := Abs(basis);
    MulMono(part, whole, b);
    MulMono(0, part, b);
    assert b * part == part * b;
    DivMono(b * part, b * whole, whole);
    DivMono(0, b * part, whole);
    DivUnique(b * whole, whole, b);
    if basis < 0 {
      assert basis * part == -(b * part);
      TruncDivOdd(b * part, whole);
    }
  }

  lemma FillKeepsSound(p: Position, delta: int, price: nat)
    requires Sound(p)
    ensures Sound(ApplyFill(p, delta, price).pos)
  {
    var absS, absD := Abs(p.size), Abs(delta);
    NotionalMono(0, absD, price);
    if absD < absS {
      ProRataKeepsSign(p.openNotional, absD, absS);
    } else {
      NotionalMono(absS, absD, price);
    }
  }

  /** From flat, a fill leaves a zero basis exactly when its value is under one wei. */
  lemma OpenFromFlatBasis(delta: int, price: nat)
    requires delta != 0
    ensures ApplyFill(FLAT, delta, price).pos.openNotional == 0 <==> Abs(delta) * price < E18
  {
    MulMono(0, Abs(delta), price);
    DivBounds(Abs(delta) * price, E18);
  }

  predicate Between(x: int, a: int, b: int) {
    a <= x <= b || b <= x <= a
  }

  /** `increased` is what reduce-only forbids: the new size left the interval between zero and the old. */
  lemma IncreasedMeaning(p: Position, delta: int, price: int)
    ensures !ApplyFill(p, delta, price).increased
            <==> Between(ApplyFill(p, delta, price).pos.size, 0, p.size)
  {}

  /** Closing everything realises exactly the unrealised profit shown at that price. */
  lemma ClosingRealisesUnrealized(p: Position, price: int)
    requires Sound(p)
    ensures ApplyFill(p, -p.size, price).pos == FLAT
    ensures ApplyFill(p, -p.size, price).realized == UnrealizedPnl(p.size, p.openNotional, price)
  {
    assert Abs(-p.size) == Abs(p.size);
  }

  predicate Opposes(p: Position, delta: int) {
    (p.size > 0 && delta < 0) || (p.size < 0 && delta > 0)
  }

  /** A partial close takes its share of the basis: what is left is the remaining share, rounded up, of the old. */
  lemma PartialCloseShare(p: Position, delta: int, price: int)
    requires Opposes(p, delta) && Abs(delta) < Abs(p.size)
    ensures var left := ApplyFill(p, delta, price).pos.openNotional;
      var exact := Abs(p.openNotional) * (Abs(p.size) - Abs(delta));
      && (left == 0 || (left > 0 <==> p.openNotional > 0))
      && exact <= Abs(left) * Abs(p.size) < exact + Abs(p.size)
  {
    var d, n := Abs(delta), Abs(p.size);
    var removed := MulDiv(p.openNotional, d, n);
    assert ApplyFill(p, delta, price).pos.openNotional == p.openNotional - removed;
    hide ApplyFill, MulDiv;
    ProRataKeepsSign(p.openNotional, d, n);
    RemovedShare(p.openNotional, d, n);
    RestShare(Abs(p.openNotional), Abs(removed), d, n);
  }

  lemma RestShare(b: nat, removed: nat, d: nat, n: nat)
    requires d < n && removed <= b && removed * n <= b * d < removed * n + n
    ensures b * (n - d) <= (b - removed) * n < b * (n - d) + n
  {
    Distribute(b, n, d);
    Distribute(n, b, removed);
    assert n * b == b * n && n * removed == removed * n && n * (b - removed) == (b - removed) * n;
  }

  lemma Distribute(a: int, b: int, c: int)
    ensures a * (b - c) == a * b - a * c
  {}

  lemma RemovedShare(basis: int, part: nat, whole: nat)
    requires part < whole
    ensures var removed := Abs(MulDiv(basis, part, whole));
      removed * whole <= Abs(basis) * part < removed * whole + whole
  {
    var b := Abs(basis);
    MulMono(0, b, part);
    TruncDivNonNegative(b * part, whole);
    assert (TruncDiv(b * part, whole) + 1) * whole == TruncDiv(b * part, whole) * whole + whole;
    MulNonNegative(b, part, whole);
    if basis < 0 {
      assert basis * part == -(b * part);
      TruncDivOdd(b * part, whole);
    }
  }

  lemma MulNonNegative(b: nat, part: nat, whole: nat)
    requires whole > 0
    ensures TruncDiv(b * part, whole) >= 0
  {
    MulMono(0, b, part);
    DivMono(0, b * part, whole);
  }

  /**
    * A flip closes everything, realising exactly what a full close would, and opens the rest: at a basis
    * that is at most one wei off what a separate fill of the rest would give.
    */
  lemma FlipClosesThenOpens(p: Position, delta: int, price: nat)
    requires Opposes(p, delta) && Abs(delta) > Abs(p.size)
    ensures var flip := ApplyFill(p, delta, price);
      var closed := ApplyFill(p, -p.size, price);
      var reopened := ApplyFill(closed.pos, delta + p.size, price);
      && closed.pos == FLAT && flip.realized == closed.realized && reopened.realized == 0
      && flip.pos.size == reopened.pos.size
      && 0 <= Abs(flip.pos.openNotional) - Abs(reopened.pos.openNotional) <= 1
      && (reopened.pos.openNotional == 0 || (flip.pos.openNotional > 0 <==> reopened.pos.openNotional > 0))
  {
    var close, rest := Abs(p.size), Abs(delta) - Abs(p.size);
    NotionalSplit(close, rest, price);
    NotionalMono(0, rest, price);
    assert Abs(delta + p.size) == rest && Abs(-p.size) == close;
  }

  // ---------------------------------------------------------------- runs of fills

  datatype Fill = Fill(delta: int, price: nat)

  datatype Account = Account(pos: Position, realizedCum: int)

  const FRESH := Account(FLAT, 0)

  function Trade(a: Account, f: Fill): Account {
    var r := ApplyFill(a.pos, f.delta, f.price);
    Account(r.pos, a.realizedCum + r.realized)
  }

  function TradeAll(a: Account, fills: seq<Fill>): Account {
    if fills == [] then a else Trade(TradeAll(a, fills[..|fills| - 1]), fills[|fills| - 1])
  }

  function SumDeltas(fills: seq<Fill>): int {
    if fills == [] then 0
    else SumDeltas(fills[..|fills| - 1]) + fills[|fills| - 1].delta
  }

  function SumSigned(fills: seq<Fill>): int {
    if fills == [] then 0
    else
      var last := fills[|fills| - 1];
      SumSigned(fills[..|fills| - 1]) + SignedFill(last.delta, last.price)
  }

  /** After any run from flat: the size is the sum of deltas, the books balance, the position is sound. */
  lemma {:induction false} RunInvariants(fills: seq<Fill>)
    ensures var a := TradeAll(FRESH, fills);
      && a.pos.size == SumDeltas(fills)
      && a.pos.openNotional == SumSigned(fills) + a.realizedCum
      && Sound(a.pos)
  {
    if fills != [] {
      var before := fills[..|fills| - 1];
      var last := fills[|fills| - 1];
      RunInvariants(before);
      FillIdentity(TradeAll(FRESH, before).pos, last.delta, last.price);
      FillKeepsSound(TradeAll(FRESH, before).pos, last.delta, last.price);
    }
  }

  /** A run that ends flat realised exactly what its fills paid out, with no rounding loss. */
  lemma FlatToFlatRealises(fills: seq<Fill>)
    requires SumDeltas(fills) == 0
    ensures TradeAll(FRESH, fills).pos == FLAT
    ensures TradeAll(FRESH, fills).realizedCum == -SumSigned(fills)
  {
    RunInvariants(fills);
  }

  /** Every fill buys, and all at one price. */
  predicate BuysAt(fills: seq<Fill>, price: nat) {
    forall f <- fills :: f.delta > 0 && f.price == price
  }

  /** Splitting an order into k fills at one price never costs more than filling it whole, nor k wei less. */
  lemma {:induction false} SplitFillBound(fills: seq<Fill>, price: nat)
    requires fills != [] && BuysAt(fills, price)
    ensures SumDeltas(fills) > 0
    ensures SumSigned(fills) <= Notional(SumDeltas(fills), price) < SumSigned(fills) + |fills|
  {
    var before, last := fills[..|fills| - 1], fills[|fills| - 1];
    assert last in fills;
    hide Notional;
    if before == [] {
      assert SumDeltas(before) == 0 && SumSigned(before) == 0;
    } else {
      SplitFillBound(before, price);
      NotionalSplit(SumDeltas(before), last.delta, price);
    }
  }

  lemma NotionalSplit(a: int, b: int, price: nat)
    requires a > 0 && b > 0
    ensures var parts := Notional(a, price) + Notional(b, price); parts <= Notional(a + b, price) <= parts + 1
    ensures SignedFill(b, price) == Notional(b, price)
  {
    MulMono(0, a, price);
    MulMono(0, b, price);
    assert a * price + b * price == (a + b) * price;
    DivSuperadditive(a * price, b * price, E18);
  }

  // ---------------------------------------------------------------- zero-sum trading

  /** One matched fill: the taker trades `delta`, the maker trades `-delta`, at one price. */
  datatype Match = Match(maker: nat, taker: nat, delta: int, price: nat)

  predicate ValidMatch(m: Match, n: nat) {
    m.maker < n && m.taker < n
  }

  function Traded(accounts: seq<Account>, i: nat, f: Fill): (r: seq<Account>)
    requires i < |accounts|
    ensures |r| == |accounts|
  {
    accounts[i := Trade(accounts[i], f)]
  }

  /** The gateway applies the maker's leg and then the taker's; the two may be one account. */
  function Settle(accounts: seq<Account>, m: Match): (r: seq<Account>)
    requires ValidMatch(m, |accounts|)
    ensures |r| == |accounts|
  {
    Traded(Traded(accounts, m.maker, Fill(-m.delta, m.price)), m.taker, Fill(m.delta, m.price))
  }

  function SettleAll(n: nat, ms: seq<Match>): (r: seq<Account>)
    requires forall m <- ms :: ValidMatch(m, n)
    ensures |r| == n
  {
    if ms == [] then seq(n, _ => FRESH)
    else Settle(SettleAll(n, ms[..|ms| - 1]), ms[|ms| - 1])
  }

  function SumSizes(accounts: seq<Account>): int {
    if accounts == [] then 0 else accounts[0].pos.size + SumSizes(accounts[1..])
  }

  function SumMoney(accounts: seq<Account>): int {
    if accounts == [] then 0
    else accounts[0].realizedCum - accounts[0].pos.openNotional + SumMoney(accounts[1..])
  }

  lemma {:induction false} SumUpdate(accounts: seq<Account>, i: nat, a: Account)
    requires i < |accounts|
    ensures SumSizes(accounts[i := a]) == SumSizes(accounts) + a.pos.size - accounts[i].pos.size
    ensures SumMoney(accounts[i := a]) == SumMoney(accounts)
      + (a.realizedCum - a.pos.openNotional) - (accounts[i].realizedCum - accounts[i].pos.openNotional)
  {
    if i == 0 {
      assert accounts[i := a][1..] == accounts[1..];
    } else {
      assert accounts[i := a][1..] == accounts[1..][i - 1 := a];
      SumUpdate(accounts[1..], i - 1, a);
    }
  }

  lemma {:induction false} SumFresh(n: nat)
    ensures SumSizes(seq(n, _ => FRESH)) == 0 && SumMoney(seq(n, _ => FRESH)) == 0
  {
    if n > 0 {
      assert seq(n, _ => FRESH)[1..] == seq(n - 1, _ => FRESH);
      SumFresh(n - 1);
    }
  }

  lemma TradeMoves(a: Account, f: Fill)
    ensures Trade(a, f).pos.size == a.pos.size + f.delta
    ensures Trade(a, f).realizedCum - Trade(a, f).pos.openNotional
            == a.realizedCum - a.pos.openNotional - SignedFill(f.delta, f.price)
  {
    FillIdentity(a.pos, f.delta, f.price);
  }

  /** Trading is zero-sum to the wei: over all accounts sizes cancel and so does realised minus basis. */
  lemma {:induction false} ZeroSum(n: nat, ms: seq<Match>)
    requires forall m <- ms :: ValidMatch(m, n)
    ensures SumSizes(SettleAll(n, ms)) == 0
    ensures SumMoney(SettleAll(n, ms)) == 0
  {
    if ms == [] {
      SumFresh(n);
    } else {
      var m := ms[|ms| - 1];
      assert m in ms && ValidMatch(m, n);
      var accounts := SettleAll(n, ms[..|ms| - 1]);
      ZeroSum(n, ms[..|ms| - 1]);
      hide Settle, SumSizes, SumMoney;
      SettleMoves(accounts, m);
    }
  }

  /** One match moves size and money from one account to another, and creates neither. */
  lemma SettleMoves(accounts: seq<Account>, m: Match)
    requires ValidMatch(m, |accounts|)
    ensures SumSizes(Settle(accounts, m)) == SumSizes(accounts)
    ensures SumMoney(Settle(accounts, m)) == SumMoney(accounts)
  {
    hide Traded, SumSizes, SumMoney, SignedFill;
    OneTradeMoves(accounts, m.maker, Fill(-m.delta, m.price));
    OneTradeMoves(Traded(accounts, m.maker, Fill(-m.delta, m.price)), m.taker, Fill(m.delta, m.price));
    SignedFillOdd(m.delta, m.price);
  }

  lemma OneTradeMoves(accounts: seq<Account>, i: nat, f: Fill)
    requires i < |accounts|
    ensures SumSizes(Traded(accounts, i, f)) == SumSizes(accounts) + f.delta
    ensures SumMoney(Traded(accounts, i, f)) == SumMoney(accounts) - SignedFill(f.delta, f.price)
  {
    hide Trade, SumSizes, SumMoney, SignedFill;
    SumUpdate(accounts, i, Trade(accounts[i], f));
    TradeMoves(accounts[i], f);
  }

  // ---------------------------------------------------------------- liquidation price

  datatype LiquidationInputs = LiquidationInputs(
    size: int, equity: int, price: int, maintenanceBps: int, otherMaintenance: int)

  function PositionValue(x: LiquidationInputs): int {
    MulDiv(Abs(x.size), x.price, E18)
  }

  function Numerator(x: LiquidationInputs): int {
    if x.size > 0 then x.otherMaintenance + PositionValue(x) - x.equity
    else x.equity + PositionValue(x) - x.otherMaintenance
  }

  function Denominator(x: LiquidationInputs): int {
    Abs(x.size) * if x.size > 0 then BPS - x.maintenanceBps else BPS + x.maintenanceBps
  }

  function LiquidationPrice(x: LiquidationInputs): Option<int> {
    if x.size == 0 then None
    else if Numerator(x) <= 0 || Denominator(x) <= 0 then None
    else Some(TruncDiv(Numerator(x) * E18 * BPS, Denominator(x)))
  }

  /**
    * Equity minus maintenance if the index were `p`, scaled by 1e18 * 10_000 so that it is an exact
    * integer: equity moves by size * (p - price), maintenance is |size| * p at the market's margin
    * plus what the other positions need.
    */
  function MarginSurplus(x: LiquidationInputs, p: int): int {
    var atEntry := if x.size > 0 then x.equity - PositionValue(x) else x.equity + PositionValue(x);
    (atEntry - x.otherMaintenance) * E18 * BPS
      + x.size * p * BPS
      - Abs(x.size) * p * x.maintenanceBps
  }

  lemma SurplusForm(x: LiquidationInputs, p: int)
    ensures x.size > 0 ==> MarginSurplus(x, p) == p * Denominator(x) - Numerator(x) * E18 * BPS
    ensures x.size < 0 ==> MarginSurplus(x, p) == Numerator(x) * E18 * BPS - p * Denominator(x)
  {
    var a, m := Abs(x.size), x.maintenanceBps;
    if x.size > 0 {
      assert a * p * BPS - a * p * m == p * (a * (BPS - m));
    } else if x.size < 0 {
      assert x.size * p * BPS == -(a * p * BPS);
      assert a * p * BPS + a * p * m == p * (a * (BPS + m));
    }
  }

  /** The price returned is the exact threshold, for every integer price on either side of it. */
  lemma LiquidationIsThreshold(x: LiquidationInputs, p: int)
    requires LiquidationPrice(x).Some?
    ensures x.size > 0 ==> (MarginSurplus(x, p) > 0 <==> p > LiquidationPrice(x).value)
    ensures x.size < 0 ==> (MarginSurplus(x, p) >= 0 <==> p <= LiquidationPrice(x).value)
  {
    SurplusForm(x, p);
    AboveFloor(p, Numerator(x) * E18 * BPS, Denominator(x));
  }

  /**
    * A positive price reaches the requirement: some positive integer price leaves the account at or under it,
    * and some leaves it at or over. Which of the two lies higher depends on the side and on the margin.
    */
  ghost predicate Crosses(x: LiquidationInputs) {
    (exists p :: p >= 1 && MarginSurplus(x, p) <= 0) && (exists q :: q >= 1 && MarginSurplus(x, q) >= 0)
  }

  /**
    * The root Threshold(x) / Denominator(x) of the surplus is at least 1. With a zero denominator the surplus
    * does not depend on the price, and has to be 0.
    */
  predicate RootAtLeastOne(x: LiquidationInputs) {
    if Denominator(x) > 0 then Threshold(x) >= Denominator(x)
    else if Denominator(x) < 0 then Threshold(x) <= Denominator(x)
    else Threshold(x) == 0
  }

  function Threshold(x: LiquidationInputs): int {
    Numerator(x) * E18 * BPS
  }

  /** A positive multiple of den at most n. */
  lemma MultipleAtMost(n: int, den: int) returns (p: int)
    requires den < 0 || den <= n
    ensures p >= 1 && p * den <= n
  {
    if den < 0 {
      p := Abs(n) + 1;
      MulMono(den, -1, p);
      assert p * den == den * p;
    } else {
      p := 1;
    }
  }

  lemma NoMultipleAtMost(n: int, den: int, p: int)
    requires den >= 0 && den > n && p >= 1
    ensures p * den > n
  {
    MulMono(1, p, den);
  }

  /** A positive price reaches the requirement exactly where the root is at least 1, on both sides. */
  lemma CrossesIff(x: LiquidationInputs)
    requires x.size != 0
    ensures Crosses(x) <==> RootAtLeastOne(x)
  {
    var n, den := Threshold(x), Denominator(x);
    forall p: int
      ensures x.size > 0 ==> MarginSurplus(x, p) == p * den - n
      ensures x.size < 0 ==> MarginSurplus(x, p) == n - p * den
    {
      SurplusForm(x, p);
    }
    var atMost := den < 0 || den <= n;
    var atLeast := den > 0 || den >= n;
    if atMost {
      var p := MultipleAtMost(n, den);
      assert if x.size > 0 then MarginSurplus(x, p) <= 0 else MarginSurplus(x, p) >= 0;
    } else {
      forall p: int | p >= 1 ensures p * den > n { NoMultipleAtMost(n, den, p); }
    }
    if atLeast {
      var q := MultipleAtMost(-n, -den);
      assert q * -den == -(q * den);
      assert if x.size > 0 then MarginSurplus(x, q) >= 0 else MarginSurplus(x, q) <= 0;
    } else {
      forall q: int | q >= 1 ensures q * den < n {
        NoMultipleAtMost(-n, -den, q);
        assert q * -den == -(q * den);
      }
    }
  }

  lemma NumberReturned(x: LiquidationInputs)
    requires x.size != 0
    ensures LiquidationPrice(x).Some? <==> Threshold(x) > 0 && Denominator(x) > 0
    ensures LiquidationPrice(x).Some? ==> LiquidationPrice(x).value == Threshold(x) / Denominator(x) >= 0
    ensures LiquidationPrice(x).Some? ==> (LiquidationPrice(x).value >= 1 <==> Threshold(x) >= Denominator(x))
  {
    if Threshold(x) > 0 && Denominator(x) > 0 {
      DivMono(0, Threshold(x), Denominator(x));
      AboveFloor(1, Threshold(x), Denominator(x));
    }
  }

  /**
    * What the results mean. With a positive denominator a positive price reaches the requirement exactly when
    * the result is a positive number; 0 comes back exactly when the crossing lies strictly between 0 and 1.
    * With any other denominator the result is null, and a positive price reaches the requirement exactly where
    * the root is at least 1.
    */
  lemma MissingPriceMeaning(x: LiquidationInputs)
    requires x.size != 0
    ensures Denominator(x) > 0 ==> (Crosses(x) <==> LiquidationPrice(x).Some? && LiquidationPrice(x).value >= 1)
    ensures LiquidationPrice(x) == Some(0) <==> 0 < Threshold(x) < Denominator(x)
    ensures Denominator(x) <= 0 ==> LiquidationPrice(x).None? && (Crosses(x) <==> RootAtLeastOne(x))
  {
    CrossesIff(x);
    NumberReturned(x);
  }

  /**
    * Null means that no positive price reaches the requirement, but for a root of at least 1 without a positive
    * denominator.
    */
  lemma NullMeansNoPriceIff(x: LiquidationInputs)
    requires x.size != 0 && LiquidationPrice(x).None?
    ensures !Crosses(x) <==> Denominator(x) > 0 || !RootAtLeastOne(x)
  {
    CrossesIff(x);
    NumberReturned(x);
  }

  /**
    * The whole of it: a number comes back exactly when some positive price reaches the requirement, but for a
    * crossing strictly between 0 and 1, and for a denominator that is not positive under a root of at least 1.
    */
  lemma PriceReturnedIffReached(x: LiquidationInputs)
    requires x.size != 0
    ensures (LiquidationPrice(x).Some? <==> Crosses(x)) <==>
      if Denominator(x) > 0 then !(0 < Threshold(x) < Denominator(x)) else !RootAtLeastOne(x)
  {
    CrossesIff(x);
    NumberReturned(x);
  }

  /** Margins a market can be listed with (kryon-protocol/evm/src/RiskParams.sol). */
  const MIN_MAINTENANCE_MARGIN_BPS: int := 25
  const MAX_INITIAL_MARGIN_BPS: int := 5000

  /** At a listed market's margin null is always right, and a number is a price unless it is 0. */
  lemma ListedMarginResult(x: LiquidationInputs)
    requires x.size != 0 && MIN_MAINTENANCE_MARGIN_BPS <= x.maintenanceBps <= MAX_INITIAL_MARGIN_BPS
    ensures LiquidationPrice(x).None? ==> !Crosses(x)
    ensures LiquidationPrice(x).Some? && !Crosses(x) ==> LiquidationPrice(x).value == 0
  {
    var side := if x.size > 0 then BPS - x.maintenanceBps else BPS + x.maintenanceBps;
    MulStrict(0, Abs(x.size), side);
    MissingPriceMeaning(x);
    NumberReturned(x);
  }

  /** A long of two whole units at a price of one, one wei short: 0 comes back although no positive price reaches it. */
  lemma ZeroPriceWitness()
    ensures var x := LiquidationInputs(2 * E18, 2 * E18 - 1, E18, 500, 0);
      LiquidationPrice(x) == Some(0) && !Crosses(x)
  {
    var x := LiquidationInputs(2 * E18, 2 * E18 - 1, E18, 500, 0);
    assert Denominator(x) == 2 * E18 * 9500;
    assert PositionValue(x) == 2 * E18;
    assert Numerator(x) == 1;
    MissingPriceMeaning(x);
  }

  /** A margin of 200 percent: null comes back although the account reaches its requirement at twice the price. */
  lemma NonPositiveDenominatorWitness()
    ensures var x := LiquidationInputs(E18, 3 * E18, E18, 2 * BPS, 0);
      && LiquidationPrice(x).None? && Crosses(x)
      && MarginSurplus(x, E18) > 0 && MarginSurplus(x, 2 * E18) == 0 && MarginSurplus(x, 3 * E18) < 0
  {
    var x := LiquidationInputs(E18, 3 * E18, E18, 2 * BPS, 0);
    assert PositionValue(x) == E18;
    assert Numerator(x) == -2 * E18 && Denominator(x) == -(E18 * BPS);
    SurplusForm(x, E18);
    SurplusForm(x, 2 * E18);
    SurplusForm(x, 3 * E18);
    CrossesIff(x);
  }
}
