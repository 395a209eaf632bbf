/** The fee rules of the sender: the first price of an attempt and the bump of a replacement. */
module TxFees {
  import opened Arithmetic
  import opened TxProtocol
  import opened Wrappers

  const GWEI: int := 1_000_000_000
  const MIN_MAX_FEE: int := 40 * GWEI
  const PRIORITY_FEE: int := GWEI

  datatype Fees = Fees(maxFee: int, tip: int)

  function Floor(minBaseFeeGwei: nat): int { minBaseFeeGwei * GWEI }

  /** max(2 * base fee, 40 gwei), with a missing or low base fee priced as the network floor; tip 1 gwei. */
  function InitialFees(baseFee: Option<int>, minBaseFeeGwei: nat): Fees {
    var floor := Floor(minBaseFeeGwei);
    var base := if baseFee.Some? && baseFee.value > floor then baseFee.value else floor;
    Fees(if base * 2 > MIN_MAX_FEE then base * 2 else MIN_MAX_FEE, PRIORITY_FEE)
  }

  function Bump(value: int, percent: int): int {
    TruncDiv(value * (100 + percent) + 99, 100)
  }

  function BumpedFees(f: Fees, baseFee: Option<int>, minBaseFeeGwei: nat, percent: int): Fees {
    var base := InitialFees(baseFee, minBaseFeeGwei);
    Fees(Max(Bump(f.maxFee, percent), base.maxFee), Bump(f.tip, percent))
  }

  /** What every signed attempt satisfies: priced above the floor, tip within the maximum (EIP-1559). */
  predicate WellPriced(f: Fees, minBaseFeeGwei: nat) {
    0 < f.tip <= f.maxFee && Floor(minBaseFeeGwei) <= f.maxFee
  }

  /** The first maximum is the least that doubles the base fee and the network floor and reaches 40 gwei. */
  lemma InitialIsLeast(baseFee: Option<int>, minBaseFeeGwei: nat, x: int)
    ensures x >= InitialFees(baseFee, minBaseFeeGwei).maxFee <==>
      x >= 40 * GWEI && x >= 2 * Floor(minBaseFeeGwei) && (baseFee.Some? ==> x >= 2 * baseFee.value)
    ensures InitialFees(baseFee, minBaseFeeGwei).tip == GWEI
  {}

  /** A replacement pays the least maximum that both bumps the old one and meets today's price, and the bumped tip. */
  lemma BumpedIsLeast(f: Fees, baseFee: Option<int>, minBaseFeeGwei: nat, percent: nat, x: int)
    requires f.maxFee >= 0 && f.tip >= 0
    ensures var b := BumpedFees(f, baseFee, minBaseFeeGwei, percent);
      && (x >= b.maxFee <==> x * 100 >= f.maxFee * (100 + percent) && x >= InitialFees(baseFee, minBaseFeeGwei).maxFee)
      && (x >= b.tip <==> x * 100 >= f.tip * (100 + percent))
  {
    BumpIsLeast(f.maxFee, percent, x);
    BumpIsLeast(f.tip, percent, x);
  }

  lemma InitialWellPriced(baseFee: Option<int>, minBaseFeeGwei: nat)
    ensures WellPriced(InitialFees(baseFee, minBaseFeeGwei), minBaseFeeGwei)
  {}

  /** A bump is the least whole amount that grows the fee by the full percentage. */
  lemma BumpIsLeast(value: nat, percent: nat, x: int)
    ensures x >= Bump(value, percent) <==> x * 100 >= value * (100 + percent)
  {
    var p := value * (100 + percent);
    MulMono(0, value, 100 + percent);
    DivBounds(p + 99, 100);
  }

  lemma BumpMono(a: nat, b: nat, percent: nat)
    requires a <= b
    ensures Bump(a, percent) <= Bump(b, percent)
  {
    BumpIsLeast(b, percent, Bump(b, percent));
    MulMono(a, b, 100 + percent);
    BumpIsLeast(a, percent, Bump(b, percent));
  }

  lemma BumpGrows(value: nat, percent: nat)
    requires percent >= 1 && value > 0
    ensures Bump(value, percent) > value
  {
    BumpIsLeast(value, percent, Bump(value, percent));
    MulStrict(100, 100 + percent, value);
    assert value * (100 + percent) == (100 + percent) * value && 100 * value == value * 100;
  }

  lemma BumpedWellPriced(f: Fees, baseFee: Option<int>, minBaseFeeGwei: nat, percent: nat)
    requires WellPriced(f, minBaseFeeGwei) && percent >= 1
    ensures var b := BumpedFees(f, baseFee, minBaseFeeGwei, percent);
      WellPriced(b, minBaseFeeGwei) && b.maxFee > f.maxFee && b.tip > f.tip
  {
    BumpGrows(f.maxFee, percent);
    BumpGrows(f.tip, percent);
    BumpMono(f.tip, f.maxFee, percent);
    InitialWellPriced(baseFee, minBaseFeeGwei);
  }

  // ---------------------------------------------------------------- replacement chains

  /** Each attempt pays at least the bump of the one before it at the same nonce. */
  predicate Grows(fs: seq<Fees>, percent: int) {
    forall k :: 0 < k < |fs| ==>
      fs[k].maxFee >= Bump(fs[k - 1].maxFee, percent) && fs[k].tip == Bump(fs[k - 1].tip, percent)
  }

  /** Fees of successive attempts at one nonce: growing, and no replacement over the cap. */
  predicate IsFeeChain(fs: seq<Fees>, percent: int, cap: int) {
    Grows(fs, percent) && forall k :: 0 < k < |fs| ==> fs[k].maxFee <= cap
  }

  function Pow(b: nat, k: nat): nat {
    if k == 0 then 1 else b * Pow(b, k - 1)
  }

  lemma CompoundStep(a: nat, b: nat, f: nat, c: nat, p: nat, q: nat)
    requires a * p >= f * q && b * 100 >= a * c
    ensures b * (100 * p) >= f * (c * q)
  {
    MulMono(a * c, b * 100, p);
    MulMono(f * q, a * p, c);
    assert b * (100 * p) == (b * 100) * p;
    assert (a * c) * p == (a * p) * c;
    assert f * (c * q) == (f * q) * c;
  }

  /** After k replacements the fee has grown by the percentage compounded k times, at least. */
  lemma {:induction false} ChainCompounds(fs: seq<Fees>, percent: nat, k: nat)
    requires Grows(fs, percent) && k < |fs| && fs[0].maxFee >= 0
    ensures fs[k].maxFee >= 0
    ensures fs[k].maxFee * Pow(100, k) >= fs[0].maxFee * Pow(100 + percent, k)
  {
    if k > 0 {
      ChainCompounds(fs, percent, k - 1);
      var a, b := fs[k - 1].maxFee, fs[k].maxFee;
      BumpIsLeast(a, percent, b);
      MulMono(0, a, 100 + percent);
      CompoundStep(a, b, fs[0].maxFee, 100 + percent, Pow(100, k - 1), Pow(100 + percent, k - 1));
    }
  }

  /** So a chain of r replacements needs the compounded fee to fit under the cap. */
  lemma ChainBounded(fs: seq<Fees>, percent: nat, cap: int)
    requires IsFeeChain(fs, percent, cap) && |fs| >= 2 && fs[0].maxFee >= 0
    ensures fs[0].maxFee * Pow(100 + percent, |fs| - 1) <= cap * Pow(100, |fs| - 1)
  {
    var k := |fs| - 1;
    ChainCompounds(fs, percent, k);
    MulMono(fs[k].maxFee, cap, Pow(100, k));
  }

  lemma PowPositive(b: nat, k: nat)
    requires b > 0
    ensures Pow(b, k) > 0
  {
    if k > 0 {
      PowPositive(b, k - 1);
      MulStrict(0, Pow(b, k - 1), b);
      assert b * Pow(b, k - 1) == Pow(b, k - 1) * b;
    }
  }

  lemma PowersAtDefaults()
    ensures Pow(115, 24) > 25 * Pow(100, 24)
  {
    assert Pow(115, 4) == 174900625 && Pow(100, 4) == 100000000;
    PowAdd(115, 4, 4); PowAdd(100, 4, 4);
    PowAdd(115, 8, 8); PowAdd(100, 8, 8);
    PowAdd(115, 16, 8); PowAdd(100, 16, 8);
  }

  lemma {:induction false} PowAdd(b: nat, i: nat, j: nat)
    ensures Pow(b, i + j) == Pow(b, i) * Pow(b, j)
  {
    if i > 0 {
      PowAdd(b, i - 1, j);
      Associates(b, Pow(b, i - 1), Pow(b, j));
    }
  }

  lemma Associates(a: nat, b: nat, c: nat)
    ensures (a * b) * c == a * (b * c)
  {}

  lemma FeeAfter24(fs: seq<Fees>)
    requires Grows(fs, 15) && |fs| > 24 && fs[0].maxFee >= MIN_MAX_FEE
    ensures fs[24].maxFee > 1000 * GWEI
  {
    ChainCompounds(fs, 15, 24);
    PowersAtDefaults();
    PowPositive(100, 24);
    var h, p := Pow(100, 24), Pow(115, 24);
    MulMono(MIN_MAX_FEE, fs[0].maxFee, p);
    if fs[24].maxFee <= 1000 * GWEI { MulMono(fs[24].maxFee, 1000 * GWEI, h); }
  }

  /** With the default options, at most 23 replacements of one attempt are ever signed. */
  lemma AtMost23ByDefault(fs: seq<Fees>)
    requires IsFeeChain(fs, 15, 1000 * GWEI) && |fs| >= 1 && fs[0].maxFee >= MIN_MAX_FEE
    ensures |fs| <= 24
  {
    if |fs| > 24 {
      FeeAfter24(fs);
      assert false;
    }
  }
}
