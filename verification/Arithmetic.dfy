/** Integer arithmetic shared by the models: truncating division as bigint `/` does it, and floor facts. */
module Arithmetic {

  const E18: int := 1_000_000_000_000_000_000
  const BPS: int := 10_000

  function Abs(x: int): (r: nat)
    ensures r == x || r == -x
  {
    if x < 0 then -x else x
  }

  function Min(a: int, b: int): (r: int)
    ensures r <= a && r <= b && (r == a || r == b)
  {
    if a < b then a else b
  }

  function Max(a: int, b: int): (r: int)
    ensures r >= a && r >= b && (r == a || r == b)
  {
    if a < b then b else a
  }

  /** Division rounding toward zero: what `/` means on bigint, for either sign of either operand. */
  function TruncDiv(a: int, b: int): int
    requires b != 0
  {
    if b > 0 then
      if a >= 0 then a / b else -((-a) / b)
    else
      if a >= 0 then -(a / (-b)) else (-a) / (-b)
  }

  lemma TruncDivNonNegative(a: nat, b: int)
    requires b > 0
    ensures TruncDiv(a, b) == a / b
    ensures TruncDiv(a, b) * b <= a < (TruncDiv(a, b) + 1) * b
  {
    DivBounds(a, b);
  }

  lemma TruncDivOdd(a: int, b: int)
    requires b > 0
    ensures TruncDiv(-a, b) == -TruncDiv(a, b)
  {}

  lemma DivBounds(a: int, b: int)
    requires b > 0
    ensures (a / b) * b <= a < (a / b + 1) * b
  {}

  /** The quotient is the only integer with a remainder in [0, b). */
  lemma DivUnique(a: int, b: int, q: int)
    requires b > 0
    requires q * b <= a < (q + 1) * b
    ensures a / b == q
  {
    var d := a / b;
    DivBounds(a, b);
    if d < q {
      MulMono(d + 1, q, b);
    } else if d > q {
      MulMono(q + 1, d, b);
    }
  }

  lemma MulMono(a: int, b: int, c: int)
    requires a <= b && c >= 0
    ensures a * c <= b * c
  {}

  lemma MulStrict(a: int, b: int, c: int)
    requires a < b && c > 0
    ensures a * c < b * c
  {
    MulMono(a + 1, b, c);
  }

  lemma DivMono(a: int, b: int, d: int)
    requires a <= b && d > 0
    ensures a / d <= b / d
  {
    DivBounds(a, d);
    DivBounds(b, d);
    if a / d > b / d { MulMono(b / d + 1, a / d, d); }
  }

  /** Floors of parts never add up to more than the floor of the whole, and miss it by at most one. */
  lemma DivSuperadditive(a: int, b: int, d: int)
    requires d > 0
    ensures a / d + b / d <= (a + b) / d <= a / d + b / d + 1
  {
    DivBounds(a, d);
    DivBounds(b, d);
    DivBounds(a + b, d);
    var q := a / d + b / d;
    assert q * d == (a / d) * d + (b / d) * d;
    if (a + b) / d < q { MulMono((a + b) / d + 1, q, d); }
    if (a + b) / d > q + 1 { MulMono(q + 2, (a + b) / d, d); }
  }

  /** An integer is above a quotient's floor exactly when it is above the quotient itself. */
  lemma AboveFloor(p: int, num: int, den: int)
    requires den > 0
    ensures p > num / den <==> p * den > num
  {
    DivBounds(num, den);
    if p > num / den {
      MulMono(num / den + 1, p, den);
    } else {
      MulMono(p, num / den, den);
    }
  }

  lemma SubsetSize<T>(a: set<T>, b: set<T>)
    requires a <= b
    ensures |a| <= |b|
  {
    assert b == a + (b - a) && |b| == |a| + |b - a|;
  }
}
