/** Fixed-point amounts as text: rounding, formatting, and reading back (client/lib/format.ts). */
module Format {
  import opened Arithmetic
  import opened Text
  import opened Wrappers

  datatype Rounding = Nearest | Down | Up

  datatype Sign = Auto | Always

  // ---------------------------------------------------------------- rescaling

  function RoundMagnitude(a: nat, q: nat, mode: Rounding): nat
    requires q > 0
  {
    var rem := a % q;
    a / q + if rem > 0 && (mode.Up? || (mode.Nearest? && rem * 2 >= q)) then 1 else 0
  }

  function Rescale(value: int, decimals: nat, dp: nat, mode: Rounding): int {
    if dp >= decimals then value * Pow10(dp - decimals)
    else
      var r: int := RoundMagnitude(Abs(value), Pow10(decimals - dp), mode);
      if value < 0 then -r else r
  }

  /** `r` is `a / q` rounded as asked; the bounds leave one such r. */
  predicate IsRounded(a: nat, q: nat, mode: Rounding, r: nat) {
    RoundsTo(a, q, mode, r * q)
  }

  /** `m`, a multiple of `q`, is what `a` rounds to. */
  predicate RoundsTo(a: nat, q: nat, mode: Rounding, m: int) {
    match mode
    case Down => m <= a < m + q
    case Up => a <= m < a + q
    case Nearest => 2 * m <= 2 * a + q < 2 * m + 2 * q
  }

  lemma RoundedIs(a: nat, q: nat, mode: Rounding)
    requires q > 0
    ensures IsRounded(a, q, mode, RoundMagnitude(a, q, mode))
  {
    var d := a / q;
    assert a == d * q + a % q;
    assert (d + 1) * q == d * q + q;
  }

  lemma RoundedMonotone(a: nat, b: nat, q: nat, mode: Rounding, r: nat, t: nat)
    requires q > 0 && a <= b && IsRounded(a, q, mode, r) && IsRounded(b, q, mode, t)
    ensures r <= t
  {
    RoundedGap(a, b, q, mode, r * q, t * q);
    hide IsRounded;
    OneMore(t, q);
    if r > t { MulMono(t + 1, r, q); }
  }

  lemma OneMore(t: int, q: int)
    ensures (t + 1) * q == t * q + q
  {}

  lemma RoundedGap(a: nat, b: nat, q: nat, mode: Rounding, low: int, high: int)
    requires q > 0 && a <= b && RoundsTo(a, q, mode, low) && RoundsTo(b, q, mode, high)
    ensures low < high + q
  {}

  /** Rounding goes to the one multiple of the new unit the mode names, on the magnitude, keeping the sign. */
  lemma RescaleMeaning(value: int, decimals: nat, dp: nat, mode: Rounding, r: int)
    requires dp < decimals
    ensures Rescale(value, decimals, dp, mode) == r <==>
      IsRounded(Abs(value), Pow10(decimals - dp), mode, Abs(r)) && (r == 0 || (r < 0 <==> value < 0))
  {
    var q, m := Pow10(decimals - dp), RoundMagnitude(Abs(value), Pow10(decimals - dp), mode);
    RoundedIs(Abs(value), q, mode);
    hide RoundMagnitude;
    if IsRounded(Abs(value), q, mode, Abs(r)) {
      RoundedMonotone(Abs(value), Abs(value), q, mode, Abs(r), m);
      RoundedMonotone(Abs(value), Abs(value), q, mode, m, Abs(r));
    }
  }

  lemma RescaleOdd(value: int, decimals: nat, dp: nat, mode: Rounding)
    ensures Rescale(-value, decimals, dp, mode) == -Rescale(value, decimals, dp, mode)
  {
    hide RoundMagnitude;
    if dp >= decimals {
      assert (-value) * Pow10(dp - decimals) == -(value * Pow10(dp - decimals));
    } else if value == 0 {
      ZeroRounds(Pow10(decimals - dp), mode);
    }
  }

  lemma ZeroRounds(q: nat, mode: Rounding)
    requires q > 0
    ensures RoundMagnitude(0, q, mode) == 0
  {}

  lemma RescaleMonotone(v: int, w: int, decimals: nat, dp: nat, mode: Rounding)
    requires v <= w
    ensures Rescale(v, decimals, dp, mode) <= Rescale(w, decimals, dp, mode)
  {
    if dp >= decimals {
      MulMono(v, w, Pow10(dp - decimals));
    } else {
      var q := Pow10(decimals - dp);
      RoundedIs(Abs(v), q, mode);
      RoundedIs(Abs(w), q, mode);
      var r, t := RoundMagnitude(Abs(v), q, mode), RoundMagnitude(Abs(w), q, mode);
      hide RoundMagnitude;
      if v >= 0 { RoundedMonotone(v, w, q, mode, r, t); }
      if w < 0 { RoundedMonotone(-w, -v, q, mode, t, r); }
    }
  }

  // ---------------------------------------------------------------- formatting

  /** A comma goes before each digit, but the first, that starts a whole number of threes. */
  function GroupFrom(digits: string, i: nat): string
    requires i <= |digits|
    decreases |digits| - i
  {
    if i == |digits| then []
    else (if i > 0 && (|digits| - i) % 3 == 0 then [','] else []) + [digits[i]] + GroupFrom(digits, i + 1)
  }

  function Group(digits: string): string { GroupFrom(digits, 0) }

  function Quotient(a: nat, unit: nat): nat
    requires unit > 0
  {
    a / unit
  }

  function Whole(r: int, dp: nat, grouping: bool): string {
    var digits := Numeral(Quotient(Abs(r), Pow10(dp)));
    if grouping then Group(digits) else digits
  }

  function Fraction(r: int, dp: nat): string {
    if dp > 0 then ['.'] + PadStart(Numeral(Abs(r) % Pow10(dp)), dp) else []
  }

  function Prefix(r: int, sign: Sign): string {
    if r < 0 then ['-'] else if sign.Always? && Abs(r) > 0 then ['+'] else []
  }

  function FormatFixed(value: int, decimals: nat, dp: nat, rounding: Rounding, grouping: bool, sign: Sign): string {
    var r := Rescale(value, decimals, dp, rounding);
    Prefix(r, sign) + (Whole(r, dp, grouping) + Fraction(r, dp))
  }

  // ---------------------------------------------------------------- parsing

  function Trim(s: string): string { TrimEnd(DropSpaces(s)) }

  function TrimEnd(s: string): string {
    if s != [] && IsSpace(s[|s| - 1]) then TrimEnd(s[..|s| - 1]) else s
  }

  /** Three digits, then no fourth: what must follow a comma for it to be dropped. */
  predicate ThreeThenStop(s: string) {
    |s| >= 3 && AllDigits(s[..3]) && (|s| == 3 || !IsDigit(s[3]))
  }

  function StripCommas(s: string): string {
    if s == [] then []
    else if s[0] == ',' && ThreeThenStop(s[1..]) then StripCommas(s[1..])
    else [s[0]] + StripCommas(s[1..])
  }

  /** The whole and fractional digits of a text that is digits with at most one point, and not empty or a bare point. */
  function Parts(text: string): (r: Option<(string, string)>)
    ensures r.Some? ==> AllDigits(r.value.0) && AllDigits(r.value.1)
  {
    var n := Span(text, IsDigit);
    var rest := text[n..];
    if text == [] || text == ['.'] then None
    else if rest == [] then Some((text, []))
    else if rest[0] == '.' && AllDigits(rest[1..]) then Some((text[..n], rest[1..]))
    else None
  }

  function ParseAmount(input: string, decimals: nat): Option<nat> {
    var parts := Parts(StripCommas(Trim(input)));
    if parts.None? || |parts.value.1| > decimals then None
    else Some(Compose(parts.value.0, parts.value.1, decimals))
  }

  function Times(a: nat, b: nat): nat { a * b }

  function Compose(whole: string, frac: string, decimals: nat): nat
    requires AllDigits(whole) && AllDigits(frac) && |frac| <= decimals
  {
    PadEndValue(frac, decimals);
    Times(Value(whole), Pow10(decimals)) + Value(PadEnd(frac, decimals))
  }

  /** The text of a number, and its two runs of digits. */
  predicate Splits(text: string, whole: string, frac: string) {
    && AllDigits(whole) && AllDigits(frac) && whole + frac != []
    && (text == whole + (['.'] + frac) || (text == whole && frac == []))
  }

  lemma PartsSplit(text: string)
    requires Parts(text).Some?
    ensures Splits(text, Parts(text).value.0, Parts(text).value.1)
  {
    var n := Span(text, IsDigit);
    assert AllDigits(text[..n]);
    hide Span, AllDigits;
    if text[n..] == [] {
      assert text == text[..n] && text + [] == text;
    } else {
      PointSplit(text, n);
    }
  }

  lemma PointSplit(text: string, n: nat)
    requires n < |text| && text[n] == '.' && text != ['.']
    ensures text == text[..n] + (['.'] + text[n..][1..]) && text[..n] + text[n..][1..] != []
  {
    assert |text[..n] + text[n..][1..]| == |text| - 1;
  }

  lemma PointedSpan(whole: string, frac: string)
    requires AllDigits(whole)
    ensures var text := whole + (['.'] + frac);
      Span(text, IsDigit) == |whole| && text[..|whole|] == whole && text[|whole|..] == ['.'] + frac
  {
    SpanIs(whole + (['.'] + frac), IsDigit, |whole|);
  }

  lemma SplitParts(text: string, whole: string, frac: string)
    requires Splits(text, whole, frac)
    ensures Parts(text) == Some((whole, frac))
  {
    if text == whole && frac == [] {
      SpanIs(text, IsDigit, |text|);
      assert text != ['.'] && whole + [] == whole;
    } else {
      PointedSpan(whole, frac);
      assert (['.'] + frac)[1..] == frac;
      assert |text| == |whole| + |frac| + 1;
      hide Span, AllDigits;
    }
  }

  lemma PartsAre(text: string, whole: string, frac: string)
    ensures Parts(text) == Some((whole, frac)) <==> Splits(text, whole, frac)
  {
    hide Parts, Splits;
    if Splits(text, whole, frac) { SplitParts(text, whole, frac); }
    if Parts(text) == Some((whole, frac)) { PartsSplit(text); }
  }

  /** `x` is the number the text writes, at `decimals` places. */
  ghost predicate Writes(text: string, decimals: nat, x: nat) {
    exists whole, frac :: Splits(text, whole, frac) && |frac| <= decimals && AllDigits(whole + frac)
      && x == Value(whole + frac) * Pow10(decimals - |frac|)
  }

  /**
    * An amount is read exactly when the stripped text writes a number of at most `decimals` places, and it is that
    * number.
    */
  lemma ParseMeaning(input: string, decimals: nat, x: nat)
    ensures ParseAmount(input, decimals) == Some(x) <==> Writes(StripCommas(Trim(input)), decimals, x)
  {
    var text := StripCommas(Trim(input));
    hide StripCommas, Trim, Parts, Splits, AllDigits, Compose, Pow10, Value;
    if ParseAmount(input, decimals) == Some(x) {
      var (whole, frac) := Parts(text).value;
      PartsAre(text, whole, frac);
      ScaledValue(whole, frac, decimals);
    }
    if Writes(text, decimals, x) {
      var whole, frac :| Splits(text, whole, frac) && |frac| <= decimals && AllDigits(whole + frac)
        && x == Value(whole + frac) * Pow10(decimals - |frac|);
      PartsAre(text, whole, frac);
      ScaledValue(whole, frac, decimals);
    }
  }

  lemma ScaledValue(whole: string, frac: string, decimals: nat)
    requires AllDigits(whole) && AllDigits(frac) && |frac| <= decimals
    ensures AllDigits(whole + frac) && Compose(whole, frac, decimals) == Value(whole + frac) * Pow10(decimals - |frac|)
  {
    ValueConcat(whole, frac);
    PadEndValue(frac, decimals);
    Pow10Adds(|frac|, decimals - |frac|);
    Distributes(Value(whole), Pow10(|frac|), Value(frac), Pow10(decimals - |frac|));
  }

  lemma Distributes(a: int, p: int, b: int, k: int)
    ensures (a * p + b) * k == a * (p * k) + b * k
  {
    assert (a * p) * k == a * (p * k);
  }

  // ---------------------------------------------------------------- what was formatted reads back

  lemma TrimKeeps(s: string)
    requires s != [] && !IsSpace(s[0]) && !IsSpace(s[|s| - 1])
    ensures Trim(s) == s
  {
    assert DropSpaces(s) == s;
  }

  lemma {:induction false} StripKeeps(s: string, rest: string)
    requires ',' !in s
    ensures StripCommas(s + rest) == s + StripCommas(rest)
  {
    hide ThreeThenStop;
    if s == [] {
      assert s + rest == rest;
    } else {
      StripKeeps(s[1..], rest);
      assert (s + rest)[1..] == s[1..] + rest;
      assert s == [s[0]] + s[1..];
    }
  }

  lemma NoCommaInDigits(s: string)
    requires AllDigits(s)
    ensures ',' !in s
  {}

  /** Where a whole number of threes is left, the next two places have none. */
  lemma ThreesLeft(n: nat, i: nat)
    requires i < n && (n - i) % 3 == 0
    ensures i + 3 <= n && (n - (i + 1)) % 3 != 0 && (n - (i + 2)) % 3 != 0
  {}

  lemma GroupOne(digits: string, i: nat)
    requires i < |digits| && (i == 0 || (|digits| - i) % 3 != 0)
    ensures GroupFrom(digits, i) == [digits[i]] + GroupFrom(digits, i + 1)
  {
    assert [] + [digits[i]] == [digits[i]];
  }

  lemma GroupComma(digits: string, i: nat)
    requires 0 < i < |digits| && (|digits| - i) % 3 == 0
    ensures GroupFrom(digits, i) == [',', digits[i]] + GroupFrom(digits, i + 1)
  {
    assert [','] + [digits[i]] == [',', digits[i]];
  }

  lemma GroupBlock(digits: string, i: nat)
    requires 0 < i < |digits| && (|digits| - i) % 3 == 0
    ensures i + 3 <= |digits|
    ensures GroupFrom(digits, i) == [','] + (digits[i..i + 3] + GroupFrom(digits, i + 3))
  {
    ThreesLeft(|digits|, i);
    GroupComma(digits, i);
    GroupOne(digits, i + 1);
    GroupOne(digits, i + 2);
    hide *;
    Rebracket(digits, i, GroupFrom(digits, i + 3));
  }

  lemma Rebracket(digits: string, i: nat, after: string)
    requires i + 3 <= |digits|
    ensures [',', digits[i]] + ([digits[i + 1]] + ([digits[i + 2]] + after)) == [','] + (digits[i..i + 3] + after)
  {}

  lemma SuffixPlus(s: string, i: nat, j: nat, tail: string)
    requires i <= j <= |s|
    ensures s[i..j] + (s[j..] + tail) == s[i..] + tail
  {}

  lemma StripBlock(block: string, rest: string)
    requires AllDigits(block) && |block| == 3 && (rest == [] || !IsDigit(rest[0]))
    ensures StripCommas([','] + (block + rest)) == block + StripCommas(rest)
  {
    var s := block + rest;
    assert s[..3] == block && (rest != [] ==> s[3] == rest[0]);
    assert ([','] + s)[1..] == s;
    NoCommaInDigits(block);
    StripKeeps(block, rest);
  }

  lemma GroupStartsWithComma(digits: string, i: nat)
    requires 0 < i <= |digits| && (|digits| - i) % 3 == 0
    ensures i < |digits| ==> GroupFrom(digits, i) != [] && GroupFrom(digits, i)[0] == ','
  {}

  lemma StripOneBlock(digits: string, i: nat, tail: string)
    requires 0 < i < |digits| && (|digits| - i) % 3 == 0 && AllDigits(digits) && (tail == [] || !IsDigit(tail[0]))
    ensures i + 3 <= |digits|
    ensures StripCommas(GroupFrom(digits, i) + tail) == digits[i..i + 3] + StripCommas(GroupFrom(digits, i + 3) + tail)
  {
    GroupBlock(digits, i);
    GroupStartsWithComma(digits, i + 3);
    var block, after := digits[i..i + 3], GroupFrom(digits, i + 3);
    GroupEnd(digits);
    hide GroupFrom, StripCommas, AllDigits;
    assert AllDigits(block) by { SliceDigits(digits, i, i + 3); }
    StopsThere(after, tail);
    StripBlock(block, after + tail);
    ConcatAssoc([','], block + after, tail);
    ConcatAssoc(block, after, tail);
  }

  lemma GroupEnd(digits: string)
    ensures GroupFrom(digits, |digits|) == []
  {}

  lemma SliceDigits(digits: string, i: nat, j: nat)
    requires AllDigits(digits) && i <= j <= |digits|
    ensures AllDigits(digits[i..j])
  {}

  lemma StopsThere(after: string, tail: string)
    requires after == [] || !IsDigit(after[0])
    requires tail == [] || !IsDigit(tail[0])
    ensures after + tail == [] || !IsDigit((after + tail)[0])
  {}

  lemma ConcatAssoc(a: string, b: string, c: string)
    ensures (a + b) + c == a + (b + c)
  {}

  lemma StripOneDigit(digits: string, i: nat, tail: string)
    requires i < |digits| && (i == 0 || (|digits| - i) % 3 != 0) && AllDigits(digits)
    ensures StripCommas(GroupFrom(digits, i) + tail) == [digits[i]] + StripCommas(GroupFrom(digits, i + 1) + tail)
  {
    GroupOne(digits, i);
    var after := GroupFrom(digits, i + 1);
    assert IsDigit(digits[i]) && ',' !in [digits[i]];
    hide GroupFrom, StripCommas, AllDigits, IsDigit;
    StripKeeps([digits[i]], after + tail);
    ConcatAssoc([digits[i]], after, tail);
  }

  /** Grouping and then dropping the commas gives the digits back, whatever follows them. */
  lemma {:induction false} StripGrouped(digits: string, i: nat, tail: string)
    requires i <= |digits| && AllDigits(digits) && ',' !in tail && (tail == [] || !IsDigit(tail[0]))
    ensures StripCommas(GroupFrom(digits, i) + tail) == digits[i..] + tail
    decreases |digits| - i
  {
    if i == |digits| {
      StripKeeps(tail, []);
      assert tail + [] == tail && GroupFrom(digits, i) + tail == tail;
    } else {
      hide GroupFrom, StripCommas;
      if i > 0 && (|digits| - i) % 3 == 0 {
        StripOneBlock(digits, i, tail);
        StripGrouped(digits, i + 3, tail);
        SuffixPlus(digits, i, i + 3, tail);
      } else {
        StripOneDigit(digits, i, tail);
        StripGrouped(digits, i + 1, tail);
        assert digits[i..i + 1] == [digits[i]];
        SuffixPlus(digits, i, i + 1, tail);
      }
    }
  }

  lemma WholeStrips(r: int, dp: nat, grouping: bool, tail: string)
    requires ',' !in tail && (tail == [] || !IsDigit(tail[0]))
    ensures StripCommas(Whole(r, dp, grouping) + tail) == Whole(r, dp, false) + tail
  {
    var digits := Whole(r, dp, false);
    if grouping {
      StripGrouped(digits, 0, tail);
    } else {
      NoCommaInDigits(digits);
      StripKeeps(digits + tail, []);
      assert (digits + tail) + [] == digits + tail;
    }
  }

  /** The two runs of digits of a formatted magnitude write it exactly, with `dp` places. */
  lemma DigitsWrite(r: int, dp: nat) returns (frac: string)
    ensures AllDigits(Whole(r, dp, false)) && AllDigits(frac) && |frac| == dp
    ensures Fraction(r, dp) == (if dp > 0 then ['.'] + frac else [])
    ensures AllDigits(Whole(r, dp, false) + frac) && Value(Whole(r, dp, false) + frac) == Abs(r)
  {
    var a, unit := Abs(r), Pow10(dp);
    var q, m := Quotient(a, unit), a % unit;
    NumeralValue(q);
    QuotientRemainder(a, unit);
    frac := if dp > 0 then PadStart(Numeral(m), dp) else [];
    FracDigits(m, dp);
    hide Quotient, Numeral, Pow10, AllDigits, PadStart;
    ValueConcat(Numeral(q), frac);
    hide Value;
  }

  lemma QuotientRemainder(a: nat, unit: nat)
    requires unit > 0
    ensures a == Quotient(a, unit) * unit + a % unit && a % unit < unit
  {}

  lemma FracDigits(m: nat, dp: nat)
    requires m < Pow10(dp)
    ensures var frac := if dp > 0 then PadStart(Numeral(m), dp) else [];
      |frac| == dp && AllDigits(frac) && Value(frac) == m
  {
    NumeralValue(m);
    if dp > 0 { NumeralLength(m, dp); } else { assert Pow10(0) == 1; }
    PadStartValue(Numeral(m), dp);
    hide Numeral;
  }

  lemma GroupEnds(digits: string, i: nat)
    requires i < |digits| && AllDigits(digits)
    ensures GroupFrom(digits, i) != []
    ensures IsDigit(GroupFrom(digits, i)[|GroupFrom(digits, i)| - 1])
    decreases |digits| - i
  {
    if i + 1 < |digits| { GroupEnds(digits, i + 1); }
  }

  lemma GroupStarts(digits: string)
    requires digits != [] && AllDigits(digits)
    ensures GroupFrom(digits, 0) != [] && GroupFrom(digits, 0)[0] == digits[0]
  {
    GroupOne(digits, 0);
  }

  lemma WholeEnds(r: int, dp: nat, grouping: bool)
    ensures var w := Whole(r, dp, grouping);
      w != [] && IsDigit(w[0]) && IsDigit(w[|w| - 1])
  {
    var digits := Numeral(Quotient(Abs(r), Pow10(dp)));
    GroupStarts(digits);
    GroupEnds(digits, 0);
    hide GroupFrom, Numeral, Quotient, Pow10;
  }

  lemma FractionEnds(r: int, dp: nat)
    ensures var f := Fraction(r, dp);
      f != [] ==> f[0] == '.' && IsDigit(f[|f| - 1])
  {
    var frac := DigitsWrite(r, dp);
    hide Fraction, Whole, Value;
  }

  lemma EndsOfConcat(p: string, w: string, f: string)
    requires w != []
    ensures var s := p + (w + f);
      && s[0] == (if p != [] then p[0] else w[0])
      && s[|s| - 1] == (if f != [] then f[|f| - 1] else w[|w| - 1])
  {}

  lemma FormattedEnds(r: int, dp: nat, grouping: bool, sign: Sign)
    ensures var s := Prefix(r, sign) + (Whole(r, dp, grouping) + Fraction(r, dp));
      Whole(r, dp, grouping) != [] && IsDigit(Whole(r, dp, grouping)[0]) && !IsSpace(s[0]) && IsDigit(s[|s| - 1])
  {
    WholeEnds(r, dp, grouping);
    FractionEnds(r, dp);
    hide Whole, Fraction;
    EndsOfConcat(Prefix(r, sign), Whole(r, dp, grouping), Fraction(r, dp));
  }

  lemma SignIsNoNumber(c: char, s: string)
    requires c == '-' || c == '+'
    ensures Parts([c] + s).None?
  {}

  /** Trimming and stripping undo nothing but the grouping. */
  lemma StrippedFormat(r: int, dp: nat, grouping: bool, sign: Sign)
    ensures StripCommas(Trim(Prefix(r, sign) + (Whole(r, dp, grouping) + Fraction(r, dp))))
      == Prefix(r, sign) + (Whole(r, dp, false) + Fraction(r, dp))
  {
    var prefix, tail := Prefix(r, sign), Fraction(r, dp);
    assert ',' !in prefix;
    assert ',' !in tail && (tail == [] || !IsDigit(tail[0])) by {
      var frac := DigitsWrite(r, dp);
      NoCommaInDigits(frac);
    }
    FormattedEnds(r, dp, grouping, sign);
    hide Whole, Fraction, Prefix, Trim, StripCommas, IsSpace;
    TrimKeeps(prefix + (Whole(r, dp, grouping) + tail));
    WholeStrips(r, dp, grouping, tail);
    StripKeeps(prefix, Whole(r, dp, grouping) + tail);
  }

  lemma UnsignedParts(r: int, dp: nat, whole: string, frac: string)
    requires whole == Whole(r, dp, false) && AllDigits(whole) && whole != [] && AllDigits(frac) && |frac| == dp
    requires Fraction(r, dp) == (if dp > 0 then ['.'] + frac else [])
    ensures Parts(whole + Fraction(r, dp)) == Some((whole, frac))
  {
    hide Whole, Fraction, Parts, AllDigits;
    if dp == 0 { assert whole + [] == whole; }
    PartsAre(whole + Fraction(r, dp), whole, frac);
  }

  /**
    * Everything formatted reads back: at k places a formatted amount parses to the rounded value at that
    * scale, unless it carries a sign or has more than k places, and then it is refused.
    */
  lemma ParseOfFormat(value: int, decimals: nat, dp: nat, rounding: Rounding, grouping: bool, sign: Sign, k: nat)
    ensures var r := Rescale(value, decimals, dp, rounding);
      ParseAmount(FormatFixed(value, decimals, dp, rounding, grouping, sign), k)
      == if r < 0 || (sign.Always? && r > 0) || dp > k then None else Some(Times(r, Pow10(k - dp)))
  {
    var r := Rescale(value, decimals, dp, rounding);
    var prefix, whole, tail := Prefix(r, sign), Whole(r, dp, false), Fraction(r, dp);
    var frac := DigitsWrite(r, dp);
    StrippedFormat(r, dp, grouping, sign);
    FormattedEnds(r, dp, false, sign);
    hide Rescale, Whole, Fraction, Trim, StripCommas, Parts, Compose, Value, IsSpace;
    if prefix != [] {
      SignIsNoNumber(prefix[0], whole + tail);
      assert prefix == [prefix[0]];
    } else {
      assert prefix + (whole + tail) == whole + tail;
      UnsignedParts(r, dp, whole, frac);
      if dp <= k { ScaledValue(whole, frac, k); }
    }
  }

  /** At full precision nothing is lost: formatting and parsing a non-negative amount is the identity. */
  lemma ExactRoundTrip(value: nat, decimals: nat, rounding: Rounding, grouping: bool)
    ensures ParseAmount(FormatFixed(value, decimals, decimals, rounding, grouping, Auto), decimals) == Some(value)
  {
    hide FormatFixed, ParseAmount;
    ParseOfFormat(value, decimals, decimals, rounding, grouping, Auto, decimals);
    assert Pow10(0) == 1;
  }

  // ---------------------------------------------------------------- a size for an input box

  const SIZE_DECIMALS: nat := 18

  function SizeInput(sizeDecimals: nat, size: int): string {
    FormatFixed(size, SIZE_DECIMALS, sizeDecimals, Down, false, Auto)
  }

  /** One in the last place a size box shows, in units of the size's own scale. */
  function DisplayUnit(sizeDecimals: nat): (q: nat)
    ensures q > 0
  {
    if sizeDecimals <= SIZE_DECIMALS then Pow10(SIZE_DECIMALS - sizeDecimals) else 1
  }

  /**
    * What a size box holds reads back as at most the size, short of it by less than one display unit. A
    * negative size short of one unit shows as zero, which is the only way to read back more than the source.
    */
  lemma SizeInputNeverExceeds(sizeDecimals: nat, size: int)
    ensures var parsed := ParseAmount(SizeInput(sizeDecimals, size), SIZE_DECIMALS);
      && (parsed.Some? <==> sizeDecimals <= SIZE_DECIMALS && size + DisplayUnit(sizeDecimals) > 0)
      && (parsed.Some? ==> (parsed.value <= size <==> size >= 0))
      && (parsed.Some? && size >= 0 ==> size - parsed.value < DisplayUnit(sizeDecimals))
  {
    ParseOfFormat(size, SIZE_DECIMALS, sizeDecimals, Down, false, Auto, SIZE_DECIMALS);
    SizeRounds(sizeDecimals, size);
    hide FormatFixed, ParseAmount, Rescale, Pow10;
  }

  lemma SizeRounds(sizeDecimals: nat, size: int)
    ensures var r, q := Rescale(size, SIZE_DECIMALS, sizeDecimals, Down), DisplayUnit(sizeDecimals);
      sizeDecimals <= SIZE_DECIMALS ==>
        && (r >= 0 <==> size + q > 0)
        && (size >= 0 ==> r * q <= size < r * q + q)
        && (size < 0 && r >= 0 ==> r * q == 0)
  {
    var r := Rescale(size, SIZE_DECIMALS, sizeDecimals, Down);
    if sizeDecimals < SIZE_DECIMALS {
      RescaleMeaning(size, SIZE_DECIMALS, sizeDecimals, Down, r);
      hide Rescale, Pow10;
      DownBounds(size, DisplayUnit(sizeDecimals), r);
    } else if sizeDecimals == SIZE_DECIMALS {
      assert Pow10(0) == 1;
    }
  }

  lemma DownBounds(size: int, q: nat, r: int)
    requires q > 0 && IsRounded(Abs(size), q, Down, Abs(r)) && (r == 0 || (r < 0 <==> size < 0))
    ensures r >= 0 <==> size + q > 0
    ensures size >= 0 ==> r * q <= size < r * q + q
    ensures size < 0 && r >= 0 ==> r * q == 0
  {
    if size < 0 && r < 0 { MulMono(1, Abs(r), q); }
  }

  // ---------------------------------------------------------------- commas

  /** The first point, or the end: where the whole part stops. */
  function WholeEnd(text: string): nat { Span(text, c => c != '.') }

  function DigitsBetween(text: string, a: nat, b: nat): nat
    requires b <= |text|
    decreases b - a
  {
    if a >= b then 0 else (if IsDigit(text[a]) then 1 else 0) + DigitsBetween(text, a + 1, b)
  }

  /** The comma at `p` separates thousands: after a digit of the whole part, with a whole number of threes to come. */
  predicate Separator(text: string, p: nat)
    requires p < |text|
  {
    var e := WholeEnd(text);
    && 0 < p < e && IsDigit(text[p - 1])
    && DigitsBetween(text, p + 1, e) > 0 && DigitsBetween(text, p + 1, e) % 3 == 0
  }

  predicate StartsWith(text: string, c: char) {
    text != [] && text[0] == c
  }

  predicate ThousandsOnly(text: string) {
    forall p :: 0 <= p < |text| && text[p] == ',' ==> Separator(text, p)
  }

  lemma {:induction false} CommasStripped(text: string)
    requires ',' !in StripCommas(text)
    ensures forall p :: 0 <= p < |text| && text[p] == ',' ==> ThreeThenStop(text[p + 1..])
    ensures forall p :: 0 <= p < |text| && text[p] != ',' ==> text[p] in StripCommas(text)
  {
    if text != [] {
      var rest := text[1..];
      CommasStripped(rest);
      hide ThreeThenStop;
      forall p | 0 <= p < |text| && text[p] == ',' ensures ThreeThenStop(text[p + 1..]) {
        if p > 0 { assert rest[p - 1] == ',' && rest[p - 1 + 1..] == text[p + 1..]; }
      }
      forall p | 0 <= p < |text| && text[p] != ',' ensures text[p] in StripCommas(text) {
        if p > 0 { assert rest[p - 1] == text[p]; }
      }
    }
  }

  /** The characters of an accepted text: digits, points, and commas that are each dropped. */
  lemma AcceptedCharacters(text: string)
    requires Parts(StripCommas(text)).Some?
    ensures forall p :: 0 <= p < |text| ==> IsDigit(text[p]) || text[p] == '.' || text[p] == ','
    ensures forall p :: 0 <= p < |text| && text[p] == ',' ==> ThreeThenStop(text[p + 1..])
  {
    var plain := StripCommas(text);
    PlainCharacters(plain);
    hide Parts, StripCommas, ThreeThenStop, IsDigit;
    CommasStripped(text);
  }

  lemma PlainCharacters(plain: string)
    requires Parts(plain).Some?
    ensures forall c :: c in plain ==> IsDigit(c) || c == '.'
    ensures ',' !in plain
  {
    PartsAre(plain, Parts(plain).value.0, Parts(plain).value.1);
    hide Parts;
  }

  lemma StopAt(text: string, p: nat)
    requires p < |text| && ThreeThenStop(text[p + 1..])
    ensures p + 4 <= |text| && IsDigit(text[p + 1]) && IsDigit(text[p + 2]) && IsDigit(text[p + 3])
    ensures p + 4 < |text| ==> !IsDigit(text[p + 4])
  {
    var s := text[p + 1..];
    assert s[..3][0] == text[p + 1] && s[..3][1] == text[p + 2] && s[..3][2] == text[p + 3];
  }

  lemma {:induction false} ThreesAfterComma(text: string, e: nat, p: nat)
    requires p < e <= |text| && text[p] == ',' && (e < |text| ==> text[e] == '.')
    requires forall i :: 0 <= i < e ==> text[i] == ',' || IsDigit(text[i])
    requires forall i :: 0 <= i < |text| && text[i] == ',' ==> ThreeThenStop(text[i + 1..])
    ensures DigitsBetween(text, p + 1, e) > 0 && DigitsBetween(text, p + 1, e) % 3 == 0
    decreases e - p
  {
    StopAt(text, p);
    hide ThreeThenStop;
    assert DigitsBetween(text, p + 3, e) == 1 + DigitsBetween(text, p + 4, e);
    assert DigitsBetween(text, p + 1, e) == 3 + DigitsBetween(text, p + 4, e);
    if p + 4 < e {
      ThreesAfterComma(text, e, p + 4);
    }
  }

  /**
    * "Commas only as thousands separators" holds of an accepted text exactly when no comma comes first and
    * none follows the point; both kinds are accepted.
    */
  lemma CommasAreThousandsIff(text: string)
    requires Parts(StripCommas(text)).Some?
    ensures ThousandsOnly(text) <==>
      (!StartsWith(text, ',') && forall p :: WholeEnd(text) <= p < |text| ==> text[p] != ',')
  {
    AcceptedCharacters(text);
    var e := WholeEnd(text);
    hide StripCommas, Parts, WholeEnd, ThreeThenStop, DigitsBetween;
    if !StartsWith(text, ',') && forall p :: e <= p < |text| ==> text[p] != ',' {
      forall p | 0 <= p < |text| && text[p] == ',' ensures Separator(text, p) {
        assert IsDigit(text[p - 1]) by { DigitBeforeComma(text, p); }
        ThreesAfterComma(text, e, p);
      }
    }
  }

  lemma DigitBeforeComma(text: string, p: nat)
    requires 0 < p < WholeEnd(text) && text[p] == ','
    requires forall i :: 0 <= i < |text| ==> IsDigit(text[i]) || text[i] == '.' || text[i] == ','
    requires forall i :: 0 <= i < |text| && text[i] == ',' ==> ThreeThenStop(text[i + 1..])
    ensures IsDigit(text[p - 1])
  {
    assert text[p - 1] != '.';
    if text[p - 1] == ',' { StopAt(text, p - 1); }
  }

  /** A comma before the last three digits is dropped, whatever stands before it. */
  lemma LastCommaDropped(head: string, block: string)
    requires ',' !in head && (head == [] || !IsSpace(head[0])) && AllDigits(block) && |block| == 3
    ensures StripCommas(Trim(head + ([','] + block))) == head + block
  {
    var tail := [','] + block;
    var s := head + tail;
    assert s[|s| - 1] == block[2] && IsDigit(block[2]);
    assert s[0] == if head == [] then ',' else head[0];
    assert StripCommas([]) == [] && block + [] == block;
    hide StripCommas, Trim, ThreeThenStop;
    TrimKeeps(s);
    StripBlock(block, []);
    StripKeeps(head, tail);
  }

  /** What an input whose stripped text splits into these runs of digits reads as. */
  lemma ParseOfParts(input: string, decimals: nat, whole: string, frac: string)
    requires Splits(StripCommas(Trim(input)), whole, frac) && |frac| <= decimals && AllDigits(whole + frac)
    ensures ParseAmount(input, decimals) == Some(Times(Value(whole + frac), Pow10(decimals - |frac|)))
  {
    PartsAre(StripCommas(Trim(input)), whole, frac);
    ScaledValue(whole, frac, decimals);
    hide StripCommas, Trim, Parts, Compose, Value, Pow10;
  }

  lemma NotThousands(text: string, p: nat)
    requires p < |text| && text[p] == ',' && !Separator(text, p)
    ensures !ThousandsOnly(text)
  {}

  lemma DigitsAreNumber(block: string)
    requires AllDigits(block) && block != []
    ensures block + [] == block && Splits(block, block, [])
  {
    assert block + [] == block;
  }

  /** A comma in front of three digits is accepted, and separates no thousands: ",123" reads as 123. */
  lemma LeadingCommaAccepted(block: string, decimals: nat)
    requires AllDigits(block) && |block| == 3
    ensures ParseAmount([','] + block, decimals) == Some(Times(Value(block), Pow10(decimals)))
    ensures !ThousandsOnly([','] + block)
  {
    var input := [','] + block;
    assert [] + input == input && [] + block == block;
    assert input[0] == ',' && !Separator(input, 0);
    hide *;
    LastCommaDropped([], block);
    DigitsAreNumber(block);
    ParseOfParts(input, decimals, block, []);
    NotThousands(input, 0);
  }

  lemma AfterPoint(whole: string, frac: string, block: string)
    requires AllDigits(whole)
    ensures !ThousandsOnly((whole + (['.'] + frac)) + ([','] + block))
  {
    var s := (whole + (['.'] + frac)) + ([','] + block);
    var p := |whole| + 1 + |frac|;
    assert s[|whole|] == '.' && s[p] == ',';
    assert forall i :: 0 <= i < |whole| ==> s[i] == whole[i];
    SpanIs(s, c => c != '.', |whole|);
    NotThousands(s, p);
  }

  lemma PointedHead(whole: string, frac: string, block: string)
    requires AllDigits(whole) && AllDigits(frac) && AllDigits(block)
    ensures var head := whole + (['.'] + frac);
      ',' !in head && head != [] && !IsSpace(head[0]) && head + block == whole + (['.'] + (frac + block))
    ensures AllDigits(frac + block) && AllDigits(whole + (frac + block))
  {
    var head := whole + (['.'] + frac);
    assert head[0] == if whole == [] then '.' else whole[0];
  }

  /** A comma before the last three digits of a fraction is accepted too: "0.1,234" reads as 0.1234. */
  lemma FractionCommaAccepted(whole: string, frac: string, block: string, decimals: nat)
    requires AllDigits(whole) && AllDigits(frac) && AllDigits(block) && |block| == 3 && |frac| + 3 <= decimals
    ensures var input := (whole + (['.'] + frac)) + ([','] + block);
      && AllDigits(whole + (frac + block))
      && ParseAmount(input, decimals) == Some(Times(Value(whole + (frac + block)), Pow10(decimals - |frac| - 3)))
      && !ThousandsOnly(input)
  {
    var head := whole + (['.'] + frac);
    PointedHead(whole, frac, block);
    AfterPoint(whole, frac, block);
    assert Splits(whole + (['.'] + (frac + block)), whole, frac + block);
    hide *;
    LastCommaDropped(head, block);
    ParseOfParts(head + ([','] + block), decimals, whole, frac + block);
  }

  // ---------------------------------------------------------------- what a formatted amount looks like

  lemma {:induction false} GroupLength(digits: string, i: nat)
    requires i < |digits|
    ensures |GroupFrom(digits, i)| == (|digits| - i) + (|digits| - (if i > 0 then i else 1)) / 3
    decreases |digits| - i
  {
    if i + 1 < |digits| { GroupLength(digits, i + 1); }
  }

  lemma {:induction false} GroupHasNoPoint(digits: string, i: nat)
    requires AllDigits(digits) && i <= |digits|
    ensures '.' !in GroupFrom(digits, i)
    decreases |digits| - i
  {
    if i < |digits| { GroupHasNoPoint(digits, i + 1); }
  }

  /** Grouping writes the same digits with every thousands separator there is room for, and no other comma. */
  lemma GroupShape(digits: string)
    requires digits != [] && AllDigits(digits)
    ensures StripCommas(Group(digits)) == digits && ThousandsOnly(Group(digits))
    ensures |Group(digits)| == |digits| + (|digits| - 1) / 3
  {
    var g := Group(digits);
    GroupLength(digits, 0);
    GroupHasNoPoint(digits, 0);
    GroupStarts(digits);
    StripGrouped(digits, 0, []);
    assert g + [] == g && digits[0..] + [] == digits;
    DigitsAreNumber(digits);
    PartsAre(digits, digits, []);
    SpanIs(g, c => c != '.', |g|);
    hide GroupFrom, StripCommas, Parts, ThousandsOnly;
    CommasAreThousandsIff(g);
  }

  /** Signs: a minus exactly on what rounds below zero, a plus only when asked for, and none on what rounds to zero. */
  lemma SignedFormat(value: int, decimals: nat, dp: nat, rounding: Rounding, grouping: bool, sign: Sign)
    ensures var r := Rescale(value, decimals, dp, rounding);
      FormatFixed(value, decimals, dp, rounding, grouping, sign)
      == (if r < 0 then ['-'] else if r > 0 && sign.Always? then ['+'] else [])
         + FormatFixed(if r < 0 then -value else value, decimals, dp, rounding, grouping, Auto)
  {
    RescaleOdd(value, decimals, dp, rounding);
    var r := Rescale(value, decimals, dp, rounding);
    hide Rescale;
    SameMagnitude(r, dp, grouping);
    assert [] + (Whole(r, dp, grouping) + Fraction(r, dp)) == Whole(r, dp, grouping) + Fraction(r, dp);
    hide Whole, Fraction;
  }

  lemma SameMagnitude(r: int, dp: nat, grouping: bool)
    ensures Whole(-r, dp, grouping) == Whole(r, dp, grouping) && Fraction(-r, dp) == Fraction(r, dp)
  {}

  // ---------------------------------------------------------------- compact amounts

  const UNITS: seq<(string, nat)> := [("B", 9), ("M", 6), ("K", 3)]

  /** The first unit, largest first, that the amount rounds to at least 1.00 of. */
  function CompactExp(magnitude: nat, decimals: nat): nat {
    if Rescale(magnitude, decimals + 9, 2, Nearest) >= 100 then 9
    else if Rescale(magnitude, decimals + 6, 2, Nearest) >= 100 then 6
    else if Rescale(magnitude, decimals + 3, 2, Nearest) >= 100 then 3
    else 0
  }

  function Suffix(exp: nat): string {
    if exp == 9 then "B" else if exp == 6 then "M" else if exp == 3 then "K" else ""
  }

  method FormatCompactUsd(value: int, decimals: nat) returns (s: string)
    ensures var exp := CompactExp(Abs(value), decimals);
      s == (if value < 0 then "-" else "") + "$"
        + FormatFixed(Abs(value), decimals + exp, 2, Nearest, true, Auto) + Suffix(exp)
  {
    hide Rescale, FormatFixed;
    var magnitude := Abs(value);
    var sign := if value < 0 then "-" else "";
    for i := 0 to |UNITS|
      invariant forall j :: 0 <= j < i ==> Rescale(magnitude, decimals + UNITS[j].1, 2, Nearest) < 100
    {
      var (suffix, exp) := UNITS[i];
      assert UNITS[0] == ("B", 9) && UNITS[1] == ("M", 6) && UNITS[2] == ("K", 3);
      if Rescale(magnitude, decimals + exp, 2, Nearest) >= 100 {
        assert i == 0 || i == 1 || i == 2;
        assert suffix == Suffix(exp) && exp == CompactExp(magnitude, decimals);
        return sign + "$" + FormatFixed(magnitude, decimals + exp, 2, Nearest, true, Auto) + suffix;
      }
    }
    assert UNITS[0].1 == 9 && UNITS[1].1 == 6 && UNITS[2].1 == 3;
    s := sign + "$" + FormatFixed(magnitude, decimals, 2, Nearest, true, Auto);
    assert s + "" == s;
  }

  /** 0.995 of the unit of `exp` digits: where it starts to show as 1.00. */
  function UnitFrom(decimals: nat, exp: nat): nat
    requires exp >= 3
  {
    995 * Pow10(decimals + exp - 3)
  }

  lemma UnitsGrow(decimals: nat, exp: nat)
    requires exp >= 3
    ensures UnitFrom(decimals, exp) <= UnitFrom(decimals, exp + 3)
  {
    var d := decimals + exp - 3;
    assert Pow10(d + 3) == 10 * Pow10(d + 2) && Pow10(d + 2) == 10 * Pow10(d + 1);
  }

  /** A unit is reached exactly from 0.995 of it on. */
  lemma UnitReached(magnitude: nat, decimals: nat, exp: nat)
    requires exp >= 3
    ensures Rescale(magnitude, decimals + exp, 2, Nearest) >= 100 <==> magnitude >= UnitFrom(decimals, exp)
  {
    var q := Pow10(decimals + exp - 2);
    assert q == 10 * Pow10(decimals + exp - 3);
    var r := Rescale(magnitude, decimals + exp, 2, Nearest);
    RescaleMeaning(magnitude, decimals + exp, 2, Nearest, r);
    hide Rescale, Pow10;
    if r >= 100 { MulMono(100, r, q); } else { MulMono(r, 99, q); }
  }

  /** Short of the next unit, no mantissa exceeds 995.00: a shorter form never needs a thousands comma. */
  lemma MantissaBelow(magnitude: nat, decimals: nat, exp: nat)
    requires magnitude < UnitFrom(decimals, exp + 3)
    ensures Rescale(magnitude, decimals + exp, 2, Nearest) <= 99_500
  {
    var d, r := decimals + exp, Rescale(magnitude, decimals + exp, 2, Nearest);
    assert Pow10(2) == 100 by { assert Pow10(1) == 10; }
    if d > 2 {
      var q := Pow10(d - 2);
      Pow10Adds(2, d - 2);
      RescaleMeaning(magnitude, d, 2, Nearest, r);
      hide Rescale, Pow10;
      if r > 99_500 { MulMono(99_501, r, q); }
    } else {
      Pow10Adds(d, 2 - d);
      var p := Pow10(2 - d);
      hide Pow10;
      MulMono(magnitude, 995 * Pow10(d), p);
      Regroup(Pow10(d), p);
    }
  }

  lemma Regroup(a: int, b: int)
    ensures (995 * a) * b == 995 * (a * b)
  {}

  /**
    * The compact form names the largest unit the amount reaches 0.995 of, with at least 1.00 and, but for
    * billions, at most 995.00 of it.
    */
  lemma CompactReads(magnitude: nat, decimals: nat)
    ensures var exp := CompactExp(magnitude, decimals);
      var shown := Rescale(magnitude, decimals + exp, 2, Nearest);
      && (exp == 9 <==> magnitude >= UnitFrom(decimals, 9))
      && (exp >= 6 <==> magnitude >= UnitFrom(decimals, 6))
      && (exp >= 3 <==> magnitude >= UnitFrom(decimals, 3))
      && (exp > 0 ==> shown >= 100) && (exp < 9 ==> shown <= 99_500)
  {
    hide Rescale, Pow10, UnitFrom;
    UnitReached(magnitude, decimals, 9);
    UnitReached(magnitude, decimals, 6);
    UnitReached(magnitude, decimals, 3);
    UnitsGrow(decimals, 3);
    UnitsGrow(decimals, 6);
    var exp := CompactExp(magnitude, decimals);
    if exp < 9 { MantissaBelow(magnitude, decimals, exp); }
  }
}
