/** The fee-tier schedule: its text form and the tier a volume earns (client/lib/keepers/fee-tier.ts). */
module FeeSchedule {
  import opened Arithmetic
  import opened Sorting
  import opened Text
  import opened Wrappers

  const MAX_TIER: nat := 16
  const USD6: nat := 1_000_000

  datatype TierStep = TierStep(tier: nat, minVolume: nat)

  datatype ScheduleError =
    | NotSet
    | NotTierMinUsd(part: string)
    | TierOutside
    | NeedsPositive(tier: nat)
    | AppearsTwice(tier: nat)
    | NeedsMoreVolume(tier: nat, than: nat)

  type Checked<T> = Result<T, ScheduleError>

  // ---------------------------------------------------------------- one part of the text

  lemma DropSpacesIs(a: string, rest: string)
    requires AllSpaces(a) && (rest == [] || !IsSpace(rest[0]))
    ensures DropSpaces(a + rest) == rest
  {
    SpanIs(a + rest, IsSpace, |a|);
  }

  lemma DigitsSpan(a: string, rest: string)
    requires AllDigits(a) && (rest == [] || !IsDigit(rest[0]))
    ensures Span(a + rest, IsDigit) == |a|
  {
    SpanIs(a + rest, IsDigit, |a|);
  }

  /** Blanks, then at least one digit: the digits, and what follows them. */
  function ScanNumber(s: string): (r: Option<(string, string)>)
    ensures r.Some? ==> AllDigits(r.value.0) && r.value.0 != []
  {
    var t := DropSpaces(s);
    var n := Span(t, IsDigit);
    if n == 0 then None else Some((t[..n], t[n..]))
  }

  /** Blanks, a numeral, blanks, a colon, blanks, a numeral, blanks: read left to right. */
  function Scan(part: string): (r: Option<(string, string)>)
    ensures r.Some? ==> AllDigits(r.value.0) && AllDigits(r.value.1)
  {
    var first := ScanNumber(part);
    if first.None? then None
    else
      var t := DropSpaces(first.value.1);
      if t == [] || t[0] != ':' then None
      else
        var second := ScanNumber(t[1..]);
        if second.None? || !AllSpaces(second.value.1) then None else Some((first.value.0, second.value.0))
  }

  predicate Shape(part: string, a: string, tier: string, b: string, c: string, usd: string, d: string) {
    && AllSpaces(a) && AllSpaces(b) && AllSpaces(c) && AllSpaces(d)
    && AllDigits(tier) && AllDigits(usd) && tier != [] && usd != []
    && part == a + (tier + (b + ([':'] + (c + (usd + d)))))
  }

  /** The pattern a part must match, and what its two groups capture. */
  ghost predicate Reads(part: string, tier: string, usd: string) {
    exists a, b, c, d :: Shape(part, a, tier, b, c, usd, d)
  }

  lemma NumberRead(a: string, digits: string, rest: string)
    requires AllSpaces(a) && AllDigits(digits) && digits != [] && (rest == [] || !IsDigit(rest[0]))
    ensures ScanNumber(a + (digits + rest)) == Some((digits, rest))
  {
    var t := digits + rest;
    assert t[0] == digits[0];
    DropSpacesIs(a, t);
    DigitsSpan(digits, rest);
    assert t[..|digits|] == digits && t[|digits|..] == rest;
  }

  lemma NumberShape(s: string) returns (a: string)
    requires ScanNumber(s).Some?
    ensures AllSpaces(a) && s == a + (ScanNumber(s).value.0 + ScanNumber(s).value.1)
  {
    a := s[..Span(s, IsSpace)];
    assert s == a + DropSpaces(s);
  }

  lemma ColonRead(b: string, after: string)
    requires AllSpaces(b)
    ensures DropSpaces(b + ([':'] + after)) == [':'] + after
    ensures (b + ([':'] + after))[0] == ':' || IsSpace((b + ([':'] + after))[0])
  {
    var colon := [':'] + after;
    assert colon[0] == ':' && !IsSpace(':');
    hide IsSpace, DropSpaces;
    DropSpacesIs(b, colon);
  }

  lemma NotDigits()
    ensures !IsDigit(':') && forall c :: IsSpace(c) ==> !IsDigit(c)
  {}

  lemma ScannedShape(part: string, a: string, tier: string, b: string, c: string, usd: string, d: string)
    requires Shape(part, a, tier, b, c, usd, d)
    ensures Scan(part) == Some((tier, usd))
  {
    var after := c + (usd + d);
    var rest := b + ([':'] + after);
    NotDigits();
    assert d != [] ==> IsSpace(d[0]);
    hide *;
    ColonRead(b, after);
    NumberRead(a, tier, rest);
    NumberRead(c, usd, d);
    ScanSteps(part, tier, rest, after, usd, d);
  }

  lemma ScanSteps(part: string, tier: string, rest: string, after: string, usd: string, d: string)
    requires ScanNumber(part) == Some((tier, rest)) && DropSpaces(rest) == [':'] + after
    requires ScanNumber(after) == Some((usd, d)) && AllSpaces(d)
    ensures Scan(part) == Some((tier, usd))
  {
    hide ScanNumber, DropSpaces, AllSpaces;
    assert ([':'] + after)[1..] == after;
  }

  lemma ColonShape(rest: string) returns (b: string)
    requires DropSpaces(rest) != [] && DropSpaces(rest)[0] == ':'
    ensures AllSpaces(b) && rest == b + ([':'] + DropSpaces(rest)[1..])
  {
    b := rest[..Span(rest, IsSpace)];
    var t := DropSpaces(rest);
    assert t == [':'] + t[1..] && rest == b + t;
  }

  lemma ShapeScanned(part: string)
    requires Scan(part).Some?
    ensures Reads(part, Scan(part).value.0, Scan(part).value.1)
  {
    var first := ScanNumber(part).value;
    var after := DropSpaces(first.1)[1..];
    var second := ScanNumber(after).value;
    var a := NumberShape(part);
    var b := ColonShape(first.1);
    var c := NumberShape(after);
    assert AllSpaces(second.1) && Scan(part).value == (first.0, second.0);
    hide ScanNumber, DropSpaces, Scan, AllDigits, AllSpaces;
    assert Shape(part, a, first.0, b, c, second.0, second.1);
  }

  /** Reading left to right accepts exactly the pattern, and the pattern captures in one way only. */
  lemma ScanIsPattern(part: string, tier: string, usd: string)
    ensures Scan(part) == Some((tier, usd)) <==> Reads(part, tier, usd)
  {
    hide Scan, Shape;
    if Reads(part, tier, usd) {
      var a, b, c, d :| Shape(part, a, tier, b, c, usd, d);
      ScannedShape(part, a, tier, b, c, usd, d);
    }
    if Scan(part) == Some((tier, usd)) { ShapeScanned(part); }
  }

  function ParsePart(part: string): Checked<TierStep> {
    var m := Scan(part);
    if m.None? then Err(NotTierMinUsd(part))
    else
      var tier, minUsd := Value(m.value.0), Value(m.value.1);
      if tier < 1 || tier > MAX_TIER then Err(TierOutside)
      else if minUsd <= 0 then Err(NeedsPositive(tier))
      else Ok(TierStep(tier, minUsd * USD6))
  }

  /** A part names a step: the two numerals, a tier in 1..16, a positive threshold in whole USD. */
  ghost predicate Names(part: string, step: TierStep) {
    exists tier, usd :: Reads(part, tier, usd) && AllDigits(tier) && AllDigits(usd)
      && Value(tier) == step.tier && 1 <= step.tier <= MAX_TIER
      && Value(usd) > 0 && step.minVolume == Value(usd) * USD6
  }

  lemma PartNames(part: string, step: TierStep)
    ensures ParsePart(part) == Ok(step) <==> Names(part, step)
  {
    hide Scan, Reads, AllDigits, Value;
    if Names(part, step) {
      var tier, usd :| Reads(part, tier, usd) && AllDigits(tier) && AllDigits(usd)
        && Value(tier) == step.tier && 1 <= step.tier <= MAX_TIER
        && Value(usd) > 0 && step.minVolume == Value(usd) * USD6;
      ScanIsPattern(part, tier, usd);
    }
    if ParsePart(part) == Ok(step) { ScanIsPattern(part, Scan(part).value.0, Scan(part).value.1); }
  }

  // ---------------------------------------------------------------- the whole text

  /** The first part that is wrong decides the error. */
  function ParseParts(parts: seq<string>): (r: Checked<seq<TierStep>>)
    ensures r.Ok? ==> |r.value| == |parts|
  {
    if parts == [] then Ok([])
    else
      var before := ParseParts(parts[..|parts| - 1]);
      var last := ParsePart(parts[|parts| - 1]);
      if before.Err? then before else if last.Err? then Err(last.error) else Ok(before.value + [last.value])
  }

  predicate ByTier(a: TierStep, b: TierStep) { a.tier <= b.tier }

  /** What is wrong with the pair (a, b) of neighbours, if anything. */
  function PairFault(a: TierStep, b: TierStep): Option<ScheduleError> {
    if b.tier == a.tier then Some(AppearsTwice(b.tier))
    else if b.minVolume <= a.minVolume then Some(NeedsMoreVolume(b.tier, a.tier))
    else None
  }

  function FirstFault(s: seq<TierStep>): Option<ScheduleError> {
    if |s| < 2 then None
    else
      var before := FirstFault(s[..|s| - 1]);
      if before.Some? then before else PairFault(s[|s| - 2], s[|s| - 1])
  }

  function ScheduleFor(raw: Option<string>): Checked<seq<TierStep>> {
    if raw.None? || AllSpaces(raw.value) then Err(NotSet)
    else
      var steps := ParseParts(Split(raw.value, ','));
      if steps.Err? then steps
      else
        var sorted := SortBy(steps.value, ByTier);
        var fault := FirstFault(sorted);
        if fault.Some? then Err(fault.value) else Ok(sorted)
  }

  lemma {:induction false} FirstWrongDecides(parts: seq<string>, i: nat)
    requires i < |parts| && ParseParts(parts[..i]).Ok? && ParsePart(parts[i]).Err?
    ensures ParseParts(parts) == Err(ParsePart(parts[i]).error)
    decreases |parts| - i
  {
    if i + 1 < |parts| {
      var init := parts[..|parts| - 1];
      assert init[..i] == parts[..i];
      FirstWrongDecides(init, i);
    } else {
      assert parts[..i] == parts[..|parts| - 1];
    }
  }

  lemma {:induction false} FirstFaultDecides(s: seq<TierStep>, i: nat)
    requires 0 < i < |s| && FirstFault(s[..i]).None? && PairFault(s[i - 1], s[i]).Some?
    ensures FirstFault(s) == PairFault(s[i - 1], s[i])
    decreases |s| - i
  {
    if i + 1 < |s| {
      var init := s[..|s| - 1];
      assert init[..i] == s[..i];
      FirstFaultDecides(init, i);
    } else {
      assert s[..i] == s[..|s| - 1];
    }
  }

  method ParseSchedule(raw: Option<string>) returns (r: Checked<seq<TierStep>>)
    ensures r == ScheduleFor(raw)
  {
    hide AllSpaces, ParsePart, SortBy, Split, PairFault;
    if raw.None? || AllSpaces(raw.value) { return Err(NotSet); }
    var parts, steps := Split(raw.value, ','), [];
    for i := 0 to |parts|
      invariant ParseParts(parts[..i]) == Ok(steps)
    {
      var step := ParsePart(parts[i]);
      if step.Err? {
        FirstWrongDecides(parts, i);
        return Err(step.error);
      }
      assert parts[..i + 1][..i] == parts[..i];
      steps := steps + [step.value];
    }
    assert parts[..|parts|] == parts;
    steps := SortBy(steps, ByTier);
    for i := 1 to |steps|
      invariant FirstFault(steps[..i]).None?
    {
      var fault := PairFault(steps[i - 1], steps[i]);
      if fault.Some? {
        FirstFaultDecides(steps, i);
        return Err(fault.value);
      }
      assert steps[..i + 1][..i] == steps[..i];
    }
    assert steps[..|steps|] == steps;
    r := Ok(steps);
  }

  // ---------------------------------------------------------------- what is accepted

  /** Tiers in 1..16 and positive thresholds, both strictly increasing. */
  predicate Valid(s: seq<TierStep>) {
    && |s| > 0
    && (forall i :: 0 <= i < |s| ==> 1 <= s[i].tier <= MAX_TIER && s[i].minVolume > 0)
    && (forall i, j :: 0 <= i < j < |s| ==> s[i].tier < s[j].tier && s[i].minVolume < s[j].minVolume)
  }

  /** The steps a text lists, part by part. */
  ghost predicate Lists(text: string, steps: seq<TierStep>) {
    var parts := Split(text, ',');
    |steps| == |parts| && forall i :: 0 <= i < |parts| ==> Names(parts[i], steps[i])
  }

  /** No tier twice, and a higher tier always needs more volume. */
  predicate Coherent(steps: seq<TierStep>) {
    && (forall i, j :: 0 <= i < j < |steps| ==> steps[i].tier != steps[j].tier)
    && (forall i, j :: 0 <= i < |steps| && 0 <= j < |steps| && steps[i].tier < steps[j].tier ==>
          steps[i].minVolume < steps[j].minVolume)
  }

  lemma {:induction false} PartsNamed(parts: seq<string>, steps: seq<TierStep>)
    requires |parts| == |steps|
    ensures ParseParts(parts) == Ok(steps) <==> forall i :: 0 <= i < |parts| ==> Names(parts[i], steps[i])
  {
    hide ParsePart, Names;
    if parts != [] {
      var n := |parts| - 1;
      PartsNamed(parts[..n], steps[..n]);
      PartNames(parts[n], steps[n]);
      assert steps == steps[..n] + [steps[n]];
      if ParseParts(parts) == Ok(steps) {
        forall i | 0 <= i < |parts| ensures Names(parts[i], steps[i]) {
          if i < n { assert parts[..n][i] == parts[i] && steps[..n][i] == steps[i]; }
        }
      }
      if forall i :: 0 <= i < |parts| ==> Names(parts[i], steps[i]) {
        assert forall i :: 0 <= i < n ==> Names(parts[..n][i], steps[..n][i]);
        assert Names(parts[n], steps[n]);
      }
    }
  }

  lemma {:induction false} NoFaultIncreasing(s: seq<TierStep>)
    requires Sorted(s, ByTier)
    ensures FirstFault(s).None? <==>
      forall i, j :: 0 <= i < j < |s| ==> s[i].tier < s[j].tier && s[i].minVolume < s[j].minVolume
  {
    if |s| >= 2 {
      var n := |s| - 1;
      var init := s[..n];
      assert Sorted(init, ByTier);
      NoFaultIncreasing(init);
      assert s[n - 1] == init[n - 1] && ByTier(s[n - 1], s[n]);
      if FirstFault(s).None? {
        forall i, j | 0 <= i < j < |s| ensures s[i].tier < s[j].tier && s[i].minVolume < s[j].minVolume {
          assert i < n - 1 ==> init[i].tier < init[n - 1].tier && init[i].minVolume < init[n - 1].minVolume;
          if j < n { assert init[i] == s[i] && init[j] == s[j]; }
        }
      }
      if forall i, j :: 0 <= i < j < |s| ==> s[i].tier < s[j].tier && s[i].minVolume < s[j].minVolume {
        assert forall i, j :: 0 <= i < j < |init| ==>
          init[i].tier < init[j].tier && init[i].minVolume < init[j].minVolume;
        assert s[n - 1].tier < s[n].tier;
      }
    }
  }

  lemma BlankHasNoStep(text: string, steps: seq<TierStep>)
    requires AllSpaces(text)
    ensures !Lists(text, steps)
  {
    assert ',' !in text;
    SplitOfPart(text, [], ',');
    DropSpacesIs(text, []);
    assert text + [] == text;
    assert Scan(text).None?;
    if Lists(text, steps) { PartNames(text, steps[0]); }
  }

  /** Members of a listing carry a tier in 1..16 and a positive threshold. */
  lemma ListedInRange(text: string, steps: seq<TierStep>)
    requires Lists(text, steps)
    ensures forall x :: x in steps ==> 1 <= x.tier <= MAX_TIER && x.minVolume > 0
  {
    forall x | x in steps ensures 1 <= x.tier <= MAX_TIER && x.minVolume > 0 {
      var i :| 0 <= i < |steps| && steps[i] == x;
      assert Names(Split(text, ',')[i], x);
    }
  }

  lemma TierOrder()
    ensures TotalPreorder(ByTier)
  {}

  lemma OneStepPerTier(s: seq<TierStep>, i: nat, j: nat)
    requires Valid(s) && i < |s| && j < |s| && s[i].tier == s[j].tier
    ensures i == j
  {}

  lemma LowerTierFirst(s: seq<TierStep>, i: nat, j: nat)
    requires Valid(s) && i < |s| && j < |s| && s[i].tier < s[j].tier
    ensures i < j
  {}

  lemma ValidSorted(steps: seq<TierStep>, sorted: seq<TierStep>)
    requires Valid(sorted) && multiset(steps) == multiset(sorted)
    ensures SortBy(steps, ByTier) == sorted && FirstFault(sorted).None?
  {
    SortedFacts(steps);
    assert Sorted(sorted, ByTier);
    NoFaultIncreasing(sorted);
    forall x, y | x in sorted && y in sorted && ByTier(x, y) && ByTier(y, x) ensures x == y {
      var i :| 0 <= i < |sorted| && sorted[i] == x;
      var j :| 0 <= j < |sorted| && sorted[j] == y;
      OneStepPerTier(sorted, i, j);
    }
    SortedUnique(sorted, SortBy(steps, ByTier), ByTier);
  }

  lemma SortedFacts(steps: seq<TierStep>)
    ensures var sorted := SortBy(steps, ByTier);
      Sorted(sorted, ByTier) && multiset(sorted) == multiset(steps) && forall x :: x in sorted <==> x in steps
  {
    TierOrder();
    SortSorted(steps, ByTier);
    SortMultiset(steps, ByTier);
    SortMembers(steps, ByTier);
  }

  lemma AcceptedMeans(text: string, sorted: seq<TierStep>) returns (steps: seq<TierStep>)
    requires ScheduleFor(Some(text)) == Ok(sorted)
    ensures Valid(sorted) && Lists(text, steps) && multiset(steps) == multiset(sorted)
  {
    hide Names, Split, SortBy, ParseParts, FirstFault, Sorted;
    steps := ParseParts(Split(text, ',')).value;
    PartsNamed(Split(text, ','), steps);
    ListedInRange(text, steps);
    SortedFacts(steps);
    NoFaultIncreasing(sorted);
    forall i | 0 <= i < |sorted| ensures 1 <= sorted[i].tier <= MAX_TIER && sorted[i].minVolume > 0 {
      assert sorted[i] in steps;
    }
  }

  /** A text parses to a schedule exactly when that schedule is valid and is what the parts list, in any order. */
  lemma ParsesTo(text: string, sorted: seq<TierStep>)
    ensures ScheduleFor(Some(text)) == Ok(sorted) <==>
      Valid(sorted) && exists steps :: Lists(text, steps) && multiset(steps) == multiset(sorted)
  {
    hide FirstFault, Names, Valid, Split;
    if ScheduleFor(Some(text)) == Ok(sorted) { var _ := AcceptedMeans(text, sorted); }
    if Valid(sorted) && exists steps :: Lists(text, steps) && multiset(steps) == multiset(sorted) {
      var steps :| Lists(text, steps) && multiset(steps) == multiset(sorted);
      if AllSpaces(text) { BlankHasNoStep(text, steps); }
      PartsNamed(Split(text, ','), steps);
      ValidSorted(steps, sorted);
    }
  }

  lemma CoherentSortsValid(text: string, steps: seq<TierStep>)
    requires Lists(text, steps) && Coherent(steps)
    ensures Valid(SortBy(steps, ByTier)) && multiset(SortBy(steps, ByTier)) == multiset(steps)
  {
    var sorted := SortBy(steps, ByTier);
    ListedInRange(text, steps);
    SortedFacts(steps);
    assert Distinct(steps);
    DistinctKept(steps, ByTier);
    hide SortBy, Distinct, Sorted, Lists;
    forall i, j | 0 <= i < j < |sorted|
      ensures sorted[i].tier < sorted[j].tier && sorted[i].minVolume < sorted[j].minVolume
    {
      assert ByTier(sorted[i], sorted[j]) && sorted[i] != sorted[j] by { SortedPair(sorted, i, j); }
      CoherentPair(steps, sorted[i], sorted[j]);
    }
    forall i | 0 <= i < |sorted| ensures 1 <= sorted[i].tier <= MAX_TIER && sorted[i].minVolume > 0 {
      assert sorted[i] in steps;
    }
  }

  lemma SortedPair(s: seq<TierStep>, i: nat, j: nat)
    requires Sorted(s, ByTier) && Distinct(s) && i < j < |s|
    ensures ByTier(s[i], s[j]) && s[i] != s[j]
  {}

  lemma CoherentPair(steps: seq<TierStep>, a: TierStep, b: TierStep)
    requires Coherent(steps) && a in steps && b in steps && a != b && a.tier <= b.tier
    ensures a.tier < b.tier && a.minVolume < b.minVolume
  {
    var m :| 0 <= m < |steps| && steps[m] == a;
    var n :| 0 <= n < |steps| && steps[n] == b;
    assert steps[m].tier != steps[n].tier;
  }

  lemma ValidIsCoherent(steps: seq<TierStep>, sorted: seq<TierStep>)
    requires Valid(sorted) && multiset(steps) == multiset(sorted)
    ensures Coherent(steps)
  {
    hide SortBy;
    forall x ensures x in steps <==> x in sorted {
      assert x in steps <==> x in multiset(steps);
      assert x in sorted <==> x in multiset(sorted);
    }
    forall i, j | 0 <= i < |steps| && 0 <= j < |steps| && steps[i].tier < steps[j].tier
      ensures steps[i].minVolume < steps[j].minVolume
    {
      assert steps[i] in sorted && steps[j] in sorted;
      var m :| 0 <= m < |sorted| && sorted[m] == steps[i];
      var n :| 0 <= n < |sorted| && sorted[n] == steps[j];
      LowerTierFirst(sorted, m, n);
    }
    forall i, j | 0 <= i < j < |steps| ensures steps[i].tier != steps[j].tier {
      assert steps[i] in sorted && steps[j] in sorted;
      var m :| 0 <= m < |sorted| && sorted[m] == steps[i];
      var n :| 0 <= n < |sorted| && sorted[n] == steps[j];
      if steps[i].tier == steps[j].tier { OneStepPerTier(sorted, m, n); }
      if steps[i] == steps[j] {
        CountTwice(steps, i, j);
        assert Distinct(sorted);
        CountDistinct(sorted, steps[i]);
        assert false;
      }
    }
  }

  /** A text is accepted exactly when every part names a step, no tier comes twice, and higher tiers need more. */
  lemma AcceptedIff(text: string)
    ensures ScheduleFor(Some(text)).Ok? <==> exists steps :: Lists(text, steps) && Coherent(steps)
  {
    hide ScheduleFor, Lists, Valid, Coherent;
    if ScheduleFor(Some(text)).Ok? {
      var sorted := ScheduleFor(Some(text)).value;
      var steps := AcceptedMeans(text, sorted);
      ValidIsCoherent(steps, sorted);
    }
    if exists steps :: Lists(text, steps) && Coherent(steps) {
      var steps :| Lists(text, steps) && Coherent(steps);
      CoherentSortsValid(text, steps);
      ParsesTo(text, SortBy(steps, ByTier));
    }
  }

  /** Sixteen tiers are all a schedule can hold. */
  lemma AtMostSixteen(s: seq<TierStep>)
    requires Valid(s)
    ensures |s| <= MAX_TIER
  {
    TierAtLeast(s, |s| - 1);
  }

  lemma {:induction false} TierAtLeast(s: seq<TierStep>, i: nat)
    requires Valid(s) && i < |s|
    ensures s[i].tier >= i + 1
  {
    if i > 0 { TierAtLeast(s, i - 1); }
  }

  // ---------------------------------------------------------------- writing a schedule

  function RenderStep(x: TierStep): string {
    Numeral(x.tier) + ([':'] + Numeral(x.minVolume / USD6))
  }

  function RenderAll(s: seq<TierStep>): (r: seq<string>)
    ensures |r| == |s| && forall i :: 0 <= i < |s| ==> r[i] == RenderStep(s[i])
  {
    seq(|s|, i requires 0 <= i < |s| => RenderStep(s[i]))
  }

  predicate WholeDollars(s: seq<TierStep>) {
    forall i :: 0 <= i < |s| ==> s[i].minVolume % USD6 == 0
  }

  lemma RenderedNames(x: TierStep)
    requires 1 <= x.tier <= MAX_TIER && x.minVolume > 0 && x.minVolume % USD6 == 0
    ensures Names(RenderStep(x), x) && ',' !in RenderStep(x)
  {
    var tier, usd := Numeral(x.tier), Numeral(x.minVolume / USD6);
    NumeralValue(x.tier);
    NumeralValue(x.minVolume / USD6);
    hide Numeral, Value;
    assert [] + (tier + ([] + ([':'] + ([] + (usd + []))))) == RenderStep(x) by {
      assert [] + (usd + []) == usd;
      assert [] + ([':'] + usd) == [':'] + usd;
    }
    assert Shape(RenderStep(x), [], tier, [], [], usd, []);
    assert Reads(RenderStep(x), tier, usd);
  }

  /** Written out in any order and read back, a schedule of whole dollars is itself again. */
  lemma RenderRoundTrip(s: seq<TierStep>, sorted: seq<TierStep>)
    requires Valid(sorted) && WholeDollars(sorted) && multiset(s) == multiset(sorted)
    ensures ScheduleFor(Some(Join(RenderAll(s), ','))) == Ok(sorted)
  {
    var parts := RenderAll(s);
    assert |s| == |multiset(s)| == |sorted|;
    forall i | 0 <= i < |s| ensures Names(parts[i], s[i]) && ',' !in parts[i] {
      assert s[i] in multiset(sorted);
      assert s[i] in sorted;
      RenderedNames(s[i]);
    }
    hide Names, Join, Valid, ScheduleFor, RenderStep;
    SplitOfJoin(parts, ',');
    assert Lists(Join(parts, ','), s);
    ParsesTo(Join(parts, ','), sorted);
  }

  // ---------------------------------------------------------------- the tier a volume earns

  function TargetOf(volume: int, s: seq<TierStep>): nat {
    if s == [] then 0
    else
      var last := s[|s| - 1];
      if volume >= last.minVolume then last.tier else TargetOf(volume, s[..|s| - 1])
  }

  method TargetTier(volume: int, schedule: seq<TierStep>) returns (tier: nat)
    ensures tier == TargetOf(volume, schedule)
  {
    tier := 0;
    for i := 0 to |schedule|
      invariant tier == TargetOf(volume, schedule[..i])
    {
      assert schedule[..i + 1][..i] == schedule[..i];
      if volume >= schedule[i].minVolume { tier := schedule[i].tier; }
    }
    assert schedule[..|schedule|] == schedule;
  }

  /** The highest tier whose threshold the volume meets; 0 exactly when it meets none. */
  lemma {:induction false} TargetIsHighest(volume: int, s: seq<TierStep>)
    requires Valid(s)
    ensures forall i :: 0 <= i < |s| ==> (volume >= s[i].minVolume <==> s[i].tier <= TargetOf(volume, s))
    ensures TargetOf(volume, s) == 0 <==> volume < s[0].minVolume
    ensures TargetOf(volume, s) > 0 ==> exists i :: 0 <= i < |s| && s[i].tier == TargetOf(volume, s)
  {
    var n := |s| - 1;
    if volume < s[n].minVolume && n > 0 {
      TargetIsHighest(volume, s[..n]);
      var t := TargetOf(volume, s[..n]);
      if t > 0 {
        var i :| 0 <= i < n && s[..n][i].tier == t;
        assert s[i].tier == t;
      }
      forall i | 0 <= i < |s| ensures volume >= s[i].minVolume <==> s[i].tier <= t {
        if i < n { assert s[..n][i] == s[i]; }
      }
    } else if volume >= s[n].minVolume {
      assert s[n].tier == TargetOf(volume, s);
    }
  }

  /** More volume never earns a lower tier. */
  lemma TargetMonotone(a: int, b: int, s: seq<TierStep>)
    requires Valid(s) && a <= b
    ensures TargetOf(a, s) <= TargetOf(b, s)
  {
    TargetIsHighest(a, s);
    TargetIsHighest(b, s);
  }
}
