/** Looking up the colour of a condition value in a colour scheme, previewing a
    scheme, and checking a scheme before it is saved. */
module ColorUtils {
  import opened Common
  import opened Model
  import opened ColorTypes

  /** The grey used when no range gives a colour. */
  const Gray: string := "#9e9e9e"

  // ---------------------------------------------------------------------------
  // Hex colours

  /** The value of a hexadecimal digit in either case. */
  function HexValue(c: char): (r: Option<nat>)
    ensures r.Some? ==> r.value < 16
  {
    if '0' <= c <= '9' then Some(c as int - '0' as int)
    else if 'a' <= c <= 'f' then Some(c as int - 'a' as int + 10)
    else if 'A' <= c <= 'F' then Some(c as int - 'A' as int + 10)
    else None
  }

  predicate AllHex(s: string)
  {
    forall i | 0 <= i < |s| :: HexValue(s[i]).Some?
  }

  datatype Rgb = Rgb(r: nat, g: nat, b: nat)

  predicate IsByteRgb(c: Rgb)
  {
    c.r < 256 && c.g < 256 && c.b < 256
  }

  /** The value of a pair of hexadecimal digits. */
  function PairValue(s: string): (v: nat)
    requires |s| == 2 && AllHex(s)
    ensures v < 256
  {
    HexValue(s[0]).value * 16 + HexValue(s[1]).value
  }

  /** `hexToRgb`: six hexadecimal digits, optionally after a `#`, read as
      three byte values; anything else gives null (here None). */
  function HexToRgb(hex: string): (r: Option<Rgb>)
    ensures r.Some? <==> (|hex| == 6 && AllHex(hex)) || (|hex| == 7 && hex[0] == '#' && AllHex(hex[1..]))
    ensures r.Some? ==> IsByteRgb(r.value)
  {
    ReadDigits(if |hex| == 7 && hex[0] == '#' then hex[1..] else hex)
  }

  /** Three digit pairs read as a colour. */
  function ReadDigits(digits: string): (r: Option<Rgb>)
    ensures r.Some? <==> |digits| == 6 && AllHex(digits)
    ensures r.Some? ==> IsByteRgb(r.value)
  {
    if |digits| == 6 && AllHex(digits) then
      Some(Rgb(PairValue(digits[0..2]), PairValue(digits[2..4]), PairValue(digits[4..6])))
    else None
  }

  /** The lower-case hexadecimal digit of a value below 16. */
  function HexDigit(n: nat): (c: char)
    requires n < 16
    ensures HexValue(c) == Some(n)
  {
    if n < 10 then ('0' as int + n) as char else ('a' as int + n - 10) as char
  }

  function HexPair(n: nat): (s: string)
    requires n < 256
    ensures |s| == 2 && AllHex(s) && PairValue(s) == n
  {
    [HexDigit(n / 16), HexDigit(n % 16)]
  }

  /** The `#rrggbb` spelling of a colour. */
  function ToHex(c: Rgb): string
    requires IsByteRgb(c)
  {
    "#" + HexPair(c.r) + HexPair(c.g) + HexPair(c.b)
  }

  /** Reading back the `#rrggbb` spelling of a colour gives the colour. */
  lemma HexRoundTrip(c: Rgb)
    requires IsByteRgb(c)
    ensures HexToRgb(ToHex(c)) == Some(c)
  {
    var h := ToHex(c);
    var d := h[1..];
    assert d == HexPair(c.r) + HexPair(c.g) + HexPair(c.b);
    assert d[0..2] == HexPair(c.r) && d[2..4] == HexPair(c.g) && d[4..6] == HexPair(c.b);
  }

  function LowerCase(c: char): char
  {
    if 'A' <= c <= 'Z' then (c as int + 32) as char else c
  }

  /** The reading ignores letter case. */
  lemma HexCaseInsensitive(hex: string)
    ensures HexToRgb(MapSeq(hex, LowerCase)) == HexToRgb(hex)
  {
    var lower := MapSeq(hex, LowerCase);
    if |hex| == 7 && hex[0] == '#' {
      assert lower[1..] == MapSeq(hex[1..], LowerCase);
      ReadDigitsCaseInsensitive(hex[1..]);
    } else {
      ReadDigitsCaseInsensitive(hex);
    }
  }

  lemma ReadDigitsCaseInsensitive(d: string)
    ensures ReadDigits(MapSeq(d, LowerCase)) == ReadDigits(d)
  {
    var e := MapSeq(d, LowerCase);
    assert forall i | 0 <= i < |d| :: HexValue(e[i]) == HexValue(d[i]);
    if |d| == 6 && AllHex(d) {
      assert PairValue(e[0..2]) == PairValue(d[0..2]);
      assert PairValue(e[2..4]) == PairValue(d[2..4]);
      assert PairValue(e[4..6]) == PairValue(d[4..6]);
    }
  }

  // ---------------------------------------------------------------------------
  // Colour lookup

  /** A colour as drawn: a colour string, or the blend of two colours at a
      position between them (the rounded `rgb(r, g, b)` the blend is written
      as is not modelled). A position is NaN when the two ranges it spans
      have no width. */
  datatype Paint = Plain(color: string) | Blend(from: Rgb, to: Rgb, position: JsNum)

  /** The first range containing the value. */
  function Containing(ranges: seq<ColorRange>, v: real): (r: Option<nat>)
    ensures r.Some? ==> r.value < |ranges| && ranges[r.value].min <= v <= ranges[r.value].max
    ensures r.Some? ==> forall k | 0 <= k < r.value :: !(ranges[k].min <= v <= ranges[k].max)
    ensures r.None? ==> forall k | 0 <= k < |ranges| :: !(ranges[k].min <= v <= ranges[k].max)
  {
    if ranges == [] then None
    else if ranges[0].min <= v <= ranges[0].max then Some(0)
    else match Containing(ranges[1..], v)
      case None => None
      case Some(k) => Some(k + 1)
  }

  /** A discrete scheme: the colour of the first range containing the value;
      grey when none does or that colour is empty. */
  function DiscreteColor(ranges: seq<ColorRange>, v: real): (c: string)
    ensures (forall k | 0 <= k < |ranges| :: !(ranges[k].min <= v <= ranges[k].max)) ==> c == Gray
    ensures forall k | 0 <= k < |ranges| && ranges[k].min <= v <= ranges[k].max && ranges[k].color != "" &&
                       (forall j | 0 <= j < k :: !(ranges[j].min <= v <= ranges[j].max)) :: c == ranges[k].color
  {
    match Containing(ranges, v)
    case None => Gray
    case Some(k) => if ranges[k].color == "" then Gray else ranges[k].color
  }

  /** The first pair of neighbouring ranges, in the order given, whose span
      from the lower range's minimum to the upper range's maximum holds the
      value. */
  function Bracket(sorted: seq<ColorRange>, v: real): (r: Option<nat>)
    ensures r.Some? ==> r.value + 1 < |sorted| && sorted[r.value].min <= v <= sorted[r.value + 1].max
    ensures r.Some? ==> forall k | 0 <= k < r.value :: !(sorted[k].min <= v <= sorted[k + 1].max)
    ensures r.None? ==> forall k | 0 <= k < |sorted| - 1 :: !(sorted[k].min <= v <= sorted[k + 1].max)
  {
    if |sorted| < 2 then None
    else if sorted[0].min <= v <= sorted[1].max then Some(0)
    else match Bracket(sorted[1..], v)
      case None => None
      case Some(k) => Some(k + 1)
  }

  /** Where the value lies from `lo` to `hi`, as a fraction. */
  function Position(v: real, lo: real, hi: real): JsNum
  {
    if hi - lo == 0.0 then NaN else Finite((v - lo) / (hi - lo))
  }

  /** `interpolateBetweenColors`: the first colour itself when either is not
      a hex colour. */
  function Between(c1: string, c2: string, position: JsNum): Paint
  {
    match (HexToRgb(c1), HexToRgb(c2))
    case (Some(a), Some(b)) => Blend(a, b, position)
    case _ => Plain(c1)
  }

  /** The colour a continuous scheme gives; None when it has no ranges, where
      reading the first range fails. */
  function Interpolated(v: real, ranges: seq<ColorRange>): (p: Option<Paint>)
    ensures p.None? <==> ranges == []
  {
    InterpolatedSorted(v, SortBy(ranges, ByMin))
  }

  /** The colour given the ranges sorted by minimum: the blend for the first
      neighbouring pair that spans the value, else the colour of the first or
      last range when the value lies beyond it, else grey. */
  function InterpolatedSorted(v: real, sorted: seq<ColorRange>): (p: Option<Paint>)
    ensures p.None? <==> sorted == []
  {
    if sorted == [] then None
    else match Bracket(sorted, v)
      case Some(i) => Some(Between(sorted[i].color, sorted[i + 1].color, Position(v, sorted[i].min, sorted[i + 1].max)))
      case None =>
        if v <= sorted[0].min then Some(Plain(sorted[0].color))
        else if v >= sorted[|sorted| - 1].max then Some(Plain(sorted[|sorted| - 1].color))
        else Some(Plain(Gray))
  }

  /** `interpolateColor`: sorts a copy of the ranges by minimum, returns the
      blend for the first neighbouring pair that spans the value, and
      otherwise clamps to the first or last range. */
  method InterpolateColor(value: real, ranges: seq<ColorRange>) returns (p: Option<Paint>)
    ensures p == Interpolated(value, ranges)
  {
    var sortedRanges := SortBy(ranges, ByMin);
    p := InterpolateSorted(value, sortedRanges);
  }

  /** The body of `interpolateColor` after the sort. */
  method InterpolateSorted(value: real, sortedRanges: seq<ColorRange>) returns (p: Option<Paint>)
    ensures p == InterpolatedSorted(value, sortedRanges)
  {
    var bracket := FindBracket(sortedRanges, value);
    if bracket.Some? {
      var currentRange := sortedRanges[bracket.value];
      var nextRange := sortedRanges[bracket.value + 1];
      var rangeSize := nextRange.max - currentRange.min;
      var position := if rangeSize == 0.0 then NaN else Finite((value - currentRange.min) / rangeSize);
      assert position == Position(value, currentRange.min, nextRange.max);
      assert InterpolatedSorted(value, sortedRanges) == Some(Between(currentRange.color, nextRange.color, position));
      return Some(Between(currentRange.color, nextRange.color, position));
    }
    if sortedRanges == [] {
      return None;
    }
    if value <= sortedRanges[0].min {
      return Some(Plain(sortedRanges[0].color));
    }
    if value >= sortedRanges[|sortedRanges| - 1].max {
      return Some(Plain(sortedRanges[|sortedRanges| - 1].color));
    }
    return Some(Plain(Gray));
  }

  /** The scan of `interpolateColor` over neighbouring pairs, stopping at the
      first that spans the value. */
  method FindBracket(sortedRanges: seq<ColorRange>, value: real) returns (r: Option<nat>)
    ensures r == Bracket(sortedRanges, value)
  {
    var i := 0;
    while i < |sortedRanges| - 1
      invariant 0 <= i && (i == 0 || i < |sortedRanges|)
      invariant forall k | 0 <= k < i :: !(sortedRanges[k].min <= value <= sortedRanges[k + 1].max)
    {
      if value >= sortedRanges[i].min && value <= sortedRanges[i + 1].max {
        return Some(i);
      }
      i := i + 1;
    }
    return None;
  }

  /** `getColorForCondition`: the colour of a value in a scheme; None when a
      continuous scheme has no ranges. */
  function ColorFor(v: real, scheme: ColorScheme): (p: Option<Paint>)
    ensures p.None? <==> scheme.kind == Continuous && scheme.ranges == []
  {
    if scheme.kind == Discrete then Some(Plain(DiscreteColor(scheme.ranges, v)))
    else
      var p := Interpolated(v, scheme.ranges);
      assert p.None? <==> scheme.ranges == [];
      assert scheme.kind == Continuous;
      p
  }

  method GetColorForCondition(conditionValue: real, scheme: ColorScheme) returns (p: Option<Paint>)
    ensures p == ColorFor(conditionValue, scheme)
  {
    if scheme.kind == Discrete {
      return Some(Plain(DiscreteColor(scheme.ranges, conditionValue)));
    }
    p := InterpolateColor(conditionValue, scheme.ranges);
  }

  /** A value below the lowest minimum of a continuous scheme takes the colour
      of a range with that lowest minimum. */
  lemma BelowLowestMin(v: real, ranges: seq<ColorRange>)
    requires ranges != []
    requires forall r | r in ranges :: v < r.min
    ensures var sorted := SortBy(ranges, ByMin);
      sorted[0] in ranges && (forall r | r in ranges :: sorted[0].min <= r.min) &&
      Interpolated(v, ranges) == Some(Plain(sorted[0].color))
  {
    var sorted := SortBy(ranges, ByMin);
    SortByMembers(ranges, ByMin);
    assert sorted[0] in sorted;
    assert forall k | 0 <= k < |sorted| :: v < sorted[k].min by {
      forall k | 0 <= k < |sorted| ensures v < sorted[k].min {
        assert sorted[k] in sorted;
      }
    }
    BelowFirstSorted(v, sorted);
  }

  lemma BelowFirstSorted(v: real, sorted: seq<ColorRange>)
    requires sorted != [] && forall k | 0 <= k < |sorted| :: v < sorted[k].min
    ensures InterpolatedSorted(v, sorted) == Some(Plain(sorted[0].color))
  {
    assert Bracket(sorted, v).None?;
  }

  /** A continuous scheme with one range: its colour at or beyond either
      bound, grey strictly inside. */
  lemma SingleRange(v: real, r: ColorRange)
    ensures Interpolated(v, [r]) == Some(Plain(if v <= r.min || v >= r.max then r.color else Gray))
  {
    assert SortBy([r], ByMin) == [r] by {
      assert [r][1..] == [];
    }
  }

  /** Inside a bracket of positive width the blending position lies in
      [0, 1]. */
  lemma PositionInUnit(v: real, lo: real, hi: real)
    requires lo <= v <= hi && lo < hi
    ensures Position(v, lo, hi).Finite? && 0.0 <= Position(v, lo, hi).r <= 1.0
  {
    var d := hi - lo;
    assert (hi - lo) / d == 1.0;
    if v < hi {
      DivideMonotone(v - lo, hi - lo, d);
    }
    if lo < v {
      DivideMonotone(0.0, v - lo, d);
    }
  }

  // ---------------------------------------------------------------------------
  // Condition values

  /** `x || d` for a numeric field: 0 reads as the default. */
  function OrNonZero(x: real, d: real): real
  {
    if x == 0.0 then d else x
  }

  /** `getConditionValue`: the selected condition value of a state, with 0.5
      for a zero estimate, 0 for a zero lower bound and 1 for a zero upper
      bound. */
  function ConditionValue(s: State, field: ConditionField): (v: real)
    ensures field == EksConditionEstimate ==> v == OrNonZero(s.eksConditionEstimate, 0.5)
    ensures field == ConditionLower ==> v == s.conditionLower
    ensures field == ConditionUpper ==> v == OrNonZero(s.conditionUpper, 1.0)
    ensures field == ConditionAverage ==> v == (s.conditionLower + OrNonZero(s.conditionUpper, 1.0)) / 2.0
  {
    match field
    case EksConditionEstimate => OrNonZero(s.eksConditionEstimate, 0.5)
    case ConditionLower => OrNonZero(s.conditionLower, 0.0)
    case ConditionUpper => OrNonZero(s.conditionUpper, 1.0)
    case ConditionAverage =>
      var lower := OrNonZero(s.conditionLower, 0.0);
      var upper := OrNonZero(s.conditionUpper, 1.0);
      (lower + upper) / 2.0
  }

  /** A state whose condition fields lie in [0, 1] has a condition value in
      [0, 1] whatever the field. */
  lemma ConditionValueInUnit(s: State, field: ConditionField)
    requires 0.0 <= s.conditionLower <= 1.0 && 0.0 <= s.conditionUpper <= 1.0
    requires 0.0 <= s.eksConditionEstimate <= 1.0
    ensures 0.0 <= ConditionValue(s, field) <= 1.0
  {
  }

  /** A state without an estimate (the sentinel) is drawn in a continuous
      scheme with the colour of its lowest range. */
  lemma NoEstimateTakesLowestColor(s: State, scheme: ColorScheme)
    requires s.eksConditionEstimate == Sentinel
    requires scheme.kind == Continuous && scheme.ranges != []
    requires forall r | r in scheme.ranges :: 0.0 <= r.min
    ensures ColorFor(ConditionValue(s, EksConditionEstimate), scheme) ==
            Some(Plain(SortBy(scheme.ranges, ByMin)[0].color))
  {
    BelowLowestMin(Sentinel, scheme.ranges);
  }

  // ---------------------------------------------------------------------------
  // Preview

  datatype Sample = Sample(value: JsNum, paint: Paint)

  /** The `i`-th of `steps` + 1 evenly spaced values; `0 / 0` is NaN. */
  function SampleValue(i: nat, steps: nat): JsNum
  {
    if steps == 0 then NaN else Finite(i as real / steps as real)
  }

  /** The colour of a possibly-NaN value: every comparison with NaN fails,
      so only the grey fallback remains. */
  function ColorForNumber(v: JsNum, scheme: ColorScheme): (p: Option<Paint>)
    ensures p.None? <==> scheme.kind == Continuous && scheme.ranges == []
  {
    match v
    case Finite(x) => ColorFor(x, scheme)
    case NaN => if scheme.kind == Continuous && scheme.ranges == [] then None else Some(Plain(Gray))
  }

  /** `generateColorPreview`: the colours at `steps` + 1 evenly spaced values
      from 0 to 1; None when a lookup fails. */
  method GenerateColorPreview(scheme: ColorScheme, steps: nat) returns (preview: Option<seq<Sample>>)
    ensures preview.None? <==> scheme.kind == Continuous && scheme.ranges == []
    ensures preview.Some? ==>
      |preview.value| == steps + 1 &&
      forall i | 0 <= i <= steps ::
        preview.value[i].value == SampleValue(i, steps) &&
        Some(preview.value[i].paint) == ColorForNumber(SampleValue(i, steps), scheme)
  {
    var samples: seq<Sample> := [];
    var i := 0;
    while i <= steps
      invariant 0 <= i <= steps + 1
      invariant |samples| == i
      invariant forall k | 0 <= k < i ::
        samples[k].value == SampleValue(k, steps) &&
        Some(samples[k].paint) == ColorForNumber(SampleValue(k, steps), scheme)
    {
      var value := SampleValue(i, steps);
      var color: Option<Paint>;
      match value {
        case Finite(x) =>
          color := GetColorForCondition(x, scheme);
        case NaN =>
          color := ColorForNumber(value, scheme);
      }
      if color.None? {
        return None;
      }
      samples := samples + [Sample(value, color.value)];
      i := i + 1;
    }
    assert Some(samples[0].paint) == ColorForNumber(SampleValue(0, steps), scheme);
    return Some(samples);
  }

  /** With at least one step the sample values run from 0 to 1 and strictly
      increase. */
  lemma SampleValuesIncrease(steps: nat)
    requires steps > 0
    ensures SampleValue(0, steps) == Finite(0.0) && SampleValue(steps, steps) == Finite(1.0)
    ensures forall i, j | 0 <= i < j <= steps :: SampleValue(i, steps).r < SampleValue(j, steps).r
  {
    DivideSelf(steps as real);
    forall i, j | 0 <= i < j <= steps ensures SampleValue(i, steps).r < SampleValue(j, steps).r {
      DivideMonotone(i as real, j as real, steps as real);
    }
  }

  lemma DivideSelf(d: real)
    requires d > 0.0
    ensures 0.0 / d == 0.0 && d / d == 1.0
  {
  }

  lemma DivideMonotone(a: real, b: real, d: real)
    requires a < b && d > 0.0
    ensures a / d < b / d
  {
    assert b / d - a / d == (b - a) / d;
  }

  // ---------------------------------------------------------------------------
  // Validation

  const NameRequired: string := "Scheme name is required"
  const RangeRequired: string := "At least one color range is required"
  const RangesOverlap: string := "Color ranges cannot overlap"
  const OutOfUnit: string := "Range values must be between 0 and 1"
  const MinNotBelowMax: string := "Range min must be less than max"

  function InvalidColor(color: string): string
  {
    "Invalid color value: " + color
  }

  /** Some range ends after the next one, in the order given, begins. */
  predicate Overlapping(sorted: seq<ColorRange>)
  {
    exists i | 0 <= i < |sorted| - 1 :: sorted[i].max > sorted[i + 1].min
  }

  /** The messages for one range, in the order they are checked. */
  function RangeErrors(r: ColorRange, validColor: string -> bool): seq<string>
  {
    (if !validColor(r.color) then [InvalidColor(r.color)] else []) +
    (if r.min < 0.0 || r.max > 1.0 then [OutOfUnit] else []) +
    (if r.min >= r.max then [MinNotBelowMax] else [])
  }

  function AllRangeErrors(ranges: seq<ColorRange>, validColor: string -> bool): seq<string>
  {
    if ranges == [] then []
    else AllRangeErrors(ranges[..|ranges| - 1], validColor) + RangeErrors(ranges[|ranges| - 1], validColor)
  }

  /** The messages `validateColorScheme` reports, in order. */
  function SchemeErrors(scheme: ColorScheme, validColor: string -> bool): seq<string>
  {
    (if Trim(scheme.name) == [] then [NameRequired] else []) +
    (if scheme.ranges == [] then [RangeRequired] else []) +
    (if Overlapping(SortBy(scheme.ranges, ByMin)) then [RangesOverlap] else []) +
    AllRangeErrors(scheme.ranges, validColor)
  }

  /** `validateColorScheme`; `validColor` stands for the browser's CSS colour
      parser. */
  method ValidateColorScheme(scheme: ColorScheme, validColor: string -> bool) returns (errors: seq<string>)
    ensures errors == SchemeErrors(scheme, validColor)
  {
    errors := [];
    if Trim(scheme.name) == [] {
      errors := errors + [NameRequired];
    }
    ghost var a := if Trim(scheme.name) == [] then [NameRequired] else [];
    assert errors == a;
    if |scheme.ranges| == 0 {
      errors := errors + [RangeRequired];
    }
    ghost var b := a + (if scheme.ranges == [] then [RangeRequired] else []);
    assert errors == b;
    var overlapErrors := OverlapErrors(scheme.ranges);
    errors := errors + overlapErrors;
    var rangeErrors := CheckRanges(scheme.ranges, validColor);
    errors := errors + rangeErrors;
  }

  /** The overlap part of `validateColorScheme`: sorts a copy of the ranges
      by minimum and reports one overlap message when the scan finds one. */
  method OverlapErrors(ranges: seq<ColorRange>) returns (errors: seq<string>)
    ensures errors == if Overlapping(SortBy(ranges, ByMin)) then [RangesOverlap] else []
  {
    var sortedRanges := SortBy(ranges, ByMin);
    var overlap := FindOverlap(sortedRanges);
    errors := if overlap then [RangesOverlap] else [];
  }

  /** The overlap scan: stops at the first range that ends after the next
      begins. */
  method FindOverlap(sortedRanges: seq<ColorRange>) returns (overlap: bool)
    ensures overlap == Overlapping(sortedRanges)
  {
    var i := 0;
    while i < |sortedRanges| - 1
      invariant 0 <= i && (i == 0 || i < |sortedRanges|)
      invariant forall k | 0 <= k < i :: sortedRanges[k].max <= sortedRanges[k + 1].min
    {
      if sortedRanges[i].max > sortedRanges[i + 1].min {
        return true;
      }
      i := i + 1;
    }
    return false;
  }

  /** The per-range checks, range by range. */
  method CheckRanges(ranges: seq<ColorRange>, validColor: string -> bool) returns (errors: seq<string>)
    ensures errors == AllRangeErrors(ranges, validColor)
  {
    errors := [];
    var j := 0;
    while j < |ranges|
      invariant 0 <= j <= |ranges|
      invariant errors == AllRangeErrors(ranges[..j], validColor)
    {
      var range := ranges[j];
      assert ranges[..j + 1][..j] == ranges[..j];
      if !validColor(range.color) {
        errors := errors + [InvalidColor(range.color)];
      }
      if range.min < 0.0 || range.max > 1.0 {
        errors := errors + [OutOfUnit];
      }
      if range.min >= range.max {
        errors := errors + [MinNotBelowMax];
      }
      j := j + 1;
    }
    assert ranges[..j] == ranges;
  }

  lemma {:induction false} AllRangeErrorsEmpty(ranges: seq<ColorRange>, validColor: string -> bool)
    ensures AllRangeErrors(ranges, validColor) == [] <==>
      forall r | r in ranges :: validColor(r.color) && WellFormed(r)
  {
    if ranges != [] {
      var init := ranges[..|ranges| - 1];
      AllRangeErrorsEmpty(init, validColor);
      assert forall r | r in ranges :: r in init || r == ranges[|ranges| - 1];
    }
  }

  /** A scheme passes exactly when it has a name that is not blank, at least
      one range, no overlap once sorted by minimum, and every range has a
      valid colour and satisfies 0 <= min < max <= 1. */
  lemma SchemeValidIff(scheme: ColorScheme, validColor: string -> bool)
    ensures SchemeErrors(scheme, validColor) == [] <==>
      !Blank(scheme.name) && scheme.ranges != [] && !Overlapping(SortBy(scheme.ranges, ByMin)) &&
      forall r | r in scheme.ranges :: validColor(r.color) && WellFormed(r)
  {
    TrimEmptyIffBlank(scheme.name);
    AllRangeErrorsEmpty(scheme.ranges, validColor);
  }

  /** Without an overlap, well-formed ranges sorted by minimum are pairwise
      apart: a range ends no later than any later range begins, so ranges
      may only touch. */
  lemma {:induction false} NoOverlapApart(sorted: seq<ColorRange>, i: nat, j: nat)
    requires !Overlapping(sorted)
    requires forall r | r in sorted :: WellFormed(r)
    requires i < j < |sorted|
    ensures sorted[i].max <= sorted[j].min
    decreases j - i
  {
    assert sorted[i].max <= sorted[i + 1].min;
    if i + 1 < j {
      assert WellFormed(sorted[i + 1]);
      NoOverlapApart(sorted, i + 1, j);
    }
  }

  /** Ranges that tile in ascending order do not overlap. */
  lemma TiledNoOverlap(rs: seq<ColorRange>)
    requires Tiled(rs)
    ensures !Overlapping(rs)
  {
  }

  /** A named scheme whose well-formed ranges tile in ascending order and
      whose colours are accepted passes validation. */
  lemma TiledSchemeValid(scheme: ColorScheme, validColor: string -> bool)
    requires !Blank(scheme.name) && scheme.ranges != []
    requires Tiled(scheme.ranges)
    requires forall r | r in scheme.ranges :: validColor(r.color) && WellFormed(r)
    ensures SchemeErrors(scheme, validColor) == []
  {
    TiledAscending(scheme.ranges);
    SortBySorted(scheme.ranges, ByMin);
    TiledNoOverlap(scheme.ranges);
    SchemeValidIff(scheme, validColor);
  }

  /** A scheme whose only fault is a blank name is refused with the name
      message alone. */
  lemma TiledUnnamedErrors(scheme: ColorScheme, validColor: string -> bool)
    requires Blank(scheme.name) && scheme.ranges != []
    requires Tiled(scheme.ranges)
    requires forall r | r in scheme.ranges :: validColor(r.color) && WellFormed(r)
    ensures SchemeErrors(scheme, validColor) == [NameRequired]
  {
    TiledAscending(scheme.ranges);
    SortBySorted(scheme.ranges, ByMin);
    TiledNoOverlap(scheme.ranges);
    TrimEmptyIffBlank(scheme.name);
    AllRangeErrorsEmpty(scheme.ranges, validColor);
  }

  /** Every default scheme passes validation when its colours are accepted. */
  lemma DefaultSchemesValid(s: ColorScheme, validColor: string -> bool)
    requires s == DefaultGreen || s == BlueScale || s == Discrete5
    requires forall r | r in s.ranges :: validColor(r.color)
    ensures SchemeErrors(s, validColor) == []
  {
    if s == DefaultGreen {
      GreenValid(validColor);
    } else if s == BlueScale {
      BlueValid(validColor);
    } else {
      DiscreteValid(validColor);
    }
  }

  lemma GreenValid(validColor: string -> bool)
    requires forall r | r in DefaultGreen.ranges :: validColor(r.color)
    ensures SchemeErrors(DefaultGreen, validColor) == []
  {
    GreenTiles();
    NamedTilingValid(DefaultGreen, validColor);
  }

  lemma BlueValid(validColor: string -> bool)
    requires forall r | r in BlueScale.ranges :: validColor(r.color)
    ensures SchemeErrors(BlueScale, validColor) == []
  {
    BlueTiles();
    NamedTilingValid(BlueScale, validColor);
  }

  lemma DiscreteValid(validColor: string -> bool)
    requires forall r | r in Discrete5.ranges :: validColor(r.color)
    ensures SchemeErrors(Discrete5, validColor) == []
  {
    DiscreteTiles();
    NamedTilingValid(Discrete5, validColor);
  }

  lemma NamedTilingValid(s: ColorScheme, validColor: string -> bool)
    requires s.name != [] && !IsJsWhitespace(s.name[0]) && TilesUnit(s.ranges)
    requires forall r | r in s.ranges :: validColor(r.color)
    ensures SchemeErrors(s, validColor) == []
  {
    TiledSchemeValid(s, validColor);
  }
}
