/** Colour schemes for node conditions, and the configuration shipped by
    default. */
module ColorTypes {
  import opened Common

  /** Condition values from `min` to `max` are drawn in `color`. */
  datatype ColorRange = ColorRange(min: real, max: real, color: string)

  datatype SchemeType = Discrete | Continuous

  datatype ColorScheme = ColorScheme(
    id: string,
    name: string,
    kind: SchemeType,
    ranges: seq<ColorRange>,
    description: Option<string>)

  /** Which condition value of a state the colours are looked up by. */
  datatype ConditionField = EksConditionEstimate | ConditionLower | ConditionUpper | ConditionAverage

  datatype ColorConfig = ColorConfig(
    activeSchemeId: string,
    schemes: seq<ColorScheme>,
    conditionField: ConditionField)

  const DefaultGreen := ColorScheme("default-green", "Default Green Scale", Continuous,
    [ColorRange(0.0, 0.2, "#d32f2f"), ColorRange(0.2, 0.4, "#ff9800"), ColorRange(0.4, 0.6, "#ffeb3b"),
     ColorRange(0.6, 0.8, "#8bc34a"), ColorRange(0.8, 1.0, "#4caf50")],
    Some("Traditional ecosystem condition scale from red (poor) to green (excellent)"))

  const BlueScale := ColorScheme("blue-scale", "Blue Scale", Continuous,
    [ColorRange(0.0, 0.2, "#e3f2fd"), ColorRange(0.2, 0.4, "#bbdefb"), ColorRange(0.4, 0.6, "#90caf9"),
     ColorRange(0.6, 0.8, "#64b5f6"), ColorRange(0.8, 1.0, "#2196f3")],
    Some("Blue gradient scale for condition values"))

  const Discrete5 := ColorScheme("discrete-5", "5-Level Discrete", Discrete,
    [ColorRange(0.0, 0.2, "#f44336"), ColorRange(0.2, 0.4, "#ff9800"), ColorRange(0.4, 0.6, "#ffeb3b"),
     ColorRange(0.6, 0.8, "#4caf50"), ColorRange(0.8, 1.0, "#2e7d32")],
    Some("Five discrete condition levels"))

  const DefaultColorSchemes: seq<ColorScheme> := [DefaultGreen, BlueScale, Discrete5]

  const DefaultActiveSchemeId: string := "default-green"

  const DefaultColorConfig := ColorConfig(DefaultActiveSchemeId, DefaultColorSchemes, EksConditionEstimate)

  function SchemeIds(schemes: seq<ColorScheme>): seq<string>
  {
    MapSeq(schemes, (s: ColorScheme) => s.id)
  }

  /** A range inside [0, 1] with a lower bound below its upper bound. */
  predicate WellFormed(r: ColorRange)
  {
    0.0 <= r.min < r.max <= 1.0
  }

  /** Ranges listed by ascending lower bound, each ending where the next
      begins. */
  predicate Tiled(rs: seq<ColorRange>)
  {
    forall i | 0 <= i < |rs| - 1 :: rs[i].max == rs[i + 1].min
  }

  /** The default active scheme is one of the default schemes, the default
      ids are pairwise distinct, and the default colours follow the
      estimate field. */
  lemma DefaultConfigConsistent()
    ensures DefaultColorConfig.activeSchemeId in SchemeIds(DefaultColorConfig.schemes)
    ensures NoDuplicates(SchemeIds(DefaultColorSchemes))
    ensures DefaultColorConfig.conditionField == EksConditionEstimate
  {
    assert SchemeIds(DefaultColorSchemes)[0] == DefaultActiveSchemeId;
    var ids := SchemeIds(DefaultColorSchemes);
    assert ids == ["default-green", "blue-scale", "discrete-5"];
  }

  function ByMin(r: ColorRange): real { r.min }

  /** Well-formed ranges that tile [0, 1]: the first starts at 0, each ends
      where the next begins, and the last ends at 1. */
  predicate TilesUnit(rs: seq<ColorRange>)
  {
    rs != [] && (forall r | r in rs :: WellFormed(r)) && Tiled(rs) &&
    rs[0].min == 0.0 && rs[|rs| - 1].max == 1.0
  }

  /** In a tiling the lower bounds strictly increase. */
  lemma {:induction false} TiledMinsIncrease(rs: seq<ColorRange>, i: nat, j: nat)
    requires (forall r | r in rs :: WellFormed(r)) && Tiled(rs)
    requires i < j < |rs|
    ensures rs[i].min < rs[j].min
    decreases j - i
  {
    assert rs[i] in rs;
    if j > i + 1 {
      TiledMinsIncrease(rs, i + 1, j);
    }
  }

  lemma TiledAscending(rs: seq<ColorRange>)
    requires (forall r | r in rs :: WellFormed(r)) && Tiled(rs)
    ensures SortedBy(rs, ByMin)
  {
    forall i, j | 0 <= i < j < |rs| ensures ByMin(rs[i]) <= ByMin(rs[j]) {
      TiledMinsIncrease(rs, i, j);
    }
  }

  lemma GreenTiles() ensures TilesUnit(DefaultGreen.ranges) {}
  lemma BlueTiles() ensures TilesUnit(BlueScale.ranges) {}
  lemma DiscreteTiles() ensures TilesUnit(Discrete5.ranges) {}

  /** Each default scheme tiles [0, 1] with well-formed ranges in ascending
      order. */
  lemma DefaultRangesTile()
    ensures forall s | s in DefaultColorSchemes :: TilesUnit(s.ranges) && SortedBy(s.ranges, ByMin)
  {
    GreenTiles();
    BlueTiles();
    DiscreteTiles();
    forall s | s in DefaultColorSchemes ensures TilesUnit(s.ranges) && SortedBy(s.ranges, ByMin) {
      TiledAscending(s.ranges);
    }
  }
}
