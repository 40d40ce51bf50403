/** The per-cell climate model of the map generator: precipitation and heat
    values, their four-way banding, and the diagnostic colour of each band. */
module Climate {

  datatype Option<T> = None | Some(value: T)

  /** `TerrainType.Temperature`, declared coldest first. */
  datatype Temperature = Coldest | Cold | Hot | Hottest

  /** `TerrainType.Precipitation`, declared wettest first. */
  datatype Precipitation = Wettest | Wet | Dry | Dryest

  /** The underlying value of each enum member, in declaration order. */
  function TemperatureOrdinal(t: Temperature): nat {
    match t
    case Coldest => 0
    case Cold => 1
    case Hot => 2
    case Hottest => 3
  }

  function PrecipitationOrdinal(p: Precipitation): nat {
    match p
    case Wettest => 0
    case Wet => 1
    case Dry => 2
    case Dryest => 3
  }

  /** A colour. The named constructors stand for Unity's predefined colours
      (`Color.red`, `Color.yellow`, ...) whose component values do not matter
      here; `Rgba` is any other colour, such as one configured for a biome. */
  datatype Color = Red | Yellow | Blue | Cyan | White | Green
                 | Rgba(r: real, g: real, b: real, a: real)

  /** The value a freshly allocated colour array holds: all components zero. */
  const Transparent: Color := Rgba(0.0, 0.0, 0.0, 0.0)

  // ---------------------------------------------------------------------
  // Banding

  /** The precipitation thresholds, tested in this order. */
  const PrecipitationThresholds: seq<real> := [0.5, 0.66, 0.80]

  /** The heat thresholds, tested in this order. */
  const TemperatureThresholds: seq<real> := [0.1, 0.66, 0.90]

  /** How many of the thresholds `ts` the value `x` has reached. */
  function Reached(ts: seq<real>, x: real): nat {
    if ts == [] then 0 else (if ts[0] <= x then 1 else 0) + Reached(ts[1..], x)
  }

  /** The first-match if-chain on a precipitation value. Every value falls
      in exactly one band, and the bands are the half-open intervals
      between consecutive thresholds. */
  function PrecipitationBand(p: real): (b: Precipitation)
    ensures b == Wettest <==> p < 0.5
    ensures b == Wet <==> 0.5 <= p < 0.66
    ensures b == Dry <==> 0.66 <= p < 0.80
    ensures b == Dryest <==> 0.80 <= p
  {
    if p < 0.5 then Wettest
    else if p < 0.66 then Wet
    else if p < 0.80 then Dry
    else Dryest
  }

  /** The first-match if-chain on a heat value. */
  function TemperatureBand(h: real): (t: Temperature)
    ensures t == Coldest <==> h < 0.1
    ensures t == Cold <==> 0.1 <= h < 0.66
    ensures t == Hot <==> 0.66 <= h < 0.90
    ensures t == Hottest <==> 0.90 <= h
  {
    if h < 0.1 then Coldest
    else if h < 0.66 then Cold
    else if h < 0.90 then Hot
    else Hottest
  }

  /** The band's ordinal is the number of thresholds the value has reached:
      the if-chain agrees with a definition that does not depend on the
      order in which the tests are written. */
  lemma PrecipitationBandCountsThresholds(p: real)
    ensures PrecipitationOrdinal(PrecipitationBand(p)) == Reached(PrecipitationThresholds, p)
  {
    var ts := PrecipitationThresholds;
    assert ts[1..] == [0.66, 0.80] && ts[1..][1..] == [0.80] && ts[1..][1..][1..] == [];
    assert Reached(ts[1..][1..], p) == if 0.80 <= p then 1 else 0;
    assert Reached(ts[1..], p) == (if 0.66 <= p then 1 else 0) + Reached(ts[1..][1..], p);
    assert Reached(ts, p) == (if 0.5 <= p then 1 else 0) + Reached(ts[1..], p);
  }

  lemma TemperatureBandCountsThresholds(h: real)
    ensures TemperatureOrdinal(TemperatureBand(h)) == Reached(TemperatureThresholds, h)
  {
    var ts := TemperatureThresholds;
    assert ts[1..] == [0.66, 0.90] && ts[1..][1..] == [0.90] && ts[1..][1..][1..] == [];
    assert Reached(ts[1..][1..], h) == if 0.90 <= h then 1 else 0;
    assert Reached(ts[1..], h) == (if 0.66 <= h then 1 else 0) + Reached(ts[1..][1..], h);
    assert Reached(ts, h) == (if 0.1 <= h then 1 else 0) + Reached(ts[1..], h);
  }

  /** A value at least as large never falls in a wetter band. */
  lemma PrecipitationBandMonotone(p: real, q: real)
    requires p <= q
    ensures PrecipitationOrdinal(PrecipitationBand(p)) <= PrecipitationOrdinal(PrecipitationBand(q))
  {
  }

  /** A value at least as large never falls in a colder band. */
  lemma TemperatureBandMonotone(h: real, k: real)
    requires h <= k
    ensures TemperatureOrdinal(TemperatureBand(h)) <= TemperatureOrdinal(TemperatureBand(k))
  {
  }

  // ---------------------------------------------------------------------
  // Diagnostic colours

  /** The colour of a cell in the moisture map. */
  function MoistureColor(p: Precipitation): (c: Color)
    ensures c == Red <==> p == Dryest
    ensures c == Yellow <==> p == Dry
    ensures c == Blue <==> p == Wet
    ensures c == Cyan <==> p == Wettest
  {
    match p
    case Dryest => Red
    case Dry => Yellow
    case Wet => Blue
    case Wettest => Cyan
  }

  /** The colour of a cell in the heat colour map. */
  function HeatColor(t: Temperature): (c: Color)
    ensures c == White <==> t == Coldest
    ensures c == Green <==> t == Cold
    ensures c == Yellow <==> t == Hot
    ensures c == Red <==> t == Hottest
  {
    match t
    case Coldest => White
    case Cold => Green
    case Hot => Yellow
    case Hottest => Red
  }

  /** Reads a band back from a moisture-map colour. */
  function MoistureBandOf(c: Color): (r: Option<Precipitation>)
    ensures r.Some? ==> MoistureColor(r.value) == c
  {
    match c
    case Red => Some(Dryest)
    case Yellow => Some(Dry)
    case Blue => Some(Wet)
    case Cyan => Some(Wettest)
    case _ => None
  }

  /** Reads a band back from a heat-map colour. */
  function HeatBandOf(c: Color): (r: Option<Temperature>)
    ensures r.Some? ==> HeatColor(r.value) == c
  {
    match c
    case White => Some(Coldest)
    case Green => Some(Cold)
    case Yellow => Some(Hot)
    case Red => Some(Hottest)
    case _ => None
  }

  /** The moisture map loses nothing: distinct bands get distinct colours,
      so the band can be read back from the colour. */
  lemma MoistureColorRoundTrip(p: Precipitation)
    ensures MoistureBandOf(MoistureColor(p)) == Some(p)
  {
  }

  lemma HeatColorRoundTrip(t: Temperature)
    ensures HeatBandOf(HeatColor(t)) == Some(t)
  {
  }

  // ---------------------------------------------------------------------
  // Heat

  function Abs(x: int): nat {
    if x < 0 then -x else x
  }

  /** `x` raised to the natural power `n`, as `Mathf.Pow` computes it
      without rounding. */
  function Power(x: real, n: nat): real {
    if n == 0 then 1.0 else x * Power(x, n - 1)
  }

  lemma {:induction false} EvenPowerNonNegative(x: real, n: nat)
    requires n % 2 == 0
    ensures Power(x, n) >= 0.0
  {
    if n > 0 {
      var p := Power(x, n - 2);
      EvenPowerNonNegative(x, n - 2);
      assert Power(x, n) == x * (x * p);
      assert x * (x * p) == (x * x) * p;
      assert x * x >= 0.0;
      assert (x * x) * p >= 0.0;
    }
  }

  /** The triangular latitude profile of row `row` in a map `mapHeight` rows
      tall: 1 at the middle row, falling linearly towards the top and bottom
      edges. `mapHeight / 2` is integer division. */
  function LatitudeFactor(mapHeight: nat, row: nat): (r: real)
    requires mapHeight > 0
    ensures r <= 1.0
    ensures row == mapHeight / 2 ==> r == 1.0
  {
    var q := (Abs(mapHeight / 2 - row) as real) / (mapHeight as real);
    assert q * (mapHeight as real) == Abs(mapHeight / 2 - row) as real;
    assert 0.0 <= q;
    1.0 - 2.0 * q
  }

  /** The heat before clamping: latitude minus the tenth power of the
      precipitation. */
  function RawHeat(mapHeight: nat, row: nat, precipitation: real): (r: real)
    requires mapHeight > 0
    ensures r <= LatitudeFactor(mapHeight, row) <= 1.0
  {
    EvenPowerNonNegative(precipitation, 10);
    LatitudeFactor(mapHeight, row) - Power(precipitation, 10)
  }

  /** Negative heat is raised to 0; there is no upper clamp. */
  function ClampHeat(heat: real): (r: real)
    ensures r >= 0.0
    ensures heat >= 0.0 ==> r == heat
    ensures heat < 0.0 ==> r == 0.0
  {
    if heat < 0.0 then 0.0 else heat
  }

  /** The heat stored for a cell. */
  function CellHeat(mapHeight: nat, row: nat, precipitation: real): (r: real)
    requires mapHeight > 0
    ensures 0.0 <= r <= 1.0
    ensures RawHeat(mapHeight, row, precipitation) >= 0.0 ==> r == RawHeat(mapHeight, row, precipitation)
  {
    ClampHeat(RawHeat(mapHeight, row, precipitation))
  }

  /** On every row of the map the latitude profile lies in [0, 1]; it never
      goes negative, even on the edge rows. */
  lemma {:induction false} LatitudeFactorInUnitInterval(mapHeight: nat, row: nat)
    requires row < mapHeight
    ensures 0.0 <= LatitudeFactor(mapHeight, row) <= 1.0
  {
    var half := mapHeight / 2;
    assert Abs(half - row) <= half;
    HalfRatio(Abs(half - row) as real, mapHeight as real);
  }

  /** The edge rows: with an even row count row 0 gets 0 and the last row
      `2 / mapHeight`; with an odd row count both get `1 / mapHeight`. So the
      profile is symmetric about the map's middle only for an odd row count. */
  lemma LatitudeAtEdges(mapHeight: nat)
    requires mapHeight > 0
    ensures mapHeight % 2 == 0 ==>
      LatitudeFactor(mapHeight, 0) == 0.0 && LatitudeFactor(mapHeight, mapHeight - 1) == 2.0 / mapHeight as real
    ensures mapHeight % 2 == 1 ==>
      LatitudeFactor(mapHeight, 0) == 1.0 / mapHeight as real &&
      LatitudeFactor(mapHeight, mapHeight - 1) == 1.0 / mapHeight as real
  {
    if mapHeight % 2 == 0 {
      assert Abs(mapHeight / 2 - 0) == mapHeight / 2;
      assert (mapHeight / 2) as real * 2.0 == mapHeight as real;
      assert Abs(mapHeight / 2 - (mapHeight - 1)) == mapHeight / 2 - 1;
    } else {
      assert Abs(mapHeight / 2 - 0) == mapHeight / 2;
      assert (mapHeight / 2) as real * 2.0 == mapHeight as real - 1.0;
      assert Abs(mapHeight / 2 - (mapHeight - 1)) == mapHeight / 2;
    }
  }

  lemma HalfRatio(a: real, h: real)
    requires 0.0 <= a && 2.0 * a <= h && h > 0.0
    ensures 0.0 <= 2.0 * (a / h) <= 1.0
  {
    var q := a / h;
    assert q * h == a;
    assert 0.0 <= q;
    assert 2.0 * q * h <= h;
  }

  /** Although only the lower clamp is written, the stored heat never
      exceeds 1, because the latitude profile is at most 1 and an even
      power is never negative. */
  lemma {:induction false} CellHeatInUnitInterval(mapHeight: nat, row: nat, precipitation: real)
    requires row < mapHeight
    ensures 0.0 <= CellHeat(mapHeight, row, precipitation) <= 1.0
  {
    LatitudeFactorInUnitInterval(mapHeight, row);
    EvenPowerNonNegative(precipitation, 10);
  }

  /** With an even number of rows the profile peaks at row `mapHeight / 2`,
      below the middle, so the first and last rows differ: in a 10-row map
      row 0 gets 0 and row 9 gets 0.2. */
  lemma EvenHeightProfileIsLopsided()
    ensures LatitudeFactor(10, 5) == 1.0
    ensures LatitudeFactor(10, 0) == 0.0 && LatitudeFactor(10, 9) == 0.2
  {
  }

  /** A dry cell on the middle row of a 10-row map is as hot as possible. */
  lemma MidlineHeat()
    ensures CellHeat(10, 5, 0.0) == 1.0
    ensures TemperatureBand(CellHeat(10, 5, 0.0)) == Hottest
  {
  }

  /** A wet cell on the edge row of a 10-row map goes negative and is
      clamped to 0, the coldest band. */
  lemma EdgeHeat()
    ensures RawHeat(10, 0, 0.9) < 0.0
    ensures CellHeat(10, 0, 0.9) == 0.0
    ensures TemperatureBand(CellHeat(10, 0, 0.9)) == Coldest
  {
  }
}
