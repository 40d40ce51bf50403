/** The map generator component: its configured fields, the editor-time
    clamping of those fields, and the per-cell pass that turns a height map
    into a precipitation map, a heat map and three colour maps. */
module MapGeneration {
  import opened Grid
  import opened Climate
  import opened Biomes

  // ---------------------------------------------------------------------
  // What a cell of each map holds

  /** The height of the cell with flat index `v`. */
  function NoiseAt(noiseMap: array2<real>, v: nat): real
    reads noiseMap
    requires v < noiseMap.Length0 * noiseMap.Length1
  {
    RowInRange(noiseMap.Length0, noiseMap.Length1, v);
    FlatUnflat(noiseMap.Length0, v);
    noiseMap[ColOf(noiseMap.Length0, v), RowOf(noiseMap.Length0, v)]
  }

  /** The moisture-map colour of the cell with flat index `v`. */
  function MoistureAt(noiseMap: array2<real>, v: nat): Color
    reads noiseMap
    requires v < noiseMap.Length0 * noiseMap.Length1
  {
    MoistureColor(PrecipitationBand(NoiseAt(noiseMap, v)))
  }

  /** The heat of the cell with flat index `v`. */
  function HeatAt(noiseMap: array2<real>, v: nat): real
    reads noiseMap
    requires v < noiseMap.Length0 * noiseMap.Length1
  {
    RowInRange(noiseMap.Length0, noiseMap.Length1, v);
    CellHeat(noiseMap.Length1, RowOf(noiseMap.Length0, v), NoiseAt(noiseMap, v))
  }

  /** The heat-map colour of the cell with flat index `v`. */
  function HeatColorAt(noiseMap: array2<real>, v: nat): Color
    reads noiseMap
    requires v < noiseMap.Length0 * noiseMap.Length1
  {
    HeatColor(TemperatureBand(HeatAt(noiseMap, v)))
  }

  /** The biome colour of the cell with flat index `v`. */
  function BiomeAt(biomes: seq<TerrainType>, noiseMap: array2<real>, v: nat): Color
    reads noiseMap
    requires |biomes| != 1 && v < noiseMap.Length0 * noiseMap.Length1
  {
    BiomeColor(biomes, NoiseAt(noiseMap, v), TemperatureBand(HeatAt(noiseMap, v)),
               PrecipitationBand(NoiseAt(noiseMap, v)))
  }

  /** The flat index `row * width + col` that the colour maps use for cell
      (`row`, `col`) reads the height map at column `col`, row `row`. */
  lemma {:induction false} NoiseAtCell(noiseMap: array2<real>, row: nat, col: nat)
    requires row < noiseMap.Length1 && col < noiseMap.Length0
    ensures Flat(noiseMap.Length0, row, col) < noiseMap.Length0 * noiseMap.Length1
    ensures NoiseAt(noiseMap, Flat(noiseMap.Length0, row, col)) == noiseMap[col, row]
    ensures HeatAt(noiseMap, Flat(noiseMap.Length0, row, col)) == CellHeat(noiseMap.Length1, row, noiseMap[col, row])
  {
    FlatInRange(noiseMap.Length0, noiseMap.Length1, row, col);
    UnflatFlat(noiseMap.Length0, row, col);
  }

  /** Every cell's heat lies in [0, 1] and so has a well-defined band, and
      the colour in the heat map reads back as that band. */
  lemma {:induction false} HeatAtInUnitInterval(noiseMap: array2<real>, v: nat)
    requires v < noiseMap.Length0 * noiseMap.Length1
    ensures 0.0 <= HeatAt(noiseMap, v) <= 1.0
    ensures HeatBandOf(HeatColorAt(noiseMap, v)) == Some(TemperatureBand(HeatAt(noiseMap, v)))
  {
    RowInRange(noiseMap.Length0, noiseMap.Length1, v);
    CellHeatInUnitInterval(noiseMap.Length1, RowOf(noiseMap.Length0, v), NoiseAt(noiseMap, v));
    HeatColorRoundTrip(TemperatureBand(HeatAt(noiseMap, v)));
  }

  /** A cell no higher than the water entry is coloured as water in the
      colour map, whatever its moisture and heat. */
  lemma WaterCellIsWaterColored(biomes: seq<TerrainType>, noiseMap: array2<real>, v: nat)
    requires |biomes| > WaterIndex && v < noiseMap.Length0 * noiseMap.Length1
    requires NoiseAt(noiseMap, v) <= biomes[WaterIndex].height
    ensures BiomeAt(biomes, noiseMap, v) == biomes[WaterIndex].color
  {
  }

  // ---------------------------------------------------------------------
  // The per-cell pass

  /** The precipitation and heat maps hold their final values for every
      cell before (`i`, `j`) in row-major order. */
  ghost predicate ClimateUpTo(noiseMap: array2<real>, precipitationMap: array2<real>, heatMap: array2<real>, i: nat, j: nat)
    reads noiseMap, precipitationMap, heatMap
    requires precipitationMap.Length0 == noiseMap.Length0 && precipitationMap.Length1 == noiseMap.Length1
    requires heatMap.Length0 == noiseMap.Length0 && heatMap.Length1 == noiseMap.Length1
  {
    forall r, c :: 0 <= r < noiseMap.Length1 && 0 <= c < noiseMap.Length0 && (r < i || (r == i && c < j)) ==>
      precipitationMap[c, r] == noiseMap[c, r] && heatMap[c, r] == CellHeat(noiseMap.Length1, r, noiseMap[c, r])
  }

  /** The moisture and heat colour maps hold their final values below flat
      index `n`. */
  ghost predicate BandColorsUpTo(noiseMap: array2<real>, moistureMap: array<Color>, heatColorMap: array<Color>, n: nat)
    reads noiseMap, moistureMap, heatColorMap
    requires n <= noiseMap.Length0 * noiseMap.Length1 && n <= moistureMap.Length && n <= heatColorMap.Length
  {
    forall v :: 0 <= v < n ==> moistureMap[v] == MoistureAt(noiseMap, v) && heatColorMap[v] == HeatColorAt(noiseMap, v)
  }

  /** The colour map holds its final value below flat index `n` and its
      initial value from `n` on. */
  ghost predicate BiomesUpTo(biomes: seq<TerrainType>, noiseMap: array2<real>, colorMap: array<Color>, n: nat)
    reads noiseMap, colorMap
    requires n <= noiseMap.Length0 * noiseMap.Length1 && colorMap.Length == noiseMap.Length0 * noiseMap.Length1
  {
    (|biomes| != 1 ==> forall v :: 0 <= v < n ==> colorMap[v] == BiomeAt(biomes, noiseMap, v)) &&
    (forall v :: n <= v < colorMap.Length ==> colorMap[v] == Transparent)
  }

  /** All maps hold their final values for every cell before (`i`, `j`),
      and the colour map its initial value at every later cell. */
  ghost predicate MapsUpTo(
    biomes: seq<TerrainType>, noiseMap: array2<real>,
    colorMap: array<Color>, moistureMap: array<Color>, heatColorMap: array<Color>,
    precipitationMap: array2<real>, heatMap: array2<real>, i: nat, j: nat)
    reads noiseMap, colorMap, moistureMap, heatColorMap, precipitationMap, heatMap
    requires colorMap.Length == noiseMap.Length0 * noiseMap.Length1
    requires moistureMap.Length == noiseMap.Length0 * noiseMap.Length1
    requires heatColorMap.Length == noiseMap.Length0 * noiseMap.Length1
    requires precipitationMap.Length0 == noiseMap.Length0 && precipitationMap.Length1 == noiseMap.Length1
    requires heatMap.Length0 == noiseMap.Length0 && heatMap.Length1 == noiseMap.Length1
    requires Flat(noiseMap.Length0, i, j) <= noiseMap.Length0 * noiseMap.Length1
  {
    ClimateUpTo(noiseMap, precipitationMap, heatMap, i, j) &&
    BandColorsUpTo(noiseMap, moistureMap, heatColorMap, Flat(noiseMap.Length0, i, j)) &&
    BiomesUpTo(biomes, noiseMap, colorMap, Flat(noiseMap.Length0, i, j))
  }

  /** The body of the inner loop for cell (`i`, `j`). Returns false when the
      biome scan reads past a one-entry table, which raises an exception in
      the source and ends the pass. */
  method ClassifyCell(
    biomes: seq<TerrainType>, noiseMap: array2<real>,
    colorMap: array<Color>, moistureMap: array<Color>, heatColorMap: array<Color>,
    precipitationMap: array2<real>, heatMap: array2<real>, i: nat, j: nat)
    returns (ok: bool)
    requires i < noiseMap.Length1 && j < noiseMap.Length0
    requires colorMap.Length == noiseMap.Length0 * noiseMap.Length1
    requires moistureMap.Length == noiseMap.Length0 * noiseMap.Length1
    requires heatColorMap.Length == noiseMap.Length0 * noiseMap.Length1
    requires precipitationMap.Length0 == noiseMap.Length0 && precipitationMap.Length1 == noiseMap.Length1
    requires heatMap.Length0 == noiseMap.Length0 && heatMap.Length1 == noiseMap.Length1
    requires colorMap != moistureMap && colorMap != heatColorMap && moistureMap != heatColorMap
    requires precipitationMap != heatMap && precipitationMap != noiseMap && heatMap != noiseMap
    requires Flat(noiseMap.Length0, i, j) < noiseMap.Length0 * noiseMap.Length1
    requires MapsUpTo(biomes, noiseMap, colorMap, moistureMap, heatColorMap, precipitationMap, heatMap, i, j)
    modifies colorMap, moistureMap, heatColorMap, precipitationMap, heatMap
    ensures ok <==> |biomes| != 1
    ensures Flat(noiseMap.Length0, i, j + 1) <= noiseMap.Length0 * noiseMap.Length1
    ensures ok ==> MapsUpTo(biomes, noiseMap, colorMap, moistureMap, heatColorMap, precipitationMap, heatMap, i, j + 1)
  {
    var mapWidth, mapHeight := noiseMap.Length0, noiseMap.Length1;
    var index := i * mapWidth + j;
    FlatIsRowMajor(mapWidth, i, j);
    FlatNextCol(mapWidth, i, j);
    NoiseAtCell(noiseMap, i, j);
    var currentHeight := noiseMap[j, i];

    StoreClimate(noiseMap, precipitationMap, heatMap, i, j);

    var precipitation := PrecipitationBand(precipitationMap[j, i]);
    var temperature := TemperatureBand(heatMap[j, i]);
    StoreBandColors(noiseMap, moistureMap, heatColorMap, index, precipitation, temperature);
    ok := StoreBiome(biomes, noiseMap, colorMap, index, currentHeight, temperature, precipitation);
  }

  /** The two switches of the inner loop: the moisture and heat colour of
      the cell with flat index `index`, from its two bands. */
  method StoreBandColors(
    noiseMap: array2<real>, moistureMap: array<Color>, heatColorMap: array<Color>,
    index: nat, precipitation: Precipitation, temperature: Temperature)
    requires index < noiseMap.Length0 * noiseMap.Length1
    requires moistureMap.Length == noiseMap.Length0 * noiseMap.Length1
    requires heatColorMap.Length == noiseMap.Length0 * noiseMap.Length1
    requires moistureMap != heatColorMap
    requires precipitation == PrecipitationBand(NoiseAt(noiseMap, index))
    requires temperature == TemperatureBand(HeatAt(noiseMap, index))
    requires BandColorsUpTo(noiseMap, moistureMap, heatColorMap, index)
    modifies moistureMap, heatColorMap
    ensures BandColorsUpTo(noiseMap, moistureMap, heatColorMap, index + 1)
  {
    moistureMap[index] := MoistureColor(precipitation);
    heatColorMap[index] := HeatColor(temperature);
  }

  /** The biome loop of the inner loop body for the cell with flat index
      `index`: writes the colour the scan chooses, if any, and returns false
      when the scan reads past a one-entry table. */
  method StoreBiome(
    biomes: seq<TerrainType>, noiseMap: array2<real>, colorMap: array<Color>, index: nat,
    currentHeight: real, temperature: Temperature, precipitation: Precipitation)
    returns (ok: bool)
    requires index < noiseMap.Length0 * noiseMap.Length1
    requires colorMap.Length == noiseMap.Length0 * noiseMap.Length1
    requires currentHeight == NoiseAt(noiseMap, index)
    requires precipitation == PrecipitationBand(NoiseAt(noiseMap, index))
    requires temperature == TemperatureBand(HeatAt(noiseMap, index))
    requires BiomesUpTo(biomes, noiseMap, colorMap, index)
    modifies colorMap
    ensures ok <==> |biomes| != 1
    ensures ok ==> BiomesUpTo(biomes, noiseMap, colorMap, index + 1)
  {
    var scan := ScanBiomes(biomes, currentHeight, temperature, precipitation);
    OutOfRangeOnlyForOneEntry(biomes, currentHeight, temperature, precipitation);
    if scan == IndexOutOfRange {
      return false;
    }
    colorMap[index] := ScanColor(biomes, scan, colorMap[index]);
    ok := true;
  }

  /** The first statements of the inner loop: the precipitation of cell
      (`i`, `j`) is its height, and its heat is the raw heat with negative
      values raised to 0. */
  method StoreClimate(noiseMap: array2<real>, precipitationMap: array2<real>, heatMap: array2<real>, i: nat, j: nat)
    requires i < noiseMap.Length1 && j < noiseMap.Length0
    requires precipitationMap.Length0 == noiseMap.Length0 && precipitationMap.Length1 == noiseMap.Length1
    requires heatMap.Length0 == noiseMap.Length0 && heatMap.Length1 == noiseMap.Length1
    requires precipitationMap != heatMap && precipitationMap != noiseMap && heatMap != noiseMap
    requires ClimateUpTo(noiseMap, precipitationMap, heatMap, i, j)
    modifies precipitationMap, heatMap
    ensures precipitationMap[j, i] == noiseMap[j, i]
    ensures heatMap[j, i] == CellHeat(noiseMap.Length1, i, noiseMap[j, i])
    ensures ClimateUpTo(noiseMap, precipitationMap, heatMap, i, j + 1)
  {
    var mapHeight := noiseMap.Length1;
    precipitationMap[j, i] := noiseMap[j, i];
    heatMap[j, i] := RawHeat(mapHeight, i, precipitationMap[j, i]);
    if heatMap[j, i] < 0.0 {
      heatMap[j, i] := 0.0;
    }
  }

  /** One pass of the inner loop, over the cells of row `i`. */
  method ClassifyRow(
    biomes: seq<TerrainType>, noiseMap: array2<real>,
    colorMap: array<Color>, moistureMap: array<Color>, heatColorMap: array<Color>,
    precipitationMap: array2<real>, heatMap: array2<real>, i: nat)
    returns (ok: bool)
    requires i < noiseMap.Length1
    requires colorMap.Length == noiseMap.Length0 * noiseMap.Length1
    requires moistureMap.Length == noiseMap.Length0 * noiseMap.Length1
    requires heatColorMap.Length == noiseMap.Length0 * noiseMap.Length1
    requires precipitationMap.Length0 == noiseMap.Length0 && precipitationMap.Length1 == noiseMap.Length1
    requires heatMap.Length0 == noiseMap.Length0 && heatMap.Length1 == noiseMap.Length1
    requires colorMap != moistureMap && colorMap != heatColorMap && moistureMap != heatColorMap
    requires precipitationMap != heatMap && precipitationMap != noiseMap && heatMap != noiseMap
    requires Flat(noiseMap.Length0, i, 0) <= noiseMap.Length0 * noiseMap.Length1
    requires MapsUpTo(biomes, noiseMap, colorMap, moistureMap, heatColorMap, precipitationMap, heatMap, i, 0)
    modifies colorMap, moistureMap, heatColorMap, precipitationMap, heatMap
    ensures ok <==> (|biomes| != 1 || noiseMap.Length0 == 0)
    ensures Flat(noiseMap.Length0, i + 1, 0) <= noiseMap.Length0 * noiseMap.Length1
    ensures ok ==> MapsUpTo(biomes, noiseMap, colorMap, moistureMap, heatColorMap, precipitationMap, heatMap, i + 1, 0)
  {
    var mapWidth, mapHeight := noiseMap.Length0, noiseMap.Length1;
    NextRowStart(mapWidth, i);
    RowStartInRange(mapWidth, mapHeight, i + 1);
    var j := 0;
    while j < mapWidth
      invariant 0 <= j <= mapWidth
      invariant Flat(mapWidth, i, j) <= mapWidth * mapHeight
      invariant MapsUpTo(biomes, noiseMap, colorMap, moistureMap, heatColorMap, precipitationMap, heatMap, i, j)
      invariant |biomes| == 1 ==> j == 0
    {
      FlatInRange(mapWidth, mapHeight, i, j);
      ok := ClassifyCell(biomes, noiseMap, colorMap, moistureMap, heatColorMap, precipitationMap, heatMap, i, j);
      if !ok {
        return;
      }
      j := j + 1;
    }
    ok := true;
  }

  /** The outer loop of the pass, over the rows of the map. */
  method ClassifyMap(
    biomes: seq<TerrainType>, noiseMap: array2<real>,
    colorMap: array<Color>, moistureMap: array<Color>, heatColorMap: array<Color>,
    precipitationMap: array2<real>, heatMap: array2<real>)
    returns (ok: bool)
    requires colorMap.Length == noiseMap.Length0 * noiseMap.Length1
    requires moistureMap.Length == noiseMap.Length0 * noiseMap.Length1
    requires heatColorMap.Length == noiseMap.Length0 * noiseMap.Length1
    requires precipitationMap.Length0 == noiseMap.Length0 && precipitationMap.Length1 == noiseMap.Length1
    requires heatMap.Length0 == noiseMap.Length0 && heatMap.Length1 == noiseMap.Length1
    requires colorMap != moistureMap && colorMap != heatColorMap && moistureMap != heatColorMap
    requires precipitationMap != heatMap && precipitationMap != noiseMap && heatMap != noiseMap
    requires forall v :: 0 <= v < colorMap.Length ==> colorMap[v] == Transparent
    modifies colorMap, moistureMap, heatColorMap, precipitationMap, heatMap
    ensures ok <==> (|biomes| != 1 || noiseMap.Length0 == 0 || noiseMap.Length1 == 0)
    ensures Flat(noiseMap.Length0, noiseMap.Length1, 0) <= noiseMap.Length0 * noiseMap.Length1
    ensures ok ==> MapsUpTo(biomes, noiseMap, colorMap, moistureMap, heatColorMap, precipitationMap, heatMap,
                            noiseMap.Length1, 0)
  {
    var mapWidth, mapHeight := noiseMap.Length0, noiseMap.Length1;
    RowStartInRange(mapWidth, mapHeight, mapHeight);
    var i := 0;
    while i < mapHeight
      invariant 0 <= i <= mapHeight
      invariant Flat(mapWidth, i, 0) <= mapWidth * mapHeight
      invariant MapsUpTo(biomes, noiseMap, colorMap, moistureMap, heatColorMap, precipitationMap, heatMap, i, 0)
      invariant |biomes| == 1 ==> i == 0 || mapWidth == 0
    {
      ok := ClassifyRow(biomes, noiseMap, colorMap, moistureMap, heatColorMap, precipitationMap, heatMap, i);
      if !ok {
        return;
      }
      i := i + 1;
    }
    ok := true;
  }

  // ---------------------------------------------------------------------
  // The component

  /** `MapGenerator`: the fields the map pass and the editor clamping use. */
  class MapGenerator {
    var mapWidth: int
    var mapHeight: int
    var octaves: int
    var lacunarity: real
    var biomes: seq<TerrainType>

    constructor (mapWidth: int, mapHeight: int, octaves: int, lacunarity: real, biomes: seq<TerrainType>)
      ensures this.mapWidth == mapWidth && this.mapHeight == mapHeight
      ensures this.octaves == octaves && this.lacunarity == lacunarity && this.biomes == biomes
    {
      this.mapWidth := mapWidth;
      this.mapHeight := mapHeight;
      this.octaves := octaves;
      this.lacunarity := lacunarity;
      this.biomes := biomes;
    }

    /** Generates the maps of the height map `noiseMap`, which is
        `mapWidth` columns by `mapHeight` rows. `ok` is false when the pass
        ends in the exception raised for a one-entry biome table. */
    method GenerateMap(noiseMap: array2<real>)
      returns (ok: bool, colorMap: array<Color>, moistureMap: array<Color>, heatColorMap: array<Color>,
               precipitationMap: array2<real>, heatMap: array2<real>)
      requires noiseMap.Length0 == mapWidth && noiseMap.Length1 == mapHeight
      ensures fresh(colorMap) && fresh(moistureMap) && fresh(heatColorMap) && fresh(precipitationMap) && fresh(heatMap)
      ensures colorMap.Length == mapWidth * mapHeight && moistureMap.Length == mapWidth * mapHeight
      ensures heatColorMap.Length == mapWidth * mapHeight
      ensures precipitationMap.Length0 == mapWidth && precipitationMap.Length1 == mapHeight
      ensures heatMap.Length0 == mapWidth && heatMap.Length1 == mapHeight
      ensures ok <==> (|biomes| != 1 || mapWidth == 0 || mapHeight == 0)
      ensures ok ==> forall r, c :: 0 <= r < mapHeight && 0 <= c < mapWidth ==>
        precipitationMap[c, r] == noiseMap[c, r] && heatMap[c, r] == CellHeat(mapHeight, r, noiseMap[c, r])
      ensures ok ==> forall v :: 0 <= v < mapWidth * mapHeight ==>
        moistureMap[v] == MoistureAt(noiseMap, v) && heatColorMap[v] == HeatColorAt(noiseMap, v)
      ensures ok && |biomes| != 1 ==> forall v :: 0 <= v < mapWidth * mapHeight ==>
        colorMap[v] == BiomeAt(biomes, noiseMap, v)
    {
      var width, height, table := noiseMap.Length0, noiseMap.Length1, biomes;
      colorMap := new Color[width * height](_ => Transparent);
      moistureMap := new Color[width * height](_ => Transparent);
      heatColorMap := new Color[width * height](_ => Transparent);
      precipitationMap := new real[width, height]((_, _) => 0.0);
      heatMap := new real[width, height]((_, _) => 0.0);

      ok := ClassifyMap(table, noiseMap, colorMap, moistureMap, heatColorMap, precipitationMap, heatMap);
      FlatIsRowMajor(width, height, 0);
    }

    /** The editor hook that keeps the fields in range: widths and heights
        at least 1, lacunarity at least 1, octaves at least 0. Fields already
        in range are left as they are. */
    method OnValidate()
      modifies this`mapWidth, this`mapHeight, this`lacunarity, this`octaves
      ensures mapWidth == AtLeast(old(mapWidth), 1) && mapHeight == AtLeast(old(mapHeight), 1)
      ensures lacunarity == AtLeastReal(old(lacunarity), 1.0) && octaves == AtLeast(old(octaves), 0)
      ensures Validated()
    {
      if mapWidth < 1 {
        mapWidth := 1;
      }
      if mapHeight < 1 {
        mapHeight := 1;
      }
      if lacunarity < 1.0 {
        lacunarity := 1.0;
      }
      if octaves < 0 {
        octaves := 0;
      }
    }

    /** The fields are in the ranges the editor hook enforces. */
    predicate Validated()
      reads this
    {
      mapWidth >= 1 && mapHeight >= 1 && lacunarity >= 1.0 && octaves >= 0
    }
  }

  /** `x` raised to `low` when below it. */
  function AtLeast(x: int, low: int): (r: int)
    ensures r >= low
    ensures x >= low ==> r == x
    ensures x < low ==> r == low
  {
    if x < low then low else x
  }

  function AtLeastReal(x: real, low: real): (r: real)
    ensures r >= low
    ensures x >= low ==> r == x
    ensures x < low ==> r == low
  {
    if x < low then low else x
  }
}
