# Procedural terrain generator — a Dafny model

This project models the core of a Unity procedural terrain generator and proves properties of the model. The core has two parts.

- **The terrain mesh builder**, `MeshGenerator.GenerateTerrainMesh` and the `MeshData` buffer class. It walks a `width × height` height grid in row-major order. It writes one vertex and one texture coordinate per cell. For every cell that is not on the last row or column, it appends the two triangles of the quad whose top-left corner that cell is. The triangles go into a preallocated index buffer through a cursor.
- **The per-cell pass of `MapGenerator.GenerateMap`**. It computes each cell's precipitation and its heat, which is biased by latitude and clamped at 0. It puts each value into one of four bands and writes the band's diagnostic colour. It then scans the biome table, where index 1 is water and otherwise the first matching entry wins. The results are written into row-major colour arrays. `MapGenerator.OnValidate` clamps the editor fields.

Modules:

- `Grid` (`grid.dfy`): the row-major index `row * width + col` shared by both parts. It is defined by repeated addition and proved equal to the closed form, to `/` and to `%`.
- `Climate` (`climate.dfy`):
  - the `Temperature` and `Precipitation` enums;
  - colours;
  - the banding if-chains;
  - the band colour switches;
  - the heat formula.
- `Biomes` (`biomes.dfy`): the `TerrainType` record and the biome-table scan, a `while` loop with `break`.
- `MeshGenerator` (`mesh.dfy`): the `MeshData` class, whose array fields and cursor are updated in place, and `GenerateTerrainMesh` with its nested loops.
- `MapGeneration` (`map.dfy`): the `MapGenerator` class with `GenerateMap` and `OnValidate`. The nested loops of `GenerateMap` write five arrays in place.

Nested loop bodies are split into helper methods, one per stage of the body, so that each proof stays small:

- mesh builder: `FillRow`, `VisitCell`, `EmitQuad`;
- map pass: `ClassifyMap`, `ClassifyRow`, `ClassifyCell`, `StoreClimate`, `StoreBandColors`, `StoreBiome`.

Each helper states, as pre- and postcondition, what the loop has written so far.

Facts about the code that the model makes explicit:

- **Latitude term at the edges.** The latitude term `1 - 2 * |mapHeight / 2 - row| / mapHeight` is never negative on the map (`Climate.LatitudeFactorInUnitInterval`). It is 0 only on row 0 of a map with an even row count; with an odd row count both edge rows get `1/mapHeight` (`Climate.LatitudeAtEdges`).
- **Even row counts.** With an even row count the profile is not symmetric: row 0 gets 0 and the last row `2/mapHeight` (`Climate.LatitudeAtEdges`; `Climate.EvenHeightProfileIsLopsided` for a 10-row map).
- **When the mesh is built.** The mesh is built only in the three mesh draw modes (`Assets/Scripts/MapGenerator.cs:132-137`); that dispatch is not modelled.

## Model

| member | source | states |
|---|---|---|
| Grid.FlatIsRowMajor | Assets/Scripts/MeshGenerator.cs:16-31 | the counter the loops keep, `Flat(width, i, j)`, equals `i * width + j`, the index the colour maps use |
| Grid.UnflatFlat | Assets/Scripts/MapGenerator.cs:66 | the row and column can be recovered from a cell's flat index, so distinct cells get distinct slots |
| Grid.FlatUnflat | Assets/Scripts/MapGenerator.cs:66 | every flat index is the index of exactly one cell, whose column is below the width |
| Grid.RowColAreDivMod | Assets/Scripts/MapGenerator.cs:66 | the row and column of flat index `v` are `v / width` and `v % width` |
| Grid.FlatInRange | Assets/Scripts/MapGenerator.cs:35-37 | every cell's flat index lies inside arrays of length `width * height` |
| Climate.PrecipitationBand | Assets/Scripts/MapGenerator.cs:54-61 | each band holds exactly when the value lies in its half-open interval: below 0.5, [0.5, 0.66), [0.66, 0.80), from 0.80 on |
| Climate.TemperatureBand | Assets/Scripts/MapGenerator.cs:78-85 | each band holds exactly when the heat lies in its interval: below 0.1, [0.1, 0.66), [0.66, 0.90), from 0.90 on |
| Climate.PrecipitationBandCountsThresholds | Assets/Scripts/MapGenerator.cs:54-61 | the first-match chain agrees with an order-independent definition: the band ordinal is the number of thresholds reached |
| Climate.TemperatureBandCountsThresholds | Assets/Scripts/MapGenerator.cs:78-85 | the same agreement for the heat thresholds |
| Climate.PrecipitationBandMonotone | Assets/Scripts/MapGenerator.cs:54-61 | a larger precipitation never gives a wetter band |
| Climate.TemperatureBandMonotone | Assets/Scripts/MapGenerator.cs:78-85 | a larger heat never gives a colder band |
| Climate.MoistureBandOf | Assets/Scripts/MapGenerator.cs:63-77 | reading a band back from a moisture colour is sound |
| Climate.MoistureColorRoundTrip | Assets/Scripts/MapGenerator.cs:63-77 | the moisture switch is injective: red, yellow, blue and cyan read back as dryest, dry, wet and wettest |
| Climate.HeatBandOf | Assets/Scripts/MapGenerator.cs:88-102 | reading a band back from a heat colour is sound |
| Climate.HeatColorRoundTrip | Assets/Scripts/MapGenerator.cs:88-102 | the heat switch is injective: white, green, yellow and red read back as coldest, cold, hot and hottest |
| Climate.MoistureColor | Assets/Scripts/MapGenerator.cs:63-77 | the moisture switch: red exactly for dryest, yellow exactly for dry, blue exactly for wet, cyan exactly for wettest |
| Climate.HeatColor | Assets/Scripts/MapGenerator.cs:88-102 | the heat switch: white exactly for coldest, green exactly for cold, yellow exactly for hot, red exactly for hottest |
| Climate.LatitudeFactor | Assets/Scripts/MapGenerator.cs:48 | the latitude term, with integer `mapHeight / 2`, is at most 1, and exactly 1 on row `mapHeight / 2` |
| Climate.RawHeat | Assets/Scripts/MapGenerator.cs:48 | the heat before clamping never exceeds the latitude term, and so never exceeds 1 |
| Climate.CellHeat | Assets/Scripts/MapGenerator.cs:48-50 | the stored heat lies in [0, 1] for any row and precipitation, and equals the raw heat whenever that is not negative |
| Climate.ClampHeat | Assets/Scripts/MapGenerator.cs:49-50 | the clamped heat is at least 0; a heat already at least 0 is unchanged; a negative heat becomes 0 |
| Climate.EvenPowerNonNegative | Assets/Scripts/MapGenerator.cs:48 | the tenth power of the precipitation is never negative |
| Climate.LatitudeFactorInUnitInterval | Assets/Scripts/MapGenerator.cs:48 | on every row of the map the latitude term, computed with integer `mapHeight / 2`, lies in [0, 1] |
| Climate.CellHeatInUnitInterval | Assets/Scripts/MapGenerator.cs:48-50 | the stored heat lies in [0, 1] although only the lower clamp is written |
| Climate.LatitudeAtEdges | Assets/Scripts/MapGenerator.cs:48 | for every row count: an even map gives 0 on row 0 and `2/mapHeight` on the last row; an odd map gives `1/mapHeight` on both edge rows |
| Climate.EvenHeightProfileIsLopsided | Assets/Scripts/MapGenerator.cs:48 | in a 10-row map the profile is 1 at row 5, 0 at row 0 and 0.2 at row 9 |
| Climate.MidlineHeat | Assets/Scripts/MapGenerator.cs:48-50 | a dry cell on the middle row of a 10-row map has heat 1 and is hottest |
| Climate.EdgeHeat | Assets/Scripts/MapGenerator.cs:48-50 | a cell with precipitation 0.9 on row 0 of a 10-row map has negative raw heat, is clamped to 0 and is coldest |
| Biomes.FirstMatch | Assets/Scripts/MapGenerator.cs:116-122 | a found index is in range, is not the water index, and matches both bands |
| Biomes.FirstMatchIsLowest | Assets/Scripts/MapGenerator.cs:116-122 | no earlier non-water entry matches a found index, and nothing in range matches when none is found |
| Biomes.ScanSpec | Assets/Scripts/MapGenerator.cs:105-124 | the scan fails exactly on a one-entry table, ends at water exactly when the cell is no higher than `biomes[1].height`, and a match is an above-water, non-water entry in range whose bands are the cell's |
| Biomes.ScanBiomes | Assets/Scripts/MapGenerator.cs:105-124 | the loop with its two `break`s ends as the scan outcome: empty table, failure on a one-entry table, water, lowest match, or no match |
| Biomes.WaterOverridesBands | Assets/Scripts/MapGenerator.cs:107-115 | a cell no higher than `biomes[1].height` is water whatever its bands |
| Biomes.MatchedIsLowestMatch | Assets/Scripts/MapGenerator.cs:116-122 | a cell gets entry `k` if and only if it is above water and `k` is the lowest non-water index matching both bands |
| Biomes.UnmatchedMeansNoEntryMatches | Assets/Scripts/MapGenerator.cs:105-124 | a cell keeps its colour if and only if the table is empty, or the cell is above water and no non-water entry matches |
| Biomes.OutOfRangeOnlyForOneEntry | Assets/Scripts/MapGenerator.cs:105-107 | reading `biomes[1]` fails if and only if the table has exactly one entry |
| Biomes.BiomeColor | Assets/Scripts/MapGenerator.cs:105-124 | water cells get `biomes[1].color`; a cell matched to entry `k` gets `biomes[k].color`; unmatched cells keep the array default, all components 0 |
| MeshGenerator.QuadIndices | Assets/Scripts/MeshGenerator.cs:27-28 | the six indices of a quad are corners `v`, `v+1`, `v+w`, `v+w+1` of that quad, and its two triangles share the diagonal from `v` to `v+w+1` |
| MeshGenerator.TriangleSlots | Assets/Scripts/MeshGenerator.cs:51 | the triangle-buffer length is never negative for a non-empty grid, is 0 exactly for a one-row or one-column grid, and is 6 for the 0×0 grid |
| MeshGenerator.VertexAt | Assets/Scripts/MeshGenerator.cs:11-22 | a vertex lies in the rectangle centred on the origin, `±(w-1)/2` in x and `±(h-1)/2` in z, at the curve's height times the multiplier |
| MeshGenerator.UvAt | Assets/Scripts/MeshGenerator.cs:23 | the texture coordinates are non-negative and, scaled by the grid size, give back the column and the row |
| MeshGenerator.MeshIsCentred | Assets/Scripts/MeshGenerator.cs:11-22 | mirrored columns have opposite x and mirrored rows opposite z; neighbours are one unit apart |
| MeshGenerator.UvInUnitSquare | Assets/Scripts/MeshGenerator.cs:23 | texture coordinates lie in [0, 1) and, scaled by the grid size, give the cell's column and row |
| MeshGenerator.QuadAtOffset | Assets/Scripts/MeshGenerator.cs:27-28 | quad (row, col) occupies slots `(row*(w-1)+col)*6` to `+5` with indices `v, v+w+1, v+w, v+w+1, v, v+1` |
| MeshGenerator.TriangleInRange | Assets/Scripts/MeshGenerator.cs:25-28 | every slot of the triangle buffer holds a vertex index in `[0, w*h)` |
| MeshGenerator.QuadWindingAgrees | Assets/Scripts/MeshGenerator.cs:27-28 | both triangles of every quad are non-degenerate and wound the same way |
| MeshGenerator.QuadsBeforeStep | Assets/Scripts/MeshGenerator.cs:25 | visiting a cell emits a quad exactly when it is on neither the last row nor the last column |
| MeshGenerator.QuadsBeforeBound | Assets/Scripts/MeshGenerator.cs:25-29 | the cursor never passes the buffer end, a cell with a quad to emit has room for six slots, and after the last row the cursor is at `(w-1)*(h-1)*6` |
| MeshGenerator.MeshData.constructor | Assets/Scripts/MeshGenerator.cs:47-52 | fresh buffers of lengths `w*h`, `w*h` and `(w-1)*(h-1)*6`, cursor 0 |
| MeshGenerator.MeshData.AddTriangle | Assets/Scripts/MeshGenerator.cs:54-60 | writes the three indices at the cursor, advances it by 3, leaves every other slot unchanged |
| MeshGenerator.GenerateTerrainMesh | Assets/Scripts/MeshGenerator.cs:7-36 | every vertex, texture coordinate and triangle slot holds its specified value, and the cursor ends exactly at the buffer length |
| MeshGenerator.FillRow | Assets/Scripts/MeshGenerator.cs:20-32 | one inner loop extends the filled prefix from row `i` to row `i + 1` |
| MeshGenerator.VisitCell | Assets/Scripts/MeshGenerator.cs:22-31 | one loop body places a vertex and a texture coordinate and emits the cell's quad when it has one |
| MeshGenerator.EmitQuad | Assets/Scripts/MeshGenerator.cs:25-29 | the two `addTriangle` calls fill the quad's six slots with their specified indices |
| MapGeneration.NoiseAtCell | Assets/Scripts/MapGenerator.cs:44-48 | the colour-map slot `i * mapWidth + j` describes the height sample `noiseMap[j, i]`, with the heat of row `i` |
| MapGeneration.HeatAtInUnitInterval | Assets/Scripts/MapGenerator.cs:48-102 | every cell's heat lies in [0, 1], and its heat colour reads back as its band |
| MapGeneration.WaterCellIsWaterColored | Assets/Scripts/MapGenerator.cs:107-110 | a cell no higher than the water entry is coloured `biomes[1].color` |
| MapGeneration.StoreClimate | Assets/Scripts/MapGenerator.cs:47-50 | precipitation is the height sample; heat is the raw heat with negative values raised to 0 |
| MapGeneration.StoreBandColors | Assets/Scripts/MapGenerator.cs:63-102 | the two switches write the band colours of the cell |
| MapGeneration.StoreBiome | Assets/Scripts/MapGenerator.cs:105-124 | the scan writes the chosen colour, or nothing, and fails exactly for a one-entry table |
| MapGeneration.ClassifyCell | Assets/Scripts/MapGenerator.cs:44-124 | one inner-loop body extends every map by one cell, and fails exactly for a one-entry table |
| MapGeneration.ClassifyRow | Assets/Scripts/MapGenerator.cs:43-125 | one inner loop fills row `i` of every map |
| MapGeneration.ClassifyMap | Assets/Scripts/MapGenerator.cs:41-126 | the outer loop fills every map, and fails exactly when the table has one entry and the map is not empty |
| MapGeneration.MapGenerator.GenerateMap | Assets/Scripts/MapGenerator.cs:32-126 | all five maps are fresh and sized `mapWidth × mapHeight`; every cell holds its precipitation, heat, moisture colour, heat colour and biome colour |
| MapGeneration.MapGenerator.OnValidate | Assets/Scripts/MapGenerator.cs:140-158 | width and height become at least 1, lacunarity at least 1, octaves at least 0; fields already in range are unchanged |
| MapGeneration.AtLeast | Assets/Scripts/MapGenerator.cs:142-149 | the clamp result is at least the bound, equals the input when that is in range, and equals the bound otherwise |
| MapGeneration.AtLeastReal | Assets/Scripts/MapGenerator.cs:150-153 | the same for the real-valued lacunarity |

## Left out

- **The noise map.** `Noise.GenerateNoiseMap` is not part of this model. `GenerateMap` takes the height grid as a parameter whose dimensions are `mapWidth × mapHeight`.
- **The fields that only feed the noise function or the display.** These are `noiseScale`, `persistance`, `seed`, `offset`, `heightMultiplier`, `heightCurve`, `drawMode`, `autoUpdate` and `isInfinite`. `octaves` and `lacunarity` are kept only as far as `OnValidate` clamps them.
- **Display.** The `DrawMode` dispatch, `MapDisplay`, `FindObjectOfType` and `TextureGenerator` are Unity display calls. They come after the pass and are not modelled.
- **`MeshData.CreateMesh`.** It builds a Unity `Mesh` and recomputes its normals. That is engine code and is not modelled.
- **The height curve.** `AnimationCurve.Evaluate` is an arbitrary function parameter `heightCurve: real -> real`.
- **Unity value types.** `Vector3`, `Vector2` and `Color` are plain records. The predefined colours are distinct constructors whose component values are not modelled. Configured biome colours are `Rgba` values. A fresh colour array holds `Rgba(0, 0, 0, 0)`.
- **Floating point.** Heights, heat and texture coordinates are exact reals. `Mathf.Pow(p, 10f)` is the exact tenth power, and the thresholds 0.66, 0.80 and 0.90 are exact decimals. Single-precision rounding at the thresholds is not modelled.
- **Integer width.** `int` is unbounded. The 32-bit overflow for huge grids is not modelled: in the mesh builder, of `meshWidth * meshHeight` and of the triangle count; in the map pass, of `mapWidth * mapHeight` (`Assets/Scripts/MapGenerator.cs:35-37`) and of the colour-map index `i * mapWidth + j` (lines 66-120).
- MeshGenerator.MeshData.constructor: requires both dimensions to be at least 1. With one dimension 0 and the other at least 2, the source's triangle-array size is negative and the allocation throws. The source also accepts the 0×0, 0×1 and 1×0 grids without throwing; these are excluded too. For the 0×0 grid the source allocates 6 triangle slots that no cell fills, so its cursor ends at 0 rather than at the buffer length (`MeshGenerator.TriangleSlots` states the 6). `OnValidate` keeps both dimensions at least 1.
- MeshGenerator.GenerateTerrainMesh: requires a non-empty height map, for the reason above.
- MeshGenerator.MeshData.AddTriangle: requires room for three indices. The source throws `IndexOutOfRangeException` when the buffer is full. `GenerateTerrainMesh` is proved never to reach that case.
- MeshGenerator.GenerateTerrainMesh: states the final content of every slot. It does not count the writes to show that each slot is written exactly once.
- MapGeneration.MapGenerator.GenerateMap: models the exception raised for a one-entry biome table as the result `ok == false`. The pass stops at the first cell, as the exception does. Nothing is stated about the partly written maps.
