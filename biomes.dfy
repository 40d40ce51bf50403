/** The biome table and the per-cell table scan of the map generator. */
module Biomes {
  import opened Climate

  /** `TerrainType`: one entry of the configured biome table. */
  datatype TerrainType = TerrainType(
    name: string,
    height: real,
    temperature: Temperature,
    precipitation: Precipitation,
    color: Color)

  /** The table position that is always read as water. */
  const WaterIndex: nat := 1

  /** An entry is chosen for a cell when both of its bands are the cell's. */
  predicate Matches(entry: TerrainType, temperature: Temperature, precipitation: Precipitation) {
    entry.temperature == temperature && entry.precipitation == precipitation
  }

  /** How the scan of the table ends for one cell: at the water entry, at a
      matching entry `k`, by running off the end of the table (the cell keeps
      the colour it had), or by reading past a one-entry table. */
  datatype BiomeScan = Water | Matched(index: nat) | Unmatched | IndexOutOfRange

  /** The lowest index at or after `from`, other than the water index, whose
      entry matches the bands. */
  function FirstMatch(biomes: seq<TerrainType>, temperature: Temperature, precipitation: Precipitation, from: nat)
    : (r: Option<nat>)
    ensures r.Some? ==> from <= r.value < |biomes| && r.value != WaterIndex
    ensures r.Some? ==> Matches(biomes[r.value], temperature, precipitation)
    decreases |biomes| - from
  {
    if from >= |biomes| then None
    else if from != WaterIndex && Matches(biomes[from], temperature, precipitation) then Some(from)
    else FirstMatch(biomes, temperature, precipitation, from + 1)
  }

  /** `FirstMatch` finds the lowest match, and finds nothing only when no
      entry in range matches. */
  lemma {:induction false} FirstMatchIsLowest(
    biomes: seq<TerrainType>, temperature: Temperature, precipitation: Precipitation, from: nat)
    ensures FirstMatch(biomes, temperature, precipitation, from).Some? ==>
      forall k :: from <= k < FirstMatch(biomes, temperature, precipitation, from).value && k != WaterIndex ==>
        !Matches(biomes[k], temperature, precipitation)
    ensures FirstMatch(biomes, temperature, precipitation, from).None? ==>
      forall k :: from <= k < |biomes| && k != WaterIndex ==> !Matches(biomes[k], temperature, precipitation)
    decreases |biomes| - from
  {
    if from < |biomes| && !(from != WaterIndex && Matches(biomes[from], temperature, precipitation)) {
      FirstMatchIsLowest(biomes, temperature, precipitation, from + 1);
    }
  }

  /** What scanning the table does for a cell of height `height` in the given
      bands. The water test reads `biomes[1]` at the first step, so an empty
      table never reads it and a one-entry table always fails there. */
  function ScanSpec(biomes: seq<TerrainType>, height: real, temperature: Temperature, precipitation: Precipitation)
    : (r: BiomeScan)
    ensures r == IndexOutOfRange <==> |biomes| == 1
    ensures r == Water <==> |biomes| > WaterIndex && height <= biomes[WaterIndex].height
    ensures r.Matched? ==>
      |biomes| > WaterIndex && height > biomes[WaterIndex].height && r.index < |biomes| && r.index != WaterIndex &&
      Matches(biomes[r.index], temperature, precipitation)
  {
    if |biomes| == 0 then Unmatched
    else if |biomes| <= WaterIndex then IndexOutOfRange
    else if height <= biomes[WaterIndex].height then Water
    else match FirstMatch(biomes, temperature, precipitation, 0)
      case Some(k) => Matched(k)
      case None => Unmatched
  }

  /** The table scan of one cell, entry by entry as the source loops over
      `biomes`, leaving the loop at the first entry that decides the cell. */
  method ScanBiomes(biomes: seq<TerrainType>, currentHeight: real, temperature: Temperature, precipitation: Precipitation)
    returns (scan: BiomeScan)
    ensures scan == ScanSpec(biomes, currentHeight, temperature, precipitation)
  {
    scan := Unmatched;
    var k := 0;
    while k < |biomes|
      invariant 0 <= k <= |biomes|
      invariant k > 0 ==> |biomes| > WaterIndex && currentHeight > biomes[WaterIndex].height
      invariant FirstMatch(biomes, temperature, precipitation, k) == FirstMatch(biomes, temperature, precipitation, 0)
      invariant scan == Unmatched
    {
      if |biomes| <= WaterIndex {
        // reading biomes[1] raises IndexOutOfRangeException
        scan := IndexOutOfRange;
        return;
      }
      if currentHeight <= biomes[WaterIndex].height {
        scan := Water;
        break;
      } else if k != WaterIndex && biomes[k].temperature == temperature && biomes[k].precipitation == precipitation {
        scan := Matched(k);
        break;
      }
      k := k + 1;
    }
  }

  /** A cell no higher than the water entry is water, whatever its bands. */
  lemma WaterOverridesBands(
    biomes: seq<TerrainType>, height: real, temperature: Temperature, precipitation: Precipitation)
    requires |biomes| > WaterIndex && height <= biomes[WaterIndex].height
    ensures ScanSpec(biomes, height, temperature, precipitation) == Water
  {
  }

  /** A cell is given entry `k` exactly when it is above the water level and
      `k` is the lowest non-water index whose bands are the cell's. */
  lemma {:induction false} MatchedIsLowestMatch(
    biomes: seq<TerrainType>, height: real, temperature: Temperature, precipitation: Precipitation, k: nat)
    ensures ScanSpec(biomes, height, temperature, precipitation) == Matched(k) <==>
      (|biomes| > WaterIndex && height > biomes[WaterIndex].height &&
       k < |biomes| && k != WaterIndex && Matches(biomes[k], temperature, precipitation) &&
       forall k' :: 0 <= k' < k && k' != WaterIndex ==> !Matches(biomes[k'], temperature, precipitation))
  {
    FirstMatchIsLowest(biomes, temperature, precipitation, 0);
    if |biomes| > WaterIndex && height > biomes[WaterIndex].height &&
       k < |biomes| && k != WaterIndex && Matches(biomes[k], temperature, precipitation) &&
       (forall k' :: 0 <= k' < k && k' != WaterIndex ==> !Matches(biomes[k'], temperature, precipitation))
    {
      var r := FirstMatch(biomes, temperature, precipitation, 0);
      assert r.Some?;
      assert !(r.value < k) && !(k < r.value);
    }
  }

  /** A cell keeps its previous colour exactly when the table is empty, or
      the cell is above the water level and no non-water entry matches. */
  lemma {:induction false} UnmatchedMeansNoEntryMatches(
    biomes: seq<TerrainType>, height: real, temperature: Temperature, precipitation: Precipitation)
    ensures ScanSpec(biomes, height, temperature, precipitation) == Unmatched <==>
      (|biomes| == 0 ||
       (|biomes| > WaterIndex && height > biomes[WaterIndex].height &&
        forall k :: 0 <= k < |biomes| && k != WaterIndex ==> !Matches(biomes[k], temperature, precipitation)))
  {
    FirstMatchIsLowest(biomes, temperature, precipitation, 0);
  }

  /** The scan fails exactly on a one-entry table. */
  lemma OutOfRangeOnlyForOneEntry(
    biomes: seq<TerrainType>, height: real, temperature: Temperature, precipitation: Precipitation)
    ensures ScanSpec(biomes, height, temperature, precipitation) == IndexOutOfRange <==> |biomes| == 1
  {
  }

  /** The colour written for a cell whose scan ended as `scan`, given the
      colour `previous` it held before. */
  function ScanColor(biomes: seq<TerrainType>, scan: BiomeScan, previous: Color): Color
    requires scan.Water? ==> |biomes| > WaterIndex
    requires scan.Matched? ==> scan.index < |biomes|
  {
    match scan
    case Water => biomes[WaterIndex].color
    case Matched(k) => biomes[k].color
    case _ => previous
  }

  /** The biome colour of a cell in a freshly allocated colour map. */
  function BiomeColor(biomes: seq<TerrainType>, height: real, temperature: Temperature, precipitation: Precipitation)
    : (c: Color)
    requires |biomes| != 1
    ensures |biomes| > WaterIndex && height <= biomes[WaterIndex].height ==> c == biomes[WaterIndex].color
    ensures forall k: nat :: ScanSpec(biomes, height, temperature, precipitation) == Matched(k) ==>
      k < |biomes| && c == biomes[k].color
    ensures ScanSpec(biomes, height, temperature, precipitation) == Unmatched ==> c == Transparent
  {
    var scan := ScanSpec(biomes, height, temperature, precipitation);
    ScanColor(biomes, scan, Transparent)
  }
}
