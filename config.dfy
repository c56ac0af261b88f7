/**
 * The fixed configuration values of the label updater (core/config.py):
 * the four zoning tags and the displacement multiplier. The log directory,
 * the time-stamped log file name and the layer/entity filters are not part
 * of this model.
 */
module Config {

  /** Multiplier of the text height for the displaced half of a split label. */
  const DisplacementFactor: real := 1.5

  /** Whether the drawing is left unmodified (simulation mode). */
  const DryRun: bool := false

  /** The zoning vocabulary: Residential, Commercial, Terrain, Terrain-Commercial. */
  datatype ZoningType = Residential | Commercial | Terrain | TerrainCommercial
  {
    /** The canonical tag written after the numeric prefix of a label. */
    function Tag(): string
    {
      match this
      case Residential => "R"
      case Commercial => "C"
      case Terrain => "T"
      case TerrainCommercial => "TC"
    }

    /** Terrain labels always get the prefix "1"; the others keep theirs. */
    predicate IsTerrain()
    {
      this == Terrain || this == TerrainCommercial
    }
  }

  /** Every tag is one or two upper-case letters. */
  lemma TagShape(kind: ZoningType)
    ensures 1 <= |kind.Tag()| <= 2
    ensures forall i :: 0 <= i < |kind.Tag()| ==> 'A' <= kind.Tag()[i] <= 'Z'
  {
  }
}
