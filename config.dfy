/** The chip configuration record: size and gap in pixels, grid dimensions. */
module Config {

  datatype ChipConfig = ChipConfig(
    size: int,
    gap: int,
    backgroundColor: string,
    columnCount: int,
    rowCount: int)

  /** The configurations the engine is built for: positive chip size, no negative gap, at least one cell. */
  predicate Valid(cfg: ChipConfig) {
    cfg.size > 0 && cfg.gap >= 0 && cfg.rowCount >= 1 && cfg.columnCount >= 1
  }

  /** Distance between the left (or top) edges of two neighbouring chips. */
  function Pitch(cfg: ChipConfig): int {
    cfg.size + cfg.gap
  }

  /** The number of chips in a grid of this configuration. */
  function CellCount(cfg: ChipConfig): nat
    requires Valid(cfg)
  {
    cfg.rowCount * cfg.columnCount
  }
}
