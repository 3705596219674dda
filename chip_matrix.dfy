/**
 * The chip-matrix state: the chip grid, the current selection and the
 * per-chip tween map, each held in its own mutable reference in the source
 * and modelled here as a field of one object.
 */
module ChipMatrix {
  import opened Wrappers
  import opened Vectors
  import opened Matrix
  import opened Config
  import opened Chips
  import opened RandomSource
  import opened ChipGenerator
  import opened ChipRender

  /** The draw calls the render loop issues for one chip are those of the draw list. */
  lemma CellRectsAt(cfg: ChipConfig, chip: Chip, row: int, column: int, selected: Option<Vec2>,
                    tweens: map<int, ChipTween>, x: int, y: int, isSelected: bool)
    requires x == column * Pitch(cfg) + OffsetOf(tweens, chip.id).x
    requires y == row * Pitch(cfg) + OffsetOf(tweens, chip.id).y
    requires isSelected == IsSelfSelected(selected, row, column)
    ensures RenderChip(cfg, x, y, chip.color, isSelected) == CellRects(cfg, chip, row, column, selected, tweens)
  {
  }

  class ChipMatrixState {
    const config: ChipConfig
    var matrix: seq<seq<Chip>>
    var selected: Option<Vec2>
    var tweenMap: map<int, ChipTween>

    /**
     * The grid has the configured shape and holds palette chips with pairwise
     * distinct ids. The selection is deliberately unconstrained: a click past
     * the grid can select a cell outside it.
     */
    ghost predicate Valid()
      reads this
    {
      Config.Valid(config) &&
      IsGrid(matrix, config.rowCount, config.columnCount) &&
      AllPaletteChips(matrix) && DistinctIds(matrix)
    }

    /**
     * `makeChipMatrixState`: generate a fresh grid and start with no
     * selection and no tweens.
     */
    constructor (config: ChipConfig, random: Random, manager: ChipManager)
      requires Config.Valid(config)
      modifies random, manager
      ensures this.config == config && selected == None && tweenMap == map[]
      ensures matrix == GenerateSpec(config, random.source, old(random.cursor), old(manager.nextChipId))
      ensures random.cursor == old(random.cursor) + GenerateDraws(config, random.source, old(random.cursor), old(manager.nextChipId))
      ensures manager.nextChipId == old(manager.nextChipId) + GenerateDraws(config, random.source, old(random.cursor), old(manager.nextChipId))
      ensures Valid()
    {
      var chipMatrix := GenerateChipMatrix(config, random, manager);
      this.config := config;
      selected := None;
      matrix := chipMatrix;
      tweenMap := map[];
    }

    /**
     * `renderChipMatrix`: visit the chips row by row, left to right, and
     * issue the draw calls of each, moved by its tween offset and
     * highlighted when it is the selected one. Nothing is modified.
     */
    method RenderChipMatrix() returns (draws: seq<Rect>)
      ensures draws == DrawList(config, matrix, selected, tweenMap)
    {
      var m, sel, tweens := matrix, selected, tweenMap;
      var pitch := config.size + config.gap;
      assert pitch == Pitch(config);
      draws := [];
      var row := 0;
      while row < |m|
        invariant 0 <= row <= |m|
        invariant draws == MatrixRects(config, m, row, sel, tweens)
      {
        var chipRow := m[row];
        var rowDraws := [];
        var column := 0;
        while column < |chipRow|
          invariant 0 <= column <= |chipRow|
          invariant rowDraws == RowRects(config, m, row, column, sel, tweens)
        {
          var chip := chipRow[column];
          var isSelfSelected := match sel
            case Some(pos) => pos.x == column && pos.y == row
            case None => false;
          var offset := if chip.id in tweens then tweens[chip.id].offset else EmptyVec2;
          var x, y := column * pitch + offset.x, row * pitch + offset.y;
          var rects := RenderChip(config, x, y, chip.color, isSelfSelected);
          CellRectsAt(config, m[row][column], row, column, sel, tweens, x, y, isSelfSelected);
          assert RowRects(config, m, row, column + 1, sel, tweens) == rowDraws + rects;
          rowDraws := rowDraws + rects;
          column := column + 1;
        }
        draws := draws + rowDraws;
        row := row + 1;
      }
    }
  }
}
