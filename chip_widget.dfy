/**
 * The older single-file chip widget, whose render pass has no tween map:
 * every chip is drawn exactly at its grid position. Its accessors, chip
 * factory and generator are the same as the ones modelled in `Matrix`,
 * `Chips` and `ChipGenerator`.
 */
module ChipWidget {
  import opened Wrappers
  import opened Vectors
  import opened Matrix
  import opened Config
  import opened Chips
  import opened ChipRender
  import opened ChipMatrix

  /**
   * `renderChipMatrix` without offsets: the same row-major draw list as the
   * tweened render with an empty tween map.
   */
  method RenderChipMatrix(cfg: ChipConfig, matrix: seq<seq<Chip>>, selected: Option<Vec2>) returns (draws: seq<Rect>)
    ensures draws == DrawList(cfg, matrix, selected, map[])
  {
    var pitch := cfg.size + cfg.gap;
    assert pitch == Pitch(cfg);
    draws := [];
    var row := 0;
    while row < |matrix|
      invariant 0 <= row <= |matrix|
      invariant draws == MatrixRects(cfg, matrix, row, selected, map[])
    {
      var chipRow := matrix[row];
      var rowDraws := [];
      var column := 0;
      while column < |chipRow|
        invariant 0 <= column <= |chipRow|
        invariant rowDraws == RowRects(cfg, matrix, row, column, selected, map[])
      {
        var chip := chipRow[column];
        var isSelfSelected := match selected
          case Some(pos) => pos.x == column && pos.y == row
          case None => false;
        var x, y := column * pitch, row * pitch;
        var rects := RenderChip(cfg, x, y, chip.color, isSelfSelected);
        CellRectsAt(cfg, matrix[row][column], row, column, selected, map[], x, y, isSelfSelected);
        assert RowRects(cfg, matrix, row, column + 1, selected, map[]) == rowDraws + rects;
        rowDraws := rowDraws + rects;
        column := column + 1;
      }
      draws := draws + rowDraws;
      row := row + 1;
    }
  }

  /**
   * Without tweens, whatever the selection, the chip at (row, column) is
   * drawn from entry `CellStart` on at `(column * (size + gap), row * (size +
   * gap))`: the selected chip as the yellow frame followed by its inner
   * square, any other chip as one square of the chip's size.
   */
  lemma PlainDrawListLayout(cfg: ChipConfig, m: seq<seq<Chip>>, rows: nat, columns: nat,
                            selected: Option<Vec2>, row: nat, column: nat)
    requires IsGrid(m, rows, columns) && row < rows && column < columns
    ensures var chip := m[row][column];
      var x := column * Pitch(cfg);
      var y := row * Pitch(cfg);
      var k := CellStart(m, columns, selected, row, column);
      var list := DrawList(cfg, m, selected, map[]);
      && 0 <= k
      && (IsSelfSelected(selected, row, column) ==>
            k + 1 < |list| &&
            list[k] == Rect(x - 2, y - 2, cfg.size + 4, cfg.size + 4, Highlight) &&
            list[k + 1] == Rect(x + 2, y + 2, cfg.size - 4, cfg.size - 4, chip.color))
      && (!IsSelfSelected(selected, row, column) ==>
            k < |list| && list[k] == Rect(x, y, cfg.size, cfg.size, chip.color))
  {
    DrawListLayout(cfg, m, rows, columns, selected, map[], row, column);
  }
}
