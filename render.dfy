/**
 * The render pass of the chip matrix: every chip becomes one `fillRect`
 * call, or two when it is the selected chip. Draw calls are modelled as
 * `Rect` records collected in a row-major draw list.
 */
module ChipRender {
  import opened Wrappers
  import opened Vectors
  import opened Matrix
  import opened Config
  import opened Chips

  /** One `fillRect(x, y, width, height, color)` call. */
  datatype Rect = Rect(x: int, y: int, width: int, height: int, color: string)

  /** The per-chip animation record; only its offset is ever read. */
  datatype ChipTween = ChipTween(offset: Vec2)

  const Highlight: string := "yellow"

  /**
   * `renderChip`: a selected chip is a yellow square 2 pixels larger on every
   * side with the chip's colour 2 pixels smaller on every side drawn over it;
   * any other chip is one square of the chip's size. Every rectangle is
   * centred on the chip's own square.
   */
  function RenderChip(cfg: ChipConfig, x: int, y: int, color: string, isSelected: bool): (rects: seq<Rect>)
    ensures |rects| == if isSelected then 2 else 1
    ensures rects[|rects| - 1].color == color
    ensures isSelected ==>
      rects[0].color == Highlight &&
      rects[0].width == cfg.size + 4 && rects[0].height == cfg.size + 4 &&
      rects[1].width == cfg.size - 4 && rects[1].height == cfg.size - 4
    ensures !isSelected ==> rects[0].width == cfg.size && rects[0].height == cfg.size
    ensures forall i :: 0 <= i < |rects| ==>
      2 * rects[i].x + rects[i].width == 2 * x + cfg.size &&
      2 * rects[i].y + rects[i].height == 2 * y + cfg.size
  {
    if isSelected then
      [Rect(x - 2, y - 2, cfg.size + 4, cfg.size + 4, Highlight),
       Rect(x + 2, y + 2, cfg.size - 4, cfg.size - 4, color)]
    else
      [Rect(x, y, cfg.size, cfg.size, color)]
  }

  /** The yellow frame of a selected chip encloses the chip's inner square with a 4-pixel margin. */
  lemma HighlightEnclosesChip(cfg: ChipConfig, x: int, y: int, color: string)
    requires Valid(cfg)
    ensures var rects := RenderChip(cfg, x, y, color, true);
      rects[0].x + 4 == rects[1].x && rects[1].x + rects[1].width + 4 == rects[0].x + rects[0].width &&
      rects[0].y + 4 == rects[1].y && rects[1].y + rects[1].height + 4 == rects[0].y + rects[0].height
  {
  }

  /** The tween offset of a chip, or (0, 0) when the tween map has no entry for its id. */
  function OffsetOf(tweens: map<int, ChipTween>, id: int): Vec2
  {
    if id in tweens then tweens[id].offset else EmptyVec2
  }

  /** The cell (column, row) is the selected one. */
  predicate IsSelfSelected(selected: Option<Vec2>, row: int, column: int)
  {
    selected.Some? && selected.value.x == column && selected.value.y == row
  }

  /** The draw calls of the chip at (row, column), moved by its tween offset. */
  function CellRects(cfg: ChipConfig, chip: Chip, row: int, column: int, selected: Option<Vec2>,
                     tweens: map<int, ChipTween>): seq<Rect>
  {
    var offset := OffsetOf(tweens, chip.id);
    RenderChip(cfg, column * Pitch(cfg) + offset.x, row * Pitch(cfg) + offset.y, chip.color,
               IsSelfSelected(selected, row, column))
  }

  /** The draw calls of the first `n` chips of row `row`, left to right. */
  function RowRects(cfg: ChipConfig, m: seq<seq<Chip>>, row: nat, n: nat, selected: Option<Vec2>,
                    tweens: map<int, ChipTween>): seq<Rect>
    requires row < |m| && n <= |m[row]|
  {
    if n == 0 then []
    else RowRects(cfg, m, row, n - 1, selected, tweens) + CellRects(cfg, m[row][n - 1], row, n - 1, selected, tweens)
  }

  /** The draw calls of the first `n` rows, top to bottom. */
  function MatrixRects(cfg: ChipConfig, m: seq<seq<Chip>>, n: nat, selected: Option<Vec2>,
                       tweens: map<int, ChipTween>): seq<Rect>
    requires n <= |m|
  {
    if n == 0 then []
    else MatrixRects(cfg, m, n - 1, selected, tweens) + RowRects(cfg, m, n - 1, |m[n - 1]|, selected, tweens)
  }

  /** The draw list of one `renderChipMatrix` frame. */
  function DrawList(cfg: ChipConfig, m: seq<seq<Chip>>, selected: Option<Vec2>, tweens: map<int, ChipTween>): seq<Rect>
  {
    MatrixRects(cfg, m, |m|, selected, tweens)
  }

  /** The selection names a cell of the grid. */
  predicate SelectionInGrid<T>(m: seq<seq<T>>, selected: Option<Vec2>)
  {
    selected.Some? && InBounds(m, selected.value)
  }

  // ---------------------------------------------------------------------------
  // Length of the draw list
  // ---------------------------------------------------------------------------

  lemma {:induction false} RowRectsLength(cfg: ChipConfig, m: seq<seq<Chip>>, row: nat, n: nat,
                                          selected: Option<Vec2>, tweens: map<int, ChipTween>)
    requires row < |m| && n <= |m[row]|
    ensures |RowRects(cfg, m, row, n, selected, tweens)| ==
      n + if selected.Some? && selected.value.y == row && 0 <= selected.value.x < n then 1 else 0
    decreases n
  {
    if n > 0 {
      RowRectsLength(cfg, m, row, n - 1, selected, tweens);
    }
  }

  lemma {:induction false} MatrixRectsLength(cfg: ChipConfig, m: seq<seq<Chip>>, columns: nat, n: nat,
                                             selected: Option<Vec2>, tweens: map<int, ChipTween>)
    requires n <= |m| && forall y :: 0 <= y < |m| ==> |m[y]| == columns
    ensures |MatrixRects(cfg, m, n, selected, tweens)| ==
      n * columns + if selected.Some? && 0 <= selected.value.y < n && 0 <= selected.value.x < columns then 1 else 0
    decreases n
  {
    if n > 0 {
      MatrixRectsLength(cfg, m, columns, n - 1, selected, tweens);
      RowRectsLength(cfg, m, n - 1, |m[n - 1]|, selected, tweens);
      assert n * columns == (n - 1) * columns + columns;
    }
  }

  /**
   * A frame of a `rows` x `columns` grid issues `rows * columns` rectangles,
   * and one more exactly when the selection lies inside the grid.
   */
  lemma DrawListLength(cfg: ChipConfig, m: seq<seq<Chip>>, rows: nat, columns: nat,
                       selected: Option<Vec2>, tweens: map<int, ChipTween>)
    requires IsGrid(m, rows, columns)
    ensures |DrawList(cfg, m, selected, tweens)| == rows * columns + if SelectionInGrid(m, selected) then 1 else 0
  {
    MatrixRectsLength(cfg, m, columns, rows, selected, tweens);
  }

  // ---------------------------------------------------------------------------
  // Highlighting
  // ---------------------------------------------------------------------------

  /** The number of rectangles drawn in `color`. */
  function CountColor(rects: seq<Rect>, color: string): nat
  {
    if |rects| == 0 then 0
    else CountColor(rects[..|rects| - 1], color) + if rects[|rects| - 1].color == color then 1 else 0
  }

  lemma {:induction false} CountColorAppend(a: seq<Rect>, b: seq<Rect>, color: string)
    ensures CountColor(a + b, color) == CountColor(a, color) + CountColor(b, color)
    decreases |b|
  {
    if |b| > 0 {
      assert (a + b)[..|a + b| - 1] == a + b[..|b| - 1];
      CountColorAppend(a, b[..|b| - 1], color);
    } else {
      assert a + b == a;
    }
  }

  lemma {:induction false} CellHighlights(cfg: ChipConfig, chip: Chip, row: int, column: int,
                                          selected: Option<Vec2>, tweens: map<int, ChipTween>)
    requires chip.color != Highlight
    ensures CountColor(CellRects(cfg, chip, row, column, selected, tweens), Highlight) ==
      if IsSelfSelected(selected, row, column) then 1 else 0
  {
    var rects := CellRects(cfg, chip, row, column, selected, tweens);
    if IsSelfSelected(selected, row, column) {
      assert rects[..1] == [rects[0]] && rects[0].color == Highlight;
      assert CountColor([rects[0]], Highlight) == 1 by {
        assert [rects[0]][..0] == [];
      }
    } else {
      assert rects[..0] == [];
    }
  }

  /** Palette chips are never drawn in the highlight colour. */
  lemma PaletteIsNotHighlight(chip: Chip)
    requires IsPaletteChip(chip)
    ensures chip.color != Highlight
  {
    PaletteIsOneToOne();
    var i :| 0 <= i < |Palette| && Palette[i] == ChipMeta(chip.kind, chip.color);
  }

  lemma {:induction false} RowHighlights(cfg: ChipConfig, m: seq<seq<Chip>>, row: nat, n: nat,
                                         selected: Option<Vec2>, tweens: map<int, ChipTween>)
    requires row < |m| && n <= |m[row]|
    requires forall x :: 0 <= x < |m[row]| ==> m[row][x].color != Highlight
    ensures CountColor(RowRects(cfg, m, row, n, selected, tweens), Highlight) ==
      if selected.Some? && selected.value.y == row && 0 <= selected.value.x < n then 1 else 0
    decreases n
  {
    if n == 0 {
    } else {
      var prefix := RowRects(cfg, m, row, n - 1, selected, tweens);
      var cell := CellRects(cfg, m[row][n - 1], row, n - 1, selected, tweens);
      assert RowRects(cfg, m, row, n, selected, tweens) == prefix + cell;
      RowHighlights(cfg, m, row, n - 1, selected, tweens);
      CellHighlights(cfg, m[row][n - 1], row, n - 1, selected, tweens);
      CountColorAppend(prefix, cell, Highlight);
    }
  }

  lemma {:induction false} MatrixHighlights(cfg: ChipConfig, m: seq<seq<Chip>>, n: nat,
                                            selected: Option<Vec2>, tweens: map<int, ChipTween>)
    requires n <= |m| && AllPaletteChips(m)
    ensures CountColor(MatrixRects(cfg, m, n, selected, tweens), Highlight) ==
      if selected.Some? && 0 <= selected.value.y < n && 0 <= selected.value.x < |m[selected.value.y]| then 1 else 0
    decreases n
  {
    if n > 0 {
      var row := n - 1;
      var before := MatrixRects(cfg, m, row, selected, tweens);
      var line := RowRects(cfg, m, row, |m[row]|, selected, tweens);
      assert MatrixRects(cfg, m, n, selected, tweens) == before + line;
      RowIsNotHighlight(m, row);
      MatrixHighlights(cfg, m, row, selected, tweens);
      RowHighlights(cfg, m, row, |m[row]|, selected, tweens);
      CountColorAppend(before, line, Highlight);
    }
  }

  /** No chip of a row of palette chips is drawn in the highlight colour. */
  lemma {:induction false} RowIsNotHighlight(m: seq<seq<Chip>>, row: nat)
    requires row < |m| && AllPaletteChips(m)
    ensures forall x :: 0 <= x < |m[row]| ==> m[row][x].color != Highlight
  {
    forall x | 0 <= x < |m[row]|
      ensures m[row][x].color != Highlight
    {
      assert InBounds(m, Vec2(x, row));
      PaletteIsNotHighlight(m[row][x]);
    }
  }

  /** A list counts `color` at least as often as in the prefix before `i`, plus once more when entry `i` has it. */
  lemma {:induction false} CountColorAt(s: seq<Rect>, i: nat, color: string)
    requires i < |s|
    ensures CountColor(s, color) >= CountColor(s[..i], color) + if s[i].color == color then 1 else 0
  {
    assert s == s[..i + 1] + s[i + 1..];
    CountColorAppend(s[..i + 1], s[i + 1..], color);
    assert s[..i + 1][..i] == s[..i];
  }

  /** A list with `color` at two different positions counts that colour at least twice. */
  lemma {:induction false} CountColorTwice(s: seq<Rect>, i: nat, j: nat, color: string)
    requires i < j < |s| && s[i].color == color && s[j].color == color
    ensures CountColor(s, color) >= 2
  {
    CountColorAt(s, j, color);
    CountColorAt(s[..j], i, color);
  }

  // ---------------------------------------------------------------------------
  // Layout
  // ---------------------------------------------------------------------------

  /** The draw calls of the first `a` chips of a row begin the draw calls of the first `b >= a`. */
  lemma {:induction false} RowRectsPrefix(cfg: ChipConfig, m: seq<seq<Chip>>, row: nat, a: nat, b: nat,
                                          selected: Option<Vec2>, tweens: map<int, ChipTween>)
    requires row < |m| && a <= b <= |m[row]|
    ensures |RowRects(cfg, m, row, a, selected, tweens)| <= |RowRects(cfg, m, row, b, selected, tweens)|
    ensures RowRects(cfg, m, row, b, selected, tweens)[..|RowRects(cfg, m, row, a, selected, tweens)|] ==
      RowRects(cfg, m, row, a, selected, tweens)
    decreases b
  {
    if a < b {
      RowRectsPrefix(cfg, m, row, a, b - 1, selected, tweens);
      var shorter := RowRects(cfg, m, row, b - 1, selected, tweens);
      var cell := CellRects(cfg, m[row][b - 1], row, b - 1, selected, tweens);
      assert RowRects(cfg, m, row, b, selected, tweens) == shorter + cell;
      var n := |RowRects(cfg, m, row, a, selected, tweens)|;
      assert (shorter + cell)[..n] == shorter[..n];
    }
  }

  /** The draw calls of the first `a` rows begin the draw calls of the first `b >= a`. */
  lemma {:induction false} MatrixRectsPrefix(cfg: ChipConfig, m: seq<seq<Chip>>, a: nat, b: nat,
                                             selected: Option<Vec2>, tweens: map<int, ChipTween>)
    requires a <= b <= |m|
    ensures |MatrixRects(cfg, m, a, selected, tweens)| <= |MatrixRects(cfg, m, b, selected, tweens)|
    ensures MatrixRects(cfg, m, b, selected, tweens)[..|MatrixRects(cfg, m, a, selected, tweens)|] ==
      MatrixRects(cfg, m, a, selected, tweens)
    decreases b
  {
    if a < b {
      MatrixRectsPrefix(cfg, m, a, b - 1, selected, tweens);
      var shorter := MatrixRects(cfg, m, b - 1, selected, tweens);
      var line := RowRects(cfg, m, b - 1, |m[b - 1]|, selected, tweens);
      assert MatrixRects(cfg, m, b, selected, tweens) == shorter + line;
      var n := |MatrixRects(cfg, m, a, selected, tweens)|;
      assert (shorter + line)[..n] == shorter[..n];
    }
  }

  /** Row-major order: (y1, x1) comes before (y2, x2) iff it lies in an earlier row, or further left in the same row. */
  lemma {:induction false} RowMajorLess(y1: int, x1: int, y2: int, x2: int, columns: int)
    requires 0 <= x1 < columns && 0 <= x2 < columns
    ensures y1 * columns + x1 < y2 * columns + x2 <==> y1 < y2 || (y1 == y2 && x1 < x2)
  {
    if y1 < y2 {
      MulMonotone(y1 + 1, y2, columns);
      assert (y1 + 1) * columns == y1 * columns + columns;
    } else if y2 < y1 {
      MulMonotone(y2 + 1, y1, columns);
      assert (y2 + 1) * columns == y2 * columns + columns;
    }
  }

  /** The row-major number of the selected cell in a grid of `columns` columns. */
  function SelectedIndex(selected: Option<Vec2>, columns: int): int
    requires selected.Some?
  {
    selected.value.y * columns + selected.value.x
  }

  /**
   * Where the draw calls of cell (row, column) begin in the draw list: at its
   * row-major number, one entry later when the selected chip, which takes
   * two entries, comes before it.
   */
  function CellStart<T>(m: seq<seq<T>>, columns: int, selected: Option<Vec2>, row: int, column: int): int
  {
    var k := row * columns + column;
    if SelectionInGrid(m, selected) && SelectedIndex(selected, columns) < k then k + 1 else k
  }

  /**
   * Whatever the selection, the draw calls of the chip at (row, column) fill
   * the draw list from `CellStart` on.
   */
  lemma {:induction false} DrawListCellAt(cfg: ChipConfig, m: seq<seq<Chip>>, rows: nat, columns: nat,
                                          selected: Option<Vec2>, tweens: map<int, ChipTween>, row: nat, column: nat)
    requires IsGrid(m, rows, columns) && row < rows && column < columns
    ensures var cell := CellRects(cfg, m[row][column], row, column, selected, tweens);
      var k := CellStart(m, columns, selected, row, column);
      0 <= k && k + |cell| <= |DrawList(cfg, m, selected, tweens)| &&
      DrawList(cfg, m, selected, tweens)[k..k + |cell|] == cell
  {
    var before := MatrixRects(cfg, m, row, selected, tweens);
    var line := RowRects(cfg, m, row, |m[row]|, selected, tweens);
    var left := RowRects(cfg, m, row, column, selected, tweens);
    var cell := CellRects(cfg, m[row][column], row, column, selected, tweens);
    var list := DrawList(cfg, m, selected, tweens);
    MatrixRectsLength(cfg, m, columns, row, selected, tweens);
    RowRectsLength(cfg, m, row, column, selected, tweens);
    RowRectsSplit(cfg, m, row, column, selected, tweens);
    MatrixRectsSplit(cfg, m, row, selected, tweens);
    CellStartSplit(m, rows, columns, selected, row, column, |before|, |left|);
    NestedSlice(list, before, line, left, cell);
  }

  /** A row's draw calls begin with those left of the cell followed by the cell's own. */
  lemma {:induction false} RowRectsSplit(cfg: ChipConfig, m: seq<seq<Chip>>, row: nat, column: nat,
                                         selected: Option<Vec2>, tweens: map<int, ChipTween>)
    requires row < |m| && column < |m[row]|
    ensures var left := RowRects(cfg, m, row, column, selected, tweens);
      var cell := CellRects(cfg, m[row][column], row, column, selected, tweens);
      var line := RowRects(cfg, m, row, |m[row]|, selected, tweens);
      |left| + |cell| <= |line| && line[..|left| + |cell|] == left + cell
  {
    assert RowRects(cfg, m, row, column + 1, selected, tweens) ==
      RowRects(cfg, m, row, column, selected, tweens) + CellRects(cfg, m[row][column], row, column, selected, tweens);
    RowRectsPrefix(cfg, m, row, column + 1, |m[row]|, selected, tweens);
  }

  /** A frame's draw list begins with the draw calls of the rows above a row followed by that row's own. */
  lemma {:induction false} MatrixRectsSplit(cfg: ChipConfig, m: seq<seq<Chip>>, row: nat,
                                            selected: Option<Vec2>, tweens: map<int, ChipTween>)
    requires row < |m|
    ensures var before := MatrixRects(cfg, m, row, selected, tweens);
      var line := RowRects(cfg, m, row, |m[row]|, selected, tweens);
      var list := DrawList(cfg, m, selected, tweens);
      |before| + |line| <= |list| && list[..|before| + |line|] == before + line
  {
    assert MatrixRects(cfg, m, row + 1, selected, tweens) ==
      MatrixRects(cfg, m, row, selected, tweens) + RowRects(cfg, m, row, |m[row]|, selected, tweens);
    MatrixRectsPrefix(cfg, m, row + 1, |m|, selected, tweens);
  }

  /** `CellStart` is the number of draw calls of the rows above plus those left of the cell in its own row. */
  lemma {:induction false} CellStartSplit<T>(m: seq<seq<T>>, rows: nat, columns: nat, selected: Option<Vec2>,
                                            row: nat, column: nat, above: int, left: int)
    requires IsGrid(m, rows, columns) && row < rows && column < columns
    requires above == row * columns + if selected.Some? && 0 <= selected.value.y < row && 0 <= selected.value.x < columns then 1 else 0
    requires left == column + if selected.Some? && selected.value.y == row && 0 <= selected.value.x < column then 1 else 0
    ensures CellStart(m, columns, selected, row, column) == above + left
  {
    if selected.Some? && 0 <= selected.value.x < columns {
      RowMajorLess(selected.value.y, selected.value.x, row, column, columns);
    }
  }

  /** A slice `cell` of a slice `line` of `list`, each known as a prefix extension, is the matching slice of `list`. */
  lemma {:induction false} NestedSlice<T>(list: seq<T>, before: seq<T>, line: seq<T>, left: seq<T>, cell: seq<T>)
    requires |before| + |line| <= |list| && list[..|before| + |line|] == before + line
    requires |left| + |cell| <= |line| && line[..|left| + |cell|] == left + cell
    ensures list[|before| + |left|..|before| + |left| + |cell|] == cell
  {
    var k := |before| + |left|;
    forall i | 0 <= i < |cell|
      ensures list[k + i] == cell[i]
    {
      calc {
        list[k + i];
        (before + line)[k + i];
        line[|left| + i];
        (left + cell)[|left| + i];
      }
    }
  }

  /**
   * Whatever the selection, the chip at (row, column) is drawn from entry
   * `CellStart` on, at `(column * (size + gap), row * (size + gap))` moved by
   * its tween offset: the selected chip as the yellow frame at its own
   * row-major number followed by its inner square, any other chip as one
   * square of the chip's size.
   */
  lemma DrawListLayout(cfg: ChipConfig, m: seq<seq<Chip>>, rows: nat, columns: nat,
                       selected: Option<Vec2>, tweens: map<int, ChipTween>, row: nat, column: nat)
    requires IsGrid(m, rows, columns) && row < rows && column < columns
    ensures var chip := m[row][column];
      var x := column * Pitch(cfg) + OffsetOf(tweens, chip.id).x;
      var y := row * Pitch(cfg) + OffsetOf(tweens, chip.id).y;
      var k := CellStart(m, columns, selected, row, column);
      var list := DrawList(cfg, m, selected, tweens);
      && 0 <= k
      && (IsSelfSelected(selected, row, column) ==>
            k == row * columns + column && k + 1 < |list| &&
            list[k] == Rect(x - 2, y - 2, cfg.size + 4, cfg.size + 4, Highlight) &&
            list[k + 1] == Rect(x + 2, y + 2, cfg.size - 4, cfg.size - 4, chip.color))
      && (!IsSelfSelected(selected, row, column) ==>
            k < |list| && list[k] == Rect(x, y, cfg.size, cfg.size, chip.color))
  {
    DrawListCellAt(cfg, m, rows, columns, selected, tweens, row, column);
    var cell := CellRects(cfg, m[row][column], row, column, selected, tweens);
    var k := CellStart(m, columns, selected, row, column);
    var list := DrawList(cfg, m, selected, tweens);
    assert list[k] == list[k..k + |cell|][0];
    if IsSelfSelected(selected, row, column) {
      assert list[k + 1] == list[k..k + |cell|][1];
    }
  }

  /**
   * The selected chip, when it lies inside the grid, is drawn at its own
   * row-major number as its yellow frame followed by its inner square, both
   * centred on its cell moved by its tween offset.
   */
  lemma SelectedChipRects(cfg: ChipConfig, m: seq<seq<Chip>>, rows: nat, columns: nat,
                          selected: Option<Vec2>, tweens: map<int, ChipTween>)
    requires IsGrid(m, rows, columns) && SelectionInGrid(m, selected)
    ensures var p := selected.value;
      var chip := m[p.y][p.x];
      var offset := OffsetOf(tweens, chip.id);
      var k := SelectedIndex(selected, columns);
      var list := DrawList(cfg, m, selected, tweens);
      k + 1 < |list| &&
      list[k] == Rect(p.x * Pitch(cfg) + offset.x - 2, p.y * Pitch(cfg) + offset.y - 2, cfg.size + 4, cfg.size + 4, Highlight) &&
      list[k + 1] == Rect(p.x * Pitch(cfg) + offset.x + 2, p.y * Pitch(cfg) + offset.y + 2, cfg.size - 4, cfg.size - 4, chip.color)
  {
    DrawListLayout(cfg, m, rows, columns, selected, tweens, selected.value.y, selected.value.x);
  }

  /**
   * Palette chips are never yellow, so a frame contains exactly one yellow
   * rectangle when the selection lies inside the grid and none otherwise,
   * and that rectangle is the entry at the selected cell's row-major number:
   * a chip is highlighted iff it is the selected one.
   */
  lemma DrawListHighlights(cfg: ChipConfig, m: seq<seq<Chip>>, rows: nat, columns: nat,
                           selected: Option<Vec2>, tweens: map<int, ChipTween>)
    requires IsGrid(m, rows, columns) && AllPaletteChips(m)
    ensures CountColor(DrawList(cfg, m, selected, tweens), Highlight) == if SelectionInGrid(m, selected) then 1 else 0
    ensures forall i :: 0 <= i < |DrawList(cfg, m, selected, tweens)| ==>
      (DrawList(cfg, m, selected, tweens)[i].color == Highlight <==>
       SelectionInGrid(m, selected) && i == SelectedIndex(selected, columns))
  {
    var list := DrawList(cfg, m, selected, tweens);
    MatrixHighlights(cfg, m, |m|, selected, tweens);
    if SelectionInGrid(m, selected) {
      SelectedChipRects(cfg, m, rows, columns, selected, tweens);
      OnlyEntryOfColor(list, Highlight, true, SelectedIndex(selected, columns));
    } else {
      OnlyEntryOfColor(list, Highlight, false, 0);
    }
  }

  /**
   * A list that counts `color` once, at entry `j`, has it nowhere else; a
   * list that counts it zero times has it nowhere.
   */
  lemma {:induction false} OnlyEntryOfColor(s: seq<Rect>, color: string, has: bool, j: int)
    requires CountColor(s, color) == if has then 1 else 0
    requires has ==> 0 <= j < |s| && s[j].color == color
    ensures forall i :: 0 <= i < |s| ==> (s[i].color == color <==> has && i == j)
  {
    forall i | 0 <= i < |s| && s[i].color == color
      ensures has && i == j
    {
      CountColorAt(s, i, color);
      if has {
        if i < j {
          CountColorTwice(s, i, j, color);
        } else if j < i {
          CountColorTwice(s, j, i, color);
        }
      }
    }
  }
}
