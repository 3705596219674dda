/**
 * Pointer input: the hit test that turns a click into a cell position, the
 * adjacency test, and the select / deselect / swap / reselect state machine
 * run on every click.
 */
module Click {
  import opened Wrappers
  import opened Vectors
  import opened Matrix
  import opened Config
  import opened Chips
  import opened ChipMatrix

  // ---------------------------------------------------------------------------
  // Hit test
  // ---------------------------------------------------------------------------

  /** A click, in the same integer coordinate space as the canvas origin. */
  datatype PointerEvent = PointerEvent(x: int, y: int)

  /** JavaScript's `%`: the remainder of division truncated toward zero, which takes the sign of `a`. */
  function JsRemainder(a: int, p: int): (r: int)
    requires p > 0
    ensures -p < r < p
    ensures a >= 0 ==> r >= 0
    ensures a < 0 ==> r <= 0
    ensures (a - r) % p == 0
  {
    if a >= 0 then
      assert a == (a / p) * p + a % p;
      DivMod(a - a % p, p, a / p, 0);
      a % p
    else
      assert -a == ((-a) / p) * p + (-a) % p;
      DivMod(a + (-a) % p, p, -((-a) / p), 0);
      -((-a) % p)
  }

  /** Euclidean division is the unique quotient and remainder with `0 <= r < p`. */
  lemma {:induction false} DivMod(a: int, p: int, q: int, r: int)
    requires p > 0 && a == q * p + r && 0 <= r < p
    ensures a / p == q && a % p == r
  {
    var q0, r0 := a / p, a % p;
    assert (q - q0) * p == r0 - r;
    if q > q0 {
      MulMonotone(1, q - q0, p);
    } else if q < q0 {
      MulMonotone(1, q0 - q, p);
    }
  }

  /** `Math.ceil(a / p)`: the least integer `c` with `a <= c * p`. */
  function CeilDiv(a: int, p: int): (c: int)
    requires p > 0
    ensures (c - 1) * p < a <= c * p
  {
    var q := (-a) / p;
    assert -a == q * p + (-a) % p;
    -q
  }

  /** Along one axis, the offset falls on a chip rather than in the gap after it. */
  predicate AxisHit(cfg: ChipConfig, offset: int)
    requires Valid(cfg)
  {
    JsRemainder(offset, Pitch(cfg)) < cfg.size
  }

  /** Along one axis, the index the source computes: `ceil(offset / (gap + size)) - 1`. */
  function AxisIndex(cfg: ChipConfig, offset: int): int
    requires Valid(cfg)
  {
    CeilDiv(offset, Pitch(cfg)) - 1
  }

  /**
   * `getPointerTarget`: the cell under the pointer, measured from the canvas
   * origin, or none when the pointer is over a gap on either axis. The grid's
   * row and column counts are not consulted.
   */
  function GetPointerTarget(cfg: ChipConfig, event: PointerEvent, origin: Vec2): (r: Option<Vec2>)
    requires Valid(cfg)
    ensures r.Some? ==>
      r.value.x * Pitch(cfg) < event.x - origin.x <= (r.value.x + 1) * Pitch(cfg) &&
      r.value.y * Pitch(cfg) < event.y - origin.y <= (r.value.y + 1) * Pitch(cfg)
  {
    var offsetX := event.x - origin.x;
    var offsetY := event.y - origin.y;
    if AxisHit(cfg, offsetX) && AxisHit(cfg, offsetY) then
      Some(Vec2(AxisIndex(cfg, offsetX), AxisIndex(cfg, offsetY)))
    else
      None
  }

  /**
   * For a pointer at or right of and below the origin, a click misses iff
   * either offset modulo `gap + size` lands in the gap, at or past `size`.
   */
  lemma MissIff(cfg: ChipConfig, event: PointerEvent, origin: Vec2)
    requires Valid(cfg) && event.x >= origin.x && event.y >= origin.y
    ensures GetPointerTarget(cfg, event, origin).None? <==>
      (event.x - origin.x) % Pitch(cfg) >= cfg.size || (event.y - origin.y) % Pitch(cfg) >= cfg.size
  {
  }

  /** Strictly inside a chip the index is the quotient of the offset by `gap + size`. */
  lemma IndexInsideChip(cfg: ChipConfig, offset: int)
    requires Valid(cfg) && offset >= 0 && 0 < offset % Pitch(cfg) < cfg.size
    ensures AxisHit(cfg, offset) && AxisIndex(cfg, offset) == offset / Pitch(cfg)
  {
    var p := Pitch(cfg);
    var c := CeilDiv(offset, p);
    var q, r := offset / p, offset % p;
    assert offset == q * p + r;
    assert q * p < offset by {
      assert offset - q * p == r;
    }
    assert offset < (q + 1) * p;
    if c <= q {
      MulMonotone(c, q, p);
    } else if c > q + 1 {
      MulMonotone(q + 1, c - 1, p);
    }
  }

  /**
   * On the leading edge of a chip (offset a multiple of `gap + size`) the
   * index is that of the chip before it; at offset 0 it is -1.
   */
  lemma IndexAtChipEdge(cfg: ChipConfig, offset: int)
    requires Valid(cfg) && offset >= 0 && offset % Pitch(cfg) == 0
    ensures AxisHit(cfg, offset) && AxisIndex(cfg, offset) == offset / Pitch(cfg) - 1
    ensures offset == 0 ==> AxisIndex(cfg, offset) == -1
  {
    var p := Pitch(cfg);
    var c := CeilDiv(offset, p);
    var q := offset / p;
    assert offset == q * p;
    if c < q {
      MulMonotone(c, q - 1, p);
    } else if c > q {
      MulMonotone(q, c - 1, p);
    }
  }

  /** Left of or above the origin every offset hits, and the index is negative. */
  lemma NegativeOffsetHits(cfg: ChipConfig, offset: int)
    requires Valid(cfg) && offset < 0
    ensures AxisHit(cfg, offset) && AxisIndex(cfg, offset) < 0
  {
  }

  /** Every index from -1 upward is produced by some offset: the one at the end of that chip's pitch. */
  lemma EveryIndexIsReachable(cfg: ChipConfig, k: int)
    requires Valid(cfg) && k >= -1
    ensures AxisHit(cfg, (k + 1) * Pitch(cfg)) && AxisIndex(cfg, (k + 1) * Pitch(cfg)) == k
  {
    var p := Pitch(cfg);
    MulMonotone(0, k + 1, p);
    DivMod((k + 1) * p, p, k + 1, 0);
    IndexAtChipEdge(cfg, (k + 1) * p);
  }

  /** A click one pitch past the last column is a hit on a cell outside every grid of the configured shape. */
  lemma ClickPastGrid<T>(cfg: ChipConfig, m: seq<seq<T>>, origin: Vec2)
    requires Valid(cfg) && IsGrid(m, cfg.rowCount, cfg.columnCount)
    ensures var event := PointerEvent(origin.x + (cfg.columnCount + 1) * Pitch(cfg), origin.y + Pitch(cfg));
      var target := GetPointerTarget(cfg, event, origin);
      target == Some(Vec2(cfg.columnCount, 0)) && !InBounds(m, target.value)
  {
    var p := Pitch(cfg);
    EveryIndexIsReachable(cfg, cfg.columnCount);
    EveryIndexIsReachable(cfg, 0);
    var event := PointerEvent(origin.x + (cfg.columnCount + 1) * p, origin.y + p);
    assert event.x - origin.x == (cfg.columnCount + 1) * p;
    assert event.y - origin.y == (0 + 1) * p;
  }

  // ---------------------------------------------------------------------------
  // Adjacency
  // ---------------------------------------------------------------------------

  function Abs(n: int): nat
  {
    if n < 0 then -n else n
  }

  /** `checkIsSibling`: one axis differs by exactly one and the other not at all. */
  predicate CheckIsSibling(a: Vec2, b: Vec2): (r: bool)
    ensures r <==> Abs(a.x - b.x) + Abs(a.y - b.y) == 1
  {
    var xDistance := Abs(a.x - b.x);
    var yDistance := Abs(a.y - b.y);
    (xDistance == 1 || yDistance == 1) && xDistance + yDistance == 1
  }

  /**
   * Two positions are siblings iff their Manhattan distance is 1, that is,
   * iff one is among the four orthogonal neighbours of the other. The
   * relation is symmetric and irreflexive.
   */
  lemma SiblingIff(a: Vec2, b: Vec2)
    ensures CheckIsSibling(a, b) <==> Abs(a.x - b.x) + Abs(a.y - b.y) == 1
    ensures CheckIsSibling(a, b) <==>
      b in {Vec2(a.x + 1, a.y), Vec2(a.x - 1, a.y), Vec2(a.x, a.y + 1), Vec2(a.x, a.y - 1)}
    ensures CheckIsSibling(a, b) == CheckIsSibling(b, a)
    ensures !CheckIsSibling(a, a)
  {
  }

  // ---------------------------------------------------------------------------
  // Swap
  // ---------------------------------------------------------------------------

  /**
   * The matrix update of a sibling click: the target cell receives the
   * currently selected chip, then the selected cell receives the target's chip.
   */
  function SwapCells<T>(m: seq<seq<T>>, current: Vec2, target: Vec2): (r: seq<seq<T>>)
    requires InBounds(m, current) && InBounds(m, target)
    ensures |r| == |m| && forall y :: 0 <= y < |m| ==> |r[y]| == |m[y]|
    ensures GetItem(r, target) == GetItem(m, current) && GetItem(r, current) == GetItem(m, target)
    ensures forall q :: q != current && q != target ==> GetItem(r, q) == GetItem(m, q)
  {
    var currentChip := GetItem(m, current).value;
    var targetChip := GetItem(m, target).value;
    SetItem(SetItem(m, target, currentChip), current, targetChip)
  }

  /** Swapping the same two cells twice restores the matrix. */
  lemma SwapTwiceRestores<T>(m: seq<seq<T>>, a: Vec2, b: Vec2)
    requires InBounds(m, a) && InBounds(m, b)
    ensures SwapCells(SwapCells(m, a, b), a, b) == m
  {
    var once := SwapCells(m, a, b);
    var twice := SwapCells(once, a, b);
    forall q
      ensures GetItem(twice, q) == GetItem(m, q)
    {
    }
    SameCellsSameMatrix(twice, m);
  }

  /** A swap keeps the grid shape, palette chips and pairwise distinct ids. */
  lemma SwapKeepsValid(m: seq<seq<Chip>>, rows: int, columns: int, a: Vec2, b: Vec2)
    requires InBounds(m, a) && InBounds(m, b)
    requires IsGrid(m, rows, columns) && AllPaletteChips(m) && DistinctIds(m)
    ensures var r := SwapCells(m, a, b);
      IsGrid(r, rows, columns) && AllPaletteChips(r) && DistinctIds(r)
  {
    var r := SwapCells(m, a, b);
    // The cell of `m` whose chip sits at `p` after the swap.
    forall p | InBounds(r, p)
      ensures InBounds(m, Source(a, b, p)) && r[p.y][p.x] == m[Source(a, b, p).y][Source(a, b, p).x]
    {
      assert GetItem(r, p) == GetItem(m, Source(a, b, p));
    }
    forall p, q | InBounds(r, p) && InBounds(r, q) && p != q
      ensures r[p.y][p.x].id != r[q.y][q.x].id
    {
      assert Source(a, b, p) != Source(a, b, q);
    }
    forall p | InBounds(r, p)
      ensures IsPaletteChip(r[p.y][p.x])
    {
      assert InBounds(m, Source(a, b, p));
    }
  }

  /** Where the chip at `p` came from in a swap of `a` and `b`. */
  function Source(a: Vec2, b: Vec2, p: Vec2): Vec2
  {
    if p == a then b else if p == b then a else p
  }

  // ---------------------------------------------------------------------------
  // The click state machine
  // ---------------------------------------------------------------------------

  /** Which branch of the click handler ran. */
  datatype ClickOutcome =
    | Missed         // the pointer was over a gap: nothing happens
    | Selected       // nothing was selected: the target becomes the selection
    | Deselected     // the target is the selection: the selection is cleared
    | Swapped        // the target is a sibling of the selection: the two chips exchange places
    | Reselected     // any other target replaces the selection
    | NoSuchElement  // a sibling click with a cell outside the grid: the lookup fails before any write

  /** The handler's outcome and the state it leaves behind. */
  datatype ClickResult = ClickResult(outcome: ClickOutcome, matrix: seq<seq<Chip>>, selected: Option<Vec2>)

  /**
   * What `handleClickEvent` does with the current matrix and selection for a
   * given hit-test result. Only a swap touches the matrix; a swap exchanges
   * exactly the two cells and clears the selection.
   */
  function ClickStep(matrix: seq<seq<Chip>>, selected: Option<Vec2>, target: Option<Vec2>): (r: ClickResult)
    ensures r.outcome == Missed <==> target.None?
    ensures r.outcome == Selected <==> target.Some? && selected.None?
    ensures r.outcome == Deselected <==> target.Some? && selected == target
    ensures r.outcome == Swapped <==>
      target.Some? && selected.Some? && CheckIsSibling(target.value, selected.value) &&
      InBounds(matrix, target.value) && InBounds(matrix, selected.value)
    ensures r.outcome == NoSuchElement <==>
      target.Some? && selected.Some? && CheckIsSibling(target.value, selected.value) &&
      !(InBounds(matrix, target.value) && InBounds(matrix, selected.value))
    ensures r.outcome != Swapped ==> r.matrix == matrix
    ensures r.outcome in {Missed, NoSuchElement} ==> r.selected == selected
    ensures r.outcome in {Selected, Reselected} ==> r.selected == target
    ensures r.outcome in {Deselected, Swapped} ==> r.selected == None
    ensures r.outcome == Swapped ==>
      var s, t := selected.value, target.value;
      |r.matrix| == |matrix| && (forall y :: 0 <= y < |matrix| ==> |r.matrix[y]| == |matrix[y]|) &&
      GetItem(r.matrix, t) == GetItem(matrix, s) && GetItem(r.matrix, s) == GetItem(matrix, t) &&
      forall q :: q != s && q != t ==> GetItem(r.matrix, q) == GetItem(matrix, q)
  {
    if target.None? then ClickResult(Missed, matrix, selected)
    else if selected.None? then ClickResult(Selected, matrix, target)
    else if target.value == selected.value then ClickResult(Deselected, matrix, None)
    else if CheckIsSibling(target.value, selected.value) then
      if InBounds(matrix, selected.value) && InBounds(matrix, target.value) then
        ClickResult(Swapped, SwapCells(matrix, selected.value, target.value), None)
      else
        ClickResult(NoSuchElement, matrix, selected)
    else ClickResult(Reselected, matrix, target)
  }

  /** Every click keeps the grid shape, palette chips and pairwise distinct ids. */
  lemma ClickKeepsValid(matrix: seq<seq<Chip>>, rows: int, columns: int, selected: Option<Vec2>, target: Option<Vec2>)
    requires IsGrid(matrix, rows, columns) && AllPaletteChips(matrix) && DistinctIds(matrix)
    ensures var r := ClickStep(matrix, selected, target);
      IsGrid(r.matrix, rows, columns) && AllPaletteChips(r.matrix) && DistinctIds(r.matrix)
  {
    var r := ClickStep(matrix, selected, target);
    if r.outcome == Swapped {
      SwapKeepsValid(matrix, rows, columns, selected.value, target.value);
    }
  }

  /**
   * Starting with nothing selected, clicking `a`, its sibling `b`, `a` again
   * and `b` again swaps the two chips and swaps them back: the matrix is
   * restored and nothing is selected.
   */
  lemma {:induction false} SwapBackRestores(matrix: seq<seq<Chip>>, a: Vec2, b: Vec2)
    requires InBounds(matrix, a) && InBounds(matrix, b) && CheckIsSibling(a, b)
    ensures var r1 := ClickStep(matrix, None, Some(a));
      var r2 := ClickStep(r1.matrix, r1.selected, Some(b));
      var r3 := ClickStep(r2.matrix, r2.selected, Some(a));
      var r4 := ClickStep(r3.matrix, r3.selected, Some(b));
      r2.outcome == Swapped && r2.matrix == SwapCells(matrix, a, b) &&
      r4.outcome == Swapped && r4.matrix == matrix && r4.selected == None
  {
    SiblingIff(a, b);
    var swapped := SwapCells(matrix, a, b);
    assert InBounds(swapped, a) && InBounds(swapped, b) by {
      assert GetItem(swapped, a).Some? && GetItem(swapped, b).Some?;
    }
    SwapTwiceRestores(matrix, a, b);
  }

  /**
   * `handleClickEvent`: hit-test the click against the canvas origin, then
   * run the select / deselect / swap / reselect logic on the state. The
   * tween map is never touched.
   */
  method HandleClickEvent(state: ChipMatrixState, event: PointerEvent, origin: Vec2) returns (outcome: ClickOutcome)
    requires Config.Valid(state.config)
    modifies state
    ensures var r := ClickStep(old(state.matrix), old(state.selected), GetPointerTarget(state.config, event, origin));
      outcome == r.outcome && state.matrix == r.matrix && state.selected == r.selected
    ensures state.tweenMap == old(state.tweenMap)
    ensures old(state.Valid()) ==> state.Valid()
  {
    ghost var before := state.matrix;
    var target := GetPointerTarget(state.config, event, origin);
    var current := state.selected;
    if target.None? {
      return Missed;
    }
    if current.None? {
      state.selected := target;
      return Selected;
    }
    var targetPos, currentPos := target.value, current.value;
    if targetPos == currentPos {
      state.selected := None;
      return Deselected;
    }
    if CheckIsSibling(targetPos, currentPos) {
      var matrix := state.matrix;
      var currentChip := GetItem(matrix, currentPos);
      if currentChip.None? {
        return NoSuchElement;
      }
      var targetChip := GetItem(matrix, targetPos);
      if targetChip.None? {
        return NoSuchElement;
      }
      var draft := SetItem(matrix, targetPos, currentChip.value);
      draft := SetItem(draft, currentPos, targetChip.value);
      state.matrix := draft;
      state.selected := None;
      if old(state.Valid()) {
        ClickKeepsValid(before, state.config.rowCount, state.config.columnCount, current, target);
      }
      return Swapped;
    }
    state.selected := Some(targetPos);
    return Reselected;
  }
}
