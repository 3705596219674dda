# Chip matrix engine of a tile-swap puzzle, in Dafny

This project models the core of a browser tile-swap puzzle ("chips" on a
rectangular grid) and proves properties of that model. The core has four parts:

- **Chip identity and palette.** Four chip kinds `a`, `b`, `c`, `d` are drawn in
  black, red, blue and white. Every new chip takes its id from a counter that
  `createChip` increments.
- **Matrix accessors.** `getItem` is a bounds-checked read of `matrix[y][x]`.
  `setItem` writes a single cell.
- **Two-pass generator.** Pass 1 fills every cell with a chip of a random kind.
  Pass 2 reads only the pass-1 matrix. For each cell it looks at the two cells
  above and the two cells to the left. A kind shared by such a pair is
  blacklisted. A cell whose pass-1 kind is blacklisted gets a fresh chip of a
  kind that is not.
- **Input and render.**
  - The pointer hit test turns a click into a cell.
  - The adjacency test and the select / deselect / swap / reselect state
    machine run on each click.
  - The render pass produces a row-major list of `fillRect` calls from grid
    position, selection and per-chip tween offset.

How the model represents the source:

- The matrix, the selection and the tween map are three mutable references in
  the source. Here they are fields of the class `ChipMatrix.ChipMatrixState`.
- The id counter is the class `Chips.ChipManager`.
- The injected random generator is the class `RandomSource.Random`. It reads an
  oracle stream `source: nat -> nat` through a cursor.
- Each method is proved against a function that specifies it: `PureRandomSpec`,
  `CorrectedSpec`, `GenerateSpec`, `DrawList` and `ClickStep`. The properties
  are proved as lemmas about those functions.
- The chip field the source calls `type` is named `kind`, because `type` is a
  Dafny keyword.
- Draw calls are `ChipRender.Rect` records.
- Pointer coordinates are integers.

`src/game/widgets/chip.ts` repeats the accessors, `createChip` and the
generator of `src/game/utils/matrix.ts`, `src/game/widgets/chip/manager.ts` and
`src/game/widgets/chip/matrix.ts` line for line. They are modelled once:

- `Matrix.GetItem` and `Matrix.SetItem` also stand for `chip.ts:26-29`.
- `Chips.ChipManager.CreateChip` also stands for `chip.ts:65-78`.
- `ChipGenerator` also stands for `chip.ts:90-145`.

Only the offset-free render of `chip.ts` gets its own method,
`ChipWidget.RenderChipMatrix`. Its contract is the tweened draw list with an
empty tween map.

Some behaviours of the code a reader might not expect, modelled as written:

- The hit test never compares the cell with the grid size. A click past the
  grid, or left of or above it, yields a cell outside the grid, and that cell
  can become the selection (`Click.ClickPastGrid`, `Click.NegativeOffsetHits`).
- The column and row index is `ceil(offset / (size + gap)) - 1`. A click on the
  leading edge of a chip therefore gets the previous index, and -1 at offset 0
  (`Click.IndexAtChipEdge`).
- A swap writes no tween entries, and the render pass does not sort by z-order.
  Nothing writes the tween map, so it stays empty unless set from outside.
- In the redraw step the index is drawn from the half-open range
  `[0, |allowed| - 1)`, so the last allowed kind is never chosen. At most two
  kinds are blacklisted, so the allowed list always has at least two entries
  and the range is never empty.

## Model

| member | source | states |
|---|---|---|
| Matrix.ArrayGet | src/game/utils/matrix.ts:7 | `Array.get`: the element when the index is inside the sequence, nothing otherwise (negative indices included); its use is stated by `Matrix.GetItem` |
| Matrix.GetItem | src/game/utils/matrix.ts:6-7 | the read succeeds iff 0 <= y < rows and 0 <= x < length of row y (negative indices included), and then yields `matrix[y][x]` |
| Matrix.SetItem | src/game/utils/matrix.ts:9 | afterwards `getItem` at `pos` yields the new item, every other position reads as before, and the row count and every row length are unchanged |
| RandomSource.Draw | src/game/widgets/chip/matrix.ts:44 | a draw with bounds `low`, `high` lies in the half-open range [low, high) |
| RandomSource.DrawReachesEveryValue | src/game/widgets/chip/matrix.ts:44 | every value of [low, high) is produced by some stream value |
| RandomSource.Random.NextIntBetween | src/game/widgets/chip/matrix.ts:82 | returns the stream's next draw in [low, high) and advances the stream by exactly one |
| Chips.PaletteIsOneToOne | src/game/widgets/chip/manager.ts:9-14 | the palette has four entries; their kinds are pairwise distinct and their colours are pairwise distinct, and none is yellow |
| Chips.FindMetaFacts | src/game/widgets/chip/manager.ts:29 | `find` yields an entry iff the list holds one of the requested kind, and then it yields the first entry of that kind |
| Chips.MetaForFacts | src/game/widgets/chip/manager.ts:29 | the entry used is always a palette entry: the one of the requested kind when that kind exists, otherwise the first entry (`a`, black) |
| Chips.FindMeta | src/game/widgets/chip/manager.ts:29 | `Array.find` on the palette: the first entry of the requested kind, if any; its properties are `Chips.FindMetaFacts` |
| Chips.MetaFor | src/game/widgets/chip/manager.ts:29 | the `find` lookup that falls back to `chipMetaList[0]`; its properties are `Chips.MetaForFacts` |
| Chips.NewChip | src/game/widgets/chip/manager.ts:29-35 | the chip record `createChip` builds from an id and a requested kind; its properties are `Chips.NewChipFacts` |
| Chips.NewChipFacts | src/game/widgets/chip/manager.ts:29-35 | a created chip carries the given id and a palette kind with its palette colour, the requested kind whenever it is a palette kind |
| Chips.ChipManager.CreateChip | src/game/widgets/chip/manager.ts:25-38 | returns the chip for the requested kind whose id is the counter before the call, and leaves the counter one higher |
| ChipGenerator.Pass1Chip | src/game/widgets/chip/matrix.ts:43-48 | the pass-1 chip at row-major number k: the palette entry of the k-th draw from [0, 4), created with the k-th id; its properties are `ChipGenerator.PureRandomFacts` |
| ChipGenerator.Pass1Row | src/game/widgets/chip/matrix.ts:42-49 | one row of `columnCount` pass-1 chips; its properties are `ChipGenerator.PureRandomFacts` |
| ChipGenerator.PureRandomSpec | src/game/widgets/chip/matrix.ts:37-53 | the pass-1 matrix: cell (row, column) takes the draw and the id at its row-major number; its properties are `ChipGenerator.PureRandomFacts` |
| ChipGenerator.PureRandomFacts | src/game/widgets/chip/matrix.ts:37-53 | pass 1 yields `rowCount` rows of `columnCount` palette chips; the ids are pairwise distinct and lie in [first id, first id + rows*columns) |
| ChipGenerator.PureRandomChipMatrix | src/game/widgets/chip/matrix.ts:37-53 | the loops build exactly the pass-1 matrix of the stream and counter, in row-major order, and consume one draw and one id per cell |
| ChipGenerator.ItemAt | src/game/widgets/chip/matrix.ts:63 | `s[r]?.[c]`: the cell when its row and column exist, nothing otherwise |
| ChipGenerator.ItemAtIsGetItem | src/game/widgets/chip/matrix.ts:63 | the optional-chaining read yields exactly what `getItem` yields for the same cell |
| ChipGenerator.PairKind | src/game/widgets/chip/matrix.ts:69-75 | `tryAddBlackList`: the shared kind when both cells exist and agree, nothing otherwise; its effect on the blacklist is `ChipGenerator.BlacklistMembers` |
| ChipGenerator.Blacklist | src/game/widgets/chip/matrix.ts:63-75 | the blacklist has at most two entries |
| ChipGenerator.BlacklistMembers | src/game/widgets/chip/matrix.ts:63-75 | a kind is blacklisted iff both pass-1 cells above, or both pass-1 cells to the left, exist and have that kind |
| ChipGenerator.FilterOut | src/game/widgets/chip/matrix.ts:81 | `filter` on the palette: the entries whose kind is not blacklisted, in order; its properties are `ChipGenerator.FilterOutFacts` |
| ChipGenerator.Allowed | src/game/widgets/chip/matrix.ts:81 | the palette entries a redrawn cell may take; their number is `ChipGenerator.AllowedSize` |
| ChipGenerator.FilterOutFacts | src/game/widgets/chip/matrix.ts:81 | the filtered list holds exactly the entries whose kind is not blacklisted, and keeps kinds distinct |
| ChipGenerator.AllowedSize | src/game/widgets/chip/matrix.ts:81 | with at most two kinds blacklisted, at least two palette entries stay allowed |
| ChipGenerator.NeedsRedraw | src/game/widgets/chip/matrix.ts:77 | a cell is redrawn iff its pass-1 kind is blacklisted; which kinds are is `ChipGenerator.BlacklistMembers` |
| ChipGenerator.RedrawnChip | src/game/widgets/chip/matrix.ts:81-85 | the chip a redrawn cell receives: the allowed entry at a draw from [0, allowed count - 1), created with the next id; its properties are `ChipGenerator.RedrawnChipFacts` |
| ChipGenerator.RedrawnChipFacts | src/game/widgets/chip/matrix.ts:81-85 | a redrawn chip has the next id, is a palette chip, has a kind not in the blacklist, and never has the kind of the last allowed entry |
| ChipGenerator.CellChip | src/game/widgets/chip/matrix.ts:62-86 | the pass-2 chip of a cell for a given stream position and id: the pass-1 chip, or the redrawn chip; its properties are `ChipGenerator.CorrectedCellFacts` |
| ChipGenerator.CorrectedCell | src/game/widgets/chip/matrix.ts:62-86 | the pass-2 chip of a cell, at the stream position and id reached after the redraws before it; its properties are `ChipGenerator.CorrectedCellFacts` |
| ChipGenerator.CorrectedSpec | src/game/widgets/chip/matrix.ts:60-61 | pass 2 keeps the row count and every row length of the pass-1 matrix |
| ChipGenerator.CorrectedCellFacts | src/game/widgets/chip/matrix.ts:77-85 | a cell whose kind is not blacklisted keeps its pass-1 chip, id included; any other cell gets the chip redrawn at the stream position and id given by the number of redrawn cells before it in row-major order |
| ChipGenerator.CorrectedAvoidsRuns | src/game/widgets/chip/matrix.ts:63-85 | no output cell has the kind shared by its two pass-1 column predecessors, or the kind shared by its two pass-1 row predecessors |
| ChipGenerator.CorrectedKeepsPalette | src/game/widgets/chip/matrix.ts:77-85 | pass 2 turns palette chips into palette chips |
| ChipGenerator.CorrectedKeepsIdsDistinct | src/game/widgets/chip/matrix.ts:77-85 | if the pass-1 ids are distinct and all below the counter, the output ids are pairwise distinct |
| ChipGenerator.CorrectedFacts | src/game/widgets/chip/matrix.ts:59-89 | pass 2 keeps the grid shape, palette chips and pairwise distinct ids |
| ChipGenerator.GenerateSpec | src/game/widgets/chip/matrix.ts:55-92 | pass 2 applied to pass 1, with the stream and counter where pass 1 leaves them; its properties are `ChipGenerator.GeneratedMatrixFacts` |
| ChipGenerator.GenerateDrawsBounds | src/game/widgets/chip/matrix.ts:37-92 | in total, generation takes between rows*columns and 2*rows*columns draws (and as many ids): one per cell in pass 1, plus one per redrawn cell in pass 2 |
| ChipGenerator.GeneratedMatrixFacts | src/game/widgets/chip/matrix.ts:55-92 | the generated matrix has `rowCount` rows of `columnCount` palette chips with pairwise distinct ids |
| ChipGenerator.CorrectCell | src/game/widgets/chip/matrix.ts:63-85 | one step of pass 2 returns the specified output cell, and leaves the stream and the counter advanced by the number of redrawn cells up to and including this one |
| ChipGenerator.CorrectChipMatrix | src/game/widgets/chip/matrix.ts:60-90 | the loops build exactly the pass-2 matrix, and advance stream and counter by the number of redrawn cells |
| ChipGenerator.GenerateChipMatrix | src/game/widgets/chip/matrix.ts:55-92 | returns pass 2 of pass 1; the result has the configured shape, palette chips and pairwise distinct ids; the stream and the counter both end exactly `GenerateDraws` further on: one per cell plus one per redrawn cell |
| ChipRender.RenderChip | src/game/widgets/chip/matrix.ts:101-113 | a selected chip issues a yellow square of size+4 followed by a square of size-4 in the chip's colour; any other chip issues one square of the chip's size in its colour; all are centred on the chip's square at (x, y) |
| ChipRender.OffsetOf | src/game/widgets/chip/matrix.ts:138-142 | the chip's tween offset, or the default offset, taken to be (0, 0), when the tween map has no entry for its id |
| ChipRender.IsSelfSelected | src/game/widgets/chip/matrix.ts:133-137 | the cell is selected iff a selection exists and equals (column, row) |
| ChipRender.CellRects | src/game/widgets/chip/matrix.ts:133-149 | the draw calls of one chip: `renderChip` at its cell moved by its offset; their shape is the contract of `ChipRender.RenderChip` |
| ChipRender.DrawList | src/game/widgets/chip/matrix.ts:115-152 | the frame's draw calls, row by row and left to right; its properties are `DrawListLength`, `DrawListCellAt`, `DrawListLayout` and `DrawListHighlights` |
| ChipRender.HighlightEnclosesChip | src/game/widgets/chip/matrix.ts:106-108 | the yellow frame encloses the inner square with a 4-pixel margin on every side |
| ChipRender.DrawListLength | src/game/widgets/chip/matrix.ts:115-152 | a frame of a rows x columns grid issues rows*columns rectangles, plus one exactly when the selection lies inside the grid |
| ChipRender.DrawListHighlights | src/game/widgets/chip/matrix.ts:133-148 | a frame has exactly one yellow rectangle when the selection lies inside the grid and none otherwise, and an entry of the draw list is yellow iff the selection is inside the grid and the entry's position is the selected cell's row-major number |
| ChipRender.DrawListCellAt | src/game/widgets/chip/matrix.ts:115-152 | for every selection, the draw calls of the chip at (row, column) occupy the draw list from `CellStart` on: its row-major number, one later when the selected cell comes before it |
| ChipRender.DrawListLayout | src/game/widgets/chip/matrix.ts:133-149 | for every selection, the chip at (row, column) is drawn from `CellStart` on at (column*(size+gap)+offset.x, row*(size+gap)+offset.y), where offset is the chip's tween offset or (0, 0): the selected chip as the yellow frame at its own row-major number followed by its inner square, any other chip as one square of its size |
| ChipRender.SelectedChipRects | src/game/widgets/chip/matrix.ts:133-149 | an in-grid selected chip occupies the entries at its row-major number and the next one, as the yellow frame and then the inner square, placed at its cell moved by its tween offset |
| ChipMatrix.ChipMatrixState.constructor | src/game/widgets/chip/matrix.ts:26-35 | the initial state has no selection, an empty tween map and the generated matrix, which has the configured shape, palette chips and distinct ids; the stream and the counter end exactly `GenerateDraws` further on |
| ChipMatrix.ChipMatrixState.RenderChipMatrix | src/game/widgets/chip/matrix.ts:115-152 | visits the chips row by row and left to right without modifying anything, and issues exactly the frame's draw list |
| ChipWidget.RenderChipMatrix | src/game/widgets/chip.ts:168-199 | the offset-free render issues exactly the tweened draw list with an empty tween map |
| ChipWidget.PlainDrawListLayout | src/game/widgets/chip.ts:186-196 | for every selection, without tweens the chip at (row, column) is drawn from `CellStart` on at (column*(size+gap), row*(size+gap)): the selected chip as frame then inner square, any other chip as one square of its size |
| Click.AxisHit | src/game/click.ts:14-15 | along one axis, the JavaScript remainder of the offset by (size+gap) is below size; which offsets hit is `Click.MissIff` and `Click.NegativeOffsetHits` |
| Click.AxisIndex | src/game/click.ts:17-18 | along one axis, `ceil(offset / (size+gap)) - 1`; its values are `Click.IndexInsideChip`, `Click.IndexAtChipEdge` and `Click.EveryIndexIsReachable` |
| Click.GetPointerTarget | src/game/click.ts:6-23 | a hit names the cell whose interval (index*(size+gap), (index+1)*(size+gap)] contains the offset on each axis; which clicks hit is `Click.MissIff` |
| Click.CheckIsSibling | src/game/click.ts:25-29 | two positions are siblings iff their Manhattan distance is 1 |
| Click.JsRemainder | src/game/click.ts:14-15 | JavaScript's `%` is congruent to the offset modulo the pitch, smaller in magnitude than the pitch, and has the offset's sign |
| Click.CeilDiv | src/game/click.ts:17-18 | `Math.ceil(a / p)` is the least c with a <= c*p |
| Click.MissIff | src/game/click.ts:14-16 | for offsets at or right of and below the origin, a click misses iff either offset modulo (size+gap) is at least size |
| Click.IndexInsideChip | src/game/click.ts:17-18 | strictly inside a chip the index is offset div (size+gap) |
| Click.IndexAtChipEdge | src/game/click.ts:17-18 | on a chip's leading edge the index is offset div (size+gap) - 1, so -1 at offset 0 |
| Click.NegativeOffsetHits | src/game/click.ts:12-18 | left of or above the origin every offset is a hit, with a negative index |
| Click.EveryIndexIsReachable | src/game/click.ts:14-19 | every index from -1 upward is the hit index of some offset |
| Click.ClickPastGrid | src/game/click.ts:14-19 | a click one pitch past the last column hits the cell (columnCount, 0), which lies outside the grid |
| Click.SiblingIff | src/game/click.ts:25-29 | `checkIsSibling` holds iff the Manhattan distance is 1, that is, iff b is one of a's four orthogonal neighbours; it is symmetric and irreflexive |
| Click.SwapCells | src/game/click.ts:59-65 | the target cell gets the selected cell's chip and the selected cell gets the target's; every other cell and the shape are unchanged |
| Click.SwapTwiceRestores | src/game/click.ts:59-65 | swapping the same two cells twice restores the matrix |
| Click.SwapKeepsValid | src/game/click.ts:59-65 | a swap keeps the grid shape, palette chips and pairwise distinct ids |
| Click.ClickStep | src/game/click.ts:31-72 | which branch runs: a miss changes nothing; with no selection the target is selected; the selected cell clears the selection; an in-grid sibling swaps exactly the two chips and clears the selection; a sibling with a cell outside the grid fails with nothing changed; any other target replaces the selection without touching the matrix |
| Click.ClickKeepsValid | src/game/click.ts:31-72 | every click keeps the grid shape, palette chips and pairwise distinct ids |
| Click.SwapBackRestores | src/game/click.ts:42-67 | from no selection, clicking a, its sibling b, then a and b again swaps the chips and swaps them back, leaving the matrix as it was and nothing selected |
| Click.HandleClickEvent | src/game/click.ts:31-72 | updates the matrix and selection exactly as `ClickStep` says for the hit-test result, never touches the tween map, and keeps a valid state valid |

## Left out

- Floating-point pointer coordinates are not modelled. Offsets are integers, so `Math.ceil(offset / pitch)` is exact integer arithmetic here.
- The canvas bounding rectangle is the parameter `origin` of `Click.GetPointerTarget`. Reading it from the DOM is not part of this model.
- The Effect runtime is left out: `Ref`, `Context`, `Effect.all` and the service functions. Refs are object fields, and effects run in the order the source sequences them.
- The seeded generator `Random.make` is replaced by the oracle stream in `RandomSource.Random`. Any stream is allowed, so every property holds for every seed.
- ChipRender.OffsetOf: `emptyVec2` is not defined in `src/game/utils/vec2.ts`, and the render pass passes it to `Option.getOrElse` as a value rather than as a function. The model takes the default offset of a chip without a tween to be (0, 0).
- Tween interpolation over time and z-ordered draw sorting are left out. Neither exists in the code, and nothing in the code writes the tween map.
- `Array.makeBy` with a count below 1 is left out. Configurations are required to have at least one row and one column (`Config.Valid`).
- `setItem` outside the grid is left out. In the source it throws or extends an array. Here it is only called in bounds, which the swap branch checks first.
- After a failed `getOrThrow` in the swap branch, the event-stream failure is outcome `NoSuchElement` with the state unchanged. What the caller's effect runtime then does is not part of this model.
- `setItem` updates the matrix in place in the source, inside immer's `produce`. Here the new matrix is a value assigned back to the field, so aliasing of the matrix array is not modelled.
- The frame loop, React mounting, the event bus and the `handleClickEvent` variant of `src/game/main.ts` are not part of this model. Neither are the FPS, time and theme contexts or the canvas text helpers of `src/game/context/canvas.ts`.
- That n calls of `createChip` yield n strictly increasing, distinct ids is not stated as a separate lemma. It is covered by `ChipGenerator.PureRandomFacts` for pass 1 (one id per cell) and by `ChipGenerator.CorrectedKeepsIdsDistinct` for pass 2.
