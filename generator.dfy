/**
 * The two-pass grid generator. Pass 1 fills every cell with a chip of a random palette kind.
 * Pass 2 looks, for each cell, at the two preceding cells of its column and of its row in the
 * pass-1 matrix; a kind shared by such a pair is blacklisted, and a cell whose pass-1 kind is
 * blacklisted is redrawn among the kinds that are not.
 */
module ChipGenerator {
  import opened Wrappers
  import opened Vectors
  import opened Matrix
  import opened Config
  import opened Chips
  import opened RandomSource

  // ---------------------------------------------------------------- pass 1

  /** The pass-1 chip of cell (row, column): ids and draws are taken in row-major order. */
  function Pass1Chip(source: nat -> nat, cursor: nat, firstId: int, columns: nat, row: nat, column: nat): Chip {
    var k := row * columns + column;
    NewChip(firstId + k, Palette[Draw(source, cursor + k, 0, |Palette|)].kind)
  }

  function Pass1Row(cfg: ChipConfig, source: nat -> nat, cursor: nat, firstId: int, row: nat): seq<Chip>
    requires Valid(cfg)
  {
    seq(cfg.columnCount, column requires 0 <= column => Pass1Chip(source, cursor, firstId, cfg.columnCount, row, column))
  }

  /** The matrix pass 1 produces from the random stream at `cursor` and the id counter at `firstId`. */
  function PureRandomSpec(cfg: ChipConfig, source: nat -> nat, cursor: nat, firstId: int): seq<seq<Chip>>
    requires Valid(cfg)
  {
    seq(cfg.rowCount, row requires 0 <= row => Pass1Row(cfg, source, cursor, firstId, row))
  }

  /** Every pass-1 chip has a palette kind and an id from the block [firstId, firstId + cell count), one id per cell. */
  lemma {:induction false} PureRandomFacts(cfg: ChipConfig, source: nat -> nat, cursor: nat, firstId: int)
    requires Valid(cfg)
    ensures var s := PureRandomSpec(cfg, source, cursor, firstId);
      && IsGrid(s, cfg.rowCount, cfg.columnCount)
      && AllPaletteChips(s)
      && (forall p :: InBounds(s, p) ==> firstId <= s[p.y][p.x].id < firstId + CellCount(cfg))
      && DistinctIds(s)
  {
    var s: seq<seq<Chip>> := PureRandomSpec(cfg, source, cursor, firstId);
    forall p: Vec2 | InBounds(s, p)
      ensures firstId <= s[p.y][p.x].id < firstId + CellCount(cfg)
      ensures IsPaletteChip(s[p.y][p.x])
    {
      RowMajorIndex(cfg.columnCount, cfg.rowCount, p, p);
    }
    forall p: Vec2, q: Vec2 | InBounds(s, p) && InBounds(s, q) && p != q
      ensures s[p.y][p.x].id != s[q.y][q.x].id
    {
      RowMajorIndex(cfg.columnCount, cfg.rowCount, p, q);
    }
  }

  // ---------------------------------------------------------------- pass 2

  /** `s[r]?.[c]`: the chip at (r, c) when the row and the column exist. */
  function ItemAt(s: seq<seq<Chip>>, r: int, c: int): Option<Chip> {
    if 0 <= r < |s| && 0 <= c < |s[r]| then Some(s[r][c]) else None
  }

  /** The optional-chaining read and `getItem` read the same cell. */
  lemma ItemAtIsGetItem(s: seq<seq<Chip>>, r: int, c: int)
    ensures ItemAt(s, r, c) == GetItem(s, Vec2(c, r))
  {
  }

  /** `tryAddBlackList`: the kind shared by two cells, when both exist and agree. */
  function PairKind(a: Option<Chip>, b: Option<Chip>): seq<string> {
    if a.Some? && b.Some? && a.value.kind == b.value.kind then [a.value.kind] else []
  }

  /** The two cells above (row, column) both exist in `s` and both have kind `kind`. */
  predicate ColumnRunKind(s: seq<seq<Chip>>, row: int, column: int, kind: string) {
    2 <= row <= |s| && 0 <= column
    && column < |s[row - 1]| && column < |s[row - 2]|
    && s[row - 1][column].kind == kind && s[row - 2][column].kind == kind
  }

  /** The two cells left of (row, column) both exist in `s` and both have kind `kind`. */
  predicate RowRunKind(s: seq<seq<Chip>>, row: int, column: int, kind: string) {
    0 <= row < |s| && 2 <= column <= |s[row]|
    && s[row][column - 1].kind == kind && s[row][column - 2].kind == kind
  }

  /** The blacklist of cell (row, column), read from the pass-1 matrix `s` only: column pair first, then row pair. */
  function Blacklist(s: seq<seq<Chip>>, row: int, column: int): (bl: seq<string>)
    ensures |bl| <= 2
  {
    PairKind(ItemAt(s, row - 1, column), ItemAt(s, row - 2, column))
    + PairKind(ItemAt(s, row, column - 1), ItemAt(s, row, column - 2))
  }

  /** A kind is blacklisted exactly when the two preceding cells of the column, or of the row, both exist and have that kind. */
  lemma BlacklistMembers(s: seq<seq<Chip>>, row: int, column: int, kind: string)
    ensures kind in Blacklist(s, row, column) <==> ColumnRunKind(s, row, column, kind) || RowRunKind(s, row, column, kind)
  {
  }

  /** `filter`: the entries whose kind is not blacklisted, in palette order. */
  function FilterOut(metas: seq<ChipMeta>, bl: seq<string>): seq<ChipMeta> {
    if metas == [] then []
    else if metas[0].kind in bl then FilterOut(metas[1..], bl)
    else [metas[0]] + FilterOut(metas[1..], bl)
  }

  /** Filtering keeps exactly the entries whose kind is not blacklisted, and keeps kinds distinct. */
  lemma {:induction false} FilterOutFacts(metas: seq<ChipMeta>, bl: seq<string>)
    ensures var r := FilterOut(metas, bl);
      && (forall m :: m in r <==> m in metas && m.kind !in bl)
      && (DistinctKinds(metas) ==> DistinctKinds(r))
    decreases |metas|
  {
    if metas != [] {
      FilterOutFacts(metas[1..], bl);
      var rest := FilterOut(metas[1..], bl);
      assert forall m :: m in metas <==> m == metas[0] || m in metas[1..];
      if DistinctKinds(metas) && metas[0].kind !in bl {
        forall m | m in rest
          ensures m.kind != metas[0].kind
        {
          var j :| 0 <= j < |metas[1..]| && metas[1..][j] == m;
          assert metas[j + 1] == m;
        }
        assert DistinctKinds(metas[1..]);
      }
    }
  }

  /** The palette entries a redrawn cell may take. */
  function Allowed(bl: seq<string>): seq<ChipMeta> {
    FilterOut(Palette, bl)
  }

  /** A blacklist of at most two kinds leaves at least two of the four palette entries. */
  lemma AllowedSize(bl: seq<string>)
    requires |bl| <= 2
    ensures |Allowed(bl)| >= 2
  {
    PaletteIsOneToOne();
    FilterOutSize(Palette, bl);
  }

  /** Filtering entries of distinct kinds removes at most one entry per blacklist entry. */
  lemma {:induction false} FilterOutSize(metas: seq<ChipMeta>, bl: seq<string>)
    requires DistinctKinds(metas)
    ensures |FilterOut(metas, bl)| + |bl| >= |metas|
    decreases |metas|
  {
    if metas != [] {
      var k := metas[0].kind;
      assert DistinctKinds(metas[1..]);
      if k in bl {
        var bl' := Without(bl, k);
        forall m | m in metas[1..]
          ensures m.kind in bl <==> m.kind in bl'
        {
          var j :| 0 <= j < |metas[1..]| && metas[1..][j] == m;
          assert metas[j + 1] == m;
        }
        FilterOutCongruent(metas[1..], bl, bl');
        FilterOutSize(metas[1..], bl');
      } else {
        FilterOutSize(metas[1..], bl);
      }
    }
  }

  /** `bl` with every occurrence of `k` removed. */
  function Without(bl: seq<string>, k: string): (r: seq<string>)
    ensures forall x :: x in r <==> x in bl && x != k
    ensures k in bl ==> |r| < |bl|
    ensures |r| <= |bl|
  {
    if bl == [] then []
    else if bl[0] == k then Without(bl[1..], k)
    else [bl[0]] + Without(bl[1..], k)
  }

  /** Filtering depends only on which of the entries' kinds the blacklist holds. */
  lemma {:induction false} FilterOutCongruent(metas: seq<ChipMeta>, bl: seq<string>, bl': seq<string>)
    requires forall m :: m in metas ==> (m.kind in bl <==> m.kind in bl')
    ensures FilterOut(metas, bl) == FilterOut(metas, bl')
    decreases |metas|
  {
    if metas != [] {
      assert metas[0] in metas;
      forall m | m in metas[1..]
        ensures m.kind in bl <==> m.kind in bl'
      {
        var j :| 0 <= j < |metas[1..]| && metas[1..][j] == m;
        assert metas[j + 1] == m;
      }
      FilterOutCongruent(metas[1..], bl, bl');
    }
  }

  /** Pass 2 redraws cell (row, column) exactly when its pass-1 kind is blacklisted. */
  predicate NeedsRedraw(s: seq<seq<Chip>>, row: int, column: int)
    requires InBounds(s, Vec2(column, row))
  {
    s[row][column].kind in Blacklist(s, row, column)
  }

  /** Which cells pass 2 redraws, cell by cell. */
  function RedrawFlags(s: seq<seq<Chip>>): (f: seq<seq<bool>>)
    ensures |f| == |s| && forall row :: 0 <= row < |s| ==> |f[row]| == |s[row]|
  {
    seq(|s|, row requires 0 <= row < |s| =>
      seq(|s[row]|, column requires 0 <= column < |s[row]| => NeedsRedraw(s, row, column)))
  }

  /** The number of set flags among the first `n`. */
  function CountTrue(flags: seq<bool>, n: int): nat
    requires 0 <= n <= |flags|
    decreases n
  {
    if n == 0 then 0 else CountTrue(flags, n - 1) + (if flags[n - 1] then 1 else 0)
  }

  /** The number of set flags in the first `n` rows. */
  function CountRows(flags: seq<seq<bool>>, n: int): nat
    requires 0 <= n <= |flags|
    decreases n
  {
    if n == 0 then 0 else CountRows(flags, n - 1) + CountTrue(flags[n - 1], |flags[n - 1]|)
  }

  /** The number of set flags before (row, column) in row-major order. */
  function CountBefore(flags: seq<seq<bool>>, row: int, column: int): nat
    requires 0 <= row < |flags| && 0 <= column <= |flags[row]|
  {
    CountRows(flags, row) + CountTrue(flags[row], column)
  }

  lemma {:induction false} CountTrueMonotone(flags: seq<bool>, a: int, b: int)
    requires 0 <= a <= b <= |flags|
    ensures CountTrue(flags, a) <= CountTrue(flags, b)
    decreases b
  {
    if a < b {
      CountTrueMonotone(flags, a, b - 1);
    }
  }

  lemma {:induction false} CountRowsMonotone(flags: seq<seq<bool>>, a: int, b: int)
    requires 0 <= a <= b <= |flags|
    ensures CountRows(flags, a) <= CountRows(flags, b)
    decreases b
  {
    if a < b {
      CountRowsMonotone(flags, a, b - 1);
    }
  }

  /** At most one set flag per entry. */
  lemma {:induction false} CountTrueAtMost(flags: seq<bool>, n: int)
    requires 0 <= n <= |flags|
    ensures CountTrue(flags, n) <= n
    decreases n
  {
    if n > 0 {
      CountTrueAtMost(flags, n - 1);
    }
  }

  /** At most one set flag per cell of the first `n` rows. */
  lemma {:induction false} CountRowsAtMost(flags: seq<seq<bool>>, n: int, columns: int)
    requires 0 <= n <= |flags| && forall y :: 0 <= y < |flags| ==> |flags[y]| == columns
    ensures CountRows(flags, n) <= n * columns
    decreases n
  {
    if n > 0 {
      CountRowsAtMost(flags, n - 1, columns);
      CountTrueAtMost(flags[n - 1], columns);
      assert n * columns == (n - 1) * columns + columns;
    }
  }

  /** A set flag is counted before every cell that follows it in row-major order. */
  lemma {:induction false} CountBeforeStrict(flags: seq<seq<bool>>, p: Vec2, q: Vec2)
    requires InBounds(flags, p) && InBounds(flags, q) && flags[p.y][p.x]
    requires p.y < q.y || (p.y == q.y && p.x < q.x)
    ensures CountBefore(flags, p.y, p.x) < CountBefore(flags, q.y, q.x)
  {
    assert CountBefore(flags, p.y, p.x) + 1 == CountRows(flags, p.y) + CountTrue(flags[p.y], p.x + 1);
    if p.y == q.y {
      CountTrueMonotone(flags[p.y], p.x + 1, q.x);
    } else {
      CountTrueMonotone(flags[p.y], p.x + 1, |flags[p.y]|);
      assert CountRows(flags, p.y + 1) == CountRows(flags, p.y) + CountTrue(flags[p.y], |flags[p.y]|);
      CountRowsMonotone(flags, p.y + 1, q.y);
    }
  }

  /** The redrawn cells before (row, column) in row-major order: the draws and ids pass 2 has used on reaching it. */
  function RedrawsBefore(s: seq<seq<Chip>>, row: int, column: int): nat
    requires 0 <= row < |s| && 0 <= column <= |s[row]|
  {
    CountBefore(RedrawFlags(s), row, column)
  }

  /** The redrawn cells in the first `n` rows. */
  function RedrawsInRows(s: seq<seq<Chip>>, n: int): nat
    requires 0 <= n <= |s|
  {
    CountRows(RedrawFlags(s), n)
  }

  /**
   * The chip a redrawn cell receives when its blacklist is `bl`, the random stream is at position
   * `at` and the id counter at `id`: the draw is from [0, |allowed| - 1), the source's own range.
   */
  function RedrawnChip(bl: seq<string>, source: nat -> nat, at: nat, id: int): Chip
    requires |bl| <= 2
  {
    var allowed := Allowed(bl);
    AllowedSize(bl);
    NewChip(id, allowed[Draw(source, at, 0, |allowed| - 1)].kind)
  }

  /**
   * A redrawn chip has the given id and a palette kind that is not blacklisted; since the draw's upper
   * bound excludes the last index, it is never the last allowed kind.
   */
  lemma {:induction false} RedrawnChipFacts(bl: seq<string>, source: nat -> nat, at: nat, id: int)
    requires |bl| <= 2
    ensures |Allowed(bl)| >= 2
    ensures var chip := RedrawnChip(bl, source, at, id);
      && chip.id == id && IsPaletteChip(chip) && chip.kind !in bl
      && chip.kind != Allowed(bl)[|Allowed(bl)| - 1].kind
  {
    var allowed := Allowed(bl);
    FilterOutFacts(Palette, bl);
    AllowedSize(bl);
    PaletteIsOneToOne();
    var meta := allowed[Draw(source, at, 0, |allowed| - 1)];
    assert meta in allowed;
    var j :| 0 <= j < |Palette| && Palette[j] == meta;
    assert IsPaletteKind(meta.kind);
    NewChipFacts(id, meta.kind);
  }

  /** The chip pass 2 puts at (row, column) when the random stream is at position `at` and the id counter at `id`. */
  function CellChip(s: seq<seq<Chip>>, row: int, column: int, source: nat -> nat, at: nat, id: int): Chip
    requires InBounds(s, Vec2(column, row))
  {
    if NeedsRedraw(s, row, column) then RedrawnChip(Blacklist(s, row, column), source, at, id)
    else s[row][column]
  }

  function CorrectedCell(s: seq<seq<Chip>>, row: int, column: int, source: nat -> nat, cursor: nat, firstId: int): Chip
    requires InBounds(s, Vec2(column, row))
  {
    var k := RedrawsBefore(s, row, column);
    CellChip(s, row, column, source, cursor + k, firstId + k)
  }

  /** The matrix pass 2 makes of `s`, with the random stream at `cursor` and the id counter at `firstId`. */
  function CorrectedSpec(s: seq<seq<Chip>>, source: nat -> nat, cursor: nat, firstId: int): (b: seq<seq<Chip>>)
    ensures |b| == |s| && forall row :: 0 <= row < |s| ==> |b[row]| == |s[row]|
  {
    seq(|s|, row requires 0 <= row < |s| =>
      seq(|s[row]|, column requires 0 <= column < |s[row]| => CorrectedCell(s, row, column, source, cursor, firstId)))
  }

  /**
   * Each output cell keeps its pass-1 chip (same id) when that chip's kind is not blacklisted;
   * otherwise it holds the redrawn chip made with the draw and the id that follow the redraws before it.
   */
  lemma {:induction false} CorrectedCellFacts(s: seq<seq<Chip>>, source: nat -> nat, cursor: nat, firstId: int, p: Vec2)
    requires InBounds(s, p)
    ensures !NeedsRedraw(s, p.y, p.x) ==> CorrectedSpec(s, source, cursor, firstId)[p.y][p.x] == s[p.y][p.x]
    ensures NeedsRedraw(s, p.y, p.x) ==>
      var k := RedrawsBefore(s, p.y, p.x);
      CorrectedSpec(s, source, cursor, firstId)[p.y][p.x] == RedrawnChip(Blacklist(s, p.y, p.x), source, cursor + k, firstId + k)
  {
    var k := RedrawsBefore(s, p.y, p.x);
    assert CorrectedSpec(s, source, cursor, firstId)[p.y][p.x] == CellChip(s, p.y, p.x, source, cursor + k, firstId + k);
  }

  /** No output cell has the kind shared by its two pass-1 column predecessors, nor that shared by its two pass-1 row predecessors. */
  lemma {:induction false} CorrectedAvoidsRuns(s: seq<seq<Chip>>, source: nat -> nat, cursor: nat, firstId: int, p: Vec2)
    requires InBounds(s, p)
    ensures var kind := CorrectedSpec(s, source, cursor, firstId)[p.y][p.x].kind;
      !ColumnRunKind(s, p.y, p.x, kind) && !RowRunKind(s, p.y, p.x, kind)
  {
    var kind := CorrectedSpec(s, source, cursor, firstId)[p.y][p.x].kind;
    CorrectedCellFacts(s, source, cursor, firstId, p);
    if NeedsRedraw(s, p.y, p.x) {
      var k := RedrawsBefore(s, p.y, p.x);
      RedrawnChipFacts(Blacklist(s, p.y, p.x), source, cursor + k, firstId + k);
    }
    BlacklistMembers(s, p.y, p.x, kind);
  }

  /** Pass 2 turns a matrix of palette chips into a matrix of palette chips. */
  lemma {:induction false} CorrectedKeepsPalette(s: seq<seq<Chip>>, source: nat -> nat, cursor: nat, firstId: int)
    requires AllPaletteChips(s)
    ensures AllPaletteChips(CorrectedSpec(s, source, cursor, firstId))
  {
    var b: seq<seq<Chip>> := CorrectedSpec(s, source, cursor, firstId);
    forall p: Vec2 | InBounds(b, p)
      ensures IsPaletteChip(b[p.y][p.x])
    {
      assert InBounds(s, p);
      CorrectedCellPalette(s, source, cursor, firstId, p);
    }
  }

  /** One cell of pass 2 holds a palette chip when the pass-1 cell does. */
  lemma {:induction false} CorrectedCellPalette(s: seq<seq<Chip>>, source: nat -> nat, cursor: nat, firstId: int, p: Vec2)
    requires InBounds(s, p) && IsPaletteChip(s[p.y][p.x])
    ensures IsPaletteChip(CorrectedSpec(s, source, cursor, firstId)[p.y][p.x])
  {
    CorrectedCellFacts(s, source, cursor, firstId, p);
    if NeedsRedraw(s, p.y, p.x) {
      var k := RedrawsBefore(s, p.y, p.x);
      RedrawnChipFacts(Blacklist(s, p.y, p.x), source, cursor + k, firstId + k);
    }
  }

  /**
   * Kept cells carry their own distinct ids and redrawn cells take consecutive ids from `firstId` in
   * row-major order; when every kept id is below `firstId`, all ids of `b` are distinct.
   */
  lemma {:induction false} NumberingIsInjective(s: seq<seq<Chip>>, b: seq<seq<Chip>>, flags: seq<seq<bool>>, firstId: int)
    requires |b| == |s| == |flags| && forall row :: 0 <= row < |s| ==> |b[row]| == |s[row]| == |flags[row]|
    requires DistinctIds(s) && forall p :: InBounds(s, p) ==> s[p.y][p.x].id < firstId
    requires forall p :: InBounds(s, p) ==>
      if flags[p.y][p.x] then b[p.y][p.x].id == firstId + CountBefore(flags, p.y, p.x)
      else b[p.y][p.x] == s[p.y][p.x]
    ensures DistinctIds(b)
  {
    forall p: Vec2, q: Vec2 | InBounds(b, p) && InBounds(b, q) && p != q
      ensures b[p.y][p.x].id != b[q.y][q.x].id
    {
      assert InBounds(s, p) && InBounds(s, q);
      if flags[p.y][p.x] && flags[q.y][q.x] {
        if p.y < q.y || (p.y == q.y && p.x < q.x) {
          CountBeforeStrict(flags, p, q);
        } else {
          CountBeforeStrict(flags, q, p);
        }
      }
    }
  }

  /** Pass 2 keeps ids distinct when the pass-1 ids are distinct and all below the counter it starts from. */
  lemma {:induction false} CorrectedKeepsIdsDistinct(s: seq<seq<Chip>>, source: nat -> nat, cursor: nat, firstId: int)
    requires DistinctIds(s) && forall p :: InBounds(s, p) ==> s[p.y][p.x].id < firstId
    ensures DistinctIds(CorrectedSpec(s, source, cursor, firstId))
  {
    var b: seq<seq<Chip>> := CorrectedSpec(s, source, cursor, firstId);
    var flags: seq<seq<bool>> := RedrawFlags(s);
    forall p: Vec2 | InBounds(s, p)
      ensures if flags[p.y][p.x] then b[p.y][p.x].id == firstId + CountBefore(flags, p.y, p.x)
        else b[p.y][p.x] == s[p.y][p.x]
    {
      CorrectedCellFacts(s, source, cursor, firstId, p);
      if NeedsRedraw(s, p.y, p.x) {
        var k := RedrawsBefore(s, p.y, p.x);
        RedrawnChipFacts(Blacklist(s, p.y, p.x), source, cursor + k, firstId + k);
      }
    }
    NumberingIsInjective(s, b, flags, firstId);
  }

  /** `generateChipMatrix` as a value: pass 2 applied to pass 1, the stream and the counter carried over. */
  function GenerateSpec(cfg: ChipConfig, source: nat -> nat, cursor: nat, firstId: int): seq<seq<Chip>>
    requires Valid(cfg)
  {
    CorrectedSpec(PureRandomSpec(cfg, source, cursor, firstId), source, cursor + CellCount(cfg), firstId + CellCount(cfg))
  }

  /** Pass 2 keeps the shape, keeps every chip a palette chip, and keeps ids distinct when pass 1 numbered below `firstId`. */
  lemma {:induction false} CorrectedFacts(s: seq<seq<Chip>>, rows: int, columns: int, source: nat -> nat, cursor: nat,
                                          firstId: int, b: seq<seq<Chip>>)
    requires IsGrid(s, rows, columns) && AllPaletteChips(s) && DistinctIds(s)
    requires forall p :: InBounds(s, p) ==> s[p.y][p.x].id < firstId
    requires b == CorrectedSpec(s, source, cursor, firstId)
    ensures IsGrid(b, rows, columns) && AllPaletteChips(b) && DistinctIds(b)
  {
    CorrectedKeepsPalette(s, source, cursor, firstId);
    CorrectedKeepsIdsDistinct(s, source, cursor, firstId);
  }

  /** The generated matrix has the configured shape, only palette chips, and a distinct id in every cell. */
  lemma {:induction false} GeneratedMatrixFacts(cfg: ChipConfig, source: nat -> nat, cursor: nat, firstId: int)
    requires Valid(cfg)
    ensures IsGrid(GenerateSpec(cfg, source, cursor, firstId), cfg.rowCount, cfg.columnCount)
    ensures AllPaletteChips(GenerateSpec(cfg, source, cursor, firstId))
    ensures DistinctIds(GenerateSpec(cfg, source, cursor, firstId))
  {
    var n := CellCount(cfg);
    var s: seq<seq<Chip>> := PureRandomSpec(cfg, source, cursor, firstId);
    var m: seq<seq<Chip>> := GenerateSpec(cfg, source, cursor, firstId);
    PureRandomFacts(cfg, source, cursor, firstId);
    assert forall p :: InBounds(s, p) ==> s[p.y][p.x].id < firstId + n;
    CorrectedFacts(s, cfg.rowCount, cfg.columnCount, source, cursor + n, firstId + n, m);
  }

  /**
   * The number of draws, and of new ids, generation takes from the stream at
   * `cursor` and the counter at `firstId`: one per cell in pass 1 and one per
   * cell pass 2 redraws.
   */
  function GenerateDraws(cfg: ChipConfig, source: nat -> nat, cursor: nat, firstId: int): nat
    requires Valid(cfg)
  {
    var s := PureRandomSpec(cfg, source, cursor, firstId);
    CellCount(cfg) + RedrawsInRows(s, |s|)
  }

  /** Generation takes at least one draw per cell and at most two: every cell is drawn in pass 1 and redrawn at most once. */
  lemma GenerateDrawsBounds(cfg: ChipConfig, source: nat -> nat, cursor: nat, firstId: int)
    requires Valid(cfg)
    ensures CellCount(cfg) <= GenerateDraws(cfg, source, cursor, firstId) <= 2 * CellCount(cfg)
  {
    var s := PureRandomSpec(cfg, source, cursor, firstId);
    CountRowsAtMost(RedrawFlags(s), |s|, cfg.columnCount);
  }

  // ---------------------------------------------------------------- the generator as it runs

  /** Pass 1, cell by cell in row-major order: one draw from [0, 4) and one new chip per cell. */
  method PureRandomChipMatrix(cfg: ChipConfig, random: Random, manager: ChipManager) returns (s: seq<seq<Chip>>)
    requires Valid(cfg)
    modifies random, manager
    ensures s == PureRandomSpec(cfg, random.source, old(random.cursor), old(manager.nextChipId))
    ensures random.cursor == old(random.cursor) + CellCount(cfg)
    ensures manager.nextChipId == old(manager.nextChipId) + CellCount(cfg)
  {
    ghost var cursor, firstId := random.cursor, manager.nextChipId;
    var columns := cfg.columnCount;
    s := [];
    var row := 0;
    while row < cfg.rowCount
      invariant 0 <= row <= cfg.rowCount
      invariant random.cursor == cursor + row * columns
      invariant manager.nextChipId == firstId + row * columns
      invariant |s| == row
      invariant forall i :: 0 <= i < row ==> s[i] == Pass1Row(cfg, random.source, cursor, firstId, i)
    {
      var chipRow := [];
      var column := 0;
      while column < columns
        invariant 0 <= column <= columns
        invariant random.cursor == cursor + row * columns + column
        invariant manager.nextChipId == firstId + row * columns + column
        invariant |chipRow| == column
        invariant forall j :: 0 <= j < column ==> chipRow[j] == Pass1Chip(random.source, cursor, firstId, columns, row, j)
      {
        var metaIdx := random.NextIntBetween(0, |Palette|);
        var meta := Palette[metaIdx];
        var chip := manager.CreateChip(meta.kind);
        chipRow := chipRow + [chip];
        column := column + 1;
      }
      assert chipRow == Pass1Row(cfg, random.source, cursor, firstId, row);
      s := s + [chipRow];
      row := row + 1;
      assert (row - 1) * columns + columns == row * columns;
    }
  }

  /** Solver guidance for the loops below: a prefix one longer is the prefix extended by the next entry. */
  lemma TakeOneMore<T>(r: seq<T>, n: int)
    requires 0 <= n < |r|
    ensures r[..n + 1] == r[..n] + [r[n]]
  {
  }

  /** Solver guidance for the loops below: the full-length prefix is the sequence itself. */
  lemma TakeAll<T>(r: seq<T>)
    ensures r[..|r|] == r
  {
  }

  /** Each cell advances the redraw count by one exactly when it is redrawn. */
  lemma {:induction false} RedrawsStep(s: seq<seq<Chip>>, row: int, column: int)
    requires InBounds(s, Vec2(column, row))
    ensures RedrawsBefore(s, row, column + 1) == RedrawsBefore(s, row, column) + if NeedsRedraw(s, row, column) then 1 else 0
  {
    var flags := RedrawFlags(s);
    assert flags[row][column] == NeedsRedraw(s, row, column);
    assert CountTrue(flags[row], column + 1) == CountTrue(flags[row], column) + if flags[row][column] then 1 else 0;
  }

  /** One cell of pass 2: keep the pass-1 chip unless its kind is blacklisted, else draw a kind and create a chip. */
  method CorrectCell(s: seq<seq<Chip>>, row: int, column: int, random: Random, manager: ChipManager,
                     ghost cursor: nat, ghost firstId: int) returns (chip: Chip)
    requires InBounds(s, Vec2(column, row))
    requires random.cursor == cursor + RedrawsBefore(s, row, column)
    requires manager.nextChipId == firstId + RedrawsBefore(s, row, column)
    modifies random, manager
    ensures chip == CorrectedCell(s, row, column, random.source, cursor, firstId)
    ensures random.cursor == cursor + RedrawsBefore(s, row, column + 1)
    ensures manager.nextChipId == firstId + RedrawsBefore(s, row, column + 1)
  {
    RedrawsStep(s, row, column);
    chip := s[row][column];
    var blackList := Blacklist(s, row, column);
    if chip.kind in blackList {
      var metaList := Allowed(blackList);
      AllowedSize(blackList);
      var metaIndex := random.NextIntBetween(0, |metaList| - 1);
      var meta := metaList[metaIndex];
      chip := manager.CreateChip(meta.kind);
      assert chip == RedrawnChip(blackList, random.source, old(random.cursor), old(manager.nextChipId));
    }
  }

  /** Pass 2, cell by cell in row-major order; only a redrawn cell takes a draw and a new id. */
  method CorrectChipMatrix(s: seq<seq<Chip>>, random: Random, manager: ChipManager) returns (b: seq<seq<Chip>>)
    modifies random, manager
    ensures b == CorrectedSpec(s, random.source, old(random.cursor), old(manager.nextChipId))
    ensures random.cursor == old(random.cursor) + RedrawsInRows(s, |s|)
    ensures manager.nextChipId == old(manager.nextChipId) + RedrawsInRows(s, |s|)
  {
    ghost var cursor, firstId := random.cursor, manager.nextChipId;
    ghost var target := CorrectedSpec(s, random.source, cursor, firstId);
    b := [];
    var row := 0;
    while row < |s|
      invariant 0 <= row <= |s|
      invariant random.cursor == cursor + RedrawsInRows(s, row)
      invariant manager.nextChipId == firstId + RedrawsInRows(s, row)
      invariant b == target[..row]
    {
      var chipRow := [];
      var column := 0;
      while column < |s[row]|
        invariant 0 <= column <= |s[row]|
        invariant random.cursor == cursor + RedrawsBefore(s, row, column)
        invariant manager.nextChipId == firstId + RedrawsBefore(s, row, column)
        invariant chipRow == target[row][..column]
      {
        var chip := CorrectCell(s, row, column, random, manager, cursor, firstId);
        assert chip == target[row][column];
        TakeOneMore(target[row], column);
        chipRow := chipRow + [chip];
        column := column + 1;
      }
      TakeAll(target[row]);
      TakeOneMore(target, row);
      b := b + [chipRow];
      row := row + 1;
    }
    TakeAll(target);
  }

  /** Pass 2 applied to the pass-1 matrix, with the stream and the counter where pass 1 left them, is the generated matrix. */
  lemma {:induction false} PassesCompose(cfg: ChipConfig, source: nat -> nat, cursor: nat, firstId: int,
                                         s: seq<seq<Chip>>, midCursor: nat, midId: int, m: seq<seq<Chip>>)
    requires Valid(cfg)
    requires s == PureRandomSpec(cfg, source, cursor, firstId)
    requires midCursor == cursor + CellCount(cfg) && midId == firstId + CellCount(cfg)
    requires m == CorrectedSpec(s, source, midCursor, midId)
    ensures m == GenerateSpec(cfg, source, cursor, firstId)
  {
  }

  /** `generateChipMatrix`: pass 1 followed by pass 2 on the same random source and id counter. */
  method GenerateChipMatrix(cfg: ChipConfig, random: Random, manager: ChipManager) returns (m: seq<seq<Chip>>)
    requires Valid(cfg)
    modifies random, manager
    ensures m == GenerateSpec(cfg, random.source, old(random.cursor), old(manager.nextChipId))
    ensures IsGrid(m, cfg.rowCount, cfg.columnCount) && AllPaletteChips(m) && DistinctIds(m)
    ensures random.cursor == old(random.cursor) + GenerateDraws(cfg, random.source, old(random.cursor), old(manager.nextChipId))
    ensures manager.nextChipId == old(manager.nextChipId) + GenerateDraws(cfg, random.source, old(random.cursor), old(manager.nextChipId))
  {
    ghost var cursor, firstId := random.cursor, manager.nextChipId;
    var s := PureRandomChipMatrix(cfg, random, manager);
    ghost var midCursor, midId := random.cursor, manager.nextChipId;
    m := CorrectChipMatrix(s, random, manager);
    PassesCompose(cfg, random.source, cursor, firstId, s, midCursor, midId, m);
    GeneratedMatrixFacts(cfg, random.source, cursor, firstId);
  }
}
