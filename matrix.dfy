/** Row-major matrices as sequences of rows, with the bounds-checked read and the single-cell write. */
module Matrix {
  import opened Wrappers
  import opened Vectors

  /** Cell `pos` addresses row `pos.y`, column `pos.x`. */
  predicate InBounds<T>(m: seq<seq<T>>, pos: Vec2) {
    0 <= pos.y < |m| && 0 <= pos.x < |m[pos.y]|
  }

  /** `m` has exactly `rows` rows of exactly `columns` cells. */
  predicate IsGrid<T>(m: seq<seq<T>>, rows: int, columns: int) {
    |m| == rows && forall y :: 0 <= y < |m| ==> |m[y]| == columns
  }

  /** `Array.get`: a read that yields nothing outside the sequence, negative indices included. */
  function ArrayGet<T>(s: seq<T>, i: int): Option<T> {
    if 0 <= i < |s| then Some(s[i]) else None
  }

  /** `getItem`: the row is looked up first, then the column within that row. */
  function GetItem<T>(m: seq<seq<T>>, pos: Vec2): (r: Option<T>)
    ensures r.Some? <==> InBounds(m, pos)
    ensures r.Some? ==> r.value == m[pos.y][pos.x]
  {
    match ArrayGet(m, pos.y)
    case None => None
    case Some(row) => ArrayGet(row, pos.x)
  }

  /** `setItem`: the matrix with cell `pos` replaced by `item`. */
  function SetItem<T>(m: seq<seq<T>>, pos: Vec2, item: T): (r: seq<seq<T>>)
    requires InBounds(m, pos)
    ensures |r| == |m| && forall y :: 0 <= y < |m| ==> |r[y]| == |m[y]|
    ensures GetItem(r, pos) == Some(item)
    ensures forall q :: q != pos ==> GetItem(r, q) == GetItem(m, q)
  {
    m[pos.y := m[pos.y][pos.x := item]]
  }

  /** Two matrices of the same shape that agree on every cell are equal. */
  lemma {:induction false} SameCellsSameMatrix<T>(a: seq<seq<T>>, b: seq<seq<T>>)
    requires |a| == |b| && forall y :: 0 <= y < |a| ==> |a[y]| == |b[y]|
    requires forall q :: GetItem(a, q) == GetItem(b, q)
    ensures a == b
  {
    forall y | 0 <= y < |a|
      ensures a[y] == b[y]
    {
      forall x | 0 <= x < |a[y]|
        ensures a[y][x] == b[y][x]
      {
        assert GetItem(a, Vec2(x, y)) == GetItem(b, Vec2(x, y));
      }
    }
  }

  /** Row-major numbering sends distinct cells of a grid to distinct numbers below the cell count. */
  lemma {:induction false} RowMajorIndex(columns: int, rows: int, p: Vec2, q: Vec2)
    requires 0 <= p.x < columns && 0 <= q.x < columns && 0 <= p.y < rows && 0 <= q.y < rows
    ensures 0 <= p.y * columns + p.x < rows * columns
    ensures p != q ==> p.y * columns + p.x != q.y * columns + q.x
  {
    assert (p.y + 1) * columns <= rows * columns by {
      MulMonotone(p.y + 1, rows, columns);
    }
    if p.y < q.y {
      MulMonotone(p.y + 1, q.y, columns);
    } else if q.y < p.y {
      MulMonotone(q.y + 1, p.y, columns);
    }
  }

  lemma {:induction false} MulMonotone(a: int, b: int, c: int)
    requires a <= b && 0 <= c
    ensures a * c <= b * c
  {
    assert b * c - a * c == (b - a) * c;
  }
}
