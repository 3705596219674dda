/** Integer pairs, used both as grid coordinates (x = column, y = row) and as pixel offsets. */
module Vectors {

  /** A value with structural equality, as `Data.case<Vec2>()` gives. */
  datatype Vec2 = Vec2(x: int, y: int)

  /** The offset of a chip that has no tween; the source names it `emptyVec2` without defining it, and (0, 0) is assumed. */
  const EmptyVec2: Vec2 := Vec2(0, 0)
}
