/** src/engine/utility/container.rs: row-major conversion between signed
    coordinates and linear indices of a tilemap's cell vector. A negative
    linear index stands for the wrapped-around `usize`, that is, a position
    outside the vector. */
module EngineContainer {
  import opened Geometry
  import Arith

  /** `coordinate_to_index`: `w * y + x`. No bounds check: an `x` outside
      `[0, w)` lands in a neighbouring row. */
  function CoordinateToIndex(position: Vec2, dimensions: Size2): int {
    dimensions.x * position.y + position.x
  }

  /** `index_to_coordinate`: column `i % w`, row `i / w`; the width must be
      positive (the source divides by it). */
  function IndexToCoordinate(index: nat, dimensions: Vec2): (c: Vec2)
    requires dimensions.x > 0
    ensures 0 <= c.x < dimensions.x && 0 <= c.y
  {
    Vec2(index % dimensions.x, index / dimensions.x)
  }

  /** A coordinate with its column inside the row round-trips through its index. */
  lemma CoordinateRoundTrip(c: Vec2, dimensions: Size2)
    requires 0 <= c.x < dimensions.x && 0 <= c.y
    ensures CoordinateToIndex(c, dimensions) >= 0
    ensures IndexToCoordinate(CoordinateToIndex(c, dimensions), Vec2(dimensions.x, dimensions.y)) == c
  {
    var i := CoordinateToIndex(c, dimensions);
    assert dimensions.x * c.y >= 0;
    Arith.DivModUnique(i, dimensions.x, c.y, c.x);
  }

  /** Every index round-trips through its coordinate. */
  lemma IndexRoundTrip(index: nat, dimensions: Size2)
    requires dimensions.x > 0
    ensures CoordinateToIndex(IndexToCoordinate(index, Vec2(dimensions.x, dimensions.y)), dimensions) == index
  {
  }

  /** Cells inside the field map into the cell vector, and distinct cells map
      to distinct indices. */
  lemma InBoundsIndex(c: Vec2, d: Vec2, dimensions: Size2)
    requires 0 <= c.x < dimensions.x && 0 <= c.y < dimensions.y
    requires 0 <= d.x < dimensions.x && 0 <= d.y < dimensions.y
    ensures 0 <= CoordinateToIndex(c, dimensions) < dimensions.x * dimensions.y
    ensures CoordinateToIndex(c, dimensions) == CoordinateToIndex(d, dimensions) <==> c == d
  {
    Arith.RowMajorBelow(dimensions.x, dimensions.y, c.x, c.y);
    CoordinateRoundTrip(c, dimensions);
    CoordinateRoundTrip(d, dimensions);
  }

  /** The column just past the right edge aliases the first column of the
      next row, and a cell above row 0 gets a negative index. */
  lemma RowAliasing(y: int, x: int, dimensions: Size2)
    ensures CoordinateToIndex(Vec2(dimensions.x, y), dimensions) == CoordinateToIndex(Vec2(0, y + 1), dimensions)
    ensures 0 <= x < dimensions.x && y < 0 ==> CoordinateToIndex(Vec2(x, y), dimensions) < 0
  {
    if 0 <= x < dimensions.x && y < 0 {
      Arith.RowMajorNegative(dimensions.x, x, y);
    }
  }
}
