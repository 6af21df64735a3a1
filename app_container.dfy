/** src/application/utility/container.rs: the same row-major conversion for
    the application's unsigned coordinates. The rules engine passes signed
    coordinates through it (a piece above the field has a negative row), so
    the index is an `int`; the round trips are stated for the unsigned
    domain the type declares. */
module AppContainer {
  import opened Geometry
  import Arith

  /** `coordinate_to_index`: `dims.x * y + x`. */
  function CoordinateToIndex(position: Vec2, dimensions: Size2): int {
    dimensions.x * position.y + position.x
  }

  /** `index_to_coordinate`: `(i % dims.x, i / dims.x)`, both unsigned. */
  function IndexToCoordinate(index: nat, dimensions: Size2): (c: Vec2)
    requires dimensions.x > 0
    ensures 0 <= c.x < dimensions.x && 0 <= c.y
  {
    Vec2(index % dimensions.x, index / dimensions.x)
  }

  /** For an unsigned coordinate whose column fits the row, index then
      coordinate gives the coordinate back. */
  lemma CoordinateRoundTrip(c: Vec2, dimensions: Size2)
    requires 0 <= c.x < dimensions.x && 0 <= c.y
    ensures CoordinateToIndex(c, dimensions) >= 0
    ensures IndexToCoordinate(CoordinateToIndex(c, dimensions), dimensions) == c
  {
    var i := CoordinateToIndex(c, dimensions);
    assert dimensions.x * c.y >= 0;
    Arith.DivModUnique(i, dimensions.x, c.y, c.x);
  }

  /** Coordinate then index gives the index back. */
  lemma IndexRoundTrip(index: nat, dimensions: Size2)
    requires dimensions.x > 0
    ensures CoordinateToIndex(IndexToCoordinate(index, dimensions), dimensions) == index
  {
  }

  /** In-bounds coordinates map into `[0, w * h)`. */
  lemma InBoundsIndex(c: Vec2, dimensions: Size2)
    requires 0 <= c.x < dimensions.x && 0 <= c.y < dimensions.y
    ensures 0 <= CoordinateToIndex(c, dimensions) < dimensions.x * dimensions.y
  {
    Arith.RowMajorBelow(dimensions.x, dimensions.y, c.x, c.y);
  }
}
