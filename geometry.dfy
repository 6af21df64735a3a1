/** Value types shared by the whole model: the 2D vector and rectangle of the
    geometry module, the tile records, and the Option/Result wrappers the
    source uses for lookups and error returns. */
module Geometry {

  /** A signed 2D vector; the game's `Coordinate` and world-space positions. */
  datatype Vec2 = Vec2(x: int, y: int) {
    function Add(other: Vec2): Vec2 {
      Vec2(x + other.x, y + other.y)
    }
  }

  /** An unsigned 2D size (`Size2`, a `Vec2<u32>`). */
  datatype Size2 = Size2(x: nat, y: nat)

  /** A source rectangle inside a tileset texture (`Rec2`). */
  datatype Rect = Rect(origin: Vec2, size: Size2)

  type TileId = nat

  /** What a tileset hands out for one tile: its id and its source rectangle. */
  datatype TileData = TileData(id: TileId, src: Rect)

  /** A tile placed in a tilemap: the tile data plus its world-space position. */
  datatype Tile = Tile(id: TileId, src: Rect, position: Vec2)

  /** `Tile::new`: unpack the tile data and attach a world-space position. */
  function NewTile(data: TileData, position: Vec2): Tile {
    Tile(data.id, data.src, position)
  }

  datatype Option<+T> = None | Some(value: T)

  /** `Result<T, String>`: the error carries the source's message. */
  datatype Result<+T> = Ok(value: T) | Err(error: string)
}

/** Integer facts about Euclidean division and products that the index
    arithmetic of the tilemaps and tilesets relies on. */
module Arith {

  lemma DivModUnique(n: int, w: int, q: int, r: int)
    requires w > 0 && 0 <= r < w && n == w * q + r
    ensures n / w == q && n % w == r
  {
    var q', r' := n / w, n % w;
    assert n == w * q' + r' && 0 <= r' < w;
    var d := q - q';
    assert w * d == r' - r by {
      assert w * q + r == w * q' + r';
      assert w * q - w * q' == w * d;
    }
    MulAwayFromZero(w, d);
  }

  /** A non-zero multiple of `w` is at least `w` away from zero. */
  lemma MulAwayFromZero(w: int, d: int)
    requires w > 0
    ensures d >= 1 ==> w * d >= w
    ensures d <= -1 ==> w * d <= -w
  {
    if d >= 1 {
      MulAtLeast(w, d);
    } else if d <= -1 {
      MulAtLeast(w, -d);
      assert w * d == -(w * (-d));
    }
  }

  lemma MulAtLeast(w: int, d: int)
    requires w > 0 && d >= 1
    ensures w * d >= w
  {
    assert w * d == w * (d - 1) + w;
    assert w * (d - 1) >= 0;
  }

  /** Row-major indices below `w * h` have a row below `h`. */
  lemma DivBelow(i: int, w: int, h: int)
    requires w > 0 && 0 <= i < w * h
    ensures 0 <= i / w < h
  {
    var q := i / w;
    assert w * q <= i;
    assert w * (h - q) > 0 by {
      assert w * h - w * q == w * (h - q);
    }
  }

  /** A row-major index of a cell inside a `w` by `h` block is below `w * h`. */
  lemma RowMajorBelow(w: int, h: int, x: int, y: int)
    requires 0 <= x < w && 0 <= y < h
    ensures 0 <= w * y + x < w * h
  {
    if y > 0 {
      MulAtLeast(w, y);
    }
    assert w * h - w * y == w * (h - y);
    MulAtLeast(w, h - y);
  }

  /** A row above row 0 gives a negative row-major index. */
  lemma RowMajorNegative(w: int, x: int, y: int)
    requires 0 <= x < w && y < 0
    ensures w * y + x < 0
  {
    assert w * y == -(w * (-y));
    MulAtLeast(w, -y);
  }
}
