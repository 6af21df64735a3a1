/** src/application/tile/tileset.rs: a tileset slices its texture into
    equally sized tiles, numbered in row-major order. The texture handle is
    not modelled; only its pixel dimensions are. */
module AppTileset {
  import opened Geometry
  import Arith

  /** `Tileset`: the tile size and the tiles sliced from the texture. */
  datatype Tileset = Tileset(tileSize: Size2, tiles: seq<TileData>)

  /** `get_tiledata`: the tile with that id, if the tileset has one. */
  function GetTiledata(tileset: Tileset, id: TileId): (r: Option<TileData>)
    ensures r.Some? <==> id < |tileset.tiles|
    ensures r.Some? ==> r.value == tileset.tiles[id]
  {
    if id < |tileset.tiles| then Some(tileset.tiles[id]) else None
  }

  /** The tile the slicing loop pushes for column `x` of row `y`. */
  function Slice(columns: nat, tileSize: Size2, x: nat, y: nat): TileData {
    TileData(y * columns + x, Rect(Vec2(x * tileSize.x, y * tileSize.y), tileSize))
  }

  /** The first `count` tiles of row `y`. */
  function Row(y: nat, count: nat, columns: nat, tileSize: Size2): seq<TileData> {
    seq(count, x requires 0 <= x < count => Slice(columns, tileSize, x, y))
  }

  /** `rows` full rows of `columns` tiles, top row first. */
  function Sliced(rows: nat, columns: nat, tileSize: Size2): seq<TileData> {
    if rows == 0 then [] else Sliced(rows - 1, columns, tileSize) + Row(rows - 1, columns, columns, tileSize)
  }

  /** The slicing grid in row-major order: tile `i` has id `i` and sits at
      column `i % columns`, row `i / columns`, one tile size per step. */
  lemma {:induction false} SlicedAt(rows: nat, columns: nat, tileSize: Size2, i: nat)
    requires i < rows * columns
    ensures |Sliced(rows, columns, tileSize)| == rows * columns
    ensures columns > 0
    ensures Sliced(rows, columns, tileSize)[i] == Slice(columns, tileSize, i % columns, i / columns)
    ensures Sliced(rows, columns, tileSize)[i].id == i
  {
    SlicedLength(rows, columns, tileSize);
    var prefix := Sliced(rows - 1, columns, tileSize);
    assert rows * columns == (rows - 1) * columns + columns;
    if i < (rows - 1) * columns {
      SlicedAt(rows - 1, columns, tileSize, i);
    } else {
      var x := i - (rows - 1) * columns;
      Arith.DivModUnique(i, columns, rows - 1, x);
    }
  }

  lemma {:induction false} SlicedLength(rows: nat, columns: nat, tileSize: Size2)
    ensures |Sliced(rows, columns, tileSize)| == rows * columns
  {
    if rows > 0 {
      SlicedLength(rows - 1, columns, tileSize);
      assert rows * columns == (rows - 1) * columns + columns;
    }
  }

  /** The nested slicing loop: for each row, for each column, push the tile. */
  method SliceTexture(rows: nat, columns: nat, tileSize: Size2) returns (tiles: seq<TileData>)
    ensures tiles == Sliced(rows, columns, tileSize)
  {
    tiles := [];
    var y := 0;
    while y < rows
      invariant y <= rows
      invariant tiles == Sliced(y, columns, tileSize)
    {
      var x := 0;
      while x < columns
        invariant x <= columns
        invariant tiles == Sliced(y, columns, tileSize) + Row(y, x, columns, tileSize)
      {
        var id := y * columns + x;
        var tilePosition := Vec2(x * tileSize.x, y * tileSize.y);
        tiles := tiles + [TileData(id, Rect(tilePosition, tileSize))];
        x := x + 1;
      }
      y := y + 1;
    }
  }

  const WIDTH_ERROR := "Tileset width must be divisible by tile size"
  const HEIGHT_ERROR := "Tileset height must be divisible by tile size"

  /** `make_tiles`, as written: the number of ROWS is computed from the
      texture WIDTH (`width / tile_size.y`), not from its height. */
  method MakeTiles(dimensions: Size2, tileSize: Size2) returns (r: Result<seq<TileData>>)
    requires tileSize.x > 0 && tileSize.y > 0
    ensures dimensions.x % tileSize.x != 0 ==> r == Err(WIDTH_ERROR)
    ensures dimensions.x % tileSize.x == 0 && dimensions.y % tileSize.y != 0 ==> r == Err(HEIGHT_ERROR)
    ensures r.Ok? <==> dimensions.x % tileSize.x == 0 && dimensions.y % tileSize.y == 0
    ensures r.Ok? ==> r.value == Sliced(dimensions.x / tileSize.y, dimensions.x / tileSize.x, tileSize)
  {
    var width, height := dimensions.x, dimensions.y;
    if width % tileSize.x != 0 {
      return Err(WIDTH_ERROR);
    }
    if height % tileSize.y != 0 {
      return Err(HEIGHT_ERROR);
    }
    var tiles := SliceTexture(width / tileSize.y, width / tileSize.x, tileSize);
    return Ok(tiles);
  }

  /** On a texture wider than it is tall, the as-written slicing yields tiles
      whose source rectangle lies below the texture: a 16x8 texture with 8x8
      tiles gives four tiles instead of two, and tile 2 starts at row 8. */
  lemma WidthUsedForRows()
    ensures |Sliced(16 / 8, 16 / 8, Size2(8, 8))| == 4
    ensures !InsideTexture(Sliced(16 / 8, 16 / 8, Size2(8, 8))[2].src, Size2(16, 8))
  {
    SlicedAt(2, 2, Size2(8, 8), 2);
  }

  /** `make_tiles` as evidently intended: rows from the texture height. */
  method MakeTilesCorrected(dimensions: Size2, tileSize: Size2) returns (r: Result<seq<TileData>>)
    requires tileSize.x > 0 && tileSize.y > 0
    ensures r.Ok? <==> dimensions.x % tileSize.x == 0 && dimensions.y % tileSize.y == 0
    ensures dimensions.x % tileSize.x != 0 ==> r == Err(WIDTH_ERROR)
    ensures dimensions.x % tileSize.x == 0 && dimensions.y % tileSize.y != 0 ==> r == Err(HEIGHT_ERROR)
    ensures r.Ok? ==> r.value == Sliced(dimensions.y / tileSize.y, dimensions.x / tileSize.x, tileSize)
    ensures r.Ok? ==> forall i :: 0 <= i < |r.value| ==> InsideTexture(r.value[i].src, dimensions)
  {
    if dimensions.x % tileSize.x != 0 {
      return Err(WIDTH_ERROR);
    }
    if dimensions.y % tileSize.y != 0 {
      return Err(HEIGHT_ERROR);
    }
    var tiles := SliceTexture(dimensions.y / tileSize.y, dimensions.x / tileSize.x, tileSize);
    forall i | 0 <= i < |tiles|
      ensures InsideTexture(tiles[i].src, dimensions)
    {
      SlicedInsideTexture(dimensions, tileSize, i);
    }
    return Ok(tiles);
  }

  /** A source rectangle that lies inside a texture of the given size. */
  predicate InsideTexture(src: Rect, dimensions: Size2) {
    0 <= src.origin.x && src.origin.x + src.size.x <= dimensions.x &&
    0 <= src.origin.y && src.origin.y + src.size.y <= dimensions.y
  }

  /** With rows taken from the height, every tile's source rectangle lies
      inside the texture. */
  lemma SlicedInsideTexture(dimensions: Size2, tileSize: Size2, i: nat)
    requires tileSize.x > 0 && tileSize.y > 0
    requires dimensions.x % tileSize.x == 0 && dimensions.y % tileSize.y == 0
    requires i < |Sliced(dimensions.y / tileSize.y, dimensions.x / tileSize.x, tileSize)|
    ensures InsideTexture(Sliced(dimensions.y / tileSize.y, dimensions.x / tileSize.x, tileSize)[i].src, dimensions)
  {
    var rows, columns := dimensions.y / tileSize.y, dimensions.x / tileSize.x;
    SlicedLength(rows, columns, tileSize);
    SlicedAt(rows, columns, tileSize, i);
    var x, y := i % columns, i / columns;
    Arith.DivBelow(i, columns, rows);
    CellInside(x, columns, tileSize.x, dimensions.x);
    CellInside(y, rows, tileSize.y, dimensions.y);
  }

  lemma CellInside(k: nat, count: nat, size: nat, extent: nat)
    requires size > 0 && extent % size == 0 && count == extent / size && k < count
    ensures k * size + size <= extent
  {
    assert extent == size * count;
    assert k * size + size == (k + 1) * size;
    assert (k + 1) * size <= count * size by {
      assert count * size - (k + 1) * size == (count - k - 1) * size;
    }
  }
}
