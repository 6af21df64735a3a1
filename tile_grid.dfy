/** The behaviour the three tilemap snapshots share, stated on values: a
    row-major vector of optional tiles, `w * h` long, addressed through
    `coordinate_to_index`. The classes in the tilemap modules hold one of
    these as their state and are proved against the functions here. */
module TileGrid {
  import opened Geometry
  import AppContainer
  import Arith

  /** A tilemap's state: the tileset's tile size (all that the tilemap reads
      of its tileset), its world-space position, its size in cells, and the
      cells themselves. */
  datatype Grid = Grid(tileSize: Size2, position: Vec2, dimensions: Size2, tiles: seq<Option<Tile>>) {
    /** `new` allocates `w * h` cells and no operation changes the length. */
    predicate Valid() {
      |tiles| == dimensions.x * dimensions.y
    }
  }

  /** The linear index of a coordinate in this grid (possibly outside the vector). */
  function IndexOf(g: Grid, c: Vec2): int {
    AppContainer.CoordinateToIndex(c, g.dimensions)
  }

  /** `Tilemap::new`: `w * h` cells, every one empty. */
  function EmptyGrid(tileSize: Size2, position: Vec2, dimensions: Size2): (g: Grid)
    ensures g.Valid()
    ensures g.tileSize == tileSize && g.position == position && g.dimensions == dimensions
    ensures forall i :: 0 <= i < |g.tiles| ==> g.tiles[i] == None
  {
    Grid(tileSize, position, dimensions, seq(dimensions.x * dimensions.y, _ => None))
  }

  /** `get_at_index`: the tile in cell `index`; nothing for an empty cell or
      an index past either end of the vector. */
  function GetAtIndex(g: Grid, index: int): (r: Option<Tile>)
    ensures 0 <= index < |g.tiles| ==> r == g.tiles[index]
    ensures !(0 <= index < |g.tiles|) ==> r == None
  {
    if 0 <= index < |g.tiles| then g.tiles[index] else None
  }

  /** `get_at_coord`: the cell at the coordinate's linear index. */
  function GetAtCoord(g: Grid, c: Vec2): Option<Tile> {
    GetAtIndex(g, IndexOf(g, c))
  }

  /** `coord_to_worldspace`: `position + coordinate * tile_size`. */
  function CoordToWorldspace(g: Grid, c: Vec2): Vec2 {
    Vec2(g.position.x + c.x * g.tileSize.x, g.position.y + c.y * g.tileSize.y)
  }

  /** `index_to_worldspace`: the world-space position of cell `index`. */
  function IndexToWorldspace(g: Grid, index: nat): Vec2
    requires g.dimensions.x > 0
  {
    CoordToWorldspace(g, AppContainer.IndexToCoordinate(index, g.dimensions))
  }

  /** `is_bound`: the coordinate lies inside the field. */
  predicate IsBound(g: Grid, c: Vec2) {
    0 <= c.x < g.dimensions.x && 0 <= c.y < g.dimensions.y
  }

  /** `is_occupied`: `get_at_coord` finds a tile. */
  predicate IsOccupied(g: Grid, c: Vec2) {
    GetAtCoord(g, c).Some?
  }

  /** `set_tile_at_coord` once the index is known to be in range: the cell
      receives a tile with the data's id and source rectangle, placed at the
      coordinate's world-space position; every other cell is kept. */
  function SetTile(g: Grid, c: Vec2, data: TileData): (r: Grid)
    requires 0 <= IndexOf(g, c) < |g.tiles|
    ensures r.tileSize == g.tileSize && r.position == g.position && r.dimensions == g.dimensions
    ensures |r.tiles| == |g.tiles|
    ensures r.tiles[IndexOf(g, c)] == Some(Tile(data.id, data.src, CoordToWorldspace(g, c)))
    ensures forall i :: 0 <= i < |g.tiles| && i != IndexOf(g, c) ==> r.tiles[i] == g.tiles[i]
  {
    g.(tiles := g.tiles[IndexOf(g, c) := Some(NewTile(data, CoordToWorldspace(g, c)))])
  }

  /** `clear_tile_at_coord` once the index is known to be in range: that
      cell becomes empty and every other cell is kept. */
  function ClearTile(g: Grid, c: Vec2): (r: Grid)
    requires 0 <= IndexOf(g, c) < |g.tiles|
    ensures r.tileSize == g.tileSize && r.position == g.position && r.dimensions == g.dimensions
    ensures |r.tiles| == |g.tiles|
    ensures r.tiles[IndexOf(g, c)] == None
    ensures forall i :: 0 <= i < |g.tiles| && i != IndexOf(g, c) ==> r.tiles[i] == g.tiles[i]
  {
    g.(tiles := g.tiles[IndexOf(g, c) := None])
  }

  /** Two in-bounds coordinates share a cell only if they are equal, and an
      in-bounds coordinate's cell lies inside the vector. */
  lemma BoundIndex(g: Grid, c: Vec2, d: Vec2)
    requires g.Valid() && IsBound(g, c) && IsBound(g, d)
    ensures 0 <= IndexOf(g, c) < |g.tiles|
    ensures IndexOf(g, c) == IndexOf(g, d) <==> c == d
  {
    AppContainer.InBoundsIndex(c, g.dimensions);
    AppContainer.CoordinateRoundTrip(c, g.dimensions);
    AppContainer.CoordinateRoundTrip(d, g.dimensions);
  }

  /** Inside the field, `is_occupied` reads exactly the coordinate's own cell. */
  lemma OccupiedInBounds(g: Grid, c: Vec2)
    requires g.Valid() && IsBound(g, c)
    ensures 0 <= IndexOf(g, c) < |g.tiles|
    ensures IsOccupied(g, c) <==> g.tiles[IndexOf(g, c)].Some?
  {
    AppContainer.InBoundsIndex(c, g.dimensions);
  }

  /** A column inside the row above the field has a negative index, so it is
      never occupied; a column one past the right edge reads the first cell
      of the next row instead of failing. */
  lemma OccupiedOutside(g: Grid, x: int, y: int)
    requires 0 <= x < g.dimensions.x && y < 0
    ensures !IsOccupied(g, Vec2(x, y))
    ensures IsOccupied(g, Vec2(g.dimensions.x, y)) == IsOccupied(g, Vec2(0, y + 1))
  {
    Arith.RowMajorNegative(g.dimensions.x, x, y);
  }

  /** After a set, reading an in-bounds coordinate yields the new tile at
      the coordinate set and the old contents everywhere else. */
  lemma SetThenGet(g: Grid, c: Vec2, data: TileData, d: Vec2)
    requires g.Valid() && IsBound(g, c) && IsBound(g, d)
    ensures 0 <= IndexOf(g, c) < |g.tiles|
    ensures GetAtCoord(SetTile(g, c, data), d)
         == if c == d then Some(Tile(data.id, data.src, CoordToWorldspace(g, c))) else GetAtCoord(g, d)
  {
    BoundIndex(g, c, d);
    BoundIndex(g, d, d);
  }

  /** After a clear, the coordinate cleared is empty and every other
      in-bounds coordinate reads as before. */
  lemma ClearThenGet(g: Grid, c: Vec2, d: Vec2)
    requires g.Valid() && IsBound(g, c) && IsBound(g, d)
    ensures 0 <= IndexOf(g, c) < |g.tiles|
    ensures GetAtCoord(ClearTile(g, c), d) == if c == d then None else GetAtCoord(g, d)
  {
    BoundIndex(g, c, d);
    BoundIndex(g, d, d);
  }

  /** Addressing by index goes through the coordinate round trip: the
      coordinate computed from an index lands on that index again. */
  lemma IndexAddressing(g: Grid, index: nat)
    requires g.dimensions.x > 0
    ensures IndexOf(g, AppContainer.IndexToCoordinate(index, g.dimensions)) == index
  {
    AppContainer.IndexRoundTrip(index, g.dimensions);
  }
}
