/** src/engine/tile/tilemap.rs: the engine's bounds-tolerant tilemap. Its
    setters look the linear index up first and do nothing when it is
    outside the cell vector; it also clears all cells at once. The engine
    tileset is not part of this model: the tilemap reads only its tile
    size, which is kept here as a field. */
module EngineTilemap {
  import opened Geometry
  import EngineContainer
  import opened TileGrid

  /** The engine's `coordinate_to_index` is the same row-major formula the
      shared grid functions use, so the grid's readers describe this
      tilemap's `get_at_coord` and `is_occupied` too. */
  lemma SameIndex(g: Grid, c: Vec2)
    ensures EngineContainer.CoordinateToIndex(c, g.dimensions) == IndexOf(g, c)
  {
  }

  /** `set_tile_at_coord`: the in-range case of the shared `SetTile`, and
      no change at all for an index outside the vector. */
  function SetTileTolerant(g: Grid, c: Vec2, data: TileData): (r: Grid)
    ensures 0 <= IndexOf(g, c) < |g.tiles| ==> r == SetTile(g, c, data)
    ensures !(0 <= IndexOf(g, c) < |g.tiles|) ==> r == g
  {
    if 0 <= IndexOf(g, c) < |g.tiles| then SetTile(g, c, data) else g
  }

  /** `clear_tile_at_coord`, tolerant in the same way. */
  function ClearTileTolerant(g: Grid, c: Vec2): (r: Grid)
    ensures 0 <= IndexOf(g, c) < |g.tiles| ==> r == ClearTile(g, c)
    ensures !(0 <= IndexOf(g, c) < |g.tiles|) ==> r == g
  {
    if 0 <= IndexOf(g, c) < |g.tiles| then ClearTile(g, c) else g
  }

  /** A set that lands inside the vector is read back by `get_at_coord` with
      the data's id and source rectangle, and no other cell changes; one
      that lands outside leaves every cell as it was. */
  lemma SetTolerantEffect(g: Grid, c: Vec2, data: TileData)
    ensures |SetTileTolerant(g, c, data).tiles| == |g.tiles|
    ensures 0 <= IndexOf(g, c) < |g.tiles| ==>
      GetAtCoord(SetTileTolerant(g, c, data), c) == Some(Tile(data.id, data.src, CoordToWorldspace(g, c)))
    ensures forall i :: 0 <= i < |g.tiles| && i != IndexOf(g, c) ==> SetTileTolerant(g, c, data).tiles[i] == g.tiles[i]
  {
  }

  /** A coordinate above the field with its column inside the row (a piece
      cell at spawn) is silently dropped by a set. */
  lemma SetAboveFieldIgnored(g: Grid, x: int, y: int, data: TileData)
    requires 0 <= x < g.dimensions.x && y < 0
    ensures SetTileTolerant(g, Vec2(x, y), data) == g
    ensures ClearTileTolerant(g, Vec2(x, y)) == g
  {
    Arith.RowMajorNegative(g.dimensions.x, x, y);
  }

  /** `Tilemap`: cells, position and size, plus the tileset's tile size. */
  class Tilemap {
    const tileSize: Size2
    const position: Vec2
    const dimensions: Size2
    var tiles: seq<Option<Tile>>

    function View(): Grid
      reads this
    {
      Grid(tileSize, position, dimensions, tiles)
    }

    /** `new`: `w * h` empty cells. */
    constructor (tileSize: Size2, position: Vec2, dimensions: Size2)
      ensures View() == EmptyGrid(tileSize, position, dimensions)
    {
      this.tileSize := tileSize;
      this.position := position;
      this.dimensions := dimensions;
      tiles := seq(dimensions.x * dimensions.y, _ => None);
    }

    /** `set_tile_at_coord`: write the cell if the index is inside the vector. */
    method SetTileAtCoord(c: Vec2, data: TileData)
      modifies this
      ensures View() == SetTileTolerant(old(View()), c, data)
    {
      var index := EngineContainer.CoordinateToIndex(c, dimensions);
      if 0 <= index < |tiles| {
        tiles := tiles[index := Some(NewTile(data, CoordToWorldspace(View(), c)))];
      }
    }

    /** `set_tile_at_index`: through the coordinate round trip, cell `index`
        if it exists, otherwise nothing. */
    method SetTileAtIndex(index: nat, data: TileData)
      requires dimensions.x > 0
      modifies this
      ensures index < |old(tiles)| ==> tiles == old(tiles)[index := Some(Tile(data.id, data.src, IndexToWorldspace(old(View()), index)))]
      ensures index >= |old(tiles)| ==> tiles == old(tiles)
    {
      var c := EngineContainer.IndexToCoordinate(index, Vec2(dimensions.x, dimensions.y));
      IndexAddressing(View(), index);
      SetTileAtCoord(c, data);
    }

    /** `clear_tile_at_coord`: empty the cell if the index is inside the vector. */
    method ClearTileAtCoord(c: Vec2)
      modifies this
      ensures View() == ClearTileTolerant(old(View()), c)
    {
      var index := EngineContainer.CoordinateToIndex(c, dimensions);
      if 0 <= index < |tiles| {
        tiles := tiles[index := None];
      }
    }

    /** `clear_tile_at_index`: cell `index` if it exists, otherwise nothing. */
    method ClearTileAtIndex(index: nat)
      requires dimensions.x > 0
      modifies this
      ensures index < |old(tiles)| ==> tiles == old(tiles)[index := None]
      ensures index >= |old(tiles)| ==> tiles == old(tiles)
    {
      var c := EngineContainer.IndexToCoordinate(index, Vec2(dimensions.x, dimensions.y));
      IndexAddressing(View(), index);
      ClearTileAtCoord(c);
    }

    /** `clear_tiles`: every cell becomes empty; the length is kept. */
    method ClearTiles()
      modifies this
      ensures |tiles| == |old(tiles)|
      ensures forall i :: 0 <= i < |tiles| ==> tiles[i] == None
    {
      var i := 0;
      while i < |tiles|
        invariant 0 <= i <= |tiles| == |old(tiles)|
        invariant forall j :: 0 <= j < i ==> tiles[j] == None
      {
        tiles := tiles[i := None];
        i := i + 1;
      }
    }
  }
}
