/** src/application/tile/tilemap.rs: the tilemap the board plays on. Its
    setters index the cell vector without a bounds check, so a coordinate
    whose linear index falls outside the vector is a caller error (the
    source panics); the readers tolerate any index. */
module AppTilemap {
  import opened Geometry
  import AppContainer
  import AppTileset
  import Stores
  import opened TileGrid

  /** `Tilemap`: a shared tileset, the cells, a world-space position and
      the size in cells. Only the cells change after construction. */
  class Tilemap {
    const tileset: AppTileset.Tileset
    const position: Vec2
    const dimensions: Size2
    var tiles: seq<Option<Tile>>

    /** The tilemap's state as a value. */
    function View(): Grid
      reads this
    {
      Grid(tileset.tileSize, position, dimensions, tiles)
    }

    ghost predicate Valid()
      reads this
    {
      View().Valid()
    }

    /** `new`: `w * h` empty cells. */
    constructor (tileset: AppTileset.Tileset, position: Vec2, dimensions: Size2)
      ensures this.tileset == tileset
      ensures View() == EmptyGrid(tileset.tileSize, position, dimensions)
      ensures Valid()
    {
      this.tileset := tileset;
      this.position := position;
      this.dimensions := dimensions;
      tiles := seq(dimensions.x * dimensions.y, _ => None);
    }

    /** `set_tile_at_coord`: place a tile for `data` at the coordinate's cell. */
    method SetTileAtCoord(c: Vec2, data: TileData)
      requires 0 <= IndexOf(View(), c) < |tiles|
      modifies this
      ensures View() == SetTile(old(View()), c, data)
    {
      tiles := tiles[AppContainer.CoordinateToIndex(c, dimensions) := Some(NewTile(data, CoordToWorldspace(View(), c)))];
    }

    /** `set_tile_at_index`: convert the index to a coordinate and set that;
        the round trip lands on cell `index` again. */
    method SetTileAtIndex(index: nat, data: TileData)
      requires dimensions.x > 0 && index < |tiles|
      modifies this
      ensures tiles == old(tiles)[index := Some(Tile(data.id, data.src, IndexToWorldspace(old(View()), index)))]
    {
      var c := AppContainer.IndexToCoordinate(index, dimensions);
      IndexAddressing(View(), index);
      SetTileAtCoord(c, data);
    }

    /** `clear_tile_at_coord`: empty the coordinate's cell. */
    method ClearTileAtCoord(c: Vec2)
      requires 0 <= IndexOf(View(), c) < |tiles|
      modifies this
      ensures View() == ClearTile(old(View()), c)
    {
      tiles := tiles[AppContainer.CoordinateToIndex(c, dimensions) := None];
    }

    /** `clear_tile_at_index`: convert the index to a coordinate and clear that. */
    method ClearTileAtIndex(index: nat)
      requires dimensions.x > 0 && index < |tiles|
      modifies this
      ensures tiles == old(tiles)[index := None]
    {
      var c := AppContainer.IndexToCoordinate(index, dimensions);
      IndexAddressing(View(), index);
      ClearTileAtCoord(c);
    }
  }

  const NOT_FOUND := "Tilemap not found"

  /** `TilemapStore`: tilemaps by name. */
  class TilemapStore {
    var tilemaps: map<string, Tilemap>

    constructor ()
      ensures tilemaps == map[]
    {
      tilemaps := map[];
    }

    /** `add`: keep an existing tilemap under that name, otherwise insert
        the new one; return the tilemap now stored. */
    method Add(name: string, tilemap: Tilemap) returns (stored: Tilemap)
      modifies this
      ensures tilemaps == Stores.InsertIfAbsent(old(tilemaps), name, tilemap)
      ensures stored == tilemaps[name]
      ensures name in old(tilemaps) ==> stored == old(tilemaps)[name]
    {
      tilemaps := Stores.InsertIfAbsent(tilemaps, name, tilemap);
      stored := tilemaps[name];
    }

    /** `get` (and `get_mut`, which differs only in the borrow it hands
        out): the tilemap, or an error when the name is absent. */
    function Get(name: string): (r: Result<Tilemap>)
      reads this
      ensures r.Ok? <==> name in tilemaps
      ensures r.Ok? ==> r.value == tilemaps[name]
      ensures r.Err? ==> r.error == NOT_FOUND
    {
      Stores.Lookup(tilemaps, name, NOT_FOUND)
    }
  }
}
