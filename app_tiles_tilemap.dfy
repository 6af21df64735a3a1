/** src/application/tiles/tilemap.rs: the older tilemap snapshot, with
    getters and setters by coordinate and by index only. Like the current
    application tilemap it indexes the cell vector unchecked on a set. */
module AppTilesTilemap {
  import opened Geometry
  import AppContainer
  import AppTileset
  import Stores
  import opened TileGrid

  class Tilemap {
    const tileset: AppTileset.Tileset
    const position: Vec2
    const dimensions: Size2
    var tiles: seq<Option<Tile>>

    function View(): Grid
      reads this
    {
      Grid(tileset.tileSize, position, dimensions, tiles)
    }

    /** `new`: `w * h` empty cells. */
    constructor (tileset: AppTileset.Tileset, position: Vec2, dimensions: Size2)
      ensures this.tileset == tileset
      ensures View() == EmptyGrid(tileset.tileSize, position, dimensions)
    {
      this.tileset := tileset;
      this.position := position;
      this.dimensions := dimensions;
      tiles := seq(dimensions.x * dimensions.y, _ => None);
    }

    /** `set_tile_at_coord`: writes only the coordinate's cell, which must
        exist. */
    method SetTileAtCoord(c: Vec2, data: TileData)
      requires 0 <= IndexOf(View(), c) < |tiles|
      modifies this
      ensures View() == SetTile(old(View()), c, data)
    {
      tiles := tiles[AppContainer.CoordinateToIndex(c, dimensions) := Some(NewTile(data, CoordToWorldspace(View(), c)))];
    }

    /** `set_tile_at_index`: writes cell `index`, reached through the
        index-to-coordinate round trip. */
    method SetTileAtIndex(index: nat, data: TileData)
      requires dimensions.x > 0 && index < |tiles|
      modifies this
      ensures tiles == old(tiles)[index := Some(Tile(data.id, data.src, IndexToWorldspace(old(View()), index)))]
    {
      var c := AppContainer.IndexToCoordinate(index, dimensions);
      IndexAddressing(View(), index);
      SetTileAtCoord(c, data);
    }
  }

  const NOT_FOUND := "Tilemap not found"

  /** `TilemapStore`: tilemaps by name, insert-if-absent. */
  class TilemapStore {
    var tilemaps: map<string, Tilemap>

    constructor ()
      ensures tilemaps == map[]
    {
      tilemaps := map[];
    }

    /** `add`: keep an existing tilemap under that name, otherwise insert. */
    method Add(name: string, tilemap: Tilemap) returns (stored: Tilemap)
      modifies this
      ensures tilemaps == Stores.InsertIfAbsent(old(tilemaps), name, tilemap)
      ensures stored == tilemaps[name]
      ensures name in old(tilemaps) ==> stored == old(tilemaps)[name]
    {
      tilemaps := Stores.InsertIfAbsent(tilemaps, name, tilemap);
      stored := tilemaps[name];
    }

    /** `get` / `get_mut`: the tilemap, or an error when the name is absent. */
    function Get(name: string): (r: Result<Tilemap>)
      reads this
      ensures r.Ok? <==> name in tilemaps
      ensures r.Ok? ==> r.value == tilemaps[name]
      ensures r.Err? ==> r.error == NOT_FOUND
    {
      Stores.Lookup(tilemaps, name, NOT_FOUND)
    }
  }
}
