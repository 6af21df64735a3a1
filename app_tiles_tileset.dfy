/** src/application/tiles/tileset.rs: the older tileset snapshot. Its
    tileset and slicing are the same as in `AppTileset` (including rows
    counted from the texture width); what it adds is its own store of
    shared tilesets with its own error message. */
module AppTilesTileset {
  import opened Geometry
  import AppTileset
  import Stores

  /** `make_tiles` of this snapshot: the same checks and the same as-written
      slicing as the other snapshot's. */
  method MakeTiles(dimensions: Size2, tileSize: Size2) returns (r: Result<seq<TileData>>)
    requires tileSize.x > 0 && tileSize.y > 0
    ensures dimensions.x % tileSize.x != 0 ==> r == Err(AppTileset.WIDTH_ERROR)
    ensures dimensions.x % tileSize.x == 0 && dimensions.y % tileSize.y != 0 ==> r == Err(AppTileset.HEIGHT_ERROR)
    ensures r.Ok? <==> dimensions.x % tileSize.x == 0 && dimensions.y % tileSize.y == 0
    ensures r.Ok? ==> r.value == AppTileset.Sliced(dimensions.x / tileSize.y, dimensions.x / tileSize.x, tileSize)
  {
    r := AppTileset.MakeTiles(dimensions, tileSize);
  }

  const NOT_FOUND := "Failed to get tileset"

  /** `TilesetStore`: shared tilesets by name. */
  class TilesetStore {
    var tilesets: map<string, AppTileset.Tileset>

    constructor ()
      ensures tilesets == map[]
    {
      tilesets := map[];
    }

    /** `add`: insert if the name is new; return (a clone of the handle to)
        the tileset now stored under the name. */
    method Add(name: string, tileset: AppTileset.Tileset) returns (stored: AppTileset.Tileset)
      modifies this
      ensures tilesets == Stores.InsertIfAbsent(old(tilesets), name, tileset)
      ensures stored == tilesets[name]
      ensures name in old(tilesets) ==> stored == old(tilesets)[name]
    {
      tilesets := Stores.InsertIfAbsent(tilesets, name, tileset);
      stored := tilesets[name];
    }

    /** `get`: the tileset, or an error when the name is absent. */
    function Get(name: string): (r: Result<AppTileset.Tileset>)
      reads this
      ensures r.Ok? <==> name in tilesets
      ensures r.Ok? ==> r.value == tilesets[name]
      ensures r.Err? ==> r.error == NOT_FOUND
    {
      Stores.Lookup(tilesets, name, NOT_FOUND)
    }
  }
}
