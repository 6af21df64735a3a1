# A verified model of the rules of a falling-block game

This project models, in Dafny, the rules engine of a small Rust falling-block
("Tetris") game together with the state machines that support it:

- **Shape catalogue.** ASCII rotation tables are parsed into cell offsets.
  Each of the seven kinds (I, J, L, O, S, T, Z) gets a tile id and a spawn
  offset (`PieceCatalog`, `piece_catalog.dfy`).
- **Playing field.** It is a row-major vector of optional tiles indexed by
  `w * y + x`. The three tilemap snapshots of the repository all share the
  value-level `TileGrid.Grid`:
  - `AppTilemap`: the tilemap the board uses. It indexes unchecked, so an
    out-of-range write aborts.
  - `EngineTilemap`: bounds-tolerant. Out-of-range writes are ignored.
  - `AppTilesTilemap`: an older snapshot.

  The two `coordinate_to_index` / `index_to_coordinate` helper files are
  `AppContainer` and `EngineContainer`.
- **Collision predicates** (`Algorithm`). They are stated by their quantified
  meaning.
- **Piece moves and rotations** (`Pieces`). Evaluation has a three-way
  outcome: Success, Collision or Land. Writing and erasing a footprint are
  methods on the tilemap object, proved against value-level folds.
- **The board** (`GameBoard`). It covers:
  - the key-driven update (S, A, D, J);
  - spawning the J piece;
  - `clear_line`;
  - the cascading `move_lines_down`.
- **Scoring** (`Scoring`).
- **Supporting state machines:**
  - both timer modules (`EngineTime`, `AppTime`), with the clock as an
    explicit `now` parameter;
  - the engine event store, with edge-triggered key presses (`EngineEvent`);
  - the insert-if-absent stores (`Stores`, plus the tilemap and tileset
    stores);
  - tileset slicing (`AppTileset`, `AppTilesTileset`).

## How the model is shaped

- **Objects the source mutates are classes.** This covers tilemaps, pieces,
  the board, timers, timeouts, the event store and the stores. Each method
  is proved against a function of the old state, for example
  `tilemap.View() == WriteCells(old(tilemap.View()), cells, data)`. The
  properties are then proved as lemmas about those functions.
- **Pure code is functions and lemmas.** This covers the collision
  predicates, the container arithmetic, the scoring and the piece
  evaluation.
- **Loops stay loops.** Each becomes a method with invariants:
  - the nested scan of the shape parser;
  - the slicing of a texture;
  - `write_piece` / `erase_piece`;
  - the two line loops of the board;
  - `Events::update`.
- **Coordinates are signed integers.** The engine's coordinate type is signed,
  and the piece logic builds negative steps and tests `y < 0`. A negative
  linear index is outside the cell vector.
- **Aborts are an outcome.** The application tilemap indexes its cell vector
  without a check (`tiles[index as usize] = …`). The board model therefore
  checks that every cell of a footprint is in range before writing. When one
  is not, the update ends in the explicit outcome `GameBoard.Panicked`. That
  outcome is never excluded by a precondition.

Behaviours of the source that the proofs bring out, all modelled as written:

- **Spawn-then-rotate aborts.** `GameBoard.SpawnThenRotatePanics` shows the
  sequence. Pressing J right after a J piece spawns on an empty field is
  accepted: rotation 1 reaches row -1, and `check_bounds` admits cells above
  the field. Writing that cell then indexes the cell vector at -5, which
  panics in the application tilemap. The engine tilemap would silently drop
  the same write (`EngineTilemap.SetAboveFieldIgnored`).
- **The move check uses relative offsets.** `evaluate_transform` and
  `evaluate_rotation` remove from the proposed absolute footprint the cells
  that equal the current rotation's relative offsets, not the piece's current
  absolute cells. `Pieces.RelativeExclusionSkipsCell` exhibits a move onto an
  occupied cell that is accepted because of this. It is not listed under
  Findings: the board erases the piece before every move, so the check's
  purpose is unclear, and the model keeps the source's exact behaviour.
- **A landed piece is revived.** `update` never consults the piece's state.
  A landed piece moves like an active one, and a successful sideways move
  makes it active again (`GameBoard.LandedPieceRevived`).
- **`Repeat::For(n)` never restarts its timer.** Once it has fired and is
  still alive, it fires again on every later call however soon
  (`AppTime.ForFiresBackToBack`). `For(0)` still fires once: each firing is
  counted before the check against `n` (`AppTime.OnTimeoutStep`), so from a
  fresh timeout it runs at most `max(n, 1)` times (`AppTime.ForFromFresh`).
- **The I piece's spawn offset is one, not two.** The spawn offset is
  documented as the number of blank rows above the first rotation. That holds
  for every kind except I, whose first table has two blank rows but an offset
  of one (`PieceCatalog.OffsetMatchesBlankRows`).
- **Out-of-row columns alias.** A column just past the right edge shares its
  linear index with the first column of the next row
  (`EngineContainer.RowAliasing`). Collision checks are safe only because
  bounds are checked first (`Algorithm.BoundedFreeCells`).

## Model

| member | source | states |
|---|---|---|
| Algorithm.AboveBounds | src/algorithm.rs:5-8 | a cell is above the field when its row is negative and its column is in `[0, w)` |
| Algorithm.AboveBoundsOutside | src/algorithm.rs:5-8 | a cell above the field with its column inside the row is neither inside the field nor occupied, and its linear index is negative |
| Algorithm.IsShapeOnBottom | src/algorithm.rs:10-14 | true exactly when some cell is on or below the last row (`y >= h - 1`); false for an empty list |
| Algorithm.TransformShape | src/algorithm.rs:16-21 | the moved list has the same length and order, each cell shifted by the delta |
| Algorithm.GetNewShapeCoordinates | src/algorithm.rs:23-28 | exactly the cells of the new list that are not in the old one, as a subsequence of the new list; empty when the new cells are all old, the whole new list when none are |
| Algorithm.CheckBounds | src/algorithm.rs:30-33 | true exactly when every cell is above the field or inside it (vacuously for an empty list) |
| Algorithm.CheckShapeCollision | src/algorithm.rs:35-38 | true exactly when some cell is occupied (false for an empty list) |
| Algorithm.BoundedFreeCells | src/algorithm.rs:30-38 | cells that pass the bounds check and have no collision are each above the field or on an empty cell inside the vector, so row aliasing never affects the collision check |
| AppContainer.CoordinateToIndex | src/application/utility/container.rs:3-5 | the row-major index `w * y + x`; its meaning is carried by the round-trip and in-bounds lemmas below |
| AppContainer.IndexToCoordinate | src/application/utility/container.rs:7-11 | the coordinate of an index has its column in `[0, w)` and a non-negative row |
| AppContainer.CoordinateRoundTrip | src/application/utility/container.rs:3-11 | a coordinate with its column inside the row comes back unchanged from index-then-coordinate |
| AppContainer.IndexRoundTrip | src/application/utility/container.rs:3-11 | every index comes back unchanged from coordinate-then-index when `w > 0` |
| AppContainer.InBoundsIndex | src/application/utility/container.rs:3-5 | in-bounds coordinates map into `[0, w * h)` |
| EngineContainer.CoordinateToIndex | src/engine/utility/container.rs:3-5 | the row-major index `w * y + x`, signed; its meaning is carried by the round-trip, in-bounds and aliasing lemmas below |
| EngineContainer.IndexToCoordinate | src/engine/utility/container.rs:7-11 | the coordinate of an index has its column in `[0, w)` and a non-negative row |
| EngineContainer.CoordinateRoundTrip | src/engine/utility/container.rs:3-11 | a coordinate with its column inside the row round-trips through its index |
| EngineContainer.IndexRoundTrip | src/engine/utility/container.rs:3-11 | every index round-trips through its coordinate |
| EngineContainer.InBoundsIndex | src/engine/utility/container.rs:3-5 | in-bounds cells map into `[0, w * h)`, and two in-bounds cells share an index only if they are equal |
| EngineContainer.RowAliasing | src/engine/utility/container.rs:3-5 | `(w, y)` has the same index as `(0, y + 1)`, and a cell above row 0 with its column inside the row has a negative index |
| TileGrid.EmptyGrid | src/application/tile/tilemap.rs:57-61 | a new grid has `w * h` cells, all empty, and the given tile size, position and dimensions |
| TileGrid.GetAtIndex | src/application/tile/tilemap.rs:69-74 | the cell's content for an index inside the vector, nothing for any index outside it |
| TileGrid.GetAtCoord | src/application/tile/tilemap.rs:65-68 | the content at the coordinate's linear index, nothing when that index is outside the vector (see `TileGrid.SetThenGet`) |
| TileGrid.CoordToWorldspace | src/application/tile/tilemap.rs:102-108 | `position + coordinate * tile_size`, componentwise |
| TileGrid.IndexToWorldspace | src/application/tile/tilemap.rs:109-113 | the world-space position of the coordinate of an index, for `w > 0` |
| TileGrid.IsBound | src/application/tile/tilemap.rs:117-121 | `0 <= x < w` and `0 <= y < h` |
| TileGrid.IsOccupied | src/application/tile/tilemap.rs:123-125 | `get_at_coord` finds a tile (inside the field, exactly the cell's own content: `TileGrid.OccupiedInBounds`) |
| TileGrid.SetTile | src/application/tile/tilemap.rs:78-83 | the addressed cell holds a tile with the data's id and source at `position + coordinate * tile_size`; every other cell and the grid's size are unchanged |
| TileGrid.ClearTile | src/application/tile/tilemap.rs:90-93 | the addressed cell becomes empty; every other cell and the grid's size are unchanged |
| TileGrid.BoundIndex | src/application/tile/tilemap.rs:117-121 | an in-bounds coordinate's cell is inside the vector, and two in-bounds coordinates share a cell only if they are equal |
| TileGrid.OccupiedInBounds | src/application/tile/tilemap.rs:123-125 | inside the field, `is_occupied` holds exactly when the coordinate's own cell holds a tile |
| TileGrid.OccupiedOutside | src/application/tile/tilemap.rs:65-68 | a cell above the field reads as free, while the column past the right edge reads the first cell of the next row |
| TileGrid.SetThenGet | src/application/tile/tilemap.rs:65-83 | after a set, the coordinate set reads the new tile and every other in-bounds coordinate reads what it held before |
| TileGrid.ClearThenGet | src/application/tile/tilemap.rs:90-93 | after a clear, the coordinate cleared reads empty and every other in-bounds coordinate reads what it held before |
| TileGrid.IndexAddressing | src/application/tile/tilemap.rs:84-88 | the coordinate computed from an index addresses that same index |
| AppTilemap.Tilemap.constructor | src/application/tile/tilemap.rs:57-61 | the new tilemap is the empty grid of the given size, position and tileset |
| AppTilemap.Tilemap.SetTileAtCoord | src/application/tile/tilemap.rs:78-83 | the tilemap becomes `SetTile` of its old state; the index must be inside the vector, as the unchecked indexing demands |
| AppTilemap.Tilemap.SetTileAtIndex | src/application/tile/tilemap.rs:84-88 | exactly cell `index` is replaced by the tile placed at that index's world position |
| AppTilemap.Tilemap.ClearTileAtCoord | src/application/tile/tilemap.rs:90-93 | the tilemap becomes `ClearTile` of its old state |
| AppTilemap.Tilemap.ClearTileAtIndex | src/application/tile/tilemap.rs:94-98 | exactly cell `index` becomes empty |
| AppTilemap.TilemapStore.constructor | src/application/tile/tilemap.rs:21-23 | the store starts empty |
| AppTilemap.TilemapStore.Add | src/application/tile/tilemap.rs:24-26 | insert-if-absent; the tilemap returned is the one stored under the name, which is the old one for a duplicate name |
| AppTilemap.TilemapStore.Get | src/application/tile/tilemap.rs:27-38 | Ok with the stored tilemap exactly when the name is present, otherwise the "Tilemap not found" error |
| EngineTilemap.SameIndex | src/engine/tile/tilemap.rs:33-36 | the engine's index helper gives the same linear index as the shared grid |
| EngineTilemap.SetTileTolerant | src/engine/tile/tilemap.rs:46-54 | an in-range set is the shared `SetTile`; an out-of-range one leaves the grid unchanged |
| EngineTilemap.ClearTileTolerant | src/engine/tile/tilemap.rs:62-68 | an in-range clear is the shared `ClearTile`; an out-of-range one leaves the grid unchanged |
| EngineTilemap.SetTolerantEffect | src/engine/tile/tilemap.rs:33-54 | the length is kept; an in-range set is read back by `get_at_coord` with the data's id and source; no other cell changes |
| EngineTilemap.SetAboveFieldIgnored | src/engine/tile/tilemap.rs:46-54 | setting or clearing a cell above the field changes nothing |
| EngineTilemap.Tilemap.constructor | src/engine/tile/tilemap.rs:25-29 | the new tilemap is the empty grid of the given size |
| EngineTilemap.Tilemap.SetTileAtCoord | src/engine/tile/tilemap.rs:46-54 | the tilemap becomes the tolerant set of its old state |
| EngineTilemap.Tilemap.SetTileAtIndex | src/engine/tile/tilemap.rs:55-60 | cell `index` is replaced when it exists; otherwise nothing changes |
| EngineTilemap.Tilemap.ClearTileAtCoord | src/engine/tile/tilemap.rs:62-68 | the tilemap becomes the tolerant clear of its old state |
| EngineTilemap.Tilemap.ClearTileAtIndex | src/engine/tile/tilemap.rs:69-73 | cell `index` becomes empty when it exists; otherwise nothing changes |
| EngineTilemap.Tilemap.ClearTiles | src/engine/tile/tilemap.rs:75-79 | every cell becomes empty and the length is kept |
| AppTilesTilemap.Tilemap.constructor | src/application/tiles/tilemap.rs:54-58 | the new tilemap is the empty grid of the given size, position and tileset |
| AppTilesTilemap.Tilemap.SetTileAtCoord | src/application/tiles/tilemap.rs:75-80 | only the coordinate's cell is written (`SetTile` of the old state); the index must be inside the vector |
| AppTilesTilemap.Tilemap.SetTileAtIndex | src/application/tiles/tilemap.rs:81-84 | through the index-to-coordinate round trip, exactly cell `index` is replaced |
| AppTilesTilemap.TilemapStore.constructor | src/application/tiles/tilemap.rs:18-20 | the store starts empty |
| AppTilesTilemap.TilemapStore.Add | src/application/tiles/tilemap.rs:21-23 | insert-if-absent; returns the tilemap now stored under the name |
| AppTilesTilemap.TilemapStore.Get | src/application/tiles/tilemap.rs:24-35 | Ok exactly when the name is present, otherwise the "Tilemap not found" error |
| AppTileset.GetTiledata | src/application/tile/tileset.rs:27-32 | `Some(tiles[id])` exactly when `id` is below the number of tiles, otherwise nothing |
| AppTileset.SlicedLength | src/application/tile/tileset.rs:45-53 | slicing `rows` rows of `columns` tiles yields `rows * columns` tiles |
| AppTileset.SlicedAt | src/application/tile/tileset.rs:45-53 | tile `i` has id `i` and its source rectangle at column `i % columns`, row `i / columns`, one tile size per step |
| AppTileset.SliceTexture | src/application/tile/tileset.rs:45-53 | the nested loop pushes exactly the row-major slicing |
| AppTileset.MakeTiles | src/application/tile/tileset.rs:35-55 | the width error when the width is not divisible, otherwise the height error when the height is not; on success the slicing with `width / tile_height` rows and `width / tile_width` columns, as written |
| AppTileset.WidthUsedForRows | src/application/tile/tileset.rs:46-47 | on a 16x8 texture with 8x8 tiles the as-written slicing makes four tiles, and tile 2's source rectangle is not inside the texture |
| AppTileset.MakeTilesCorrected | src/application/tile/tileset.rs:35-55 | the same two errors in the same order, with rows counted from the height; on success every tile's source rectangle lies inside the texture |
| AppTileset.SlicedInsideTexture | src/application/tile/tileset.rs:46-50 | with rows from the height, every tile's source rectangle lies inside the texture |
| AppTilesTileset.MakeTiles | src/application/tiles/tileset.rs:49-69 | the same errors and the same as-written slicing as the other snapshot |
| AppTilesTileset.TilesetStore.constructor | src/application/tiles/tileset.rs:16-18 | the store starts empty |
| AppTilesTileset.TilesetStore.Add | src/application/tiles/tileset.rs:19-21 | insert-if-absent; returns the handle now stored under the name |
| AppTilesTileset.TilesetStore.Get | src/application/tiles/tileset.rs:22-24 | Ok exactly when the name is present, otherwise "Failed to get tileset" |
| Stores.InsertIfAbsent | src/engine/structure/store.rs:15-17 | the keys grow by the key and no key is removed; the key keeps its old value if present and otherwise holds the new one; other keys are unchanged |
| Stores.Lookup | src/engine/structure/store.rs:21-27 | Ok with the stored value exactly when the key is present, otherwise the given error |
| Stores.InsertIdempotent | src/engine/structure/store.rs:15-17 | a second add under the same key changes nothing |
| Stores.AddThenLookup | src/engine/structure/store.rs:15-27 | after an add, a lookup of the key succeeds with the value the add returned |
| Stores.HeapStore.constructor | src/engine/structure/store.rs:9-11 | the store starts empty |
| Stores.HeapStore.Add | src/engine/structure/store.rs:15-17 | insert-if-absent; returns the stored value, which is the old one, with the store unchanged, for a present key |
| Stores.HeapStore.Get | src/engine/structure/store.rs:21-27 | Ok exactly when the key is present, otherwise "Failed to get <key> from store" |
| Stores.Store.constructor | src/engine/structure/store.rs:37-39 | the store starts empty |
| Stores.Store.Add | src/engine/structure/store.rs:43-45 | insert-if-absent, as for the heap store |
| Stores.Store.Get | src/engine/structure/store.rs:49-55 | Ok exactly when the key is present, otherwise the error naming the key |
| EngineTime.Elapsed | src/engine/time/mod.rs:29-32 | the time since the start, zero for a start in the future |
| EngineTime.ConsumeStep | src/engine/time/mod.rs:45-58 | fires exactly when enabled and done; when it does not fire nothing changes; `Restart` then restarts at `now`, `Disable` clears the flag |
| EngineTime.Timer.constructor | src/engine/time/mod.rs:21-27 | started now with the given duration and flag |
| EngineTime.Timer.Start | src/engine/time/mod.rs:35-38 | start becomes now and the timer is enabled |
| EngineTime.Done | src/engine/time/mod.rs:30-32 | the elapsed time has reached the duration, whatever the enabled flag |
| EngineTime.Timer.IsDone | src/engine/time/mod.rs:30-32 | `Done` of the timer's current state |
| EngineTime.Timer.Restart | src/engine/time/mod.rs:40-42 | only the start changes |
| EngineTime.Timer.Consume | src/engine/time/mod.rs:45-58 | the result and the new state are `ConsumeStep` of the old state |
| EngineTime.Timer.ConsumeMap | src/engine/time/mod.rs:62-68 | as `Consume`, and the callback is applied exactly when it fires |
| EngineTime.DisabledStaysQuiet | src/engine/time/mod.rs:45-48 | a disabled timer never fires and never changes, over any sequence of calls |
| EngineTime.DisableFiresOnce | src/engine/time/mod.rs:45-58 | with `Disable`, any sequence of calls fires at most once, and after a firing the timer is disabled |
| EngineTime.RestartWaitsFullDuration | src/engine/time/mod.rs:53 | after a `Restart` firing the timer stays enabled and is not done again before a full duration |
| EngineTime.RestartKeepsFlag | src/engine/time/mod.rs:53 | with `Restart`, the enabled flag and the duration never change |
| AppTime.Timer.constructor | src/application/time/mod.rs:14-19 | started now with the given duration |
| AppTime.TimeIsUp | src/application/time/mod.rs:27-29 | the elapsed time has reached the duration |
| AppTime.Timer.IsDone | src/application/time/mod.rs:27-29 | `TimeIsUp` of the timer's start and duration |
| AppTime.Timer.Reset | src/application/time/mod.rs:22-24 | the start becomes now |
| AppTime.Timer.Consume | src/application/time/mod.rs:32-38 | returns whether the time was up, and resets the start exactly when it was |
| AppTime.Timer.Debounce | src/application/time/mod.rs:40-44 | returns whether the time was up before the call, and always resets |
| AppTime.OnTimeoutStep | src/application/time/mod.rs:95-117 | Expired exactly when dead; the visitor runs exactly when alive and the time is up, and then the counter grows by one; it dies for `Never` or when the count reaches `For(n)`; only `Forever` restarts the timer; without a firing nothing changes |
| AppTime.Timeout.constructor | src/application/time/mod.rs:70-77 | a fresh timer, counter zero, alive |
| AppTime.Timeout.Reset | src/application/time/mod.rs:80-82 | only the timer's start changes |
| AppTime.Timeout.HardReset | src/application/time/mod.rs:85-89 | alive again, counter zero, timer restarted |
| AppTime.Timeout.OnTimeout | src/application/time/mod.rs:95-117 | the returned state, the new fields and the visitor's effect are those of `OnTimeoutStep` |
| AppTime.DeadStaysDead | src/application/time/mod.rs:96-98 | a dead timeout never runs the visitor and never changes |
| AppTime.NeverRunsOnce | src/application/time/mod.rs:105-106 | with `Never`, the visitor runs at most once over any sequence of calls |
| AppTime.Allowance | src/application/time/mod.rs:107-110 | the firings `For(n)` allows are at least one and at least `n` |
| AppTime.ForRunsBounded | src/application/time/mod.rs:107-110 | with `For(n)`, the counter counts every firing and never passes `max(n, 1)` |
| AppTime.ForFromFresh | src/application/time/mod.rs:107-110 | from a fresh timeout, `For(n)` runs the visitor at most `max(n, 1)` times |
| AppTime.ForeverNeverDies | src/application/time/mod.rs:111-113 | `Forever` never dies, and the counter counts every firing |
| AppTime.ForFiresBackToBack | src/application/time/mod.rs:107-113 | a `For(n)` timeout that fired and is still alive fires again on the next call, however soon |
| AppTime.ForeverWaits | src/application/time/mod.rs:111-113 | after a `Forever` firing, the visitor does not run again before a full duration |
| EngineEvent.EventStore.constructor | src/engine/event/mod.rs:17-23 | no keys held or pressed, mouse at the origin |
| EngineEvent.EventStore.ClearPressedKeys | src/engine/event/mod.rs:27-29 | the pressed set is emptied; held keys and the mouse are kept |
| EngineEvent.EventStore.PressKey | src/engine/event/mod.rs:30-33 | the key joins both the pressed and the held set |
| EngineEvent.EventStore.RaiseKey | src/engine/event/mod.rs:34-37 | the key leaves the held set only; pressed is unchanged |
| EngineEvent.EventStore.IsKeyPressed | src/engine/event/mod.rs:45-47 | the key is in the set pressed this frame |
| EngineEvent.EventStore.IsKeyHeld | src/engine/event/mod.rs:49-51 | the key is in the held set |
| EngineEvent.EventStore.GetMousePosition | src/engine/event/mod.rs:52-54 | the stored mouse position |
| EngineEvent.EventStore.SetMousePosition | src/engine/event/mod.rs:38-40 | the mouse is at the position given; the key sets are unchanged |
| EngineEvent.Events.constructor | src/engine/event/mod.rs:63-69 | the quit flag starts false |
| EngineEvent.Events.Update | src/engine/event/mod.rs:71-96 | the store and quit flag end as the frame's events applied in order, starting from an empty pressed set |
| EngineEvent.HeldKeyNotPressed | src/engine/event/mod.rs:80-86 | a key held at the start of a frame and not released in it is not pressed in that frame, however many key-downs repeat |
| EngineEvent.PressedCameFromKeyDown | src/engine/event/mod.rs:71-96 | a key pressed at the end of a frame had a key-down event during it |
| EngineEvent.MouseFollowsLastMotion | src/engine/event/mod.rs:90-92 | the mouse ends where the last event put it when that event was a motion |
| EngineEvent.UnrelatedEventsKeepState | src/engine/event/mod.rs:75-95 | without key or motion events the key sets and the mouse are unchanged, and quit is set exactly when a quit event occurred |
| Scoring.LevelInvariant | src/math.rs:3-11 | Ok exactly for levels 1 to 29, with the "at least" error below and the "at most" error above |
| Scoring.CalculateScore | src/math.rs:13-29 | an invalid level fails first with its own error; Ok exactly for a valid level and at most four lines, otherwise the invalid-lines error; scores are at most `1200 * 29` and zero exactly for zero lines |
| Scoring.ScoreTable | src/math.rs:13-29 | at a valid level, 0, 1, 2, 3 and 4 lines score 0, 40, 100, 300 and 1200 times the level |
| Scoring.ScoreMonotone | src/math.rs:13-29 | more lines or a higher level never score less |
| Scoring.DetermineSfx | src/math.rs:37-44 | "line" exactly for 1 to 3 lines, "tetris" exactly for 4, nothing exactly for 0 or more than 4 |
| Scoring.SfxIffScore | src/math.rs:13-44 | at a valid level a sound plays exactly when the lines score points |
| PieceCatalog.ParseRowMeaning | src/constants/piece.rs:139-144 | a row yields exactly its tile symbols from the given column on, as `(column, row)`, left to right |
| PieceCatalog.ParseRowsMeaning | src/constants/piece.rs:138-145 | a table yields exactly its tile symbols as `(column, row)`, in row-major order; other characters are ignored |
| PieceCatalog.ParseRotations | src/constants/piece.rs:134-149 | one parsed shape per rotation table, in table order |
| PieceCatalog.GetShapeRotationCoordinates | src/constants/piece.rs:134-149 | the nested loops produce exactly the parsed rotations |
| PieceCatalog.ScanRotation | src/constants/piece.rs:137-146 | the loop over the rows of one table produces exactly that table's parsed cells |
| PieceCatalog.ScanRow | src/constants/piece.rs:139-144 | the loop over one row's characters produces exactly that row's cells |
| PieceCatalog.KindIndex | src/constants/piece.rs:166 | each kind has a position below seven in declaration order |
| PieceCatalog.Data | src/constants/piece.rs:169-179 | each kind's rotations are its parsed table; its tile id is its position plus one (I 1 … Z 7); its spawn offset is 0 for O and 1 otherwise |
| PieceCatalog.Random | src/constants/piece.rs:181-193 | the kind drawn for an index below seven is the kind at that position |
| PieceCatalog.RandomBijective | src/constants/piece.rs:181-193 | the index mapping is a bijection between `0..6` and the seven kinds, so the panic arm is unreachable |
| PieceCatalog.ShapesI | src/constants/piece.rs:10-24 | the I tables parse to their two rotations of four cells with offsets in `0..3` |
| PieceCatalog.ShapesJ | src/constants/piece.rs:25-47 | the J tables parse to their four rotations of four cells with offsets in `0..3` |
| PieceCatalog.ShapesL | src/constants/piece.rs:48-70 | the L tables parse to their four rotations of four cells with offsets in `0..3` |
| PieceCatalog.ShapesO | src/constants/piece.rs:71-77 | the O table parses to its one rotation of four cells with offsets in `0..3` |
| PieceCatalog.ShapesS | src/constants/piece.rs:78-90 | the S tables parse to their two rotations of four cells with offsets in `0..3` |
| PieceCatalog.ShapesT | src/constants/piece.rs:91-113 | the T tables parse to their four rotations of four cells with offsets in `0..3` |
| PieceCatalog.ShapesZ | src/constants/piece.rs:114-125 | the Z tables parse to their two rotations of four cells with offsets in `0..3` |
| PieceCatalog.ParsedShapes | src/constants/piece.rs:10-125 | every kind parses to its rotation count (I 2, J 4, L 4, O 1, S 2, T 4, Z 2) of four-cell rotations with offsets in `0..3` |
| PieceCatalog.CatalogWellFormed | src/constants/piece.rs:151 | for every kind, the rotation count is as tabled, the default rotation 0 is a valid index, and each rotation has four cells with non-negative offsets below four |
| PieceCatalog.OffsetMatchesBlankRows | src/constants/piece.rs:156 | the spawn offset equals the number of blank rows above the first rotation for every kind but I, which has two blank rows and an offset of one |
| Pieces.ToCoordinate | src/piece.rs:78-84 | a single step that is never up: down exactly for `Down`, left exactly for `Left`, right exactly for `Right` |
| Pieces.EvaluateTransform | src/piece.rs:98-128 | success exactly when every checked cell (the moved footprint minus the current offsets) is inside or above the field and free, and then at position plus the step; `Land` only for `Down`, and for `Down` exactly when the bounds failure is on the bottom row or a collision occurred; sideways failures are `Collision` |
| Pieces.EvaluateRotation | src/piece.rs:158-184 | accepts exactly when every checked cell of the next rotation is inside or above the field and free; the proposed rotation `(rotation + 1) % len` is always a valid index |
| Pieces.TransformPose | src/piece.rs:131-146 | the rotation never changes; a success moves the piece and makes it active; a landing marks it landed in place; a collision changes nothing and reports active |
| Pieces.RotatePose | src/piece.rs:187-192 | the rotation becomes the next one, `(r + 1) % len`, exactly when `evaluate_rotation` accepts it, and is kept otherwise; the position and state are kept and the result is always active |
| Pieces.WriteCells | src/piece.rs:58-63 | the grid keeps its position, tile size, dimensions and length; its cells are described by the three lemmas that follow |
| Pieces.WriteCellsFrame | src/piece.rs:58-63 | writing a piece changes no cell outside its footprint |
| Pieces.WriteCellsLast | src/piece.rs:58-63 | a footprint cell holds the tile written for the last coordinate landing on it, placed at that coordinate's world position |
| Pieces.WriteCellsCovers | src/piece.rs:58-63 | after writing, every footprint cell holds a tile with the piece's id and source |
| Pieces.EraseCells | src/piece.rs:65-70 | the grid keeps its position, tile size, dimensions and length; its cells are described by the lemma that follows |
| Pieces.EraseCellsEffect | src/piece.rs:65-70 | erasing empties every footprint cell and changes no other cell |
| Pieces.WritePiece | src/piece.rs:58-63 | the tilemap becomes `WriteCells` of its old state over the piece's current footprint |
| Pieces.ErasePiece | src/piece.rs:65-70 | the tilemap becomes `EraseCells` of its old state over the piece's current footprint |
| Pieces.Piece.Build | src/piece.rs:36-53 | the kind's rotations and tile, rotation 0, state active, position `(4, -offset_y)` |
| Pieces.Piece.TransformPiece | src/piece.rs:131-146 | the new pose and the returned state are `TransformPose` of the old pose on the current field |
| Pieces.Piece.RotatePiece | src/piece.rs:187-192 | the new pose and the returned state are `RotatePose` of the old pose, using the rotations of the kind's data |
| Pieces.DownNeverCollision | src/piece.rs:108-125 | from a footprint that passes the bounds check, a move down never collides: it succeeds or lands |
| Pieces.WrittenCellsOccupied | src/piece.rs:58-63 | distinct in-bounds cells, once written, each read back the tile written there |
| Pieces.RelativeExclusionSkipsCell | src/piece.rs:98-106 | a move onto an occupied cell that coincides with one of the shape's relative offsets succeeds: that cell is never checked |
| Pieces.MoveOntoOffsets | src/piece.rs:99-105 | a move whose target is the origin checks no cell and always succeeds |
| Pieces.EmptyCheckSucceeds | src/piece.rs:104-127 | when no cell needs checking, the move succeeds at position plus the step |
| GameBoard.NextPose | src/board.rs:40-61 | a move keeps the rotation; a rotation keeps the position and state; the rotation stays a valid index |
| GameBoard.ActionStep | src/board.rs:40-61 | when the step does not abort, the field keeps its size and the rotation stays valid, and the piece's old footprint was inside the vector |
| GameBoard.Then | src/board.rs:40-61 | a guarded step keeps the rotation a valid index |
| GameBoard.UpdateSpec | src/board.rs:37-63 | the four guarded steps in the order S, A, D, J keep the rotation a valid index |
| GameBoard.Act | src/board.rs:41-43 | erase, transform or rotate, and write on the objects yields exactly `ActionStep` of the old pose and field, and aborts exactly when it does |
| GameBoard.ActIfPressed | src/board.rs:40-44 | a block of `update` yields exactly `Then` of the old state |
| GameBoard.UpdatePiece | src/board.rs:38-62 | the four blocks yield exactly `UpdateSpec` of the old pose and field |
| GameBoard.Board.constructor | src/board.rs:23-26 | an empty 10 x 20 field at `(1, 1)` and no piece |
| GameBoard.Board.Update | src/board.rs:37-63 | without a piece nothing changes; with one, the new pose and field, or the abort, are `UpdateSpec` of the old ones and the keys pressed this frame |
| GameBoard.Board.SpawnPiece | src/board.rs:65-69 | the board's piece becomes a new J piece at its spawn pose, with cells `(4,0) (5,0) (6,0) (6,1)` written onto the field |
| GameBoard.Board.MoveRowDown | src/board.rs:81-94 | every tile of row `y` moves one row down with the same id and source, row `y` is emptied, and other rows are kept |
| GameBoard.Board.MoveLinesDown | src/board.rs:71-98 | Ok exactly for `line < 20`; the two errors for `line > 20` and `line == 20` leave the field untouched; on Ok, rows `line - 1` up to 0 have each moved one row down |
| GameBoard.Board.ClearLine | src/board.rs:100-111 | Ok exactly for `line < 20`, with the field untouched on error; on Ok row `line` is empty and every other cell is kept |
| GameBoard.Relocated | src/board.rs:85-90 | a carried tile keeps its id and source, and a cell is carried exactly when it held a tile |
| GameBoard.SpawnFootprint | src/board.rs:65-69 | the J piece at its spawn pose covers `(4,0) (5,0) (6,0) (6,1)`, all on the board |
| GameBoard.NoKeysNoChange | src/board.rs:37-63 | an update without S, A, D or J changes nothing |
| GameBoard.ActionDrawsPiece | src/board.rs:40-61 | after a step that does not abort, every cell of the piece's new footprint holds a tile of the piece |
| GameBoard.UpdateDrawsPiece | src/board.rs:37-63 | after an update in which some key acted and nothing aborted, the piece's footprint is drawn |
| GameBoard.ActionStepFrame | src/board.rs:40-61 | after a step that does not abort, a cell outside the new footprint is empty when the old footprint covered it and keeps its content otherwise |
| GameBoard.KeyAction | src/board.rs:40-61 | J rotates; S, A and D move down, left and right |
| GameBoard.SingleKeyUpdate | src/board.rs:37-63 | with exactly one of S, A, D, J pressed, `update` is that key's action alone |
| GameBoard.UpdateFrame | src/board.rs:37-63 | with one key pressed, an update that does not abort empties the old footprint's cells the new one does not cover and keeps every other cell outside the new footprint |
| GameBoard.LandedPieceRevived | src/board.rs:37-63 | a landed piece moves and rotates exactly like an active one, and a successful sideways move makes it active again |
| GameBoard.EraseAfterWrite | src/board.rs:41-43 | on an empty field, erasing what was just written leaves the field empty |
| GameBoard.RotationOnEmptyField | src/piece.rs:158-184 | on an empty field a rotation is accepted whenever the next rotation's cells are inside or above the field |
| GameBoard.RotatedSpawnFootprint | src/board.rs:57-61 | rotation 1 of the J piece at the spawn position passes the bounds check, yet its first cell has linear index -5 |
| GameBoard.RotateIntoRowAbovePanics | src/board.rs:57-61 | a rotation accepted into cells outside the vector makes the step abort |
| GameBoard.SpawnThenRotatePanics | src/board.rs:57-61 | pressing J right after a J piece spawns on an empty field aborts the update |
| GameBoard.ClearThenMoveDown | src/board.rs:71-111 | clearing a row and then moving the lines above it down removes that row: the rows above come down one, the top row is empty, the rows below are kept |
| GameBoard.MoveDownShifts | src/board.rs:79-95 | with row `line` empty, row `y + 1` holds the old row `y` for every `y < line`, row 0 is empty, and the rows below are unchanged; for line 0 nothing changes |

## Left out

- Rendering, audio, asset loading, the window and the main loop. These are SDL calls with nothing to state. `Board::render` is left out with them.
- Polling the SDL event pump. `Events::update` takes the frame's events as a list. Only the quit, key and mouse-motion branches are modelled. The superseded application events module is not part of this model.
- `calculate_speed_ms`: it computes with floating point (`f32` power and a cast).
- Randomness: `ShapeType::random` is modelled from the drawn index on (`PieceCatalog.Random`). The random-number wrapper is not part of this model.
- The wall clock: `Instant` and `Duration` become an explicit integer `now`, and elapsed time saturates at zero.
- Callbacks: those passed to `consume_map` and `on_timeout` are modelled as transformers of the caller's state.
- The object and sprite managers. They are dynamic dispatch over map iteration order, and a second insert-if-absent map.
- The piece's two cooldown timers, created by `Piece::build`. Nothing in the modelled code reads them.
- `Tileset::new`: it loads a texture and expects `make_tiles` to succeed. A tileset is modelled by its tile size and tiles. The engine tilemap keeps only the tile size of its tileset.
- Integer widths: `u32`/`i32`/`usize` overflow is not modelled. Board-sized values are far from the limits. The wrap of a negative index through `as usize` is modelled as "outside the vector".
- `TilemapStore::get_mut` is the same lookup as `get` and is folded into `Get`.
- `GameBoard.Board.Update`: the source imports an application `EventStore` that does not exist among its files, so the engine `EventStore` is used. The source also imports `ShapeType` from a `constants::shape` module that does not exist; the kind type of `src/constants/piece.rs` is used.
- `GameBoard.Board.Update` and `GameBoard.Act`: an aborting write is an explicit `Panicked` outcome. The whole footprint is checked before the write loop starts. The cells written before the abort point, which the program never gets to observe, are not modelled.
- `Pieces.Piece.Build`: it requires the kind's tile to exist in the tileset, where the source would panic in `expect`. The same applies to `GameBoard.Board.SpawnPiece`.
- `AppTilemap.Tilemap.SetTileAtCoord`: it requires the index to be inside the vector, where the source panics. The same applies to `ClearTileAtCoord` and to the older snapshot's `AppTilesTilemap.Tilemap.SetTileAtCoord`. The board model checks this range itself and turns a failure into `Panicked`.
- `AppTilemap.Tilemap.SetTileAtIndex`: it requires `w > 0` and the index inside the vector. The source divides by `w` in `index_to_coordinate` and then indexes the vector without a check, so it panics in both cases. Only the board calls the tilemap, through the coordinate setters.
- `AppTilemap.Tilemap.ClearTileAtIndex`: the same two requires, for the same division by `w` and the same unchecked index.
- `AppTilesTilemap.Tilemap.SetTileAtIndex`: the same two requires, for the older snapshot's division by `w` and unchecked `tiles[index as usize]`.
- `EngineTilemap.Tilemap.SetTileAtIndex` and `EngineTilemap.Tilemap.ClearTileAtIndex`: they require `w > 0`, where the division in `index_to_coordinate` would panic. An index outside the vector is modelled, as the no-op it is.
- `AppTileset.MakeTiles`: it requires a tile size with both sides positive, where the source's `%` by zero panics. The only tile size in the program is the constant 8 x 8.
- `AppTilesTileset.MakeTiles`: the same positive tile size, for the same `%` by zero in the older snapshot.
- `GameBoard.Then` and `GameBoard.UpdateSpec`: their own contracts only keep the rotation valid. Their meaning is carried by `GameBoard.Board.Update`, `GameBoard.NoKeysNoChange`, `GameBoard.UpdateDrawsPiece`, `GameBoard.UpdateFrame` and `GameBoard.SpawnThenRotatePanics`.
- `Pieces.WriteCells` and `Pieces.EraseCells`: their own contracts only keep the grid's shape. Their cell-level meaning is in `Pieces.WriteCellsFrame`, `Pieces.WriteCellsLast`, `Pieces.WriteCellsCovers` and `Pieces.EraseCellsEffect`.
- `EngineTime.Timer.ConsumeMap` and `AppTime.Timeout.OnTimeout`: each is a single call of a callback that is a pure function. Effects of the callback on other objects are not modelled.

## Findings

| source | as written | input that shows it | evidently intended | confidence | as-written member | corrected member |
|---|---|---|---|---|---|---|
| src/application/tile/tileset.rs:46 | the row loop runs to `width / tile_size.y`, counting rows from the texture width (the same line is at src/application/tiles/tileset.rs:60) | a 16x8 texture with 8x8 tiles gives 4 tiles instead of 2, and tiles 2 and 3 have source rectangles starting at row 8, below the texture | `height / tile_size.y` rows, so that every source rectangle lies inside the texture | not executed | AppTileset.WidthUsedForRows | AppTileset.MakeTilesCorrected |
