/** src/board.rs: the 10 x 20 playing field and the player's piece. Each
    pressed key erases the piece, moves or rotates it and writes it back.
    The application tilemap's setters index without a bounds check, so a
    write whose linear index falls outside the cell vector aborts the
    program; the model makes that abort an explicit outcome, `Panicked`,
    which stops the update. */
module GameBoard {
  import opened Geometry
  import opened TileGrid
  import Algorithm
  import PieceCatalog
  import Pieces
  import AppTileset
  import AppTilemap
  import EngineEvent

  /** `BOARD_DIMENSIONS` and `BOARD_POSITION`. */
  const BOARD_DIMENSIONS := Size2(10, 20)
  const BOARD_POSITION := Vec2(1, 1)

  /** The keys the board reads; every other key is alike to it. */
  datatype Keycode = S | A | D | J | OtherKey(code: int)

  /** What one key does to the piece. */
  datatype Action = Move(t: Pieces.Transform) | Rotate

  /** The state of the piece and the field after some keys, or the abort of
      an out-of-range write. */
  datatype Outcome = Running(pose: Pieces.Pose, grid: Grid) | Panicked

  /** The pose after `transform_piece` or `rotate_piece` on the field with
      the piece erased. */
  function NextPose(rotations: seq<Algorithm.Shape>, pose: Pieces.Pose, erased: Grid, action: Action): (r: Pieces.Pose)
    requires pose.rotation < |rotations|
    ensures r.rotation < |rotations|
    ensures action.Move? ==> r.rotation == pose.rotation
    ensures action.Rotate? ==> r.position == pose.position && r.state == pose.state
  {
    match action
    case Move(t) => Pieces.TransformPose(rotations[pose.rotation], pose, t, erased).0
    case Rotate => Pieces.RotatePose(rotations[pose.rotation], rotations, pose, erased).0
  }

  /** One `erase_piece`, `transform_piece` or `rotate_piece`, `write_piece`
      sequence on values, for a piece with the given rotations and tile. */
  function ActionStep(rotations: seq<Algorithm.Shape>, data: TileData, pose: Pieces.Pose, g: Grid, action: Action): (r: Outcome)
    requires pose.rotation < |rotations|
    ensures r.Running? ==> r.pose.rotation < |rotations| && r.grid.dimensions == g.dimensions && |r.grid.tiles| == |g.tiles|
    ensures r.Running? ==> Pieces.InRange(g, Pieces.Footprint(rotations[pose.rotation], pose.position))
  {
    var cells := Pieces.Footprint(rotations[pose.rotation], pose.position);
    if !Pieces.InRange(g, cells) then Panicked
    else
      var erased := Pieces.EraseCells(g, cells);
      var next := NextPose(rotations, pose, erased, action);
      var placed := Pieces.Footprint(rotations[next.rotation], next.position);
      if !Pieces.InRange(erased, placed) then Panicked
      else Running(next, Pieces.WriteCells(erased, placed, data))
  }

  /** The next action of `update`, taken only when its key was pressed and
      nothing has aborted. */
  function Then(rotations: seq<Algorithm.Shape>, data: TileData, o: Outcome, pressed: bool, action: Action): (r: Outcome)
    requires o.Running? ==> o.pose.rotation < |rotations|
    ensures r.Running? ==> r.pose.rotation < |rotations|
  {
    if o.Panicked? || !pressed then o else ActionStep(rotations, data, o.pose, o.grid, action)
  }

  /** `update` on values: S moves down, A left, D right, J rotates, in that
      order, each when its key was pressed this frame. The piece's state is
      never consulted. */
  function UpdateSpec(rotations: seq<Algorithm.Shape>, data: TileData, pose: Pieces.Pose, g: Grid, pressed: set<Keycode>): (r: Outcome)
    requires pose.rotation < |rotations|
    ensures r.Running? ==> r.pose.rotation < |rotations|
  {
    var down := Then(rotations, data, Running(pose, g), S in pressed, Move(Pieces.Down));
    var left := Then(rotations, data, down, A in pressed, Move(Pieces.Left));
    var right := Then(rotations, data, left, D in pressed, Move(Pieces.Right));
    Then(rotations, data, right, J in pressed, Rotate)
  }

  /** One of the four blocks of `update`, on the objects. */
  method Act(piece: Pieces.Piece, tilemap: AppTilemap.Tilemap, action: Action) returns (panicked: bool)
    requires piece.Valid()
    modifies piece, tilemap
    ensures piece.Valid()
    ensures (if panicked then Panicked else Running(piece.CurrentPose(), tilemap.View()))
      == ActionStep(piece.shapeData, piece.tileData, old(piece.CurrentPose()), old(tilemap.View()), action)
  {
    ghost var rotations := piece.shapeData;
    ghost var p0 := piece.CurrentPose();
    if !Pieces.InRange(tilemap.View(), piece.Cells()) {
      return true;
    }
    Pieces.ErasePiece(piece, tilemap);
    ghost var erased := tilemap.View();
    match action {
      case Move(t) =>
        var _ := piece.TransformPiece(t, tilemap);
      case Rotate =>
        var _ := piece.RotatePiece(tilemap);
    }
    assert piece.CurrentPose() == NextPose(rotations, p0, erased, action);
    if !Pieces.InRange(tilemap.View(), piece.Cells()) {
      return true;
    }
    Pieces.WritePiece(piece, tilemap);
    return false;
  }

  /** A block of `update` guarded by its key. */
  method ActIfPressed(piece: Pieces.Piece, tilemap: AppTilemap.Tilemap, pressed: bool, action: Action) returns (panicked: bool)
    requires piece.Valid()
    modifies piece, tilemap
    ensures piece.Valid()
    ensures (if panicked then Panicked else Running(piece.CurrentPose(), tilemap.View()))
      == Then(piece.shapeData, piece.tileData, Running(old(piece.CurrentPose()), old(tilemap.View())), pressed, action)
  {
    panicked := false;
    if pressed {
      panicked := Act(piece, tilemap, action);
    }
  }

  /** The four guarded blocks of `update`, in order, stopping at the first
      abort. */
  method UpdatePiece(piece: Pieces.Piece, tilemap: AppTilemap.Tilemap, pressed: set<Keycode>) returns (panicked: bool)
    requires piece.Valid()
    modifies piece, tilemap
    ensures piece.Valid()
    ensures (if panicked then Panicked else Running(piece.CurrentPose(), tilemap.View()))
      == UpdateSpec(piece.shapeData, piece.tileData, old(piece.CurrentPose()), old(tilemap.View()), pressed)
  {
    ghost var rotations := piece.shapeData;
    ghost var data := piece.tileData;
    ghost var o := Running(piece.CurrentPose(), tilemap.View());
    panicked := ActIfPressed(piece, tilemap, S in pressed, Move(Pieces.Down));
    o := Then(rotations, data, o, S in pressed, Move(Pieces.Down));
    if panicked {
      return;
    }
    panicked := ActIfPressed(piece, tilemap, A in pressed, Move(Pieces.Left));
    o := Then(rotations, data, o, A in pressed, Move(Pieces.Left));
    if panicked {
      return;
    }
    panicked := ActIfPressed(piece, tilemap, D in pressed, Move(Pieces.Right));
    o := Then(rotations, data, o, D in pressed, Move(Pieces.Right));
    if panicked {
      return;
    }
    panicked := ActIfPressed(piece, tilemap, J in pressed, Rotate);
  }

  /** The error messages of `move_lines_down` and `clear_line`. */
  const MOVE_OUT_OF_BOUNDS := "line move out of bounds"
  const MOVE_LAST_LINE := "cannot move last line"
  const CLEAR_OUT_OF_BOUNDS := "line clear out of bounds"

  /** A cell of the board. */
  predicate OnBoard(x: int, y: int) {
    0 <= x < BOARD_DIMENSIONS.x && 0 <= y < BOARD_DIMENSIONS.y
  }

  /** The tile at column `x`, row `y`. */
  function Cell(g: Grid, x: int, y: int): Option<Tile> {
    GetAtCoord(g, Vec2(x, y))
  }

  /** A tile carried to cell `c`: the same id and source, placed at the
      cell's world position. */
  function Relocated(g: Grid, t: Option<Tile>, c: Vec2): (r: Option<Tile>)
    ensures r.Some? <==> t.Some?
    ensures r.Some? ==> r.value.id == t.value.id && r.value.src == t.value.src
  {
    match t
    case Some(tile) => Some(Tile(tile.id, tile.src, CoordToWorldspace(g, c)))
    case None => None
  }

  /** One row of the inner loop of `move_lines_down`: every tile of row `y`
      goes one row down, onto whatever was there, and row `y` is emptied. */
  function RowMovedCell(g: Grid, y: int, x: int, r: int): Option<Tile> {
    if r == y then None
    else if r == y + 1 then (if Cell(g, x, y).Some? then Relocated(g, Cell(g, x, y), Vec2(x, y + 1)) else Cell(g, x, y + 1))
    else Cell(g, x, r)
  }

  /** Cell (x, y) once rows `line - 1` down to `done` have been moved: the
      rows between hold the row above them, row `done` is empty, and row
      `line` keeps its own tiles where row `line - 1` had none. */
  function ShiftedCell(g: Grid, line: nat, done: nat, x: int, y: int): Option<Tile> {
    if done >= line || y > line || y < done then Cell(g, x, y)
    else if y == done then None
    else if y == line then (if Cell(g, x, line - 1).Some? then Relocated(g, Cell(g, x, line - 1), Vec2(x, line)) else Cell(g, x, line))
    else Relocated(g, Cell(g, x, y - 1), Vec2(x, y))
  }

  /** The board `after` is `before` with rows `line - 1` down to `done` moved. */
  ghost predicate RowsMoved(before: Grid, after: Grid, line: nat, done: nat) {
    forall x, y :: OnBoard(x, y) ==> Cell(after, x, y) == ShiftedCell(before, line, done, x, y)
  }

  /** The board `after` is `before` with row `line` emptied. */
  ghost predicate RowCleared(before: Grid, after: Grid, line: int) {
    forall x, y :: OnBoard(x, y) ==> Cell(after, x, y) == if y == line then None else Cell(before, x, y)
  }

  /** The pose `Piece::build` gives a J piece, and the cells it covers. */
  const SPAWN_POSE := Pieces.Pose(PieceCatalog.DEFAULT_ROTATION, Vec2(4, -1), Pieces.Active)
  const SPAWN_CELLS: Algorithm.Shape := [Vec2(4, 0), Vec2(5, 0), Vec2(6, 0), Vec2(6, 1)]

  /** `Board`: the piece under the player's control, if any, and the field. */
  class Board {
    var piece: Option<Pieces.Piece>
    const tilemap: AppTilemap.Tilemap

    /** The objects a piece update writes. */
    function PieceFrame(): set<Pieces.Piece>
      reads this
    {
      if piece.Some? then {piece.value} else {}
    }

    /** The field is the 10 x 20 board with one cell per coordinate. */
    ghost predicate FieldValid()
      reads this, tilemap
    {
      tilemap.dimensions == BOARD_DIMENSIONS && tilemap.Valid()
    }

    ghost predicate Valid()
      reads this, tilemap, PieceFrame()
    {
      FieldValid() && (piece.Some? ==> piece.value.Valid())
    }

    /** `Board::new`: an empty 10 x 20 field at (1, 1) and no piece. */
    constructor (tileset: AppTileset.Tileset)
      ensures Valid() && piece == None && fresh(tilemap)
      ensures tilemap.View() == EmptyGrid(tileset.tileSize, BOARD_POSITION, BOARD_DIMENSIONS)
      ensures tilemap.tileset == tileset
    {
      tilemap := new AppTilemap.Tilemap(tileset, BOARD_POSITION, BOARD_DIMENSIONS);
      piece := None;
    }

    /** `update`: without a piece nothing happens; otherwise the pressed keys
        act in the order S, A, D, J, and an out-of-range write aborts. */
    method Update(events: EngineEvent.EventStore<Keycode>) returns (panicked: bool)
      requires Valid()
      modifies tilemap, PieceFrame()
      ensures old(piece).None? ==> !panicked && tilemap.tiles == old(tilemap.tiles)
      ensures piece.Some? ==>
        (if panicked then Panicked else Running(piece.value.CurrentPose(), tilemap.View()))
        == UpdateSpec(piece.value.shapeData, piece.value.tileData, old(piece.value.CurrentPose()), old(tilemap.View()), events.pressed)
      ensures !panicked ==> Valid()
    {
      panicked := false;
      if piece.None? {
        return;
      }
      panicked := UpdatePiece(piece.value, tilemap, events.pressed);
    }

    /** `spawn_piece`: a new J piece at its spawn pose, written onto the
        field whatever is there, becomes the board's piece. The J tile must
        exist in the tileset (`Piece::build` expects it). */
    method SpawnPiece()
      requires Valid()
      requires PieceCatalog.Data(PieceCatalog.J).tileId < |tilemap.tileset.tiles|
      modifies this, tilemap
      ensures Valid() && piece.Some? && fresh(piece.value)
      ensures piece.value.kind == PieceCatalog.J && piece.value.CurrentPose() == SPAWN_POSE
      ensures piece.value.tileData == tilemap.tileset.tiles[PieceCatalog.Data(PieceCatalog.J).tileId]
      ensures piece.value.Cells() == SPAWN_CELLS
      ensures tilemap.View() == Pieces.WriteCells(old(tilemap.View()), SPAWN_CELLS, piece.value.tileData)
    {
      var p := new Pieces.Piece.Build(PieceCatalog.J, tilemap.tileset);
      assert p.CurrentPose() == SPAWN_POSE;
      SpawnFootprint(tilemap.View());
      assert p.Cells() == SPAWN_CELLS;
      Pieces.WritePiece(p, tilemap);
      piece := Some(p);
    }

    /** The inner loop of `move_lines_down` for row `y`. */
    method MoveRowDown(y: int)
      requires FieldValid() && 0 <= y && y + 1 < BOARD_DIMENSIONS.y
      modifies tilemap
      ensures FieldValid()
      ensures forall x, r :: OnBoard(x, r) ==> Cell(tilemap.View(), x, r) == RowMovedCell(old(tilemap.View()), y, x, r)
    {
      ghost var g0 := tilemap.View();
      var x := 0;
      while x < BOARD_DIMENSIONS.x
        invariant 0 <= x <= BOARD_DIMENSIONS.x
        invariant FieldValid()
        invariant forall c, r :: OnBoard(c, r) ==> Cell(tilemap.View(), c, r) == if c < x then RowMovedCell(g0, y, c, r) else Cell(g0, c, r)
      {
        ghost var before := tilemap.View();
        var coord := Vec2(x, y);
        var tile := GetAtCoord(tilemap.View(), coord);
        var below := Vec2(x, y + 1);
        BoardCell(before, coord);
        BoardCell(before, below);
        if tile.Some? {
          tilemap.SetTileAtCoord(below, TileData(tile.value.id, tile.value.src));
        }
        ghost var middle := tilemap.View();
        tilemap.ClearTileAtCoord(coord);
        forall c, r | OnBoard(c, r)
          ensures Cell(tilemap.View(), c, r) == if c < x + 1 then RowMovedCell(g0, y, c, r) else Cell(g0, c, r)
        {
          if tile.Some? {
            SetThenGet(before, below, TileData(tile.value.id, tile.value.src), Vec2(c, r));
          }
          ClearThenGet(middle, coord, Vec2(c, r));
        }
        x := x + 1;
      }
    }

    /** `move_lines_down`: rows `line - 1` up to 0 each move one row down,
        from the bottom one up. The last row and rows past it are refused
        without touching the field. */
    method MoveLinesDown(line: nat) returns (r: Result<()>)
      requires FieldValid()
      modifies tilemap
      ensures FieldValid()
      ensures r.Ok? <==> line < BOARD_DIMENSIONS.y
      ensures line > BOARD_DIMENSIONS.y ==> r == Err(MOVE_OUT_OF_BOUNDS)
      ensures line == BOARD_DIMENSIONS.y ==> r == Err(MOVE_LAST_LINE)
      ensures r.Err? ==> tilemap.tiles == old(tilemap.tiles)
      ensures r.Ok? ==> RowsMoved(old(tilemap.View()), tilemap.View(), line, 0)
    {
      if line > BOARD_DIMENSIONS.y {
        return Err(MOVE_OUT_OF_BOUNDS);
      }
      if line == BOARD_DIMENSIONS.y {
        return Err(MOVE_LAST_LINE);
      }
      ghost var g0 := tilemap.View();
      var y := line;
      while y > 0
        invariant 0 <= y <= line
        invariant FieldValid()
        invariant RowsMoved(g0, tilemap.View(), line, y)
      {
        y := y - 1;
        ghost var before := tilemap.View();
        MoveRowDown(y);
        ShiftStep(g0, before, tilemap.View(), line, y);
      }
      return Ok(());
    }

    /** `clear_line`: empty every cell of row `line`; rows past the field
        are refused without touching it. */
    method ClearLine(line: nat) returns (r: Result<()>)
      requires FieldValid()
      modifies tilemap
      ensures FieldValid()
      ensures r.Ok? <==> line < BOARD_DIMENSIONS.y
      ensures r.Err? ==> r == Err(CLEAR_OUT_OF_BOUNDS) && tilemap.tiles == old(tilemap.tiles)
      ensures r.Ok? ==> RowCleared(old(tilemap.View()), tilemap.View(), line)
    {
      if line >= BOARD_DIMENSIONS.y {
        return Err(CLEAR_OUT_OF_BOUNDS);
      }
      ghost var g0 := tilemap.View();
      var x := 0;
      while x < BOARD_DIMENSIONS.x
        invariant 0 <= x <= BOARD_DIMENSIONS.x
        invariant FieldValid()
        invariant forall c, y :: OnBoard(c, y) ==> Cell(tilemap.View(), c, y) == if y == line && c < x then None else Cell(g0, c, y)
      {
        ghost var before := tilemap.View();
        var coord := Vec2(x, line);
        BoardCell(before, coord);
        tilemap.ClearTileAtCoord(coord);
        forall c, y | OnBoard(c, y)
          ensures Cell(tilemap.View(), c, y) == if y == line && c < x + 1 then None else Cell(g0, c, y)
        {
          ClearThenGet(before, coord, Vec2(c, y));
        }
        x := x + 1;
      }
      return Ok(());
    }
  }

  /** A board cell is bound and its index is inside the vector. */
  lemma BoardCell(g: Grid, c: Vec2)
    requires g.Valid() && g.dimensions == BOARD_DIMENSIONS && OnBoard(c.x, c.y)
    ensures IsBound(g, c) && 0 <= IndexOf(g, c) < |g.tiles|
  {
    BoundIndex(g, c, c);
  }

  /** Moving row `y` extends the rows already moved by one. */
  lemma ShiftStep(g0: Grid, before: Grid, after: Grid, line: nat, y: nat)
    requires y < line < BOARD_DIMENSIONS.y
    requires before.position == g0.position && before.tileSize == g0.tileSize
    requires RowsMoved(g0, before, line, y + 1)
    requires forall x, r :: OnBoard(x, r) ==> Cell(after, x, r) == RowMovedCell(before, y, x, r)
    ensures RowsMoved(g0, after, line, y)
  {
    forall x, r | OnBoard(x, r)
      ensures Cell(after, x, r) == ShiftedCell(g0, line, y, x, r)
    {
      assert OnBoard(x, y) && OnBoard(x, y + 1);
    }
  }

  /** The J piece's spawn footprint: its cells, all on the board. */
  lemma SpawnFootprint(g: Grid)
    requires g.Valid() && g.dimensions == BOARD_DIMENSIONS
    ensures Pieces.Footprint(PieceCatalog.Data(PieceCatalog.J).shape[0], Vec2(4, -1)) == SPAWN_CELLS
    ensures Pieces.InRange(g, SPAWN_CELLS)
    ensures forall j :: 0 <= j < |SPAWN_CELLS| ==> IsBound(g, SPAWN_CELLS[j])
  {
    PieceCatalog.ShapesJ();
    forall j | 0 <= j < |SPAWN_CELLS|
      ensures IsBound(g, SPAWN_CELLS[j]) && 0 <= IndexOf(g, SPAWN_CELLS[j]) < |g.tiles|
    {
      BoardCell(g, SPAWN_CELLS[j]);
    }
  }

  /** An update without any of the four keys changes nothing. */
  lemma NoKeysNoChange(rotations: seq<Algorithm.Shape>, data: TileData, pose: Pieces.Pose, g: Grid, pressed: set<Keycode>)
    requires pose.rotation < |rotations|
    requires S !in pressed && A !in pressed && D !in pressed && J !in pressed
    ensures UpdateSpec(rotations, data, pose, g, pressed) == Running(pose, g)
  {
  }

  /** After an action that does not abort, the piece's new footprint is
      drawn: every one of its cells holds a tile of the piece's data. */
  lemma ActionDrawsPiece(rotations: seq<Algorithm.Shape>, data: TileData, pose: Pieces.Pose, g: Grid, action: Action)
    requires pose.rotation < |rotations|
    requires ActionStep(rotations, data, pose, g, action).Running?
    ensures var o := ActionStep(rotations, data, pose, g, action);
      var placed := Pieces.Footprint(rotations[o.pose.rotation], o.pose.position);
      forall j :: 0 <= j < |placed| ==> Pieces.HoldsData(GetAtCoord(o.grid, placed[j]), data)
  {
    var cells := Pieces.Footprint(rotations[pose.rotation], pose.position);
    var erased := Pieces.EraseCells(g, cells);
    var next := NextPose(rotations, pose, erased, action);
    var placed := Pieces.Footprint(rotations[next.rotation], next.position);
    Pieces.WriteCellsCovers(erased, placed, data);
  }

  /** Some cell of `cells` has linear index `i`. */
  predicate Covered(g: Grid, cells: Algorithm.Shape, i: int) {
    exists j :: 0 <= j < |cells| && IndexOf(g, cells[j]) == i
  }

  /** What an action that does not abort leaves of the rest of the field: a
      cell outside the new footprint is emptied when the old footprint
      covered it, and keeps its content otherwise. */
  lemma ActionStepFrame(rotations: seq<Algorithm.Shape>, data: TileData, pose: Pieces.Pose, g: Grid, action: Action, i: int)
    requires pose.rotation < |rotations|
    requires ActionStep(rotations, data, pose, g, action).Running?
    requires 0 <= i < |g.tiles|
    requires var o := ActionStep(rotations, data, pose, g, action);
      !Covered(g, Pieces.Footprint(rotations[o.pose.rotation], o.pose.position), i)
    ensures ActionStep(rotations, data, pose, g, action).grid.tiles[i]
      == if Covered(g, Pieces.Footprint(rotations[pose.rotation], pose.position), i) then None else g.tiles[i]
  {
    var cells := Pieces.Footprint(rotations[pose.rotation], pose.position);
    var erased := Pieces.EraseCells(g, cells);
    var next := NextPose(rotations, pose, erased, action);
    var placed := Pieces.Footprint(rotations[next.rotation], next.position);
    Pieces.EraseCellsEffect(g, cells);
    Pieces.WriteCellsFrame(erased, placed, data);
  }

  /** The action of each of the four keys `update` reads. */
  function KeyAction(key: Keycode): (r: Action)
    requires !key.OtherKey?
    ensures r.Rotate? <==> key == J
    ensures r.Move? ==> r.t == if key == S then Pieces.Down else if key == A then Pieces.Left else Pieces.Right
  {
    match key
    case S => Move(Pieces.Down)
    case A => Move(Pieces.Left)
    case D => Move(Pieces.Right)
    case J => Rotate
  }

  /** With exactly one of the four keys pressed, `update` is that key's
      action alone. */
  lemma SingleKeyUpdate(rotations: seq<Algorithm.Shape>, data: TileData, pose: Pieces.Pose, g: Grid, pressed: set<Keycode>, key: Keycode)
    requires pose.rotation < |rotations|
    requires !key.OtherKey? && key in pressed
    requires forall k :: k in pressed && !k.OtherKey? ==> k == key
    ensures UpdateSpec(rotations, data, pose, g, pressed) == ActionStep(rotations, data, pose, g, KeyAction(key))
  {
    assert key != S ==> S !in pressed;
    assert key != A ==> A !in pressed;
    assert key != D ==> D !in pressed;
    assert key != J ==> J !in pressed;
  }

  /** With one key pressed, an update that does not abort empties the old
      footprint's cells that the new footprint does not cover, and keeps
      every other cell outside the new footprint. */
  lemma UpdateFrame(rotations: seq<Algorithm.Shape>, data: TileData, pose: Pieces.Pose, g: Grid, pressed: set<Keycode>, key: Keycode, i: int)
    requires pose.rotation < |rotations|
    requires !key.OtherKey? && key in pressed
    requires forall k :: k in pressed && !k.OtherKey? ==> k == key
    requires UpdateSpec(rotations, data, pose, g, pressed).Running?
    requires 0 <= i < |g.tiles|
    requires var o := UpdateSpec(rotations, data, pose, g, pressed);
      !Covered(g, Pieces.Footprint(rotations[o.pose.rotation], o.pose.position), i)
    ensures UpdateSpec(rotations, data, pose, g, pressed).grid.tiles[i]
      == if Covered(g, Pieces.Footprint(rotations[pose.rotation], pose.position), i) then None else g.tiles[i]
  {
    SingleKeyUpdate(rotations, data, pose, g, pressed, key);
    ActionStepFrame(rotations, data, pose, g, KeyAction(key), i);
  }

  /** After an update that does not abort and in which some key acted, the
      piece's footprint is drawn. */
  lemma UpdateDrawsPiece(rotations: seq<Algorithm.Shape>, data: TileData, pose: Pieces.Pose, g: Grid, pressed: set<Keycode>)
    requires pose.rotation < |rotations|
    requires S in pressed || A in pressed || D in pressed || J in pressed
    requires UpdateSpec(rotations, data, pose, g, pressed).Running?
    ensures var o := UpdateSpec(rotations, data, pose, g, pressed);
      var placed := Pieces.Footprint(rotations[o.pose.rotation], o.pose.position);
      forall j :: 0 <= j < |placed| ==> Pieces.HoldsData(GetAtCoord(o.grid, placed[j]), data)
  {
    var down := Then(rotations, data, Running(pose, g), S in pressed, Move(Pieces.Down));
    var left := Then(rotations, data, down, A in pressed, Move(Pieces.Left));
    var right := Then(rotations, data, left, D in pressed, Move(Pieces.Right));
    if J in pressed {
      ActionDrawsPiece(rotations, data, right.pose, right.grid, Rotate);
    } else if D in pressed {
      ActionDrawsPiece(rotations, data, left.pose, left.grid, Move(Pieces.Right));
    } else if A in pressed {
      ActionDrawsPiece(rotations, data, down.pose, down.grid, Move(Pieces.Left));
    } else {
      ActionDrawsPiece(rotations, data, pose, g, Move(Pieces.Down));
    }
  }

  /** `update` never looks at the piece's state: a landed piece moves and
      rotates exactly as an active one, and a sideways move that succeeds
      makes it active again. */
  lemma LandedPieceRevived(rotations: seq<Algorithm.Shape>, data: TileData, pose: Pieces.Pose, g: Grid, action: Action)
    requires pose.rotation < |rotations| && pose.state == Pieces.Landed
    ensures var landed := ActionStep(rotations, data, pose, g, action);
      var active := ActionStep(rotations, data, pose.(state := Pieces.Active), g, action);
      landed.Running? == active.Running? &&
      (landed.Running? ==> landed.grid == active.grid && landed.pose.position == active.pose.position && landed.pose.rotation == active.pose.rotation)
    ensures var o := ActionStep(rotations, data, pose, g, action);
      action.Move? && action.t != Pieces.Down && o.Running? && o.pose.position != pose.position ==> o.pose.state == Pieces.Active
  {
  }

  /** Erasing what was just written on an empty field leaves it empty. */
  lemma {:induction false} EraseAfterWrite(g: Grid, cells: Algorithm.Shape, data: TileData)
    requires Pieces.InRange(g, cells)
    requires forall i :: 0 <= i < |g.tiles| ==> g.tiles[i] == None
    ensures Pieces.InRange(Pieces.WriteCells(g, cells, data), cells)
    ensures forall i :: 0 <= i < |g.tiles| ==> Pieces.EraseCells(Pieces.WriteCells(g, cells, data), cells).tiles[i] == None
  {
    var w := Pieces.WriteCells(g, cells, data);
    Pieces.WriteCellsFrame(g, cells, data);
    Pieces.EraseCellsEffect(w, cells);
  }

  /** On an empty field a rotation is accepted whenever the cells of the
      next rotation lie inside the field or above it. */
  lemma RotationOnEmptyField(current: Algorithm.Shape, rotations: seq<Algorithm.Shape>, rotation: nat, position: Vec2, g: Grid)
    requires |rotations| > 0
    requires forall i :: 0 <= i < |g.tiles| ==> g.tiles[i] == None
    requires var next := Pieces.Footprint(rotations[(rotation + 1) % |rotations|], position);
      forall i :: 0 <= i < |next| ==> Algorithm.AboveBounds(next[i], g) || IsBound(g, next[i])
    ensures Pieces.EvaluateRotation(current, rotations, rotation, position, g) == Pieces.RotationSuccess((rotation + 1) % |rotations|)
  {
    var next := Pieces.Footprint(rotations[(rotation + 1) % |rotations|], position);
    var unchecked := Pieces.UncheckedAfterRotation(current, rotations, rotation, position);
    forall i | 0 <= i < |unchecked|
      ensures Algorithm.AboveBounds(unchecked[i], g) || IsBound(g, unchecked[i])
    {
      assert unchecked[i] in next;
    }
    forall i | 0 <= i < |unchecked|
      ensures !IsOccupied(g, unchecked[i])
    {
    }
  }

  /** The cells of rotation 1 of the J piece at the spawn position. */
  const ROTATED_SPAWN_CELLS: Algorithm.Shape := [Vec2(5, -1), Vec2(6, -1), Vec2(5, 0), Vec2(5, 1)]

  /** Rotation 1 of the J piece at the spawn position reaches row -1: every
      cell is inside the field or above it, yet the first one's linear
      index is -5. */
  lemma RotatedSpawnFootprint(g: Grid)
    requires g.Valid() && g.dimensions == BOARD_DIMENSIONS
    ensures Pieces.Footprint(PieceCatalog.J_SHAPES[1], SPAWN_POSE.position) == ROTATED_SPAWN_CELLS
    ensures forall i :: 0 <= i < |ROTATED_SPAWN_CELLS| ==> Algorithm.AboveBounds(ROTATED_SPAWN_CELLS[i], g) || IsBound(g, ROTATED_SPAWN_CELLS[i])
    ensures IndexOf(g, ROTATED_SPAWN_CELLS[0]) == -5 && !Pieces.InRange(g, ROTATED_SPAWN_CELLS)
  {
    var rotated := Pieces.Footprint(PieceCatalog.J_SHAPES[1], SPAWN_POSE.position);
    assert |rotated| == 4;
    assert rotated[0] == ROTATED_SPAWN_CELLS[0] && rotated[1] == ROTATED_SPAWN_CELLS[1];
    assert rotated[2] == ROTATED_SPAWN_CELLS[2] && rotated[3] == ROTATED_SPAWN_CELLS[3];
  }

  /** Rotation 0 is followed by rotation 1 when there are several. */
  lemma NextOfFirst(count: int)
    requires count > 1
    ensures (0 + 1) % count == 1
  {
  }

  /** On an otherwise empty field, a piece written at its pose and then
      rotated into cells that pass the bounds check but fall outside the
      cell vector aborts the update. */
  lemma RotateIntoRowAbovePanics(g: Grid, data: TileData, rotations: seq<Algorithm.Shape>, pose: Pieces.Pose, cells: Algorithm.Shape, rotated: Algorithm.Shape)
    requires forall i :: 0 <= i < |g.tiles| ==> g.tiles[i] == None
    requires pose.rotation == 0 && |rotations| > 1
    requires cells == Pieces.Footprint(rotations[0], pose.position) && Pieces.InRange(g, cells)
    requires rotated == Pieces.Footprint(rotations[1], pose.position)
    requires forall i :: 0 <= i < |rotated| ==> Algorithm.AboveBounds(rotated[i], g) || IsBound(g, rotated[i])
    requires !Pieces.InRange(g, rotated)
    ensures ActionStep(rotations, data, pose, Pieces.WriteCells(g, cells, data), Rotate) == Panicked
  {
    EraseAfterWrite(g, cells, data);
    var erased := Pieces.EraseCells(Pieces.WriteCells(g, cells, data), cells);
    NextOfFirst(|rotations|);
    RotationOnEmptyField(rotations[0], rotations, 0, pose.position, erased);
    assert NextPose(rotations, pose, erased, Rotate) == pose.(rotation := 1);
  }

  /** Pressing J right after a spawn on an empty field aborts the program:
      rotation 1 of the J piece at (4, -1) reaches row -1, which the bounds
      check admits as "above the field", and writing that cell indexes the
      cell vector at -5. */
  lemma SpawnThenRotatePanics(g: Grid, data: TileData)
    requires g.Valid() && g.dimensions == BOARD_DIMENSIONS
    requires forall i :: 0 <= i < |g.tiles| ==> g.tiles[i] == None
    ensures Pieces.InRange(g, SPAWN_CELLS)
    ensures UpdateSpec(PieceCatalog.Data(PieceCatalog.J).shape, data, SPAWN_POSE, Pieces.WriteCells(g, SPAWN_CELLS, data), {J}) == Panicked
  {
    SpawnFootprint(g);
    RotatedSpawnFootprint(g);
    PieceCatalog.ShapesJ();
    RotateIntoRowAbovePanics(g, data, PieceCatalog.J_SHAPES, SPAWN_POSE, SPAWN_CELLS, ROTATED_SPAWN_CELLS);
  }

  /** Cell (x, y) once row `line` is gone: the rows above come down one. */
  function LineRemoved(g: Grid, line: nat, x: int, y: int): Option<Tile> {
    if y == 0 then None
    else if y <= line then Relocated(g, Cell(g, x, y - 1), Vec2(x, y))
    else Cell(g, x, y)
  }

  /** `clear_line` followed by `move_lines_down` on the same row: every row
      above it comes one row down with its tiles' ids and sources, the top
      row is empty, and the rows below are untouched. */
  lemma ClearThenMoveDown(g: Grid, cleared: Grid, moved: Grid, line: nat)
    requires 0 < line < BOARD_DIMENSIONS.y
    requires cleared.position == g.position && cleared.tileSize == g.tileSize
    requires RowCleared(g, cleared, line) && RowsMoved(cleared, moved, line, 0)
    ensures forall x, y :: OnBoard(x, y) ==> Cell(moved, x, y) == LineRemoved(g, line, x, y)
  {
    forall x, y | OnBoard(x, y)
      ensures Cell(moved, x, y) == LineRemoved(g, line, x, y)
    {
      assert OnBoard(x, line);
      if 0 < y {
        assert OnBoard(x, y - 1);
      }
    }
  }

  /** With row `line` empty, `move_lines_down` is a plain shift: row y + 1
      holds the old row y for every y < line, row 0 is empty, and rows after
      `line` are unchanged; for line 0 nothing changes. */
  lemma MoveDownShifts(g: Grid, line: nat, x: int, y: int)
    requires line < BOARD_DIMENSIONS.y && OnBoard(x, y)
    requires forall c :: 0 <= c < BOARD_DIMENSIONS.x ==> Cell(g, c, line) == None
    ensures line == 0 ==> ShiftedCell(g, line, 0, x, y) == Cell(g, x, y)
    ensures 0 < line && y == 0 ==> ShiftedCell(g, line, 0, x, y) == None
    ensures 0 < y <= line ==> ShiftedCell(g, line, 0, x, y) == Relocated(g, Cell(g, x, y - 1), Vec2(x, y))
    ensures y > line ==> ShiftedCell(g, line, 0, x, y) == Cell(g, x, y)
  {
  }
}
