/** src/piece.rs: a falling piece, the evaluation of a move or a rotation
    against the board's tilemap, and the writing and erasing of the piece's
    cells. A move's result is three-way (`Success`, `Collision`, `Land`).

    Both evaluations check only the cells of the proposed footprint that
    are not among the current rotation's RELATIVE offsets: the source
    compares absolute cells with the offsets of the shape table, not with
    the piece's current absolute cells. That is modelled as written;
    `RelativeExclusionSkipsCell` shows a move it lets through. */
module Pieces {
  import opened Geometry
  import opened TileGrid
  import opened Algorithm
  import PieceCatalog
  import AppTileset
  import AppTilemap

  const SPAWN_OFFSET_X: int := 4
  const FIRST_ROW: int := 0

  datatype PieceState = Active | Landed

  datatype Transform = Left | Right | Down

  /** The outcome of evaluating a move. */
  datatype TransformResult = Success(position: Vec2) | Collision | Land

  /** The outcome of evaluating a rotation. */
  datatype RotationResult = RotationSuccess(rotation: nat) | RotationCollision

  /** `Transform::to_coordinate`: a single step left, right or down; never up. */
  function ToCoordinate(t: Transform): (r: Vec2)
    ensures (r.x == 0) != (r.y == 0)
    ensures -1 <= r.x <= 1 && 0 <= r.y <= 1
    ensures r.y == 1 <==> t == Down
    ensures r.x == -1 <==> t == Left
    ensures r.x == 1 <==> t == Right
  {
    match t
    case Left => Vec2(-1, 0)
    case Right => Vec2(1, 0)
    case Down => Vec2(0, 1)
  }

  /** The absolute cells of a shape placed at a position. */
  function Footprint(shape: Shape, position: Vec2): Shape {
    TransformShape(shape, position)
  }

  /** The cells `evaluate_transform` checks: those of the moved footprint
      that are not among the shape's relative offsets. */
  function UncheckedAfterMove(shape: Shape, position: Vec2, t: Transform): Shape {
    GetNewShapeCoordinates(shape, Footprint(shape, position.Add(ToCoordinate(t))))
  }

  /** `evaluate_transform`. When some checked cell is neither inside the
      field nor above it, a move down that reaches the last row lands and
      anything else collides. When the checked cells are within bounds, an
      occupied one makes a move down land and a sideways move collide.
      Otherwise the move succeeds, to the position one step away. */
  function EvaluateTransform(shape: Shape, position: Vec2, t: Transform, g: Grid): (r: TransformResult)
    ensures var u := UncheckedAfterMove(shape, position, t);
      && (r.Success? <==> (forall i :: 0 <= i < |u| ==> (AboveBounds(u[i], g) || IsBound(g, u[i])) && !IsOccupied(g, u[i])))
      && (r.Success? ==> r.position == position.Add(ToCoordinate(t)))
      && (r.Land? ==> t == Down)
      && (t == Down && !r.Success? ==> (r.Land? <==> !CheckBounds(u, g) ==> IsShapeOnBottom(u, g)))
      && (t != Down && !r.Success? ==> r == Collision)
  {
    var newPosition := position.Add(ToCoordinate(t));
    var newShape := TransformShape(shape, newPosition);
    var unchecked := GetNewShapeCoordinates(shape, newShape);
    if !CheckBounds(unchecked, g) then
      if t == Down && IsShapeOnBottom(unchecked, g) then Land else Collision
    else if CheckShapeCollision(unchecked, g) then
      if t == Down then Land else Collision
    else
      Success(newPosition)
  }

  /** The cells `evaluate_rotation` checks: those of the next rotation's
      footprint that are not among the current rotation's relative offsets. */
  function UncheckedAfterRotation(current: Shape, rotations: seq<Shape>, rotation: nat, position: Vec2): Shape
    requires |rotations| > 0
  {
    GetNewShapeCoordinates(current, Footprint(rotations[(rotation + 1) % |rotations|], position))
  }

  /** `evaluate_rotation`: propose the next rotation, `(rotation + 1) % len`,
      which is always a valid index, and accept it exactly when every
      checked cell is inside or above the field and free. */
  function EvaluateRotation(current: Shape, rotations: seq<Shape>, rotation: nat, position: Vec2, g: Grid): (r: RotationResult)
    requires |rotations| > 0
    ensures r.RotationSuccess? ==> r.rotation < |rotations| && r.rotation == (rotation + 1) % |rotations|
    ensures var u := UncheckedAfterRotation(current, rotations, rotation, position);
      r.RotationSuccess? <==> (forall i :: 0 <= i < |u| ==> (AboveBounds(u[i], g) || IsBound(g, u[i])) && !IsOccupied(g, u[i]))
  {
    var newRotation := (rotation + 1) % |rotations|;
    var unchecked := UncheckedAfterRotation(current, rotations, rotation, position);
    if !CheckBounds(unchecked, g) then RotationCollision
    else if CheckShapeCollision(unchecked, g) then RotationCollision
    else RotationSuccess(newRotation)
  }

  /** The part of a piece that moves: rotation, position and state. */
  datatype Pose = Pose(rotation: nat, position: Vec2, state: PieceState)

  /** `transform_piece` on values: a success moves the piece and makes it
      active, a landing marks it landed where it is, a collision changes
      nothing. The state returned is the new state, except that a collision
      reports `Active` whatever the piece's state. */
  function TransformPose(shape: Shape, p: Pose, t: Transform, g: Grid): (r: (Pose, PieceState))
    ensures r.0.rotation == p.rotation
    ensures match EvaluateTransform(shape, p.position, t, g)
      case Success(position) => r.0.position == position && r.0.state == Active && r.1 == Active
      case Land => r.0.position == p.position && r.0.state == Landed && r.1 == Landed
      case Collision => r.0 == p && r.1 == Active
  {
    match EvaluateTransform(shape, p.position, t, g)
    case Success(position) => (p.(position := position, state := Active), Active)
    case Land => (p.(state := Landed), Landed)
    case Collision => (p, Active)
  }

  /** `rotate_piece` on values: only the rotation changes, only on success,
      and the piece is reported active. */
  function RotatePose(current: Shape, rotations: seq<Shape>, p: Pose, g: Grid): (r: (Pose, PieceState))
    requires |rotations| > 0
    ensures r.0.position == p.position && r.0.state == p.state && r.1 == Active
    ensures r.0.rotation == p.rotation || r.0.rotation == (p.rotation + 1) % |rotations|
    ensures r.0.rotation != p.rotation ==> EvaluateRotation(current, rotations, p.rotation, p.position, g).RotationSuccess?
    ensures EvaluateRotation(current, rotations, p.rotation, p.position, g).RotationSuccess? ==> r.0.rotation == (p.rotation + 1) % |rotations|
  {
    match EvaluateRotation(current, rotations, p.rotation, p.position, g)
    case RotationSuccess(rotation) => (p.(rotation := rotation), Active)
    case RotationCollision => (p, Active)
  }

  /** Every cell's linear index lies inside the cell vector, which is what
      the application tilemap's unchecked setters demand. */
  predicate InRange(g: Grid, cells: Shape) {
    forall j :: 0 <= j < |cells| ==> 0 <= IndexOf(g, cells[j]) < |g.tiles|
  }

  /** Whether cells are in range depends only on the size of the grid. */
  lemma InRangeKept(g: Grid, h: Grid, cells: Shape)
    requires InRange(g, cells)
    requires h.dimensions == g.dimensions && |h.tiles| == |g.tiles|
    ensures InRange(h, cells)
  {
    forall j | 0 <= j < |cells|
      ensures 0 <= IndexOf(h, cells[j]) < |h.tiles|
    {
      assert IndexOf(h, cells[j]) == IndexOf(g, cells[j]);
    }
  }

  /** The loop of `write_piece` from the `k`-th cell on. */
  function WriteFrom(g: Grid, cells: Shape, data: TileData, k: nat): (r: Grid)
    requires k <= |cells| && InRange(g, cells)
    ensures r.tileSize == g.tileSize && r.position == g.position && r.dimensions == g.dimensions
    ensures |r.tiles| == |g.tiles|
    decreases |cells| - k
  {
    if k == |cells| then g
    else
      var h := SetTile(g, cells[k], data);
      InRangeKept(g, h, cells);
      WriteFrom(h, cells, data, k + 1)
  }

  /** `write_piece` on values: set the cells one after the other. */
  function WriteCells(g: Grid, cells: Shape, data: TileData): (r: Grid)
    requires InRange(g, cells)
    ensures r.tileSize == g.tileSize && r.position == g.position && r.dimensions == g.dimensions
    ensures |r.tiles| == |g.tiles|
  {
    WriteFrom(g, cells, data, 0)
  }

  lemma {:induction false} WriteFromKeeps(g: Grid, cells: Shape, data: TileData, k: nat, i: int)
    requires k <= |cells| && InRange(g, cells) && 0 <= i < |g.tiles|
    requires forall j :: k <= j < |cells| ==> IndexOf(g, cells[j]) != i
    ensures WriteFrom(g, cells, data, k).tiles[i] == g.tiles[i]
    decreases |cells| - k
  {
    if k < |cells| {
      var h := SetTile(g, cells[k], data);
      InRangeKept(g, h, cells);
      assert forall j :: k <= j < |cells| ==> IndexOf(h, cells[j]) == IndexOf(g, cells[j]);
      WriteFromKeeps(h, cells, data, k + 1, i);
    }
  }

  /** Writing cells changes no cell outside them. */
  lemma WriteCellsFrame(g: Grid, cells: Shape, data: TileData)
    requires InRange(g, cells)
    ensures forall i :: 0 <= i < |g.tiles| && (forall j :: 0 <= j < |cells| ==> IndexOf(g, cells[j]) != i) ==>
      WriteCells(g, cells, data).tiles[i] == g.tiles[i]
  {
    forall i | 0 <= i < |g.tiles| && (forall j :: 0 <= j < |cells| ==> IndexOf(g, cells[j]) != i)
      ensures WriteCells(g, cells, data).tiles[i] == g.tiles[i]
    {
      WriteFromKeeps(g, cells, data, 0, i);
    }
  }

  lemma {:induction false} WriteFromLast(g: Grid, cells: Shape, data: TileData, k: nat, j: nat)
    requires InRange(g, cells) && k <= j < |cells|
    requires forall m :: j < m < |cells| ==> IndexOf(g, cells[m]) != IndexOf(g, cells[j])
    ensures WriteFrom(g, cells, data, k).tiles[IndexOf(g, cells[j])] == Some(Tile(data.id, data.src, CoordToWorldspace(g, cells[j])))
    decreases j - k
  {
    var h := SetTile(g, cells[k], data);
    InRangeKept(g, h, cells);
    assert WriteFrom(g, cells, data, k) == WriteFrom(h, cells, data, k + 1);
    assert forall m :: k <= m < |cells| ==> IndexOf(h, cells[m]) == IndexOf(g, cells[m]);
    if k < j {
      assert CoordToWorldspace(h, cells[j]) == CoordToWorldspace(g, cells[j]);
      WriteFromLast(h, cells, data, k + 1, j);
    } else {
      WriteFromKeeps(h, cells, data, k + 1, IndexOf(g, cells[j]));
    }
  }

  /** A written cell holds the tile written for the last coordinate landing
      on it: the data's id and source rectangle at that coordinate's
      world-space position. */
  lemma WriteCellsLast(g: Grid, cells: Shape, data: TileData, j: nat)
    requires InRange(g, cells) && j < |cells|
    requires forall m :: j < m < |cells| ==> IndexOf(g, cells[m]) != IndexOf(g, cells[j])
    ensures WriteCells(g, cells, data).tiles[IndexOf(g, cells[j])] == Some(Tile(data.id, data.src, CoordToWorldspace(g, cells[j])))
  {
    WriteFromLast(g, cells, data, 0, j);
  }

  /** A cell holding a tile drawn from `data`. */
  predicate HoldsData(t: Option<Tile>, data: TileData) {
    t.Some? && t.value.id == data.id && t.value.src == data.src
  }

  lemma {:induction false} WriteFromCovers(g: Grid, cells: Shape, data: TileData, k: nat, j: nat)
    requires InRange(g, cells) && k <= j < |cells|
    ensures HoldsData(WriteFrom(g, cells, data, k).tiles[IndexOf(g, cells[j])], data)
    decreases |cells| - k
  {
    var h := SetTile(g, cells[k], data);
    InRangeKept(g, h, cells);
    assert WriteFrom(g, cells, data, k) == WriteFrom(h, cells, data, k + 1);
    assert forall m :: k <= m < |cells| ==> IndexOf(h, cells[m]) == IndexOf(g, cells[m]);
    if k < j {
      WriteFromCovers(h, cells, data, k + 1, j);
    } else if m :| k < m < |cells| && IndexOf(g, cells[m]) == IndexOf(g, cells[j]) {
      WriteFromCovers(h, cells, data, k + 1, m);
    } else {
      WriteFromKeeps(h, cells, data, k + 1, IndexOf(g, cells[j]));
    }
  }

  /** Every cell written holds a tile of the data afterwards, even where two
      coordinates land on the same cell. */
  lemma WriteCellsCovers(g: Grid, cells: Shape, data: TileData)
    requires InRange(g, cells)
    ensures forall j :: 0 <= j < |cells| ==> HoldsData(WriteCells(g, cells, data).tiles[IndexOf(g, cells[j])], data)
  {
    forall j | 0 <= j < |cells|
      ensures HoldsData(WriteCells(g, cells, data).tiles[IndexOf(g, cells[j])], data)
    {
      WriteFromCovers(g, cells, data, 0, j);
    }
  }

  /** The loop of `erase_piece` from the `k`-th cell on. */
  function EraseFrom(g: Grid, cells: Shape, k: nat): (r: Grid)
    requires k <= |cells| && InRange(g, cells)
    ensures r.tileSize == g.tileSize && r.position == g.position && r.dimensions == g.dimensions
    ensures |r.tiles| == |g.tiles|
    decreases |cells| - k
  {
    if k == |cells| then g
    else
      var h := ClearTile(g, cells[k]);
      InRangeKept(g, h, cells);
      EraseFrom(h, cells, k + 1)
  }

  /** `erase_piece` on values: clear the cells one after the other. */
  function EraseCells(g: Grid, cells: Shape): (r: Grid)
    requires InRange(g, cells)
    ensures r.tileSize == g.tileSize && r.position == g.position && r.dimensions == g.dimensions
    ensures |r.tiles| == |g.tiles|
  {
    EraseFrom(g, cells, 0)
  }

  lemma {:induction false} EraseFromKeeps(g: Grid, cells: Shape, k: nat, i: int)
    requires k <= |cells| && InRange(g, cells) && 0 <= i < |g.tiles|
    requires forall j :: k <= j < |cells| ==> IndexOf(g, cells[j]) != i
    ensures EraseFrom(g, cells, k).tiles[i] == g.tiles[i]
    decreases |cells| - k
  {
    if k < |cells| {
      var h := ClearTile(g, cells[k]);
      InRangeKept(g, h, cells);
      assert forall j :: k <= j < |cells| ==> IndexOf(h, cells[j]) == IndexOf(g, cells[j]);
      EraseFromKeeps(h, cells, k + 1, i);
    }
  }

  lemma {:induction false} EraseFromEmpties(g: Grid, cells: Shape, k: nat, j: nat)
    requires InRange(g, cells) && k <= j < |cells|
    ensures EraseFrom(g, cells, k).tiles[IndexOf(g, cells[j])] == None
    decreases |cells| - k
  {
    var h := ClearTile(g, cells[k]);
    InRangeKept(g, h, cells);
    assert EraseFrom(g, cells, k) == EraseFrom(h, cells, k + 1);
    assert forall m :: k <= m < |cells| ==> IndexOf(h, cells[m]) == IndexOf(g, cells[m]);
    if k < j {
      EraseFromEmpties(h, cells, k + 1, j);
    } else if m :| k < m < |cells| && IndexOf(g, cells[m]) == IndexOf(g, cells[j]) {
      EraseFromEmpties(h, cells, k + 1, m);
    } else {
      EraseFromKeeps(h, cells, k + 1, IndexOf(g, cells[j]));
    }
  }

  /** Erasing cells empties exactly them: every cell they land on is empty
      afterwards and every other cell is kept. */
  lemma EraseCellsEffect(g: Grid, cells: Shape)
    requires InRange(g, cells)
    ensures forall i :: 0 <= i < |g.tiles| && (forall j :: 0 <= j < |cells| ==> IndexOf(g, cells[j]) != i) ==>
      EraseCells(g, cells).tiles[i] == g.tiles[i]
    ensures forall j :: 0 <= j < |cells| ==> EraseCells(g, cells).tiles[IndexOf(g, cells[j])] == None
  {
    forall i | 0 <= i < |g.tiles| && (forall j :: 0 <= j < |cells| ==> IndexOf(g, cells[j]) != i)
      ensures EraseCells(g, cells).tiles[i] == g.tiles[i]
    {
      EraseFromKeeps(g, cells, 0, i);
    }
    forall j | 0 <= j < |cells|
      ensures EraseCells(g, cells).tiles[IndexOf(g, cells[j])] == None
    {
      EraseFromEmpties(g, cells, 0, j);
    }
  }

  /** `Piece`: its kind, the rotations and tile of that kind, and the pose.
      The two cooldown timers the source builds are never read by the
      rules and are not modelled. */
  class Piece {
    const kind: PieceCatalog.ShapeType
    const shapeData: seq<Shape>
    const tileData: TileData
    var state: PieceState
    var rotation: nat
    var position: Vec2

    ghost predicate Valid()
      reads this
    {
      shapeData == PieceCatalog.Data(kind).shape && rotation < |shapeData|
    }

    function CurrentPose(): Pose
      reads this
    {
      Pose(rotation, position, state)
    }

    /** The absolute cells of the piece in its current rotation. */
    function Cells(): Shape
      reads this
      requires rotation < |shapeData|
    {
      Footprint(shapeData[rotation], position)
    }

    /** `Piece::build`: the kind's rotations and tile, rotation 0, active, at
        column 4 and lifted by the kind's spawn offset. The tile must exist
        (the source's `expect`). */
    constructor Build(kind: PieceCatalog.ShapeType, tileset: AppTileset.Tileset)
      requires PieceCatalog.Data(kind).tileId < |tileset.tiles|
      ensures Valid()
      ensures this.kind == kind && shapeData == PieceCatalog.Data(kind).shape
      ensures tileData == tileset.tiles[PieceCatalog.Data(kind).tileId]
      ensures CurrentPose() == Pose(PieceCatalog.DEFAULT_ROTATION, Vec2(SPAWN_OFFSET_X, FIRST_ROW - PieceCatalog.Data(kind).offsetY), Active)
    {
      var pieceData := PieceCatalog.Data(kind);
      var tile := AppTileset.GetTiledata(tileset, pieceData.tileId);
      PieceCatalog.CatalogWellFormed(kind, 0);
      this.kind := kind;
      state := Active;
      tileData := tile.value;
      shapeData := pieceData.shape;
      rotation := PieceCatalog.DEFAULT_ROTATION;
      position := Vec2(SPAWN_OFFSET_X, FIRST_ROW - pieceData.offsetY);
    }

    /** `transform_piece`. */
    method TransformPiece(t: Transform, tilemap: AppTilemap.Tilemap) returns (s: PieceState)
      requires Valid()
      modifies this
      ensures Valid()
      ensures (CurrentPose(), s) == TransformPose(old(shapeData[rotation]), old(CurrentPose()), t, tilemap.View())
    {
      match EvaluateTransform(shapeData[rotation], position, t, tilemap.View())
      case Success(newPosition) =>
        position := newPosition;
        state := Active;
        s := Active;
      case Land =>
        state := Landed;
        s := Landed;
      case Collision =>
        s := Active;
    }

    /** `rotate_piece`: the rotations come from the kind's data, which the
        piece also holds. */
    method RotatePiece(tilemap: AppTilemap.Tilemap) returns (s: PieceState)
      requires Valid()
      modifies this
      ensures Valid()
      ensures (CurrentPose(), s) == RotatePose(old(shapeData[rotation]), PieceCatalog.Data(kind).shape, old(CurrentPose()), tilemap.View())
    {
      var rotations := PieceCatalog.Data(kind).shape;
      var result := EvaluateRotation(shapeData[rotation], rotations, rotation, position, tilemap.View());
      if result.RotationSuccess? {
        rotation := result.rotation;
      }
      s := Active;
    }
  }

  /** `write_piece`: for each offset of the current rotation, set the cell
      at `position + offset` to the piece's tile. */
  method WritePiece(piece: Piece, tilemap: AppTilemap.Tilemap)
    requires piece.rotation < |piece.shapeData| && InRange(tilemap.View(), piece.Cells())
    modifies tilemap
    ensures tilemap.View() == WriteCells(old(tilemap.View()), piece.Cells(), piece.tileData)
  {
    var shape := piece.shapeData[piece.rotation];
    var position := piece.position;
    var data := piece.tileData;
    ghost var cells := piece.Cells();
    ghost var g0 := tilemap.View();
    var k := 0;
    while k < |shape|
      invariant k <= |shape| == |cells|
      invariant InRange(tilemap.View(), cells)
      invariant WriteFrom(tilemap.View(), cells, data, k) == WriteFrom(g0, cells, data, 0)
    {
      var coord := shape[k];
      var p := Vec2(position.x + coord.x, position.y + coord.y);
      assert p == cells[k];
      ghost var before := tilemap.View();
      tilemap.SetTileAtCoord(p, data);
      InRangeKept(before, tilemap.View(), cells);
      k := k + 1;
    }
  }

  /** `erase_piece`: for each offset of the current rotation, clear the cell
      at `position + offset`. */
  method ErasePiece(piece: Piece, tilemap: AppTilemap.Tilemap)
    requires piece.rotation < |piece.shapeData| && InRange(tilemap.View(), piece.Cells())
    modifies tilemap
    ensures tilemap.View() == EraseCells(old(tilemap.View()), piece.Cells())
  {
    var shape := piece.shapeData[piece.rotation];
    var position := piece.position;
    ghost var cells := piece.Cells();
    ghost var g0 := tilemap.View();
    var k := 0;
    while k < |shape|
      invariant k <= |shape| == |cells|
      invariant InRange(tilemap.View(), cells)
      invariant EraseFrom(tilemap.View(), cells, k) == EraseFrom(g0, cells, 0)
    {
      var coord := shape[k];
      var p := Vec2(position.x + coord.x, position.y + coord.y);
      assert p == cells[k];
      ghost var before := tilemap.View();
      tilemap.ClearTileAtCoord(p);
      InRangeKept(before, tilemap.View(), cells);
      k := k + 1;
    }
  }

  /** A move down never collides from a footprint that passes
      `check_bounds`: a checked cell outside the bounds can only be below
      the last row, which counts as reaching the bottom, and an occupied
      one makes the piece land. */
  lemma DownNeverCollision(shape: Shape, position: Vec2, g: Grid)
    requires CheckBounds(Footprint(shape, position), g)
    ensures EvaluateTransform(shape, position, Down, g) != Collision
  {
    var u := UncheckedAfterMove(shape, position, Down);
    if !CheckBounds(u, g) {
      var i :| 0 <= i < |u| && !(AboveBounds(u[i], g) || IsBound(g, u[i]));
      BelowFootprint(shape, position, g, u[i]);
      assert IsShapeOnBottom(u, g);
    }
  }

  /** A cell of the footprint moved down, when the footprint passes
      `check_bounds`, has its column inside the field and is at most one
      row below it. */
  lemma BelowFootprint(shape: Shape, position: Vec2, g: Grid, c: Vec2)
    requires CheckBounds(Footprint(shape, position), g)
    requires c in UncheckedAfterMove(shape, position, Down)
    requires !(AboveBounds(c, g) || IsBound(g, c))
    ensures c.y >= g.dimensions.y - 1
  {
    var moved := Footprint(shape, position.Add(ToCoordinate(Down)));
    var current := Footprint(shape, position);
    assert c in moved;
    var k :| 0 <= k < |moved| && moved[k] == c;
    StepDown(current[k], g);
  }

  /** The cell below one that is inside the field or above it is inside
      the field, above it, or on the row past the last. */
  lemma StepDown(p: Vec2, g: Grid)
    requires AboveBounds(p, g) || IsBound(g, p)
    ensures AboveBounds(Vec2(p.x, p.y + 1), g) || IsBound(g, Vec2(p.x, p.y + 1)) || p.y + 1 >= g.dimensions.y - 1
  {
  }


  /** Cells of distinct in-bounds coordinates, once written, each hold the
      written tile at their own world-space position. */
  lemma WrittenCellsOccupied(g: Grid, cells: Shape, data: TileData)
    requires g.Valid()
    requires forall j :: 0 <= j < |cells| ==> IsBound(g, cells[j])
    requires forall j, k :: 0 <= j < k < |cells| ==> cells[j] != cells[k]
    ensures InRange(g, cells)
    ensures forall j :: 0 <= j < |cells| ==>
      GetAtCoord(WriteCells(g, cells, data), cells[j]) == Some(Tile(data.id, data.src, CoordToWorldspace(g, cells[j])))
  {
    forall j | 0 <= j < |cells|
      ensures 0 <= IndexOf(g, cells[j]) < |g.tiles|
    {
      BoundIndex(g, cells[j], cells[j]);
    }
    forall j | 0 <= j < |cells|
      ensures GetAtCoord(WriteCells(g, cells, data), cells[j]) == Some(Tile(data.id, data.src, CoordToWorldspace(g, cells[j])))
    {
      forall k | j < k < |cells|
        ensures IndexOf(g, cells[k]) != IndexOf(g, cells[j])
      {
        BoundIndex(g, cells[k], cells[j]);
      }
      WriteCellsLast(g, cells, data, j);
    }
  }

  /** The check skips any cell of the moved footprint that coincides with a
      relative offset. A move onto the top-left corner (for example left
      from `(1, 0)`) succeeds even when a cell the piece then covers is
      occupied, because every moved cell equals one of its own offsets and
      none is checked. O's first rotation, `(0, 0) (1, 0) (0, 1) (1, 1)`,
      contains `(0, 1)` (`PieceCatalog.ShapesO`). */
  lemma RelativeExclusionSkipsCell(shape: Shape, position: Vec2, t: Transform, g: Grid)
    requires position.Add(ToCoordinate(t)) == Vec2(0, 0)
    requires g.Valid() && Vec2(0, 1) in shape && IsOccupied(g, Vec2(0, 1))
    ensures EvaluateTransform(shape, position, t, g) == Success(Vec2(0, 0))
    ensures Vec2(0, 1) in Footprint(shape, Vec2(0, 0)) && IsOccupied(g, Vec2(0, 1))
  {
    MoveOntoOffsets(shape, position, t, g);
  }

  /** A move whose target position is the origin checks no cell at all:
      every moved cell is one of the shape's own offsets. */
  lemma MoveOntoOffsets(shape: Shape, position: Vec2, t: Transform, g: Grid)
    requires position.Add(ToCoordinate(t)) == Vec2(0, 0)
    ensures Footprint(shape, Vec2(0, 0)) == shape
    ensures UncheckedAfterMove(shape, position, t) == []
    ensures EvaluateTransform(shape, position, t, g) == Success(Vec2(0, 0))
  {
    PlacedAtOrigin(shape);
    NothingNew(shape);
    EmptyCheckSucceeds(shape, position, t, g);
  }

  lemma PlacedAtOrigin(shape: Shape)
    ensures Footprint(shape, Vec2(0, 0)) == shape
  {
  }

  lemma NothingNew(shape: Shape)
    ensures GetNewShapeCoordinates(shape, shape) == []
  {
  }

  lemma EmptyCheckSucceeds(shape: Shape, position: Vec2, t: Transform, g: Grid)
    requires UncheckedAfterMove(shape, position, t) == []
    ensures EvaluateTransform(shape, position, t, g) == Success(position.Add(ToCoordinate(t)))
  {
  }
}
