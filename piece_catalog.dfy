/** src/constants/piece.rs: the seven piece kinds, their rotations drawn as
    ASCII tables, the parser that turns a table into cell offsets, and each
    kind's tile id and spawn offset. */
module PieceCatalog {
  import opened Geometry
  import opened Algorithm

  /** One table per rotation, one string per row. */
  type RawPieceData = seq<seq<string>>

  const I_PIECE: RawPieceData := [
    ["    ",
     "    ",
     "####",
     "    "],
    ["  # ",
     "  # ",
     "  # ",
     "  # "]]

  const J_PIECE: RawPieceData := [
    ["   ",
     "###",
     "  #"],
    [" ##",
     " # ",
     " # "],
    ["#  ",
     "###",
     "   "],
    [" # ",
     " # ",
     "## "]]

  const L_PIECE: RawPieceData := [
    ["   ",
     "###",
     "#  "],
    [" # ",
     " # ",
     " ##"],
    ["  #",
     "###",
     "   "],
    ["## ",
     " # ",
     " # "]]

  const O_PIECE: RawPieceData := [
    ["##",
     "##"]]

  const S_PIECE: RawPieceData := [
    ["   ",
     " ##",
     "## "],
    [" # ",
     " ##",
     "  #"]]

  const T_PIECE: RawPieceData := [
    ["   ",
     "###",
     " # "],
    [" # ",
     " ##",
     " # "],
    [" # ",
     "###",
     "   "],
    [" # ",
     "## ",
     " # "]]

  const Z_PIECE: RawPieceData := [
    ["   ",
     "## ",
     " ##"],
    ["  #",
     " ##",
     " # "]]

  const TILE_SYMBOL: char := '#'

  /** Row-major order on cells: by row, then by column. */
  predicate Before(a: Vec2, b: Vec2) {
    a.y < b.y || (a.y == b.y && a.x < b.x)
  }

  predicate RowMajor(cells: Shape) {
    forall i, j :: 0 <= i < j < |cells| ==> Before(cells[i], cells[j])
  }

  /** The cells row `y` of a table contributes, from column `x` on: one per
      tile symbol, every other character ignored. */
  function ParseRow(row: string, x: nat, y: int): Shape
    requires x <= |row|
    decreases |row| - x
  {
    if x == |row| then []
    else (if row[x] == TILE_SYMBOL then [Vec2(x, y)] else []) + ParseRow(row, x + 1, y)
  }

  /** The cells of the rows from row `y` on, top row first. */
  function ParseRows(rows: seq<string>, y: nat): Shape
    requires y <= |rows|
    decreases |rows| - y
  {
    if y == |rows| then []
    else ParseRow(rows[y], 0, y) + ParseRows(rows, y + 1)
  }

  /** A row yields exactly the tile symbols from column `x` on, left to right. */
  lemma {:induction false} ParseRowMeaning(row: string, x: nat, y: int)
    requires x <= |row|
    ensures forall c :: c in ParseRow(row, x, y) <==> c.y == y && x <= c.x < |row| && row[c.x] == TILE_SYMBOL
    ensures RowMajor(ParseRow(row, x, y))
    decreases |row| - x
  {
    if x < |row| {
      ParseRowMeaning(row, x + 1, y);
    }
  }

  /** A table yields exactly its tile symbols, each as `(column, row)`, in
      row-major order; every other character is ignored. */
  lemma {:induction false} ParseRowsMeaning(rows: seq<string>, y: nat)
    requires y <= |rows|
    ensures forall c :: c in ParseRows(rows, y) <==> y <= c.y < |rows| && 0 <= c.x < |rows[c.y]| && rows[c.y][c.x] == TILE_SYMBOL
    ensures RowMajor(ParseRows(rows, y))
    decreases |rows| - y
  {
    if y < |rows| {
      ParseRowMeaning(rows[y], 0, y);
      ParseRowsMeaning(rows, y + 1);
    }
  }

  /** One parsed shape per rotation table, in table order. */
  function ParseRotations(data: RawPieceData): (r: seq<Shape>)
    ensures |r| == |data|
    ensures forall i :: 0 <= i < |data| ==> r[i] == ParseRows(data[i], 0)
  {
    seq(|data|, i requires 0 <= i < |data| => ParseRows(data[i], 0))
  }

  /** `get_shape_rotation_coordinates`: for each rotation, scan the rows top
      to bottom and each row left to right, pushing `(x, y)` for every tile
      symbol. The two inner loops are `ScanRotation` and `ScanRow`. */
  method GetShapeRotationCoordinates(data: RawPieceData) returns (shapeRotations: seq<Shape>)
    ensures shapeRotations == ParseRotations(data)
  {
    shapeRotations := [];
    var rotation := 0;
    while rotation < |data|
      invariant rotation <= |data|
      invariant shapeRotations == ParseRotations(data)[..rotation]
    {
      var shape := ScanRotation(data[rotation]);
      shapeRotations := shapeRotations + [shape];
      rotation := rotation + 1;
    }
  }

  /** The loop over the rows of one rotation table. */
  method ScanRotation(rows: seq<string>) returns (shape: Shape)
    ensures shape == ParseRows(rows, 0)
  {
    shape := [];
    var y := 0;
    while y < |rows|
      invariant y <= |rows|
      invariant shape + ParseRows(rows, y) == ParseRows(rows, 0)
    {
      var cells := ScanRow(rows[y], y);
      assert ParseRows(rows, y) == cells + ParseRows(rows, y + 1);
      shape := shape + cells;
      y := y + 1;
    }
  }

  /** The loop over the characters of row `y`. */
  method ScanRow(row: string, y: nat) returns (cells: Shape)
    ensures cells == ParseRow(row, 0, y)
  {
    cells := [];
    var x := 0;
    while x < |row|
      invariant x <= |row|
      invariant cells + ParseRow(row, x, y) == ParseRow(row, 0, y)
    {
      assert ParseRow(row, x, y) == (if row[x] == TILE_SYMBOL then [Vec2(x, y)] else []) + ParseRow(row, x + 1, y);
      if row[x] == TILE_SYMBOL {
        cells := cells + [Vec2(x, y)];
      }
      x := x + 1;
    }
  }

  const DEFAULT_ROTATION: nat := 0

  /** `PieceData`: tile id, rotations, and how far to lift the piece so that
      its first rotation spawns against the roof. */
  datatype PieceData = PieceData(tileId: TileId, shape: seq<Shape>, offsetY: nat)

  datatype ShapeType = I | J | L | O | S | T | Z

  function Raw(kind: ShapeType): RawPieceData {
    match kind
    case I => I_PIECE
    case J => J_PIECE
    case L => L_PIECE
    case O => O_PIECE
    case S => S_PIECE
    case T => T_PIECE
    case Z => Z_PIECE
  }

  /** Position of a kind in the declaration order `I, J, L, O, S, T, Z`. */
  function KindIndex(kind: ShapeType): (r: nat)
    ensures r < 7
  {
    match kind
    case I => 0
    case J => 1
    case L => 2
    case O => 3
    case S => 4
    case T => 5
    case Z => 6
  }

  /** `ShapeType::data`: the parsed rotations of the kind's table, its tile
      id (its position in declaration order plus one) and its spawn offset
      (zero for O, one for every other kind). */
  function Data(kind: ShapeType): (r: PieceData)
    ensures r.shape == ParseRotations(Raw(kind))
    ensures r.tileId == KindIndex(kind) + 1
    ensures r.offsetY == if kind == O then 0 else 1
  {
    match kind
    case I => PieceData(1, ParseRotations(I_PIECE), 1)
    case J => PieceData(2, ParseRotations(J_PIECE), 1)
    case L => PieceData(3, ParseRotations(L_PIECE), 1)
    case O => PieceData(4, ParseRotations(O_PIECE), 0)
    case S => PieceData(5, ParseRotations(S_PIECE), 1)
    case T => PieceData(6, ParseRotations(T_PIECE), 1)
    case Z => PieceData(7, ParseRotations(Z_PIECE), 1)
  }

  /** `ShapeType::random` after the random draw: index `0..6` in declaration
      order. The draw `random(0, 7)` always lies in that range, so the
      source's panic arm is never taken. */
  function Random(index: nat): (r: ShapeType)
    requires index < 7
    ensures KindIndex(r) == index
  {
    match index
    case 0 => I
    case 1 => J
    case 2 => L
    case 3 => O
    case 4 => S
    case 5 => T
    case 6 => Z
  }

  /** The index mapping is a bijection between `0..6` and the seven kinds. */
  lemma RandomBijective(kind: ShapeType, index: nat)
    requires index < 7
    ensures Random(KindIndex(kind)) == kind
    ensures Random(index) == kind <==> KindIndex(kind) == index
  {
  }

  /** Every cell of the shape has non-negative offsets below four. */
  predicate SmallOffsets(shape: Shape) {
    forall i :: 0 <= i < |shape| ==> 0 <= shape[i].x < 4 && 0 <= shape[i].y < 4
  }

  /** How many rows at the top of a table hold no tile symbol. */
  function LeadingBlankRows(rows: seq<string>): (r: nat)
    ensures r <= |rows|
    ensures forall y :: 0 <= y < r ==> TILE_SYMBOL !in rows[y]
    ensures r < |rows| ==> TILE_SYMBOL in rows[r]
  {
    if rows == [] || TILE_SYMBOL in rows[0] then 0 else 1 + LeadingBlankRows(rows[1..])
  }
  const I_SHAPES: seq<Shape> := [[Vec2(0, 2), Vec2(1, 2), Vec2(2, 2), Vec2(3, 2)],
    [Vec2(2, 0), Vec2(2, 1), Vec2(2, 2), Vec2(2, 3)]]
  const J_SHAPES: seq<Shape> := [[Vec2(0, 1), Vec2(1, 1), Vec2(2, 1), Vec2(2, 2)],
    [Vec2(1, 0), Vec2(2, 0), Vec2(1, 1), Vec2(1, 2)],
    [Vec2(0, 0), Vec2(0, 1), Vec2(1, 1), Vec2(2, 1)],
    [Vec2(1, 0), Vec2(1, 1), Vec2(0, 2), Vec2(1, 2)]]
  const L_SHAPES: seq<Shape> := [[Vec2(0, 1), Vec2(1, 1), Vec2(2, 1), Vec2(0, 2)],
    [Vec2(1, 0), Vec2(1, 1), Vec2(1, 2), Vec2(2, 2)],
    [Vec2(2, 0), Vec2(0, 1), Vec2(1, 1), Vec2(2, 1)],
    [Vec2(0, 0), Vec2(1, 0), Vec2(1, 1), Vec2(1, 2)]]
  const O_SHAPES: seq<Shape> := [[Vec2(0, 0), Vec2(1, 0), Vec2(0, 1), Vec2(1, 1)]]
  const S_SHAPES: seq<Shape> := [[Vec2(1, 1), Vec2(2, 1), Vec2(0, 2), Vec2(1, 2)],
    [Vec2(1, 0), Vec2(1, 1), Vec2(2, 1), Vec2(2, 2)]]
  const T_SHAPES: seq<Shape> := [[Vec2(0, 1), Vec2(1, 1), Vec2(2, 1), Vec2(1, 2)],
    [Vec2(1, 0), Vec2(1, 1), Vec2(2, 1), Vec2(1, 2)],
    [Vec2(1, 0), Vec2(0, 1), Vec2(1, 1), Vec2(2, 1)],
    [Vec2(1, 0), Vec2(0, 1), Vec2(1, 1), Vec2(1, 2)]]
  const Z_SHAPES: seq<Shape> := [[Vec2(0, 1), Vec2(1, 1), Vec2(1, 2), Vec2(2, 2)],
    [Vec2(2, 0), Vec2(1, 1), Vec2(2, 1), Vec2(1, 2)]]

  /** The offset tables above have the expected number of rotations, four
      cells per rotation and offsets in `0..3`; one lemma per kind keeps each
      proof small. */
  lemma IRotationsWellFormed()
    ensures WellFormedRotations(I_SHAPES, RotationCount(I))
  {
  }

  lemma JRotationsWellFormed()
    ensures WellFormedRotations(J_SHAPES, RotationCount(J))
  {
  }

  lemma LRotationsWellFormed()
    ensures WellFormedRotations(L_SHAPES, RotationCount(L))
  {
  }

  lemma ORotationsWellFormed()
    ensures WellFormedRotations(O_SHAPES, RotationCount(O))
  {
  }

  lemma SRotationsWellFormed()
    ensures WellFormedRotations(S_SHAPES, RotationCount(S))
  {
  }

  lemma TRotationsWellFormed()
    ensures WellFormedRotations(T_SHAPES, RotationCount(T))
  {
  }

  lemma ZRotationsWellFormed()
    ensures WellFormedRotations(Z_SHAPES, RotationCount(Z))
  {
  }

  /** The offsets parsed from the I tables. */
  lemma ShapesI()
    ensures Data(I).shape == I_SHAPES
    ensures WellFormedRotations(I_SHAPES, RotationCount(I))
  {
    IRotationsWellFormed();
    assert ParseRows(I_PIECE[0], 0) == I_SHAPES[0];
    assert ParseRows(I_PIECE[1], 0) == I_SHAPES[1];
  }

  /** The offsets parsed from the J tables. */
  lemma ShapesJ()
    ensures Data(J).shape == J_SHAPES
    ensures WellFormedRotations(J_SHAPES, RotationCount(J))
  {
    JRotationsWellFormed();
    assert ParseRows(J_PIECE[0], 0) == J_SHAPES[0];
    assert ParseRows(J_PIECE[1], 0) == J_SHAPES[1];
    assert ParseRows(J_PIECE[2], 0) == J_SHAPES[2];
    assert ParseRows(J_PIECE[3], 0) == J_SHAPES[3];
  }

  /** The offsets parsed from the L tables. */
  lemma ShapesL()
    ensures Data(L).shape == L_SHAPES
    ensures WellFormedRotations(L_SHAPES, RotationCount(L))
  {
    LRotationsWellFormed();
    assert ParseRows(L_PIECE[0], 0) == L_SHAPES[0];
    assert ParseRows(L_PIECE[1], 0) == L_SHAPES[1];
    assert ParseRows(L_PIECE[2], 0) == L_SHAPES[2];
    assert ParseRows(L_PIECE[3], 0) == L_SHAPES[3];
  }

  /** The offsets parsed from the O tables. */
  lemma ShapesO()
    ensures Data(O).shape == O_SHAPES
    ensures WellFormedRotations(O_SHAPES, RotationCount(O))
  {
    ORotationsWellFormed();
    assert ParseRows(O_PIECE[0], 0) == O_SHAPES[0];
  }

  /** The offsets parsed from the S tables. */
  lemma ShapesS()
    ensures Data(S).shape == S_SHAPES
    ensures WellFormedRotations(S_SHAPES, RotationCount(S))
  {
    SRotationsWellFormed();
    assert ParseRows(S_PIECE[0], 0) == S_SHAPES[0];
    assert ParseRows(S_PIECE[1], 0) == S_SHAPES[1];
  }

  /** The offsets parsed from the T tables. */
  lemma ShapesT()
    ensures Data(T).shape == T_SHAPES
    ensures WellFormedRotations(T_SHAPES, RotationCount(T))
  {
    TRotationsWellFormed();
    assert ParseRows(T_PIECE[0], 0) == T_SHAPES[0];
    assert ParseRows(T_PIECE[1], 0) == T_SHAPES[1];
    assert ParseRows(T_PIECE[2], 0) == T_SHAPES[2];
    assert ParseRows(T_PIECE[3], 0) == T_SHAPES[3];
  }

  /** The offsets parsed from the Z tables. */
  lemma ShapesZ()
    ensures Data(Z).shape == Z_SHAPES
    ensures WellFormedRotations(Z_SHAPES, RotationCount(Z))
  {
    ZRotationsWellFormed();
    assert ParseRows(Z_PIECE[0], 0) == Z_SHAPES[0];
    assert ParseRows(Z_PIECE[1], 0) == Z_SHAPES[1];
  }

  /** The number of rotations of each kind. */
  function RotationCount(kind: ShapeType): nat {
    match kind
    case I => 2
    case J => 4
    case L => 4
    case O => 1
    case S => 2
    case T => 4
    case Z => 2
  }

  /** `count` rotations of four cells each, all with offsets in `0..3`. */
  predicate WellFormedRotations(shapes: seq<Shape>, count: nat) {
    |shapes| == count && forall r :: 0 <= r < |shapes| ==> |shapes[r]| == 4 && SmallOffsets(shapes[r])
  }

  lemma ParsedShapes(kind: ShapeType)
    ensures WellFormedRotations(Data(kind).shape, RotationCount(kind))
  {
    match kind
    case I => ShapesI();
    case J => ShapesJ();
    case L => ShapesL();
    case O => ShapesO();
    case S => ShapesS();
    case T => ShapesT();
    case Z => ShapesZ();
  }

  /** Every kind has the rotation count of its tables (I 2, J 4, L 4, O 1,
      S 2, T 4, Z 2), `DEFAULT_ROTATION` is one of its rotations, and every
      rotation has exactly four cells with offsets in `0..3`. */
  lemma CatalogWellFormed(kind: ShapeType, rotation: nat)
    requires rotation < |Data(kind).shape|
    ensures |Data(kind).shape| == RotationCount(kind)
    ensures DEFAULT_ROTATION < |Data(kind).shape|
    ensures |Data(kind).shape[rotation]| == 4
    ensures SmallOffsets(Data(kind).shape[rotation])
  {
    ParsedShapes(kind);
  }

  /** The spawn offset is the number of blank rows above the first rotation
      for every kind but I, whose first table has two blank rows against an
      offset of one. */
  lemma OffsetMatchesBlankRows(kind: ShapeType)
    ensures kind != I ==> Data(kind).offsetY == LeadingBlankRows(Raw(kind)[0])
    ensures LeadingBlankRows(Raw(I)[0]) == 2 && Data(I).offsetY == 1
  {
    assert TILE_SYMBOL in I_PIECE[0][2];
    assert TILE_SYMBOL !in I_PIECE[0][0] && TILE_SYMBOL !in I_PIECE[0][1];
    match kind
    case I =>
    case J => assert TILE_SYMBOL in J_PIECE[0][1] && TILE_SYMBOL !in J_PIECE[0][0];
    case L => assert TILE_SYMBOL in L_PIECE[0][1] && TILE_SYMBOL !in L_PIECE[0][0];
    case O => assert TILE_SYMBOL in O_PIECE[0][0];
    case S => assert TILE_SYMBOL in S_PIECE[0][1] && TILE_SYMBOL !in S_PIECE[0][0];
    case T => assert TILE_SYMBOL in T_PIECE[0][1] && TILE_SYMBOL !in T_PIECE[0][0];
    case Z => assert TILE_SYMBOL in Z_PIECE[0][1] && TILE_SYMBOL !in Z_PIECE[0][0];
  }
}
