/** src/algorithm.rs: the predicates the piece logic uses on lists of
    cells. Each source function is one iterator pass (`any`, `all`, `map`,
    `filter`); here each is the matching recursion over the list, and its
    contract states the quantified meaning of that pass. */
module Algorithm {
  import opened Geometry
  import opened TileGrid
  import Arith

  /** A list of cells, in the order the piece tables produce them. */
  type Shape = seq<Vec2>

  /** `above_bounds`: the cell is above the field with its column inside it. */
  predicate AboveBounds(c: Vec2, g: Grid) {
    c.y < 0 && 0 <= c.x < g.dimensions.x
  }

  /** A cell above the field is neither inside it nor occupied: its linear
      index is negative. */
  lemma AboveBoundsOutside(c: Vec2, g: Grid)
    requires AboveBounds(c, g)
    ensures !IsBound(g, c) && !IsOccupied(g, c)
    ensures IndexOf(g, c) < 0
  {
    Arith.RowMajorNegative(g.dimensions.x, c.x, c.y);
  }

  /** `is_shape_on_bottom`: some cell is on or below the last row. */
  predicate IsShapeOnBottom(shape: Shape, g: Grid)
    ensures IsShapeOnBottom(shape, g) <==> exists i :: 0 <= i < |shape| && shape[i].y >= g.dimensions.y - 1
  {
    |shape| > 0 && (shape[0].y >= g.dimensions.y - 1 || IsShapeOnBottom(shape[1..], g))
  }

  /** `transform_shape`: every cell moved by `delta`, length and order kept. */
  function TransformShape(shape: Shape, delta: Vec2): (r: Shape)
    ensures |r| == |shape|
    ensures forall i :: 0 <= i < |shape| ==> r[i] == Vec2(shape[i].x + delta.x, shape[i].y + delta.y)
  {
    if shape == [] then [] else [shape[0].Add(delta)] + TransformShape(shape[1..], delta)
  }

  /** `a` is `b` with some elements dropped, the rest in their order. */
  predicate IsSubsequence(a: Shape, b: Shape) {
    if a == [] then true
    else if b == [] then false
    else if a[0] == b[0] then IsSubsequence(a[1..], b[1..])
    else IsSubsequence(a, b[1..])
  }

  /** `get_new_shape_coordinates(old, new)`: the cells of the moved shape
      that are not in the current one, in the order of the moved shape. */
  function GetNewShapeCoordinates(current: Shape, moved: Shape): (r: Shape)
    ensures forall c :: c in r <==> c in moved && c !in current
    ensures IsSubsequence(r, moved)
    ensures (forall c :: c in moved ==> c in current) ==> r == []
    ensures (forall c :: c in moved ==> c !in current) ==> r == moved
  {
    if moved == [] then []
    else if moved[0] in current then GetNewShapeCoordinates(current, moved[1..])
    else [moved[0]] + GetNewShapeCoordinates(current, moved[1..])
  }

  /** `check_bounds`: every cell is inside the field or above it. */
  predicate CheckBounds(shape: Shape, g: Grid)
    ensures CheckBounds(shape, g) <==> forall i :: 0 <= i < |shape| ==> AboveBounds(shape[i], g) || IsBound(g, shape[i])
  {
    |shape| == 0 || ((AboveBounds(shape[0], g) || IsBound(g, shape[0])) && CheckBounds(shape[1..], g))
  }

  /** `check_shape_collision`: some cell is occupied. */
  predicate CheckShapeCollision(shape: Shape, g: Grid)
    ensures CheckShapeCollision(shape, g) <==> exists i :: 0 <= i < |shape| && IsOccupied(g, shape[i])
  {
    |shape| > 0 && (IsOccupied(g, shape[0]) || CheckShapeCollision(shape[1..], g))
  }

  /** A list that passes `check_bounds` and has no collision lies, cell by
      cell, either above the field or on a free cell inside it. */
  lemma BoundedFreeCells(shape: Shape, g: Grid)
    requires g.Valid() && CheckBounds(shape, g) && !CheckShapeCollision(shape, g)
    ensures forall i :: 0 <= i < |shape| ==>
      AboveBounds(shape[i], g) || (0 <= IndexOf(g, shape[i]) < |g.tiles| && g.tiles[IndexOf(g, shape[i])] == None)
  {
    forall i | 0 <= i < |shape|
      ensures AboveBounds(shape[i], g) || (0 <= IndexOf(g, shape[i]) < |g.tiles| && g.tiles[IndexOf(g, shape[i])] == None)
    {
      if !AboveBounds(shape[i], g) {
        OccupiedInBounds(g, shape[i]);
      }
    }
  }
}
