/**
  The piece catalog of tetris.py:23-34: seven tetromino shapes and, at the
  same positions, their colours. The source finds a shape's colour by
  looking the shape up in the list (`shape_colors[shapes.index(shape)]`,
  tetris.py:154, 183, 245); the shapes are pairwise different, so this
  yields the colour paired with the shape.
 */
module Pieces {
  import opened Shapes
  import opened Board

  const AllShapes: seq<Shape> := [
    [[true, true, true, true]],
    [[true, true], [true, true]],
    [[false, true, false], [true, true, true]],
    [[true, false, false], [true, true, true]],
    [[false, false, true], [true, true, true]],
    [[true, true, false], [false, true, true]],
    [[false, true, true], [true, true, false]]
  ]

  const ShapeColors: seq<Color> := [Cyan, Yellow, Magenta, Red, Blue, Green, White]

  /** Python's `list.index`: the first position holding `x`. */
  function IndexOf<T(==)>(xs: seq<T>, x: T): (i: nat)
    requires x in xs
    ensures i < |xs| && xs[i] == x
    ensures forall j :: 0 <= j < i ==> xs[j] != x
  {
    if xs[0] == x then 0 else 1 + IndexOf(xs[1..], x)
  }

  /** `shape_colors[shapes.index(shape)]`. */
  function ColorOf(s: Shape): (c: Color)
    requires s in AllShapes
    ensures c in ShapeColors && c != Empty
  {
    ShapeColors[IndexOf(AllShapes, s)]
  }

  /** Looking a catalog shape up by equality finds its own entry, so it gets the colour paired with it. */
  lemma CatalogColor(k: nat)
    requires k < |AllShapes|
    ensures ColorOf(AllShapes[k]) == ShapeColors[k] != Empty
  {
    var s := AllShapes[k];
    forall j | 0 <= j < k ensures AllShapes[j] != s {
      assert AllShapes[j][|AllShapes[j]| - 1] != s[|s| - 1] || |AllShapes[j]| != |s| || AllShapes[j][0] != s[0];
    }
  }

  /** Catalog entry `k` is a tight rectangle at most 4 wide and 2 high. */
  lemma CatalogShape(k: nat)
    requires k < |AllShapes|
    ensures Rectangular(AllShapes[k]) && Tight(AllShapes[k])
    ensures |AllShapes[k]| <= 2 && Width(AllShapes[k]) <= 4
  {
    var s := AllShapes[k];
    assert forall y :: 0 <= y < |s| ==> RowHasBlock(s, y) by {
      forall y | 0 <= y < |s| ensures RowHasBlock(s, y) {
        assert s[y][0] || s[y][1] || s[y][Width(s) - 1];
      }
    }
    assert forall x :: 0 <= x < Width(s) ==> ColumnHasBlock(s, x) by {
      forall x | 0 <= x < Width(s) ensures ColumnHasBlock(s, x) {
        assert s[0][x] || s[|s| - 1][x];
      }
    }
  }
}
