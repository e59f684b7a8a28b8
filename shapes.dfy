/**
  Piece shapes as occupancy matrices, and the rotation transform
  (tetris.py:93-94).
 */
module Shapes {

  /** A shape: rows of cells, `true` where the piece has a block. */
  type Shape = seq<seq<bool>>

  /** At least one row, at least one column, every row as wide as the first. */
  predicate Rectangular(s: Shape)
  {
    |s| > 0 && |s[0]| > 0 && forall y :: 0 <= y < |s| ==> |s[y]| == |s[0]|
  }

  /** Number of columns of a rectangular shape. */
  function Width(s: Shape): nat
    requires |s| > 0
  {
    |s[0]|
  }

  ghost predicate RowHasBlock(s: Shape, y: int)
    requires Rectangular(s) && 0 <= y < |s|
  {
    exists x :: 0 <= x < Width(s) && s[y][x]
  }

  ghost predicate ColumnHasBlock(s: Shape, x: int)
    requires Rectangular(s) && 0 <= x < Width(s)
  {
    exists y :: 0 <= y < |s| && s[y][x]
  }

  /** Every row and every column of the bounding box holds a block. */
  ghost predicate Tight(s: Shape)
    requires Rectangular(s)
  {
    (forall y :: 0 <= y < |s| ==> RowHasBlock(s, y))
    && (forall x :: 0 <= x < Width(s) ==> ColumnHasBlock(s, x))
  }

  /**
    The rotation of tetris.py:93-94: row `i` of the result is column
    `C-1-i` of the shape read from top to bottom, so an R×C shape becomes
    a C×R one.
   */
  function Rotate(s: Shape): (r: Shape)
    requires Rectangular(s)
    ensures Rectangular(r)
    ensures |r| == Width(s) && Width(r) == |s|
  {
    seq(Width(s), i requires 0 <= i < Width(s) =>
      seq(|s|, j requires 0 <= j < |s| => s[j][Width(s) - 1 - i]))
  }

  /** Two rotations turn the shape upside down and mirror it. */
  lemma RotateTwice(s: Shape)
    requires Rectangular(s)
    ensures var r := Rotate(Rotate(s));
      |r| == |s| && Width(r) == Width(s)
      && forall i, j :: 0 <= i < |s| && 0 <= j < Width(s) ==> r[i][j] == s[|s| - 1 - i][Width(s) - 1 - j]
  {
  }

  /** Four rotations give back the original shape. */
  lemma RotateFourTimes(s: Shape)
    requires Rectangular(s)
    ensures Rotate(Rotate(Rotate(Rotate(s)))) == s
  {
    var h := Rotate(Rotate(s));
    RotateTwice(s);
    RotateTwice(h);
    var r := Rotate(Rotate(h));
    assert |r| == |s|;
    forall i | 0 <= i < |s|
      ensures r[i] == s[i]
    {
      assert |r[i]| == |s[i]|;
      forall j | 0 <= j < Width(s)
        ensures r[i][j] == s[i][j]
      {
        assert r[i][j] == h[|s| - 1 - i][Width(s) - 1 - j];
      }
    }
  }

  /** Rotation keeps the shape tight: no empty border row or column appears. */
  lemma RotateKeepsTight(s: Shape)
    requires Rectangular(s) && Tight(s)
    ensures Tight(Rotate(s))
  {
    var r := Rotate(s);
    forall i | 0 <= i < |r|
      ensures RowHasBlock(r, i)
    {
      assert ColumnHasBlock(s, Width(s) - 1 - i);
      var j :| 0 <= j < |s| && s[j][Width(s) - 1 - i];
      assert r[i][j];
    }
    forall j | 0 <= j < Width(r)
      ensures ColumnHasBlock(r, j)
    {
      assert RowHasBlock(s, j);
      var x :| 0 <= x < Width(s) && s[j][x];
      assert r[Width(s) - 1 - x][j];
    }
  }

  /** The coordinates (row, column) of the blocks of a shape. */
  function Blocks(s: Shape): set<(int, int)>
  {
    set y, x | 0 <= y < |s| && 0 <= x < |s[y]| && s[y][x] :: (y, x)
  }

  /** Where a block at (row, column) of an R×C shape lands after `Rotate`. */
  function Turn(p: (int, int), c: int): (int, int)
  {
    (c - 1 - p.1, p.0)
  }

  function TurnAll(ps: set<(int, int)>, c: int): set<(int, int)>
  {
    set p | p in ps :: Turn(p, c)
  }

  /** `Turn` is one-to-one, so turning a set of blocks keeps their number. */
  lemma {:induction false} TurnAllSize(ps: set<(int, int)>, c: int)
    ensures |TurnAll(ps, c)| == |ps|
    decreases |ps|
  {
    if ps != {} {
      var p :| p in ps;
      var rest := ps - {p};
      TurnAllSize(rest, c);
      assert TurnAll(ps, c) == TurnAll(rest, c) + {Turn(p, c)};
      assert Turn(p, c) !in TurnAll(rest, c);
    }
  }

  lemma RotateBlocks(s: Shape)
    requires Rectangular(s)
    ensures Blocks(Rotate(s)) == TurnAll(Blocks(s), Width(s))
  {
    var r, c := Rotate(s), Width(s);
    forall q | q in Blocks(r)
      ensures q in TurnAll(Blocks(s), c)
    {
      var p := (q.1, c - 1 - q.0);
      assert s[p.0][p.1] == r[q.0][q.1];
      assert p in Blocks(s);
      assert Turn(p, c) == q;
    }
    forall p | p in Blocks(s)
      ensures Turn(p, c) in Blocks(r)
    {
      assert r[c - 1 - p.1][p.0] == s[p.0][p.1];
    }
  }

  /** Rotation keeps the number of blocks of the shape. */
  lemma RotateKeepsBlockCount(s: Shape)
    requires Rectangular(s)
    ensures |Blocks(Rotate(s))| == |Blocks(s)|
  {
    RotateBlocks(s);
    TurnAllSize(Blocks(s), Width(s));
  }
}
