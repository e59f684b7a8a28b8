/**
  The playing field of tetris.py: a matrix of colours where the colour
  `black` marks an empty cell (tetris.py:12-21, 40-46), the collision check
  (tetris.py:62-74), what locking a piece writes (tetris.py:77-82) and the
  line clear (tetris.py:85-90).
 */
module Board {
  import opened Shapes

  /** The colours of tetris.py:13-20; `Empty` stands for `black`. */
  datatype Color = Empty | White | Red | Green | Blue | Yellow | Cyan | Magenta

  const ScreenWidth: int := 350
  const ScreenHeight: int := 700
  const BlockSize: int := 25

  /** Columns and rows of the field: floor division of the screen size by the block size. */
  const GridWidth: int := ScreenWidth / BlockSize
  const GridHeight: int := ScreenHeight / BlockSize

  /** Rows are indexed from the top (0) down; `g[row][column]`. */
  type Grid = seq<seq<Color>>

  /** The field has GridHeight rows of GridWidth cells each. */
  ghost predicate WellFormed(g: Grid)
  {
    |g| == GridHeight && forall r :: 0 <= r < |g| ==> |g[r]| == GridWidth
  }

  function EmptyRow(): (row: seq<Color>)
    ensures |row| == GridWidth
  {
    seq(GridWidth, _ => Empty)
  }

  /** `create_grid` (tetris.py:45-46): every cell empty. */
  function CreateGrid(): (g: Grid)
    ensures WellFormed(g)
    ensures forall r, c :: 0 <= r < |g| && 0 <= c < |g[r]| ==> g[r][c] == Empty
    ensures NoFullRow(g)
  {
    var g := seq(GridHeight, _ => EmptyRow());
    assert forall r :: 0 <= r < |g| ==> g[r][0] == Empty;
    g
  }

  // ---------------------------------------------------------------------
  // Collision check
  // ---------------------------------------------------------------------

  /**
    What `valid_position` demands of one block landing at (column, row):
    neither coordinate negative, both within the rows and the cells of
    the field (otherwise the indexing raises IndexError, which the source
    turns into False), and the cell empty.
   */
  predicate CellFree(g: Grid, column: int, row: int)
  {
    0 <= row && 0 <= column && row < |g| && column < |g[row]| && g[row][column] == Empty
  }

  /** Every block of `s`, shifted by (ox, oy), lands on a free cell. */
  ghost predicate Fits(g: Grid, s: Shape, ox: int, oy: int)
  {
    forall y, x :: 0 <= y < |s| && 0 <= x < |s[y]| && s[y][x] ==> CellFree(g, x + ox, y + oy)
  }

  /** The inner loop of `valid_position` over the cells of row `y`, from cell `x` on. */
  function RowIsClear(g: Grid, row: seq<bool>, ox: int, oy: int, y: int, x: nat): (ok: bool)
    requires x <= |row|
    ensures ok <==> forall k :: x <= k < |row| && row[k] ==> CellFree(g, k + ox, y + oy)
    decreases |row| - x
  {
    if x == |row| then true
    else if row[x] && !CellFree(g, x + ox, y + oy) then false
    else RowIsClear(g, row, ox, oy, y, x + 1)
  }

  /** The outer loop of `valid_position` over the rows of `s`, from row `y` on. */
  function RowsAreClear(g: Grid, s: Shape, ox: int, oy: int, y: nat): (ok: bool)
    requires y <= |s|
    ensures ok <==> forall yy, x :: y <= yy < |s| && 0 <= x < |s[yy]| && s[yy][x] ==> CellFree(g, x + ox, yy + oy)
    decreases |s| - y
  {
    if y == |s| then true
    else if !RowIsClear(g, s[y], ox, oy, y, 0) then false
    else RowsAreClear(g, s, ox, oy, y + 1)
  }

  /**
    `valid_position(shape, (ox, oy))` (tetris.py:62-74): the shape's blocks
    are scanned row by row and the first block that lands on a negative
    coordinate, outside the field or on a filled cell makes it false.
   */
  function ValidPosition(g: Grid, s: Shape, ox: int, oy: int): (ok: bool)
    ensures ok <==> Fits(g, s, ox, oy)
  {
    RowsAreClear(g, s, ox, oy, 0)
  }

  /** On a well-formed field, validity is exactly: in bounds and on an empty cell. */
  lemma ValidPositionInBounds(g: Grid, s: Shape, ox: int, oy: int)
    requires WellFormed(g)
    ensures ValidPosition(g, s, ox, oy) <==>
      forall y, x :: 0 <= y < |s| && 0 <= x < |s[y]| && s[y][x] ==>
        0 <= x + ox < GridWidth && 0 <= y + oy < GridHeight && g[y + oy][x + ox] == Empty
  {
  }

  /** A block above the top row or left of the first column is rejected, never wrapped. */
  lemma NegativeRejected(g: Grid, s: Shape, ox: int, oy: int, y: int, x: int)
    requires 0 <= y < |s| && 0 <= x < |s[y]| && s[y][x]
    requires y + oy < 0 || x + ox < 0
    ensures !ValidPosition(g, s, ox, oy)
  {
  }

  // ---------------------------------------------------------------------
  // Locking a piece
  // ---------------------------------------------------------------------

  /** Cell (column, row) of the field lies under a block of `s` placed at (ox, oy). */
  predicate Covers(s: Shape, ox: int, oy: int, column: int, row: int)
  {
    0 <= row - oy < |s| && 0 <= column - ox < |s[row - oy]| && s[row - oy][column - ox]
  }

  /** The field after `join_shape(s, (ox, oy), c)` (tetris.py:77-82). */
  function Joined(g: Grid, s: Shape, ox: int, oy: int, c: Color): (j: Grid)
    ensures |j| == |g| && forall r :: 0 <= r < |g| ==> |j[r]| == |g[r]|
  {
    seq(|g|, r requires 0 <= r < |g| =>
      seq(|g[r]|, col requires 0 <= col < |g[r]| => if Covers(s, ox, oy, col, r) then c else g[r][col]))
  }

  /**
    After locking a piece at a valid position the field keeps its size, the
    cells of the piece's blocks hold its colour, and the piece no longer
    fits where it was locked.
   */
  lemma JoinedCells(g: Grid, s: Shape, ox: int, oy: int, c: Color, y: int, x: int)
    requires WellFormed(g) && ValidPosition(g, s, ox, oy) && c != Empty
    requires 0 <= y < |s| && 0 <= x < |s[y]| && s[y][x]
    ensures WellFormed(Joined(g, s, ox, oy, c))
    ensures Joined(g, s, ox, oy, c)[y + oy][x + ox] == c
    ensures !ValidPosition(Joined(g, s, ox, oy, c), s, ox, oy)
  {
  }

  // ---------------------------------------------------------------------
  // Line clear
  // ---------------------------------------------------------------------

  /** A row with no empty cell. */
  predicate Full(row: seq<Color>)
  {
    forall c :: 0 <= c < |row| ==> row[c] != Empty
  }

  /** `[row for row in grid if any(cell == black for cell in row)]`: the rows that are not full, in order. */
  function Survivors(g: Grid): (kept: Grid)
    ensures |kept| <= |g|
  {
    if g == [] then []
    else Survivors(g[..|g| - 1]) + (if Full(g[|g| - 1]) then [] else [g[|g| - 1]])
  }

  /** The indices of the rows that are not full, in increasing order. */
  function KeptRows(g: Grid): (ks: seq<nat>)
    ensures forall k :: 0 <= k < |ks| ==> ks[k] < |g|
  {
    if g == [] then []
    else KeptRows(g[..|g| - 1]) + (if Full(g[|g| - 1]) then [] else [|g| - 1])
  }

  /** The number of full rows. */
  function CountFull(g: Grid): nat
  {
    if g == [] then 0
    else CountFull(g[..|g| - 1]) + (if Full(g[|g| - 1]) then 1 else 0)
  }

  /**
    `Survivors` keeps exactly the rows that are not full, each once, in
    their original order: its k-th row is row `KeptRows(g)[k]` of `g`, the
    indices increase, and an index is kept exactly when its row is not full.
    What is dropped is counted by `CountFull`.
   */
  lemma {:induction false} SurvivorsSpec(g: Grid)
    ensures |KeptRows(g)| == |Survivors(g)| == |g| - CountFull(g)
    ensures forall k :: 0 <= k < |KeptRows(g)| ==> Survivors(g)[k] == g[KeptRows(g)[k]]
    ensures forall k, l :: 0 <= k < l < |KeptRows(g)| ==> KeptRows(g)[k] < KeptRows(g)[l]
    ensures forall i :: 0 <= i < |g| ==> (i in KeptRows(g) <==> !Full(g[i]))
  {
    if g != [] {
      var p := g[..|g| - 1];
      SurvivorsSpec(p);
      assert forall i :: 0 <= i < |p| ==> p[i] == g[i];
      var last := |g| - 1;
      assert |g| - 1 !in KeptRows(p);
      if !Full(g[last]) {
        assert KeptRows(g) == KeptRows(p) + [last];
        assert KeptRows(g)[|KeptRows(p)|] == last;
      }
    }
  }

  /** No row that `Survivors` keeps is full. */
  lemma {:induction false} SurvivorsNotFull(g: Grid)
    ensures forall k :: 0 <= k < |Survivors(g)| ==> !Full(Survivors(g)[k])
  {
    if g != [] {
      SurvivorsNotFull(g[..|g| - 1]);
    }
  }

  /** Without full rows, `Survivors` keeps everything. */
  lemma {:induction false} SurvivorsOfNoFull(g: Grid)
    requires forall r :: 0 <= r < |g| ==> !Full(g[r])
    ensures Survivors(g) == g
  {
    if g != [] {
      var p := g[..|g| - 1];
      SurvivorsOfNoFull(p);
      assert g == p + [g[|g| - 1]];
    }
  }

  /** `Survivors` rows come from `g`, so they keep the field's row width. */
  lemma {:induction false} SurvivorsWidth(g: Grid)
    requires WellFormed(g)
    ensures forall k :: 0 <= k < |Survivors(g)| ==> |Survivors(g)[k]| == GridWidth
  {
    SurvivorsSpec(g);
  }

  /** No row of the field is full. */
  ghost predicate NoFullRow(g: Grid)
  {
    forall r :: 0 <= r < |g| ==> !Full(g[r])
  }

  /**
    When every full row of `h` lies in rows `lo` to `lo + n - 1`, at most
    `n` rows are full (the bound tightens while `h` is shorter than `lo + n`).
   */
  lemma {:induction false} CountFullWithin(h: Grid, lo: int, n: nat)
    requires forall i :: 0 <= i < |h| && Full(h[i]) ==> lo <= i < lo + n
    ensures CountFull(h) <= (if |h| <= lo then 0 else if |h| >= lo + n then n else |h| - lo)
    ensures CountFull(h) <= n
  {
    if h != [] {
      var p := h[..|h| - 1];
      assert forall i :: 0 <= i < |p| ==> p[i] == h[i];
      CountFullWithin(p, lo, n);
    }
  }

  /**
    Locking a shape into a field without full rows fills at most as many
    rows as the shape is high: only the rows it covers can have changed.
   */
  lemma JoinedFullRows(g: Grid, s: Shape, ox: int, oy: int, c: Color)
    requires WellFormed(g) && NoFullRow(g)
    ensures CountFull(Joined(g, s, ox, oy, c)) <= |s|
  {
    var j := Joined(g, s, ox, oy, c);
    assert forall i :: 0 <= i < |j| && !(oy <= i < oy + |s|) ==> j[i] == g[i];
    CountFullWithin(j, oy, |s|);
  }

  /** The field after a line clear and the number of rows it removed. */
  datatype Cleared = Cleared(grid: Grid, count: nat)

  /**
    `clear_lines` (tetris.py:85-90): all full rows go at once, as many empty
    rows come in at the top, and the count is returned. The field keeps its
    size and `count` is the number of full rows.
   */
  function ClearLines(g: Grid): (r: Cleared)
    requires WellFormed(g)
    ensures WellFormed(r.grid)
    ensures r.count == CountFull(g)
  {
    SurvivorsSpec(g);
    SurvivorsWidth(g);
    var kept := Survivors(g);
    var n := GridHeight - |kept|;
    Cleared(seq(n, _ => EmptyRow()) + kept, n)
  }

  /**
    The top `count` rows are empty, and below them come the rows that were
    not full, in their original relative order (`KeptRows` gives where
    each came from).
   */
  lemma ClearLinesLayout(g: Grid)
    requires WellFormed(g)
    ensures var r := ClearLines(g);
      (forall i :: 0 <= i < r.count ==> r.grid[i] == EmptyRow())
      && |KeptRows(g)| == GridHeight - r.count
      && (forall k :: 0 <= k < |KeptRows(g)| ==> r.grid[r.count + k] == g[KeptRows(g)[k]])
  {
    SurvivorsSpec(g);
  }

  /** After a clear, no row of the field is full. */
  lemma ClearLinesLeavesNoFullRow(g: Grid)
    requires WellFormed(g)
    ensures NoFullRow(ClearLines(g).grid)
  {
    var r := ClearLines(g);
    SurvivorsNotFull(g);
    SurvivorsSpec(g);
    forall i | 0 <= i < GridHeight
      ensures !Full(r.grid[i])
    {
      if i < r.count {
        assert r.grid[i][0] == Empty;
      } else {
        assert r.grid[i] == Survivors(g)[i - r.count];
      }
    }
  }

  /** Clearing a second time removes nothing and changes nothing. */
  lemma ClearLinesIdempotent(g: Grid)
    requires WellFormed(g)
    ensures ClearLines(ClearLines(g).grid) == Cleared(ClearLines(g).grid, 0)
  {
    var g1 := ClearLines(g).grid;
    ClearLinesLeavesNoFullRow(g);
    SurvivorsOfNoFull(g1);
    assert seq(0, _ => EmptyRow()) + g1 == g1;
  }
}
