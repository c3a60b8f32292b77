/** rotatePiece: the 90-degree clockwise turn of a shape matrix. */
module Rotation {
  import opened Grid
  import opened Tetromino

  /** The clockwise turn of an r-by-c matrix: a c-by-r matrix whose row i is
      column i of the input read from the bottom up. */
  function Rotated(s: Matrix): (t: Matrix)
    requires IsRectangular(s)
    ensures |t| == Width(s)
    ensures forall i :: 0 <= i < |t| ==> |t[i]| == |s|
    ensures Width(s) > 0 ==> IsRectangular(t) && Width(t) == |s|
  {
    seq(Width(s), i requires 0 <= i < Width(s) =>
      seq(|s|, j requires 0 <= j < |s| => s[|s| - 1 - j][i]))
  }

  /** rotatePiece: allocate a cols-by-rows zero matrix, then copy every cell
      (row, col) of the input to (col, rows - 1 - row). */
  method RotatePiece(s: Matrix) returns (t: Matrix)
    requires IsRectangular(s)
    ensures |t| == Width(s) && forall i :: 0 <= i < |t| ==> |t[i]| == |s|
    ensures forall row, col :: 0 <= row < |s| && 0 <= col < Width(s) ==> t[col][|s| - 1 - row] == s[row][col]
    ensures t == Rotated(s)
  {
    var rows := |s|;
    var cols := |s[0]|;
    t := seq(cols, _ => seq(rows, _ => 0));
    var row := 0;
    while row < rows
      invariant 0 <= row <= rows
      invariant |t| == cols && forall i :: 0 <= i < cols ==> |t[i]| == rows
      invariant forall i, j :: 0 <= i < cols && 0 <= j < rows ==>
        t[i][j] == (if rows - 1 - j < row then s[rows - 1 - j][i] else 0)
    {
      var col := 0;
      while col < cols
        invariant 0 <= col <= cols
        invariant |t| == cols && forall i :: 0 <= i < cols ==> |t[i]| == rows
        invariant forall i, j :: 0 <= i < cols && 0 <= j < rows ==>
          t[i][j] == (if rows - 1 - j < row || (rows - 1 - j == row && i < col) then s[rows - 1 - j][i] else 0)
      {
        t := t[col := t[col][rows - 1 - row := s[row][col]]];
        col := col + 1;
      }
      row := row + 1;
    }
    var r := Rotated(s);
    forall i | 0 <= i < cols
      ensures t[i] == r[i]
    {
      assert forall j :: 0 <= j < rows ==> t[i][j] == r[i][j];
    }
  }

  /** Two turns read the matrix upside down and back to front. */
  lemma HalfTurn(s: Matrix)
    requires IsRectangular(s) && Width(s) > 0
    ensures var h := Rotated(Rotated(s));
      |h| == |s| && forall i, j :: 0 <= i < |s| && 0 <= j < Width(s) ==>
        |h[i]| == Width(s) && h[i][j] == s[|s| - 1 - i][Width(s) - 1 - j]
  {
  }

  /** Four clockwise turns give back the original shape. */
  lemma {:induction false} FourTurnsIdentity(s: Matrix)
    requires IsRectangular(s) && Width(s) > 0
    ensures Rotated(Rotated(Rotated(Rotated(s)))) == s
  {
    var h := Rotated(Rotated(s));
    HalfTurn(s);
    HalfTurn(h);
    var f := Rotated(Rotated(h));
    assert |f| == |s|;
    forall i | 0 <= i < |s|
      ensures f[i] == s[i]
    {
      assert forall j :: 0 <= j < Width(s) ==> f[i][j] == s[i][j];
    }
  }

  /** Column c of a matrix, top to bottom. */
  function Column(s: Matrix, c: nat): (col: Row)
    requires forall r :: 0 <= r < |s| ==> c < |s[r]|
    ensures |col| == |s|
  {
    seq(|s|, r requires 0 <= r < |s| => s[r][c])
  }

  /** Filled cells of the first n columns, counted column by column. */
  function ColumnsCount(s: Matrix, n: nat): nat
    requires forall r :: 0 <= r < |s| ==> n <= |s[r]|
  {
    if n == 0 then 0 else ColumnsCount(s, n - 1) + RowCount(Column(s, n - 1))
  }

  lemma {:induction false} ColumnsCountOfNone(s: Matrix, n: nat)
    requires s == []
    ensures ColumnsCount(s, n) == 0
  {
    if n > 0 {
      ColumnsCountOfNone(s, n - 1);
      assert Column(s, n - 1) == [];
    }
  }

  /** Adding a row at the bottom adds that row's first n cells to the column count. */
  lemma {:induction false} ColumnsCountSnoc(p: Matrix, last: Row, n: nat)
    requires forall r :: 0 <= r < |p| ==> n <= |p[r]|
    requires n <= |last|
    ensures ColumnsCount(p + [last], n) == ColumnsCount(p, n) + RowCount(last[..n])
  {
    var s := p + [last];
    if n > 0 {
      ColumnsCountSnoc(p, last, n - 1);
      var col := Column(s, n - 1);
      assert col[..|col| - 1] == Column(p, n - 1);
      assert last[..n][..n - 1] == last[..n - 1];
    }
  }

  /** Counting a rectangular matrix row by row or column by column agrees. */
  lemma {:induction false} CountByColumns(s: Matrix, w: nat)
    requires forall r :: 0 <= r < |s| ==> |s[r]| == w
    ensures CellCount(s) == ColumnsCount(s, w)
  {
    if s == [] {
      ColumnsCountOfNone(s, w);
    } else {
      var p := s[..|s| - 1];
      var last := s[|s| - 1];
      CountByColumns(p, w);
      assert s == p + [last];
      ColumnsCountSnoc(p, last, w);
      assert last[..w] == last;
    }
  }

  /** The first n rows of the turned matrix hold as many cells as the first n columns. */
  lemma {:induction false} RotatedPrefixCount(s: Matrix, n: nat)
    requires IsRectangular(s) && n <= Width(s)
    ensures CellCount(Rotated(s)[..n]) == ColumnsCount(s, n)
  {
    var t := Rotated(s);
    if n == 0 {
      assert t[..0] == [];
    } else {
      RotatedPrefixCount(s, n - 1);
      assert t[..n][..n - 1] == t[..n - 1];
      RowCountReversed(t[n - 1], Column(s, n - 1));
    }
  }

  /** Turning a shape keeps its number of filled cells. */
  lemma RotationKeepsCellCount(s: Matrix)
    requires IsRectangular(s)
    ensures CellCount(Rotated(s)) == CellCount(s)
  {
    RotatedPrefixCount(s, Width(s));
    assert Rotated(s)[..Width(s)] == Rotated(s);
    CountByColumns(s, Width(s));
  }

  /** Every rotation state of a tetromino is again a tetromino footprint. */
  lemma RotationKeepsTetromino(s: Matrix)
    requires IsTetromino(s)
    ensures IsTetromino(Rotated(s))
  {
    RotationKeepsCellCount(s);
  }
}
