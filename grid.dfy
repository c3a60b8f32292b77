/** The playing field: a fixed-size matrix of integer cells, 0 meaning empty,
    and the counting functions the rest of the model uses. */
module Grid {
  const BoardWidth: int := 10
  const BoardHeight: int := 20

  /** A row of cells; any non-zero value is a filled cell. */
  type Row = seq<int>
  /** Boards and piece shapes alike are lists of rows. */
  type Matrix = seq<Row>

  /** A board of BoardHeight rows, each BoardWidth cells wide. */
  predicate IsBoard(b: Matrix) {
    |b| == BoardHeight && forall r :: 0 <= r < |b| ==> |b[r]| == BoardWidth
  }

  /** A non-empty matrix whose rows all have the length of the first one. */
  predicate IsRectangular(m: Matrix) {
    |m| > 0 && forall r :: 0 <= r < |m| ==> |m[r]| == |m[0]|
  }

  function Width(m: Matrix): nat
    requires IsRectangular(m)
  {
    |m[0]|
  }

  /** Every cell of the matrix is 0 or 1. */
  predicate IsBinary(m: Matrix) {
    forall r, c :: 0 <= r < |m| && 0 <= c < |m[r]| ==> m[r][c] == 0 || m[r][c] == 1
  }

  function EmptyRow(): (row: Row)
    ensures |row| == BoardWidth
    ensures forall c :: 0 <= c < |row| ==> row[c] == 0
  {
    seq(BoardWidth, _ => 0)
  }

  /** createEmptyGrid: BoardHeight rows of BoardWidth zero cells. */
  function EmptyGrid(): (g: Matrix)
    ensures IsBoard(g)
    ensures forall r, c :: 0 <= r < |g| && 0 <= c < |g[r]| ==> g[r][c] == 0
  {
    seq(BoardHeight, _ => EmptyRow())
  }

  function Indicator(v: int): nat {
    if v != 0 then 1 else 0
  }

  /** Number of filled (non-zero) cells of a row. */
  function RowCount(row: Row): (n: nat)
    ensures n <= |row|
    ensures n == 0 <==> forall c :: 0 <= c < |row| ==> row[c] == 0
  {
    if row == [] then 0 else RowCount(row[..|row| - 1]) + Indicator(row[|row| - 1])
  }

  /** Number of filled (non-zero) cells of a matrix. */
  function CellCount(m: Matrix): nat {
    if m == [] then 0 else CellCount(m[..|m| - 1]) + RowCount(m[|m| - 1])
  }

  /** Counting a row from the front gives the same number as from the back. */
  lemma {:induction false} RowCountFront(row: Row)
    requires row != []
    ensures RowCount(row) == Indicator(row[0]) + RowCount(row[1..])
  {
    if |row| > 1 {
      var init := row[..|row| - 1];
      RowCountFront(init);
      assert init[1..] == row[1..][..|row[1..]| - 1];
    }
  }

  /** A row and its mirror image hold the same number of filled cells. */
  lemma {:induction false} RowCountReversed(a: Row, b: Row)
    requires |a| == |b|
    requires forall k :: 0 <= k < |a| ==> a[k] == b[|b| - 1 - k]
    ensures RowCount(a) == RowCount(b)
  {
    if a != [] {
      var n := |a|;
      RowCountReversed(a[..n - 1], b[1..]);
      RowCountFront(b);
    }
  }

  /** The cells of a matrix of one or two rows, counted row by row. */
  lemma {:induction false} CountRows(first: Row, rest: Matrix)
    requires |rest| <= 1
    ensures CellCount([first] + rest) == RowCount(first) + (if rest == [] then 0 else RowCount(rest[0]))
  {
    var one: Matrix := [first];
    assert one[..0] == [];
    assert CellCount(one) == RowCount(first);
    if rest != [] {
      var m := [first] + rest;
      assert m[..1] == one;
    } else {
      assert [first] + rest == one;
    }
  }

  /** A matrix with a filled cell somewhere. */
  predicate HasCell(m: Matrix) {
    exists r, c :: 0 <= r < |m| && 0 <= c < |m[r]| && m[r][c] != 0
  }

  /** A positive cell count means some cell is filled. */
  lemma {:induction false} CountedCellExists(m: Matrix)
    requires CellCount(m) > 0
    ensures HasCell(m)
  {
    var last := m[|m| - 1];
    if RowCount(last) > 0 {
      var c :| 0 <= c < |last| && last[c] != 0;
      assert m[|m| - 1][c] != 0;
    } else {
      var p := m[..|m| - 1];
      CountedCellExists(p);
      var r, c :| 0 <= r < |p| && 0 <= c < |p[r]| && p[r][c] != 0;
      assert m[r][c] != 0;
    }
  }
}
