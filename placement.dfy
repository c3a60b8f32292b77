/** The placement rule (isValidMove) and locking a piece into a board (mergePiece). */
module Placement {
  import opened Grid

  /** A filled shape cell at row r, column c of the footprint. */
  predicate Occupied(shape: Matrix, r: int, c: int) {
    0 <= r < |shape| && 0 <= c < |shape[r]| && shape[r][c] != 0
  }

  /** Board cell (px, py) may hold a piece cell: inside the side walls, above the
      floor, and, when it is on the visible board (py >= 0), currently empty. */
  predicate CellFree(board: Matrix, px: int, py: int)
    requires IsBoard(board)
  {
    0 <= px < BoardWidth && py < BoardHeight && (py >= 0 ==> board[py][px] == 0)
  }

  /** The placement rule: every filled cell of the shape, put at origin (x, y),
      lands on a free board cell. */
  predicate ValidPlacement(board: Matrix, shape: Matrix, x: int, y: int)
    requires IsBoard(board)
  {
    forall r, c :: 0 <= r < |shape| && 0 <= c < |shape[r]| && Occupied(shape, r, c) ==> CellFree(board, x + c, y + r)
  }

  /** Every filled cell stays between the walls and above the floor (rows above the
      board included). */
  predicate InsideWell(shape: Matrix, x: int, y: int) {
    forall r, c :: 0 <= r < |shape| && 0 <= c < |shape[r]| && Occupied(shape, r, c) ==> 0 <= x + c < BoardWidth && y + r < BoardHeight
  }

  /** No filled cell on the visible board covers a filled board cell. */
  predicate NoOverlap(board: Matrix, shape: Matrix, x: int, y: int)
    requires IsBoard(board)
  {
    forall r, c :: 0 <= r < |shape| && 0 <= c < |shape[r]| && Occupied(shape, r, c) && 0 <= x + c < BoardWidth && 0 <= y + r < BoardHeight
      ==> board[y + r][x + c] == 0
  }

  /** isValidMove: the nested scan with an early return on the first offending cell. */
  method IsValidMove(board: Matrix, shape: Matrix, x: int, y: int) returns (ok: bool)
    requires IsBoard(board)
    ensures ok == ValidPlacement(board, shape, x, y)
  {
    var row := 0;
    while row < |shape|
      invariant 0 <= row <= |shape|
      invariant forall r, c :: 0 <= r < row && Occupied(shape, r, c) ==> CellFree(board, x + c, y + r)
    {
      var col := 0;
      while col < |shape[row]|
        invariant 0 <= col <= |shape[row]|
        invariant forall c :: 0 <= c < col && Occupied(shape, row, c) ==> CellFree(board, x + c, y + row)
      {
        if shape[row][col] != 0 {
          var newX := x + col;
          var newY := y + row;
          if newX < 0 || newX >= BoardWidth || newY >= BoardHeight {
            assert Occupied(shape, row, col) && !CellFree(board, x + col, y + row);
            return false;
          }
          if newY >= 0 && board[newY][newX] != 0 {
            assert Occupied(shape, row, col) && !CellFree(board, x + col, y + row);
            return false;
          }
        }
        col := col + 1;
      }
      row := row + 1;
    }
    return true;
  }

  /** The rule splits into a bounds part, applied to every filled cell, and an
      overlap part, applied only to cells on the visible board; nothing else is checked. */
  lemma ValidPlacementCases(board: Matrix, shape: Matrix, x: int, y: int)
    requires IsBoard(board)
    ensures ValidPlacement(board, shape, x, y) <==> InsideWell(shape, x, y) && NoOverlap(board, shape, x, y)
  {
  }

  /** A filled cell beyond a side wall or below the floor makes the placement invalid
      on every board, even when the cell is above the top row. */
  lemma OutOfBoundsInvalid(board: Matrix, shape: Matrix, x: int, y: int, r: int, c: int)
    requires IsBoard(board) && Occupied(shape, r, c)
    requires x + c < 0 || x + c >= BoardWidth || y + r >= BoardHeight
    ensures !ValidPlacement(board, shape, x, y)
  {
  }

  /** Cells above the top row are never compared with the board: boards that agree on
      the visible cells the shape covers give the same verdict. */
  lemma HiddenCellsIgnoreBoard(b1: Matrix, b2: Matrix, shape: Matrix, x: int, y: int)
    requires IsBoard(b1) && IsBoard(b2)
    requires forall r, c :: (0 <= r < |shape| && 0 <= c < |shape[r]| && Occupied(shape, r, c) &&
      0 <= x + c < BoardWidth && 0 <= y + r < BoardHeight) ==> (b1[y + r][x + c] == 0 <==> b2[y + r][x + c] == 0)
    ensures ValidPlacement(b1, shape, x, y) <==> ValidPlacement(b2, shape, x, y)
  {
  }

  /** A shape with a filled cell has its origin above the floor whenever it is validly
      placed. */
  lemma ValidOriginAboveFloor(board: Matrix, shape: Matrix, x: int, y: int)
    requires IsBoard(board) && HasCell(shape) && ValidPlacement(board, shape, x, y)
    ensures y < BoardHeight
  {
    var r, c :| 0 <= r < |shape| && 0 <= c < |shape[r]| && shape[r][c] != 0;
    assert Occupied(shape, r, c);
  }

  /** Every write mergePiece performs (filled cells at rows >= 0) is inside the board. */
  predicate WritesInBounds(board: Matrix, shape: Matrix, x: int, y: int) {
    forall r, c :: 0 <= r < |shape| && 0 <= c < |shape[r]| && Occupied(shape, r, c) && y + r >= 0 ==> y + r < |board| && 0 <= x + c < |board[y + r]|
  }

  /** A valid placement only ever writes inside the board. */
  lemma ValidWritesInBounds(board: Matrix, shape: Matrix, x: int, y: int)
    requires IsBoard(board) && ValidPlacement(board, shape, x, y)
    ensures WritesInBounds(board, shape, x, y)
  {
  }

  /** Value of board cell (px, py) after the shape at (x, y) is locked. */
  function MergedCell(board: Matrix, shape: Matrix, x: int, y: int, py: int, px: int): int
    requires 0 <= py < |board| && 0 <= px < |board[py]|
  {
    if Occupied(shape, py - y, px - x) then shape[py - y][px - x] else board[py][px]
  }

  /** The board after locking: the shape's value at every covered visible cell,
      the old value everywhere else. */
  function Merged(board: Matrix, shape: Matrix, x: int, y: int): (m: Matrix)
    ensures |m| == |board|
    ensures forall py :: 0 <= py < |m| ==> |m[py]| == |board[py]|
  {
    seq(|board|, py requires 0 <= py < |board| =>
      seq(|board[py]|, px requires 0 <= px < |board[py]| => MergedCell(board, shape, x, y, py, px)))
  }

  /** Cell (r, c) of the shape was already written once the scan reached (row, col). */
  predicate Written(shape: Matrix, r: int, c: int, row: int, col: int) {
    Occupied(shape, r, c) && (r < row || (r == row && c < col))
  }

  /** mergePiece: copy the board, then write the shape's value at each filled cell
      whose row is on the board. The input board is a value and stays as it was. */
  method MergePiece(board: Matrix, shape: Matrix, x: int, y: int) returns (newBoard: Matrix)
    requires WritesInBounds(board, shape, x, y)
    ensures |newBoard| == |board|
    ensures forall py :: 0 <= py < |board| ==> |newBoard[py]| == |board[py]|
    ensures forall py, px :: 0 <= py < |board| && 0 <= px < |board[py]| ==>
      newBoard[py][px] == (if Occupied(shape, py - y, px - x) then shape[py - y][px - x] else board[py][px])
    ensures newBoard == Merged(board, shape, x, y)
  {
    newBoard := board;
    var row := 0;
    while row < |shape|
      invariant 0 <= row <= |shape|
      invariant |newBoard| == |board|
      invariant forall py :: 0 <= py < |board| ==> |newBoard[py]| == |board[py]|
      invariant forall py, px :: 0 <= py < |board| && 0 <= px < |board[py]| ==>
        newBoard[py][px] == (if Written(shape, py - y, px - x, row, 0) then shape[py - y][px - x] else board[py][px])
    {
      var col := 0;
      while col < |shape[row]|
        invariant 0 <= col <= |shape[row]|
        invariant |newBoard| == |board|
        invariant forall py :: 0 <= py < |board| ==> |newBoard[py]| == |board[py]|
        invariant forall py, px :: 0 <= py < |board| && 0 <= px < |board[py]| ==>
          newBoard[py][px] == (if Written(shape, py - y, px - x, row, col) then shape[py - y][px - x] else board[py][px])
      {
        if shape[row][col] != 0 {
          var boardY := y + row;
          var boardX := x + col;
          if boardY >= 0 {
            assert Occupied(shape, row, col);
            newBoard := newBoard[boardY := newBoard[boardY][boardX := shape[row][col]]];
          }
        }
        col := col + 1;
      }
      row := row + 1;
    }
    var merged := Merged(board, shape, x, y);
    forall py | 0 <= py < |board|
      ensures newBoard[py] == merged[py]
    {
      assert forall px :: 0 <= px < |board[py]| ==> newBoard[py][px] == merged[py][px];
    }
  }
}
