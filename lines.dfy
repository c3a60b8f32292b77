/** clearLines: remove every full row in one pass and pad empty rows on top. */
module LineClear {
  import opened Grid

  /** A row with no empty (zero) cell. */
  predicate IsFull(row: Row) {
    forall c :: 0 <= c < |row| ==> row[c] != 0
  }

  predicate NoFullRow(b: Matrix) {
    forall i :: 0 <= i < |b| ==> !IsFull(b[i])
  }

  /** The rows of b that are not full, in their original order. */
  function Kept(b: Matrix): Matrix {
    if b == [] then []
    else Kept(b[..|b| - 1]) + (if IsFull(b[|b| - 1]) then [] else [b[|b| - 1]])
  }

  /** The number of full rows of b. */
  function FullCount(b: Matrix): nat {
    if b == [] then 0
    else FullCount(b[..|b| - 1]) + (if IsFull(b[|b| - 1]) then 1 else 0)
  }

  function EmptyRows(n: nat): (e: Matrix)
    ensures |e| == n && forall i :: 0 <= i < n ==> e[i] == EmptyRow()
  {
    seq(n, _ => EmptyRow())
  }

  /** The board clearLines returns: one empty row for every removed row, then the
      surviving rows. */
  function ClearedBoard(b: Matrix): (c: Matrix)
    ensures |c| == |b|
  {
    KeptAndCleared(b);
    EmptyRows(FullCount(b)) + Kept(b)
  }

  /** Every row is either kept or counted as cleared. */
  lemma {:induction false} KeptAndCleared(b: Matrix)
    ensures |Kept(b)| + FullCount(b) == |b|
  {
    if b != [] {
      KeptAndCleared(b[..|b| - 1]);
    }
  }

  /** The kept rows are exactly the non-full rows of b. */
  lemma {:induction false} KeptRows(b: Matrix)
    ensures forall i :: 0 <= i < |Kept(b)| ==> Kept(b)[i] in b && !IsFull(Kept(b)[i])
    ensures forall i :: 0 <= i < |b| && !IsFull(b[i]) ==> b[i] in Kept(b)
  {
    if b != [] {
      var p := b[..|b| - 1];
      KeptRows(p);
      assert b == p + [b[|b| - 1]];
    }
  }

  /** A board without full rows is left alone. */
  lemma {:induction false} NothingToClear(b: Matrix)
    requires NoFullRow(b)
    ensures Kept(b) == b && FullCount(b) == 0
  {
    if b != [] {
      var p := b[..|b| - 1];
      NothingToClear(p);
      assert b == p + [b[|b| - 1]];
    }
  }

  /** The shape of a cleared board: BoardHeight rows, the cleared count of empty
      rows on top, the surviving rows below in their order, and no full row. */
  lemma ClearedBoardShape(b: Matrix)
    requires IsBoard(b)
    ensures FullCount(b) <= BoardHeight
    ensures IsBoard(ClearedBoard(b))
    ensures forall i :: 0 <= i < FullCount(b) ==> ClearedBoard(b)[i] == EmptyRow()
    ensures ClearedBoard(b)[FullCount(b)..] == Kept(b)
    ensures NoFullRow(ClearedBoard(b))
  {
    var c := ClearedBoard(b);
    var n := FullCount(b);
    KeptAndCleared(b);
    KeptRows(b);
    assert !IsFull(EmptyRow()) by { assert EmptyRow()[0] == 0; }
    forall i | 0 <= i < |c|
      ensures !IsFull(c[i]) && |c[i]| == BoardWidth
    {
      if i >= n {
        assert c[i] == Kept(b)[i - n];
        assert c[i] in b;
      }
    }
  }

  /** clearLines: push the rows that are not full, count the others, then put
      empty rows on top until the board is BoardHeight rows high again. */
  method ClearLines(board: Matrix) returns (clearedBoard: Matrix, linesCleared: nat)
    requires IsBoard(board)
    ensures linesCleared == FullCount(board) && linesCleared <= BoardHeight
    ensures clearedBoard == ClearedBoard(board)
    ensures IsBoard(clearedBoard) && NoFullRow(clearedBoard)
    ensures forall i :: 0 <= i < linesCleared ==> clearedBoard[i] == EmptyRow()
    ensures clearedBoard[linesCleared..] == Kept(board)
  {
    var newBoard: Matrix := [];
    linesCleared := 0;
    var row := 0;
    while row < BoardHeight
      invariant 0 <= row <= BoardHeight
      invariant newBoard == Kept(board[..row])
      invariant linesCleared == FullCount(board[..row])
    {
      ScanStep(board, row);
      if !IsFull(board[row]) {
        newBoard := newBoard + [board[row]];
      } else {
        linesCleared := linesCleared + 1;
      }
      row := row + 1;
    }
    assert board[..BoardHeight] == board;
    KeptAndCleared(board);
    clearedBoard := PadToHeight(newBoard);
    ClearedBoardShape(board);
  }

  /** The second half of clearLines: unshift empty rows until the board is
      BoardHeight rows high again. */
  method PadToHeight(rows: Matrix) returns (padded: Matrix)
    requires |rows| <= BoardHeight
    ensures padded == EmptyRows(BoardHeight - |rows|) + rows
  {
    padded := rows;
    var padding := 0;
    while |padded| < BoardHeight
      invariant |padded| == padding + |rows| <= BoardHeight
      invariant padded == EmptyRows(padding) + rows
      decreases BoardHeight - |padded|
    {
      PadStep(padding);
      assert [EmptyRow()] + padded == EmptyRows(padding + 1) + rows;
      padded := [EmptyRow()] + padded;
      padding := padding + 1;
    }
  }

  /** Scanning one more row extends the kept rows or the full-row count. */
  lemma ScanStep(b: Matrix, row: nat)
    requires row < |b|
    ensures Kept(b[..row + 1]) == Kept(b[..row]) + (if IsFull(b[row]) then [] else [b[row]])
    ensures FullCount(b[..row + 1]) == FullCount(b[..row]) + (if IsFull(b[row]) then 1 else 0)
  {
    var upTo := b[..row + 1];
    assert upTo[..row] == b[..row] && upTo[row] == b[row];
  }

  /** One more empty row on top. */
  lemma PadStep(n: nat)
    ensures [EmptyRow()] + EmptyRows(n) == EmptyRows(n + 1)
  {
  }

  /** A cleared board has no full row, so clearing it again removes nothing and
      changes nothing. */
  lemma ClearLinesIdempotent(b: Matrix)
    requires IsBoard(b)
    ensures FullCount(ClearedBoard(b)) == 0
    ensures ClearedBoard(ClearedBoard(b)) == ClearedBoard(b)
  {
    var c := ClearedBoard(b);
    ClearedBoardShape(b);
    NothingToClear(c);
    assert EmptyRows(0) + c == c;
  }
}
