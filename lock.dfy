/** Facts about locking a piece (mergePiece followed by clearLines) that the
    session relies on. */
module Lock {
  import opened Grid
  import opened Placement
  import opened LineClear

  /** Locking keeps the board's dimensions. */
  lemma MergedIsBoard(b: Matrix, s: Matrix, x: int, y: int)
    requires IsBoard(b)
    ensures IsBoard(Merged(b, s, x, y))
  {
  }

  /** Locking never empties a cell, and every visible cell of the piece ends up filled. */
  lemma MergeFillsPiece(b: Matrix, s: Matrix, x: int, y: int)
    requires IsBoard(b)
    ensures forall py, px :: 0 <= py < BoardHeight && 0 <= px < BoardWidth && b[py][px] != 0 ==>
      Merged(b, s, x, y)[py][px] != 0
    ensures forall r, c :: (0 <= r < |s| && 0 <= c < |s[r]| && Occupied(s, r, c) &&
      0 <= y + r < BoardHeight && 0 <= x + c < BoardWidth) ==> Merged(b, s, x, y)[y + r][x + c] != 0
  {
  }

  /** On an empty board, the locked piece's cells are the only filled cells. */
  lemma MergeIntoEmpty(s: Matrix, x: int, y: int)
    ensures var m := Merged(EmptyGrid(), s, x, y);
      forall py, px :: 0 <= py < BoardHeight && 0 <= px < BoardWidth ==>
        (m[py][px] != 0 <==> Occupied(s, py - y, px - x))
  {
  }

  /** Full rows counted in the first k rows, when they all lie in [lo, hi). */
  lemma {:induction false} FullCountWindow(m: Matrix, k: nat, lo: nat, hi: int)
    requires k <= |m| && lo <= hi
    requires forall i :: 0 <= i < |m| && IsFull(m[i]) ==> lo <= i < hi
    ensures FullCount(m[..k]) <= if k <= lo then 0 else (if k < hi then k else hi) - lo
  {
    if k > 0 {
      FullCountWindow(m, k - 1, lo, hi);
      assert m[..k][..k - 1] == m[..k - 1];
    }
  }

  /** Locking a shape of h rows into a board without full rows fills at most h rows,
      so one lock clears at most h lines. */
  lemma {:induction false} LockClearsAtMostShapeHeight(b: Matrix, s: Matrix, x: int, y: int)
    requires IsBoard(b) && NoFullRow(b)
    ensures FullCount(Merged(b, s, x, y)) <= |s|
  {
    var m := Merged(b, s, x, y);
    var lo: nat := if y < 0 then 0 else y;
    var hi := if y + |s| < lo then lo else y + |s|;
    forall i | 0 <= i < |m| && !(y <= i < y + |s|)
      ensures m[i] == b[i]
    {
      assert forall px :: 0 <= px < |m[i]| ==> m[i][px] == b[i][px];
    }
    FullCountWindow(m, |m|, lo, hi);
    assert m[..|m|] == m;
  }
}
