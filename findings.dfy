/** lockPiece as the game screen actually runs it. The spawnPiece it calls is the
    callback built in the same render, so its placement check reads the board from
    before the lock, while the new piece is put on the board after the lock. The
    corrected transition is Session.Locked, which the rest of the model uses. */
module StaleSpawn {
  import opened Grid
  import opened Tetromino
  import opened Placement
  import opened LineClear
  import opened Lock
  import opened Scoring
  import opened Session
  import opened Invariants

  /** spawnPiece with its placement check made against `checked` rather than against
      the board of the state it updates. */
  function SpawnedAgainst(checked: Matrix, s: Snapshot, draw: Kind, drawNext: Kind): (t: Snapshot)
    requires IsBoard(checked) && IsBoard(s.board) && CatalogueNext(s)
    ensures t.board == s.board && t.score == s.score && t.lines == s.lines
    ensures t.gameOver <==> s.gameOver || !ValidPlacement(checked, Incoming(s, draw).shape, SpawnX(Incoming(s, draw).shape), 0)
    ensures checked == s.board ==> t == Spawned(s, draw, drawNext)
  {
    var piece := Incoming(s, draw);
    var startX := SpawnX(piece.shape);
    if !ValidPlacement(checked, piece.shape, startX, 0) then s.(gameOver := true)
    else s.(current := Some(piece), x := startX, y := 0, next := Some(CreatePiece(drawNext)))
  }

  /** lockPiece as written: merge, clear and score as in Session.Locked, then spawn
      with the check made against the board from before the merge. Board, lines and
      score are those of the corrected lock; only the game-over verdict differs. */
  function LockedAsWritten(s: Snapshot, draw: Kind, drawNext: Kind): (t: Snapshot)
    requires Inv(s)
    ensures s.current.None? ==> t == s
    ensures s.current.Some? ==> t.board == AfterClear(s).board && t.lines == AfterClear(s).lines
                                && t.score == AfterClear(s).score && t.level == LevelFor(t.lines)
    ensures s.current.Some? ==>
              var p := Incoming(AfterClear(s), draw);
              (t.gameOver <==> !ValidPlacement(s.board, p.shape, SpawnX(p.shape), 0))
  {
    if s.current.None? then s
    else LevelSynced(SpawnedAgainst(s.board, AfterClear(s), draw, drawNext))
  }

  /** The two versions differ only in the spawn check: they agree whenever the
      incoming piece fits both on the old board and on the cleared board, or on
      neither. */
  lemma AsWrittenAgreesWhenChecksAgree(s: Snapshot, draw: Kind, drawNext: Kind)
    requires Inv(s) && s.current.Some?
    requires var a := AfterClear(s);
             var p := Incoming(a, draw);
             ValidPlacement(s.board, p.shape, SpawnX(p.shape), 0) == ValidPlacement(a.board, p.shape, SpawnX(p.shape), 0)
    ensures LockedAsWritten(s, draw, drawNext) == Locked(s, draw, drawNext)
  {
    SameVerdictSameSpawn(s.board, AfterClear(s), draw, drawNext);
  }

  /** A board that gives the same verdict on the incoming piece as the state's own
      board gives the same spawn. */
  lemma SameVerdictSameSpawn(checked: Matrix, s: Snapshot, draw: Kind, drawNext: Kind)
    requires IsBoard(checked) && IsBoard(s.board) && CatalogueNext(s)
    requires var p := Incoming(s, draw);
             ValidPlacement(checked, p.shape, SpawnX(p.shape), 0) == ValidPlacement(s.board, p.shape, SpawnX(p.shape), 0)
    ensures SpawnedAgainst(checked, s, draw, drawNext) == Spawned(s, draw, drawNext)
  {
  }

  /** A board with one filled cell, in row 2, column 4. */
  function StepBoard(): (b: Matrix)
    ensures IsBoard(b) && NoFullRow(b)
    ensures b[2][4] == 1
    ensures forall r, c :: 0 <= r < BoardHeight && 0 <= c < BoardWidth && (r, c) != (2, 4) ==> b[r][c] == 0
  {
    var b := EmptyGrid()[2 := EmptyRow()[4 := 1]];
    assert forall i :: 0 <= i < |b| ==> b[i][5] == 0;
    b
  }

  /** An O piece resting on that cell at the spawn position, with an O queued. */
  function Blocked(): (s: Snapshot)
    ensures Inv(s) && Active(s)
  {
    var o := CreatePiece(O);
    assert ValidPlacement(StepBoard(), o.shape, 4, 0);
    Snapshot(StepBoard(), Some(o), 4, 0, Some(o), 0, 0, 1, 1000, false, false)
  }

  /** The resting O cannot step down, so the next tick locks it. */
  lemma BlockedCannotFall()
    ensures !MoveAllowed(Blocked(), 0, 1)
    ensures Ticked(Blocked(), O, O) == Locked(Blocked(), O, O)
  {
    var s := Blocked();
    assert Occupied(s.current.value.shape, 1, 0) && !CellFree(s.board, 4, 2);
  }

  /** Merging the resting O completes no row and fills the spawn area's corner. */
  lemma StepMerge()
    ensures var m := Merged(StepBoard(), ShapeOf(O), 4, 0);
            NoFullRow(m) && IsBoard(m) && m[0][4] == 1
  {
    var m := Merged(StepBoard(), ShapeOf(O), 4, 0);
    MergedIsBoard(StepBoard(), ShapeOf(O), 4, 0);
    forall i | 0 <= i < |m|
      ensures !IsFull(m[i])
    {
      assert m[i][0] == 0;
    }
  }

  /** The board after the lock: the O merged on top of the filled cell, no row
      cleared. The spawn area holds the locked O. */
  lemma BlockedLockBoard()
    ensures var a := AfterClear(Blocked());
            && a.board == Merged(StepBoard(), ShapeOf(O), 4, 0)
            && a.board[0][4] == 1 && a.next == Some(CreatePiece(O))
  {
    StepMerge();
    LockWithoutClear(Blocked());
  }

  /** With an O queued, a lock whose cleared board blocks the O at the top centre
      ends the game. */
  lemma CoveredSpawnEndsLock(s: Snapshot, draw: Kind, drawNext: Kind)
    requires Inv(s) && s.current.Some? && s.next == Some(CreatePiece(O))
    requires !ValidPlacement(AfterClear(s).board, ShapeOf(O), 4, 0)
    ensures Locked(s, draw, drawNext).gameOver
  {
    LockOutcome(s, draw, drawNext);
    assert Incoming(AfterClear(s), draw) == CreatePiece(O);
    assert SpawnX(ShapeOf(O)) == 4;
  }

  /** The corrected lock checks the spawn against the board after the lock, where
      the locked O covers the spawn area, so the game ends. */
  lemma CorrectedLockEndsGame()
    ensures Locked(Blocked(), O, O).gameOver
  {
    LockedOCoversSpawn();
    CoveredSpawnEndsLock(Blocked(), O, O);
  }

  /** When the incoming piece fits on the board from before the lock, the lock as
      written brings it in, whatever the lock did to the board. */
  lemma AsWrittenSpawnsWhenOldBoardFits(s: Snapshot, draw: Kind, drawNext: Kind)
    requires Inv(s) && s.current.Some?
    requires var p := Incoming(AfterClear(s), draw);
             ValidPlacement(s.board, p.shape, SpawnX(p.shape), 0)
    ensures var a := AfterClear(s);
            var p := Incoming(a, draw);
            LockedAsWritten(s, draw, drawNext) ==
            LevelSynced(a.(current := Some(p), x := SpawnX(p.shape), y := 0, next := Some(CreatePiece(drawNext))))
  {
  }

  /** The lock as written checks the spawn against the board from before the lock,
      where the spawn area is empty, so the queued O comes in at the top centre. */
  lemma AsWrittenSpawnsO()
    ensures LockedAsWritten(Blocked(), O, O) ==
            AfterClear(Blocked()).(current := Some(CreatePiece(O)), x := 4, y := 0, next := Some(CreatePiece(O)))
  {
    var s := Blocked();
    var o := CreatePiece(O);
    assert Incoming(AfterClear(s), O) == o && SpawnX(o.shape) == 4;
    AsWrittenSpawnsWhenOldBoardFits(s, O, O);
    StepMerge();
    LockWithoutClear(s);
  }

  /** A board whose cell in row 0, column 4 is filled blocks the O at the top
      centre. */
  lemma FilledCornerBlocksO(b: Matrix)
    requires IsBoard(b) && b[0][4] != 0
    ensures !ValidPlacement(b, ShapeOf(O), 4, 0)
  {
    assert Occupied(ShapeOf(O), 0, 0) && !CellFree(b, 4, 0);
  }

  /** After the lock the O at the top centre overlaps the locked O. */
  lemma LockedOCoversSpawn()
    ensures IsBoard(AfterClear(Blocked()).board)
    ensures !ValidPlacement(AfterClear(Blocked()).board, ShapeOf(O), 4, 0)
  {
    BlockedLockBoard();
    FilledCornerBlocksO(AfterClear(Blocked()).board);
  }

  /** So play goes on with the new O overlapping the locked one: the state breaks the
      placement invariant, where the corrected lock ends the game. */
  lemma StaleSpawnOverlaps()
    ensures var t := LockedAsWritten(Blocked(), O, O);
            && t.current.Some? && !t.gameOver && IsBoard(t.board)
            && !ValidPlacement(t.board, t.current.value.shape, t.x, t.y)
  {
    AsWrittenSpawnsO();
    LockedOCoversSpawn();
  }
}
