/** The game screen's session logic: its state fields and handlers, updating the
    fields in place. Every handler is proved to perform the matching transition of
    module Session, and so inherits the invariants proved there. */
module App {
  import opened Grid
  import opened Tetromino
  import opened Placement
  import opened Rotation
  import opened LineClear
  import opened Lock
  import opened Scoring
  import opened Session
  import opened Invariants

  /** The descent loop of hardDrop: step down while the row below is valid. */
  method DropRow(board: Matrix, shape: Matrix, x: int, y: int) returns (newY: int)
    requires IsBoard(board) && HasCell(shape)
    ensures newY >= y
    ensures !ValidPlacement(board, shape, x, newY + 1)
    ensures forall k :: y < k <= newY ==> ValidPlacement(board, shape, x, k)
    ensures newY == Landing(board, shape, x, y)
  {
    newY := y;
    var below := IsValidMove(board, shape, x, newY + 1);
    while below
      invariant newY >= y
      invariant below == ValidPlacement(board, shape, x, newY + 1)
      invariant forall k :: y < k <= newY ==> ValidPlacement(board, shape, x, k)
      invariant Landing(board, shape, x, newY) == Landing(board, shape, x, y)
      decreases BoardHeight - newY
    {
      ValidOriginAboveFloor(board, shape, x, newY + 1);
      newY := newY + 1;
      below := IsValidMove(board, shape, x, newY + 1);
    }
  }

  /** The verdict of the placement check on the shifted piece decides the move. */
  lemma MoveVerdict(s: Snapshot, dx: int, dy: int, ok: bool)
    requires Inv(s) && Active(s)
    requires ok == ValidPlacement(s.board, s.current.value.shape, s.x + dx, s.y + dy)
    ensures ok == MoveAllowed(s, dx, dy)
    ensures ok ==> Moved(s, dx, dy) == s.(x := s.x + dx, y := s.y + dy)
    ensures !ok ==> Moved(s, dx, dy) == s
  {
  }

  /** A tick that cannot step down is a lock; one that can is a step down and a point. */
  lemma TickVerdict(s: Snapshot, draw: Kind, drawNext: Kind, moved: bool)
    requires Inv(s) && Active(s)
    requires moved == MoveAllowed(s, 0, 1)
    ensures var m := Moved(s, 0, 1);
      Inv(m) && if moved then Ticked(s, draw, drawNext) == m.(score := m.score + 1)
                else Ticked(s, draw, drawNext) == Locked(m, draw, drawNext)
  {
    MoveAndTurnKeepInv(s, 0, 1);
  }

  class Game {
    var board: Matrix
    var currentPiece: Option<Piece>
    var x: int
    var y: int
    var nextPiece: Option<Piece>
    var score: nat
    var lines: nat
    var level: nat
    var dropTime: int
    var isPaused: bool
    var isGameOver: bool

    /** The fields as one value. */
    ghost function State(): Snapshot
      reads this
    {
      Snapshot(board, currentPiece, x, y, nextPiece, score, lines, level, dropTime, isPaused, isGameOver)
    }

    ghost predicate Valid()
      reads this
    {
      Inv(State())
    }

    /** The initial state of the screen. */
    constructor ()
      ensures State() == Initial() && Valid()
    {
      board := EmptyGrid();
      currentPiece := None;
      x, y := 0, 0;
      nextPiece := None;
      score, lines, level := 0, 0, 1;
      dropTime := 1000;
      isPaused, isGameOver := false, false;
    }

    /** startNewGame: back to the initial state. */
    method StartNewGame()
      modifies this
      ensures State() == Initial() && Valid()
    {
      board := EmptyGrid();
      currentPiece := None;
      x, y := 0, 0;
      nextPiece := None;
      score := 0;
      lines := 0;
      level := 1;
      isGameOver := false;
      isPaused := false;
      dropTime := 1000;
    }

    /** togglePause: ignored once the game is over. */
    method TogglePause()
      requires Valid()
      modifies this
      ensures Valid() && State() == PauseToggled(old(State()))
    {
      if !isGameOver {
        isPaused := !isPaused;
      }
    }

    /** spawnPiece: bring in the queued piece (or a fresh draw) at the top centre; on an
        invalid placement end the game instead. */
    method SpawnPiece(draw: Kind, drawNext: Kind) returns (ok: bool)
      requires IsBoard(board) && CatalogueNext(State()) && !isGameOver
      modifies this
      ensures State() == Spawned(old(State()), draw, drawNext)
      ensures ok == !isGameOver
    {
      ghost var before := State();
      ghost var target := Spawned(before, draw, drawNext);
      var piece := if nextPiece.Some? then nextPiece.value else CreatePiece(draw);
      assert piece == Incoming(before, draw);
      var next := CreatePiece(drawNext);
      var startX := (BoardWidth - |piece.shape[0]|) / 2;
      assert startX == SpawnX(piece.shape);
      ok := IsValidMove(board, piece.shape, startX, 0);
      if !ok {
        assert target == before.(gameOver := true);
        isGameOver := true;
      } else {
        assert target == before.(current := Some(piece), x := startX, y := 0, next := Some(next));
        Place(piece, startX, next);
      }
    }

    /** The setters of a successful spawn: the piece, its position at the top and the
        queued piece. */
    method Place(piece: Piece, startX: int, next: Piece)
      modifies this
      ensures State() == old(State()).(current := Some(piece), x := startX, y := 0, next := Some(next))
    {
      currentPiece := Some(piece);
      x, y := startX, 0;
      nextPiece := Some(next);
    }

    /** movePiece: shift by (dx, dy) if the game accepts input and the new placement is
        valid; report whether the piece moved. */
    method MovePiece(dx: int, dy: int) returns (moved: bool)
      requires Valid()
      modifies this
      ensures Valid() && State() == Moved(old(State()), dx, dy)
      ensures moved == MoveAllowed(old(State()), dx, dy)
    {
      ghost var before := State();
      MoveAndTurnKeepInv(before, dx, dy);
      if currentPiece.None? || isPaused || isGameOver {
        return false;
      }
      var newX := x + dx;
      var newY := y + dy;
      var valid := IsValidMove(board, currentPiece.value.shape, newX, newY);
      MoveVerdict(before, dx, dy, valid);
      if valid {
        Shift(newX, newY);
      }
      return valid;
    }

    /** The setter of a successful move: the new position, nothing else. */
    method Shift(newX: int, newY: int)
      modifies this
      ensures State() == old(State()).(x := newX, y := newY)
    {
      x, y := newX, newY;
    }

    /** rotate: turn clockwise at the same origin if that is valid; no wall kicks. */
    method Rotate()
      requires Valid()
      modifies this
      ensures Valid() && State() == Turned(old(State()))
    {
      ghost var before := State();
      MoveAndTurnKeepInv(before, 0, 0);
      if currentPiece.None? || isPaused || isGameOver {
        return;
      }
      var rotated := RotatePiece(currentPiece.value.shape);
      var valid := IsValidMove(board, rotated, x, y);
      if valid {
        var turned := currentPiece.value.(shape := rotated);
        assert Turned(before) == before.(current := Some(turned));
        currentPiece := Some(turned);
      }
    }

    /** The level effect: when the line total reaches a new level, update the level and
        the drop time. */
    method SyncLevel()
      modifies this
      ensures State() == LevelSynced(old(State()))
    {
      var newLevel := lines / 10 + 1;
      if newLevel != level {
        level := newLevel;
        dropTime := if 1000 - (newLevel - 1) * 100 < 100 then 100 else 1000 - (newLevel - 1) * 100;
      }
    }

    /** The first half of lockPiece: merge the piece into the board, clear full lines
        and score them at the current level; the piece is gone afterwards. */
    method MergeAndClear()
      requires Valid() && currentPiece.Some?
      modifies this
      ensures State() == AfterClear(old(State()))
    {
      ghost var before := State();
      ghost var target := AfterClear(before);
      var shape := currentPiece.value.shape;
      ValidWritesInBounds(board, shape, x, y);
      var newBoard := MergePiece(board, shape, x, y);
      MergedIsBoard(board, shape, x, y);
      var clearedBoard, linesCleared := ClearLines(newBoard);
      assert linesCleared == ClearedBy(before);
      assert target == before.(board := clearedBoard, lines := before.lines + linesCleared,
        score := before.score + LineClearPoints(linesCleared, before.level), current := None);
      Settle(clearedBoard, linesCleared);
    }

    /** The setters of a lock: the cleared board, the line total and the score when
        lines were cleared, and no falling piece. */
    method Settle(clearedBoard: Matrix, linesCleared: nat)
      requires linesCleared <= 4
      modifies this
      ensures State() == old(State()).(board := clearedBoard, lines := old(lines) + linesCleared,
        score := old(score) + LineClearPoints(linesCleared, old(level)), current := None)
    {
      board := clearedBoard;
      if linesCleared > 0 {
        lines := lines + linesCleared;
        score := score + LineClearPoints(linesCleared, level);
      }
      currentPiece := None;
    }

    /** lockPiece: merge the piece into the board, clear full lines, score them at the
        current level, drop the piece and spawn the next one. */
    method LockPiece(draw: Kind, drawNext: Kind)
      requires Valid()
      modifies this
      ensures Valid() && State() == Locked(old(State()), draw, drawNext)
    {
      LockedKeepsInv(State(), draw, drawNext);
      if currentPiece.None? {
        return;
      }
      MergeAndClear();
      var _ := SpawnPiece(draw, drawNext);
      SyncLevel();
    }

    /** The descent of hardDrop: move to the landing row for two points a row. */
    method DropToLanding()
      requires Valid() && Active(State())
      modifies this
      ensures State() == Dropped(old(State()))
    {
      var shape := currentPiece.value.shape;
      CountedCellExists(shape);
      var newY := DropRow(board, shape, x, y);
      var dropDistance := newY - y;
      score := score + dropDistance * 2;
      y := newY;
    }

    /** hardDrop: descend to the landing row for two points a row, then lock there in
        the same step. */
    method HardDrop(draw: Kind, drawNext: Kind)
      requires Valid()
      modifies this
      ensures Valid() && State() == HardDropped(old(State()), draw, drawNext)
    {
      if currentPiece.None? || isPaused || isGameOver {
        return;
      }
      DropToLanding();
      LockPiece(draw, drawNext);
    }

    /** One gravity tick: step down for a point, or lock when the step is blocked. The
        timer is stopped while paused or after game over, so then nothing happens. */
    method Tick(draw: Kind, drawNext: Kind)
      requires Valid()
      modifies this
      ensures Valid() && State() == Ticked(old(State()), draw, drawNext)
    {
      if isPaused || isGameOver || currentPiece.None? {
        return;
      }
      ghost var before := State();
      var moved := MovePiece(0, 1);
      TickVerdict(before, draw, drawNext, moved);
      if !moved {
        LockPiece(draw, drawNext);
      } else {
        AwardStep();
      }
    }

    /** The point a successful gravity step is worth. */
    method AwardStep()
      requires Valid()
      modifies this
      ensures Valid() && State() == old(State()).(score := old(score) + 1)
    {
      score := score + 1;
    }

    /** The game-loop effect: with the game running and no piece falling, spawn one. */
    method StartLoop(draw: Kind, drawNext: Kind)
      requires Valid()
      modifies this
      ensures Valid() && State() == LoopStarted(old(State()), draw, drawNext)
    {
      if isPaused || isGameOver {
        return;
      }
      if currentPiece.None? {
        SpawnedKeepsPieceInv(State(), draw, drawNext);
        var _ := SpawnPiece(draw, drawNext);
      }
    }
  }
}
