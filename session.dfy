/** The game session as values: one snapshot of everything the game screen keeps in
    its state, and one transition function per handler. The Game class in module App
    performs these transitions in place. */
module Session {
  import opened Grid
  import opened Tetromino
  import opened Placement
  import opened Rotation
  import opened LineClear
  import opened Lock
  import opened Scoring

  datatype Option<T> = None | Some(value: T)

  /** board, currentPiece, piecePosition, nextPiece, score, lines, level, dropTime,
      isPaused and isGameOver. */
  datatype Snapshot = Snapshot(
    board: Matrix,
    current: Option<Piece>,
    x: int,
    y: int,
    next: Option<Piece>,
    score: nat,
    lines: nat,
    level: nat,
    dropTime: int,
    paused: bool,
    gameOver: bool)

  /** The queued piece, if any, is a catalogue piece in its spawn orientation. */
  predicate CatalogueNext(s: Snapshot) {
    s.next.Some? ==> s.next.value == CreatePiece(s.next.value.kind)
  }

  /** The board is 20 by 10 with no full row, a falling piece is a tetromino footprint
      at a valid placement, the queue holds a catalogue piece, and no piece falls once
      the game is over. */
  predicate PieceInv(s: Snapshot) {
    && IsBoard(s.board)
    && NoFullRow(s.board)
    && (s.current.Some? ==>
          IsTetromino(s.current.value.shape) && ValidPlacement(s.board, s.current.value.shape, s.x, s.y))
    && CatalogueNext(s)
    && (s.gameOver ==> s.current.None?)
  }

  /** What every reachable snapshot satisfies: the piece invariant, and a level and drop
      time in step with the line total. */
  predicate Inv(s: Snapshot) {
    && PieceInv(s)
    && s.level == LevelFor(s.lines)
    && s.dropTime == DropTimeFor(s.level)
  }

  /** The state of a new game (also the state the screen starts in). */
  function Initial(): (s: Snapshot)
    ensures Inv(s)
  {
    assert !IsFull(EmptyRow()) by { assert EmptyRow()[0] == 0; }
    Snapshot(EmptyGrid(), None, 0, 0, None, 0, 0, 1, 1000, false, false)
  }

  /** Pieces can be moved, turned and dropped only while one is falling and the game
      is neither paused nor over. */
  predicate Active(s: Snapshot) {
    s.current.Some? && !s.paused && !s.gameOver
  }

  /** Column at which a shape spawns: centred, rounding down. */
  function SpawnX(shape: Matrix): int
    requires |shape| > 0
  {
    (BoardWidth - |shape[0]|) / 2
  }

  /** The piece a spawn brings in: the queued one, or a fresh draw if none is queued. */
  function Incoming(s: Snapshot, draw: Kind): (p: Piece)
    requires CatalogueNext(s)
    ensures p == CreatePiece(p.kind)
  {
    if s.next.Some? then s.next.value else CreatePiece(draw)
  }

  /** spawnPiece: the incoming piece at the top centre, with a fresh draw queued; if
      that placement is invalid the game is over and nothing else changes. */
  function Spawned(s: Snapshot, draw: Kind, drawNext: Kind): (t: Snapshot)
    requires IsBoard(s.board) && CatalogueNext(s)
    ensures t.board == s.board && t.score == s.score && t.lines == s.lines
    ensures t.level == s.level && t.dropTime == s.dropTime && t.paused == s.paused
  {
    var piece := Incoming(s, draw);
    var startX := SpawnX(piece.shape);
    if !ValidPlacement(s.board, piece.shape, startX, 0) then s.(gameOver := true)
    else s.(current := Some(piece), x := startX, y := 0, next := Some(CreatePiece(drawNext)))
  }

  /** movePiece's verdict: the shifted placement is valid and input is accepted. */
  predicate MoveAllowed(s: Snapshot, dx: int, dy: int)
    requires IsBoard(s.board)
  {
    Active(s) && ValidPlacement(s.board, s.current.value.shape, s.x + dx, s.y + dy)
  }

  /** movePiece: shift the piece by (dx, dy) when allowed. */
  function Moved(s: Snapshot, dx: int, dy: int): Snapshot
    requires IsBoard(s.board)
  {
    if MoveAllowed(s, dx, dy) then s.(x := s.x + dx, y := s.y + dy) else s
  }

  /** rotate: turn the piece clockwise in place (no wall kicks) when the turned shape
      is valid at the same origin. */
  function Turned(s: Snapshot): Snapshot
    requires Inv(s)
  {
    if Active(s) && ValidPlacement(s.board, Rotated(s.current.value.shape), s.x, s.y)
    then s.(current := Some(s.current.value.(shape := Rotated(s.current.value.shape))))
    else s
  }

  /** The row a hard drop lands on: descend while the next row down is valid. */
  function Landing(board: Matrix, shape: Matrix, x: int, y: int): (r: int)
    requires IsBoard(board) && HasCell(shape)
    ensures y <= r
    ensures r == y || ValidPlacement(board, shape, x, r)
    decreases BoardHeight - y
  {
    if ValidPlacement(board, shape, x, y + 1) then
      ValidOriginAboveFloor(board, shape, x, y + 1);
      Landing(board, shape, x, y + 1)
    else y
  }

  /** The landing row is the first row at or below y whose successor is invalid;
      every row passed on the way down is valid. */
  lemma {:induction false} LandingIsFirstBlocked(board: Matrix, shape: Matrix, x: int, y: int)
    requires IsBoard(board) && HasCell(shape)
    ensures y <= Landing(board, shape, x, y)
    ensures !ValidPlacement(board, shape, x, Landing(board, shape, x, y) + 1)
    ensures forall k :: y < k <= Landing(board, shape, x, y) ==> ValidPlacement(board, shape, x, k)
    decreases BoardHeight - y
  {
    if ValidPlacement(board, shape, x, y + 1) {
      ValidOriginAboveFloor(board, shape, x, y + 1);
      LandingIsFirstBlocked(board, shape, x, y + 1);
    }
  }

  /** The level effect: recompute the level from the line total and, when it changed,
      the drop time. */
  function LevelSynced(s: Snapshot): (t: Snapshot)
    ensures t.level == LevelFor(s.lines) && t.lines == s.lines
    ensures s.dropTime == DropTimeFor(s.level) ==> t.dropTime == DropTimeFor(t.level)
  {
    var newLevel := LevelFor(s.lines);
    if newLevel != s.level then s.(level := newLevel, dropTime := DropTimeFor(newLevel)) else s
  }

  /** Lines cleared by locking the current piece where it is. */
  function ClearedBy(s: Snapshot): (n: nat)
    requires Inv(s) && s.current.Some?
    ensures n <= 4
  {
    LockClearsAtMostShapeHeight(s.board, s.current.value.shape, s.x, s.y);
    FullCount(Merged(s.board, s.current.value.shape, s.x, s.y))
  }

  /** The first half of lockPiece: merge the piece, clear full lines, add them to
      the total and score them at the level in effect before they count, and drop
      the piece. */
  function AfterClear(s: Snapshot): (t: Snapshot)
    requires Inv(s) && s.current.Some?
    ensures IsBoard(t.board) && NoFullRow(t.board)
  {
    var merged := Merged(s.board, s.current.value.shape, s.x, s.y);
    var n := ClearedBy(s);
    ClearedBoardShape(merged);
    s.(board := ClearedBoard(merged), lines := s.lines + n,
       score := s.score + LineClearPoints(n, s.level), current := None)
  }

  /** lockPiece: after merging and clearing, spawn the next piece on the new board and
      let the level catch up with the line total. */
  function Locked(s: Snapshot, draw: Kind, drawNext: Kind): (t: Snapshot)
    requires Inv(s)
    ensures s.current.None? ==> t == s
    ensures s.current.Some? ==> t.lines == s.lines + ClearedBy(s)
                                && t.score == s.score + LineClearPoints(ClearedBy(s), s.level)
    ensures t.level == LevelFor(t.lines)
  {
    if s.current.None? then s else LevelSynced(Spawned(AfterClear(s), draw, drawNext))
  }

  /** The descent of hardDrop: move to the landing row, two points per row. The
      landing row is the first row at or below the piece whose successor is invalid. */
  function Dropped(s: Snapshot): (t: Snapshot)
    requires Inv(s) && Active(s)
    ensures Inv(t) && Active(t) && t.y >= s.y
    ensures t == s.(y := t.y, score := s.score + 2 * (t.y - s.y))
    ensures !ValidPlacement(s.board, s.current.value.shape, s.x, t.y + 1)
    ensures forall k :: s.y < k <= t.y ==> ValidPlacement(s.board, s.current.value.shape, s.x, k)
  {
    var shape := s.current.value.shape;
    CountedCellExists(shape);
    var ny := Landing(s.board, shape, s.x, s.y);
    LandingIsFirstBlocked(s.board, shape, s.x, s.y);
    s.(y := ny, score := s.score + 2 * (ny - s.y))
  }

  /** hardDrop: descend, then lock at once (the lock is one step with the drop). */
  function HardDropped(s: Snapshot, draw: Kind, drawNext: Kind): (t: Snapshot)
    requires Inv(s)
    ensures !Active(s) ==> t == s
    ensures Active(s) ==> t.score >= s.score + 2 * (Dropped(s).y - s.y) && t.lines >= s.lines
  {
    if !Active(s) then s else Locked(Dropped(s), draw, drawNext)
  }

  /** One gravity tick: a successful step down is worth a point; a blocked one locks. */
  function Ticked(s: Snapshot, draw: Kind, drawNext: Kind): Snapshot
    requires Inv(s)
  {
    if !Active(s) then s
    else if MoveAllowed(s, 0, 1) then Moved(s, 0, 1).(score := s.score + 1)
    else Locked(s, draw, drawNext)
  }

  /** The game-loop effect: with the game running and no piece falling, spawn one. */
  function LoopStarted(s: Snapshot, draw: Kind, drawNext: Kind): (t: Snapshot)
    requires Inv(s)
    ensures s.paused || s.gameOver || s.current.Some? ==> t == s
    ensures t.board == s.board && t.score == s.score && t.lines == s.lines && t.level == s.level
    ensures !s.paused && !t.gameOver ==> t.current.Some?
  {
    if s.paused || s.gameOver || s.current.Some? then s else Spawned(s, draw, drawNext)
  }

  /** togglePause: flip the pause flag unless the game is over. */
  function PauseToggled(s: Snapshot): (t: Snapshot)
    ensures t == s || t == s.(paused := !s.paused)
    ensures s.gameOver ==> t == s
    ensures !s.gameOver ==> t.paused != s.paused
  {
    if s.gameOver then s else s.(paused := !s.paused)
  }

  /** Everything the session reacts to; each random draw is an argument. */
  datatype Event =
    | MoveLeft | MoveRight | MoveDown | Rotate
    | HardDrop(draw: Kind, drawNext: Kind)
    | Tick(draw: Kind, drawNext: Kind)
    | StartLoop(draw: Kind, drawNext: Kind)
    | TogglePause
    | NewGame

  /** One handler call. Only locks and new games change the board and the line
      total; moves, turns, pausing and starting the loop leave the score alone too. */
  function Step(s: Snapshot, e: Event): (t: Snapshot)
    requires Inv(s)
    ensures !(e.HardDrop? || e.Tick? || e.NewGame?) ==> t.board == s.board && t.lines == s.lines && t.score == s.score
  {
    match e
    case MoveLeft => Moved(s, -1, 0)
    case MoveRight => Moved(s, 1, 0)
    case MoveDown => Moved(s, 0, 1)
    case Rotate => Turned(s)
    case HardDrop(d, dn) => HardDropped(s, d, dn)
    case Tick(d, dn) => Ticked(s, d, dn)
    case StartLoop(d, dn) => LoopStarted(s, d, dn)
    case TogglePause => PauseToggled(s)
    case NewGame => Initial()
  }
}
