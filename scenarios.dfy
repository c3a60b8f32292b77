/** Worked plays of the session: the first spawn of a new game, a hard drop of an I
    piece into the empty well, and a spawn blocked at the top of the well. */
module Scenarios {
  import opened Grid
  import opened Tetromino
  import opened Placement
  import opened LineClear
  import opened Lock
  import opened Scoring
  import opened Session
  import opened Invariants

  /** On the empty board a placement is valid exactly when it stays inside the well. */
  lemma EmptyWellPlacement(shape: Matrix, x: int, y: int)
    ensures ValidPlacement(EmptyGrid(), shape, x, y) <==> InsideWell(shape, x, y)
  {
    ValidPlacementCases(EmptyGrid(), shape, x, y);
  }

  /** The first tick of a new game's loop brings in the drawn piece at the top centre
      and queues the second draw. */
  lemma FirstSpawn(draw: Kind, drawNext: Kind)
    ensures var s := LoopStarted(Initial(), draw, drawNext);
            && s.current == Some(CreatePiece(draw))
            && s.x == SpawnX(ShapeOf(draw)) && s.y == 0
            && s.next == Some(CreatePiece(drawNext))
            && !s.gameOver && s.score == 0
  {
    var p := CreatePiece(draw);
    assert ValidPlacement(EmptyGrid(), p.shape, SpawnX(p.shape), 0) by {
      EmptyWellPlacement(p.shape, SpawnX(p.shape), 0);
    }
  }

  /** The I piece in the empty well, as the first spawn leaves it. */
  function FirstI(next: Kind): (s: Snapshot)
    ensures Inv(s) && Active(s)
  {
    var p := CreatePiece(I);
    assert ValidPlacement(EmptyGrid(), p.shape, 3, 0) by {
      EmptyWellPlacement(p.shape, 3, 0);
    }
    assert Inv(Initial());
    Snapshot(EmptyGrid(), Some(p), 3, 0, Some(CreatePiece(next)), 0, 0, 1, 1000, false, false)
  }

  /** The bottom row after the I piece locks there: columns 3 to 6 filled. */
  function FloorRow(): Row {
    [0, 0, 0, 1, 1, 1, 1, 0, 0, 0]
  }

  /** The first spawn of a new game that draws an I leaves exactly that state. */
  lemma FirstIIsFirstSpawn(next: Kind)
    ensures FirstI(next) == LoopStarted(Initial(), I, next)
  {
    FirstSpawn(I, next);
  }

  /** A running game whose falling piece is the flat I at row 0, columns 3 to 6, of
      the empty well. */
  predicate FlatIOnEmptyWell(s: Snapshot) {
    && Inv(s) && Active(s)
    && s.board == EmptyGrid() && s.current.value.shape == ShapeOf(I) && s.x == 3 && s.y == 0
  }

  /** Nothing stops the I piece above the floor. */
  lemma FallsToFloor(s: Snapshot)
    requires FlatIOnEmptyWell(s)
    ensures Dropped(s).y >= 19
  {
    var d := Dropped(s);
    EmptyWellPlacement(ShapeOf(I), 3, d.y + 1);
  }

  /** The floor stops the I piece. */
  lemma StopsAtFloor(s: Snapshot)
    requires FlatIOnEmptyWell(s)
    ensures Dropped(s).y <= 19
  {
    var d := Dropped(s);
    FallsToFloor(s);
    assert ValidPlacement(s.board, ShapeOf(I), 3, d.y);
    assert Occupied(ShapeOf(I), 0, 0);
  }

  /** From row 0 of the empty well the flat I piece falls to the floor, row 19, for
      38 points. */
  lemma IDropsToFloor(s: Snapshot)
    requires FlatIOnEmptyWell(s)
    ensures Dropped(s) == s.(y := 19, score := s.score + 38)
  {
    FallsToFloor(s);
    StopsAtFloor(s);
    DroppedFrame(s, 19, s.score + 38);
  }

  /** A descent that ends on row ny changes only the row and the score. */
  lemma DroppedFrame(s: Snapshot, ny: int, sc: nat)
    requires Inv(s) && Active(s) && Dropped(s).y == ny && sc == s.score + 2 * (ny - s.y)
    ensures Dropped(s) == s.(y := ny, score := sc)
  {
  }

  /** The board once the I piece has locked on the floor. */
  function FloorBoard(): (b: Matrix)
    ensures IsBoard(b)
  {
    EmptyGrid()[19 := FloorRow()]
  }

  /** Locking the I piece on the floor fills columns 3 to 6 of the bottom row and
      leaves no full row. */
  lemma ILocksOnFloor()
    ensures Merged(EmptyGrid(), ShapeOf(I), 3, 19) == FloorBoard()
    ensures NoFullRow(FloorBoard())
  {
    var m := Merged(EmptyGrid(), ShapeOf(I), 3, 19);
    var g := FloorBoard();
    forall r | 0 <= r < BoardHeight
      ensures m[r] == g[r]
    {
    }
    forall i | 0 <= i < |g|
      ensures !IsFull(g[i])
    {
      assert g[i][0] == 0;
    }
  }

  /** The flat I piece locked on the floor of the empty well clears nothing. */
  lemma FloorLockClearsNothing(d: Snapshot)
    requires Inv(d) && d.current.Some?
    requires d.board == EmptyGrid() && d.current.value.shape == ShapeOf(I) && d.x == 3 && d.y == 19
    ensures AfterClear(d) == d.(board := FloorBoard(), current := None)
  {
    ILocksOnFloor();
    LockWithoutClear(d);
  }

  /** Every piece fits at its spawn position above the locked I, so the queued piece
      comes in. */
  lemma SpawnAboveFloorRow(a: Snapshot, draw: Kind, drawNext: Kind)
    requires a.board == FloorBoard() && a.next.Some? && CatalogueNext(a)
    ensures Spawned(a, draw, drawNext) ==
            a.(current := a.next, x := SpawnX(a.next.value.shape), y := 0, next := Some(CreatePiece(drawNext)))
  {
    var g := FloorBoard();
    var piece := a.next.value;
    assert Incoming(a, draw) == piece;
    var shape := piece.shape;
    var x := SpawnX(shape);
    forall r, c | 0 <= r < |shape| && 0 <= c < |shape[r]| && Occupied(shape, r, c)
      ensures CellFree(g, x + c, r)
    {
      assert g[r] == EmptyRow();
    }
    assert ValidPlacement(g, shape, x, 0);
  }

  /** A hard drop of the flat I piece in the empty well: it lands on the floor for
      38 points, fills columns 3 to 6 of the bottom row, clears nothing, and the
      queued piece comes in. */
  lemma HardDropFlatI(s: Snapshot, draw: Kind, drawNext: Kind)
    requires FlatIOnEmptyWell(s) && s.next.Some?
    ensures var t := HardDropped(s, draw, drawNext);
            && t.board == FloorBoard()
            && t.score == s.score + 38 && t.lines == s.lines && t.level == s.level
            && t.current == s.next && !t.gameOver
  {
    IDropsToFloor(s);
    var d := Dropped(s);
    FloorLockClearsNothing(d);
    var a := AfterClear(d);
    SpawnAboveFloorRow(a, draw, drawNext);
    var sp := Spawned(a, draw, drawNext);
    assert LevelSynced(sp) == sp;
  }

  /** The first hard drop of a game that opens with an I: 38 points, columns 3 to 6
      of the bottom row filled, no line cleared, and the second draw falling. */
  lemma HardDropIToFloor(next: Kind, draw: Kind, drawNext: Kind)
    ensures var t := HardDropped(FirstI(next), draw, drawNext);
            && t.board == FloorBoard()
            && t.score == 38 && t.lines == 0 && t.level == 1
            && t.current == Some(CreatePiece(next)) && !t.gameOver
  {
    var s := FirstI(next);
    assert FlatIOnEmptyWell(s);
    HardDropFlatI(s, draw, drawNext);
  }

  /** Every spawn footprint has a filled cell in its top row that lands in one of
      columns 3 to 6. */
  lemma SpawnCoversCentre(k: Kind) returns (c: int)
    ensures var shape := ShapeOf(k);
            && Occupied(shape, 0, c) && 3 <= SpawnX(shape) + c <= 6
  {
    match k
    case I => c := 0;
    case L => c := 2;
    case J => c := 0;
    case O => c := 0;
    case T => c := 1;
    case S => c := 1;
    case Z => c := 0;
  }

  /** With columns 3 to 6 of the top row filled, every piece's spawn footprint covers
      a filled cell, so any spawn ends the game and changes nothing else. */
  lemma BlockedSpawnEndsGame(s: Snapshot, draw: Kind, drawNext: Kind)
    requires IsBoard(s.board) && CatalogueNext(s)
    requires forall c :: 3 <= c <= 6 ==> s.board[0][c] != 0
    ensures Spawned(s, draw, drawNext) == s.(gameOver := true)
  {
    var p := Incoming(s, draw);
    var c := SpawnCoversCentre(p.kind);
    assert !CellFree(s.board, SpawnX(p.shape) + c, 0);
    assert !ValidPlacement(s.board, p.shape, SpawnX(p.shape), 0);
  }
}
