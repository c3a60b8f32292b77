/** What the session promises across its transitions. */
module Invariants {
  import opened Grid
  import opened Tetromino
  import opened Placement
  import opened Rotation
  import opened LineClear
  import opened Lock
  import opened Scoring
  import opened Session

  /** A spawn from a board without a falling piece keeps the piece invariant, and
      touches neither the counters nor the score. */
  lemma SpawnedKeepsPieceInv(s: Snapshot, draw: Kind, drawNext: Kind)
    requires PieceInv(s) && s.current.None? && !s.gameOver
    ensures var t := Spawned(s, draw, drawNext);
      PieceInv(t) && t.lines == s.lines && t.level == s.level && t.dropTime == s.dropTime && t.score == s.score
  {
  }

  /** The level effect restores the level part of the invariant. */
  lemma LevelSyncedRestoresInv(s: Snapshot)
    requires PieceInv(s) && s.dropTime == DropTimeFor(s.level)
    ensures Inv(LevelSynced(s))
  {
  }

  /** Locking keeps the invariant: the new board is cleared, the level follows the
      new line total, and a spawned piece is valid on the new board. */
  lemma LockedKeepsInv(s: Snapshot, draw: Kind, drawNext: Kind)
    requires Inv(s)
    ensures Inv(Locked(s, draw, drawNext))
  {
    if s.current.Some? {
      var cleared := AfterClear(s);
      SpawnedKeepsPieceInv(cleared, draw, drawNext);
      LevelSyncedRestoresInv(Spawned(cleared, draw, drawNext));
    }
  }

  /** Locking never lowers the score or the line total. */
  lemma LockedNeverLowersScore(s: Snapshot, draw: Kind, drawNext: Kind)
    requires Inv(s)
    ensures Locked(s, draw, drawNext).score >= s.score && Locked(s, draw, drawNext).lines >= s.lines
  {
    if s.current.Some? {
      SpawnedKeepsPieceInv(AfterClear(s), draw, drawNext);
    }
  }

  /** A move or a turn keeps the invariant: it is applied only when the new placement
      is valid, and a turned tetromino is still a tetromino. */
  lemma MoveAndTurnKeepInv(s: Snapshot, dx: int, dy: int)
    requires Inv(s)
    ensures Inv(Moved(s, dx, dy)) && Inv(Turned(s))
  {
    if s.current.Some? {
      RotationKeepsTetromino(s.current.value.shape);
    }
  }

  /** Every transition keeps the invariant; in particular the falling piece is always
      validly placed and one lock never clears more than four lines. */
  lemma StepKeepsInv(s: Snapshot, e: Event)
    requires Inv(s)
    ensures Inv(Step(s, e))
  {
    match e
    case MoveLeft => MoveAndTurnKeepInv(s, -1, 0);
    case MoveRight => MoveAndTurnKeepInv(s, 1, 0);
    case MoveDown => MoveAndTurnKeepInv(s, 0, 1);
    case Rotate => MoveAndTurnKeepInv(s, 0, 0);
    case HardDrop(d, dn) =>
      if Active(s) {
        LockedKeepsInv(Dropped(s), d, dn);
      }
    case Tick(d, dn) =>
      MoveAndTurnKeepInv(s, 0, 1);
      LockedKeepsInv(s, d, dn);
    case StartLoop(d, dn) =>
      if !s.paused && !s.gameOver && s.current.None? {
        SpawnedKeepsPieceInv(s, d, dn);
      }
    case TogglePause =>
    case NewGame =>
  }

  /** Apart from starting a new game, no transition lowers the score or the line total. */
  lemma StepNeverLowersScore(s: Snapshot, e: Event)
    requires Inv(s) && !e.NewGame?
    ensures Step(s, e).score >= s.score && Step(s, e).lines >= s.lines
  {
    match e
    case HardDrop(d, dn) =>
      if Active(s) {
        LockedNeverLowersScore(Dropped(s), d, dn);
      }
    case Tick(d, dn) =>
      LockedNeverLowersScore(s, d, dn);
    case StartLoop(d, dn) =>
      if !s.paused && !s.gameOver && s.current.None? {
        SpawnedKeepsPieceInv(s, d, dn);
      }
    case _ =>
  }

  /** Once the game is over, only a new game changes anything. */
  lemma GameOverAbsorbing(s: Snapshot, e: Event)
    requires Inv(s) && s.gameOver && !e.NewGame?
    ensures Step(s, e) == s
  {
  }

  /** Moves, turns and hard drops are ignored with no piece, while paused, or after
      game over. */
  lemma InactiveIgnoresPieceCommands(s: Snapshot, e: Event)
    requires Inv(s) && !Active(s)
    requires e.MoveLeft? || e.MoveRight? || e.MoveDown? || e.Rotate? || e.HardDrop?
    ensures Step(s, e) == s
  {
  }

  /** Applying a whole sequence of events. */
  function Run(s: Snapshot, events: seq<Event>): Snapshot
    requires Inv(s)
    decreases |events|
  {
    if events == [] then s
    else
      StepKeepsInv(s, events[0]);
      Run(Step(s, events[0]), events[1..])
  }

  /** Any run of events keeps the invariant, and a run without a new game never
      lowers the score or the line total. */
  lemma {:induction false} RunKeepsInvAndScore(s: Snapshot, events: seq<Event>)
    requires Inv(s)
    ensures Inv(Run(s, events))
    ensures (forall i :: 0 <= i < |events| ==> !events[i].NewGame?) ==>
      Run(s, events).score >= s.score && Run(s, events).lines >= s.lines
    decreases |events|
  {
    if events != [] {
      StepKeepsInv(s, events[0]);
      if !events[0].NewGame? {
        StepNeverLowersScore(s, events[0]);
      }
      RunKeepsInvAndScore(Step(s, events[0]), events[1..]);
    }
  }

  /** A spawn brings in the incoming piece at the top centre with a fresh draw queued
      when that placement is valid; otherwise it ends the game and leaves the falling
      piece and the queue as they were. */
  lemma SpawnOutcome(s: Snapshot, draw: Kind, drawNext: Kind)
    requires IsBoard(s.board) && CatalogueNext(s)
    ensures var p := Incoming(s, draw);
            var t := Spawned(s, draw, drawNext);
            if ValidPlacement(s.board, p.shape, SpawnX(p.shape), 0) then
              && t.current == Some(p) && t.x == SpawnX(p.shape) && t.y == 0
              && t.next == Some(CreatePiece(drawNext)) && t.gameOver == s.gameOver
            else
              t == s.(gameOver := true)
  {
  }

  /** A tick that can step down moves the piece one row for one point; a tick that
      cannot locks the piece instead. */
  lemma TickOutcome(s: Snapshot, draw: Kind, drawNext: Kind)
    requires Inv(s) && Active(s)
    ensures MoveAllowed(s, 0, 1) ==>
            Ticked(s, draw, drawNext) == s.(y := s.y + 1, score := s.score + 1)
    ensures !MoveAllowed(s, 0, 1) ==> Ticked(s, draw, drawNext) == Locked(s, draw, drawNext)
  {
  }

  /** A turn changes nothing but the falling shape: it rotates the shape clockwise
      exactly when the game is running and the rotated shape fits at the same origin,
      keeps the piece's kind and colour, and otherwise leaves the snapshot alone. */
  lemma TurnOutcome(s: Snapshot)
    requires Inv(s)
    ensures var t := Turned(s);
      && t.board == s.board && t.x == s.x && t.y == s.y && t.next == s.next
      && t.score == s.score && t.lines == s.lines && t.level == s.level && t.dropTime == s.dropTime
      && t.paused == s.paused && t.gameOver == s.gameOver
      && (t.current.Some? <==> s.current.Some?)
      && (t.current.Some? ==> t.current.value.kind == s.current.value.kind
                              && t.current.value.color == s.current.value.color)
    ensures Active(s) && ValidPlacement(s.board, Rotated(s.current.value.shape), s.x, s.y) ==>
              Turned(s).current.value.shape == Rotated(s.current.value.shape)
    ensures Turned(s) != s ==> Active(s) && ValidPlacement(s.board, Rotated(s.current.value.shape), s.x, s.y)
  {
  }

  /** A lock that completes no row only merges the piece and removes it. */
  lemma LockWithoutClear(s: Snapshot)
    requires Inv(s) && s.current.Some?
    requires NoFullRow(Merged(s.board, s.current.value.shape, s.x, s.y))
    ensures AfterClear(s) == s.(board := Merged(s.board, s.current.value.shape, s.x, s.y), current := None)
  {
    NothingToClear(Merged(s.board, s.current.value.shape, s.x, s.y));
  }

  /** A lock leaves the merged board with its full rows cleared, scores the cleared
      lines at the level of the line total before the lock, and adds them to the
      total. */
  lemma LockScoresAtPreviousLevel(s: Snapshot, draw: Kind, drawNext: Kind)
    requires Inv(s) && s.current.Some?
    ensures var n := FullCount(Merged(s.board, s.current.value.shape, s.x, s.y));
      var t := Locked(s, draw, drawNext);
      && n <= 4 && t.board == ClearedBoard(Merged(s.board, s.current.value.shape, s.x, s.y))
      && t.lines == s.lines + n && t.score == s.score + LineClearPoints(n, LevelFor(s.lines))
  {
    var a := AfterClear(s);
    var t := Spawned(a, draw, drawNext);
    assert Locked(s, draw, drawNext) == LevelSynced(t);
  }

  /** The spawn half of a lock: the game ends exactly when the incoming piece does not
      fit at its spawn position on the board after the lock; otherwise that piece comes
      in at the top centre with a fresh draw queued. A lock that ends the game leaves no
      piece falling and the queue as it was. */
  lemma LockOutcome(s: Snapshot, draw: Kind, drawNext: Kind)
    requires Inv(s) && s.current.Some?
    ensures var a := AfterClear(s);
      var p := Incoming(a, draw);
      var t := Locked(s, draw, drawNext);
      && (t.gameOver <==> !ValidPlacement(a.board, p.shape, SpawnX(p.shape), 0))
      && (!t.gameOver ==> t.current == Some(p) && t.x == SpawnX(p.shape) && t.y == 0
                          && t.next == Some(CreatePiece(drawNext)))
      && (t.gameOver ==> t.current.None? && t.next == s.next)
  {
    var a := AfterClear(s);
    SpawnOutcome(a, draw, drawNext);
    assert Locked(s, draw, drawNext) == LevelSynced(Spawned(a, draw, drawNext));
  }
}
