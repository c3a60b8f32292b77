# Tetron game engine, modelled in Dafny

Tetron is a falling-block puzzle game for phones. The project models its game engine, which has two parts:

- **The grid and piece rules** of `src/game/gameLogic.js`.
  - The board is a 20 by 10 grid of integer cells, and 0 means empty.
  - There is a catalogue of seven tetrominoes with their shapes and colours.
  - The rules are the placement rule (`isValidMove`), the clockwise turn (`rotatePiece`), locking a piece into a copy of the board (`mergePiece`) and removing full rows (`clearLines`).
- **The session** of the game screen in `App.js`.
  - The state is the board, the falling piece and its position, the queued piece, score, lines, level, drop time, and the paused and game-over flags.
  - The handlers are spawn, move, rotate, hard drop, lock, the level effect, the gravity tick, new game and pause.

Modules:

- `Grid`, `Tetromino`, `Placement`, `Rotation`, `LineClear` and `Lock` model `gameLogic.js`.
  - The loops of `isValidMove`, `rotatePiece`, `mergePiece` and `clearLines` are methods whose loops fill fresh or copied grids.
  - Each method is proved equal to a specification function.
  - The properties of the operations are proved as lemmas about those functions.
  - Grids are values (`seq<seq<int>>`), because the game never mutates a grid it has handed out: every operation copies or builds a new one.
- `Scoring` has the line-clear table and the level and speed formulas.
- `Session` describes the session as values.
  - A `Snapshot` holds the screen's state fields.
  - There is one transition function per handler.
  - An `Event`/`Step` pair drives any sequence of handler calls.
- `Invariants` proves what holds across the transitions:
  - the falling piece is always validly placed;
  - the board never holds a full row between locks;
  - the level and the speed follow the line total;
  - score and lines never decrease;
  - game over is absorbing.
- `App` holds the class `Game`.
  - Its fields are the screen's state.
  - Its methods update the fields in place, as the handlers do.
  - Each method is proved to perform the matching `Session` transition, and so keeps the invariant.
- `Scenarios` holds worked plays:
  - the first spawn;
  - a hard drop of an I piece to the floor;
  - a spawn blocked at the top.
- `StaleSpawn` models `lockPiece` as written (see Findings).

The random piece draws are parameters: `draw` is the kind `createPiece` would pick for the falling piece, and `drawNext` is the kind for the queue.

## Model

| member | source | states |
|---|---|---|
| Grid.EmptyRow | src/game/gameLogic.js:6 | a row of BOARD_WIDTH zero cells |
| Grid.EmptyGrid | src/game/gameLogic.js:4-8 | createEmptyGrid: exactly 20 rows of 10 cells, every cell 0 |
| Tetromino.ShapeIsTetromino | src/game/gameLogic.js:20-49 | every catalogue shape is a non-empty rectangular 0/1 matrix of at most 4 by 4 with exactly four filled cells |
| Tetromino.ShapeOf | src/game/gameLogic.js:20-49 | getShape: the I shape is one row of four cells, the O two rows of two, and every other kind two rows of three |
| Tetromino.ColorOf | src/game/gameLogic.js:51-62 | getColor: every kind has a '#rrggbb' colour string |
| Tetromino.CreatePiece | src/game/gameLogic.js:10-18 | createPiece for a drawn kind: a piece of that kind whose shape is a tetromino footprint |
| Tetromino.CatalogueComplete | src/game/gameLogic.js:11-17 | the draw order 'ILJOTSZ' holds all seven kinds, and no two kinds share a colour |
| Placement.IsValidMove | src/game/gameLogic.js:64-84 | the nested scan with early returns answers exactly the placement rule |
| Placement.ValidPlacementCases | src/game/gameLogic.js:71-79 | valid exactly when every filled cell is inside the walls and above the floor and no visible filled cell overlaps a filled board cell |
| Placement.OutOfBoundsInvalid | src/game/gameLogic.js:72-74 | a filled cell at x<0, x>=10 or y>=20 makes the move invalid, also when that cell is above the top row |
| Placement.HiddenCellsIgnoreBoard | src/game/gameLogic.js:77-79 | cells above the top row are never compared with the board: two boards that agree under every visible cell give the same verdict |
| Placement.ValidOriginAboveFloor | src/game/gameLogic.js:72 | a validly placed shape with a filled cell has its origin above the floor |
| Placement.ValidWritesInBounds | src/game/gameLogic.js:107-111 | given a valid placement, every write of mergePiece lands inside the board |
| Placement.Merged | src/game/gameLogic.js:101-117 | the merged board has the input board's dimensions |
| Placement.MergePiece | src/game/gameLogic.js:101-117 | the copy-and-write loop returns a board of the same size, equal to the input except at filled shape cells with y>=0, which take the shape's value (the input is a value and so is unchanged) |
| Rotation.Rotated | src/game/gameLogic.js:86-99 | the clockwise turn of an r by c shape is a c by r shape, rectangular again |
| Rotation.RotatePiece | src/game/gameLogic.js:86-99 | the fill loop sets rotated[col][r-1-row] = shape[row][col] for every cell and returns exactly the clockwise turn |
| Rotation.HalfTurn | src/game/gameLogic.js:94 | two turns read the shape upside down and back to front |
| Rotation.FourTurnsIdentity | src/game/gameLogic.js:86-99 | four turns give back the original shape |
| Rotation.RotationKeepsCellCount | src/game/gameLogic.js:92-96 | a turn keeps the number of filled cells |
| Rotation.RotationKeepsTetromino | src/game/gameLogic.js:86-99 | every rotation state of a tetromino is again a tetromino footprint |
| LineClear.EmptyRows | src/game/gameLogic.js:132-134 | n rows of BOARD_WIDTH zero cells |
| LineClear.ClearedBoard | src/game/gameLogic.js:119-136 | the board clearLines returns has as many rows as its input; its layout is stated by LineClear.ClearedBoardShape |
| LineClear.KeptAndCleared | src/game/gameLogic.js:123-129 | every row is either kept or counted as cleared |
| LineClear.KeptRows | src/game/gameLogic.js:124-125 | the kept rows are exactly the non-full rows of the board |
| LineClear.NothingToClear | src/game/gameLogic.js:123-129 | a board without full rows keeps every row and clears none |
| LineClear.ClearedBoardShape | src/game/gameLogic.js:131-136 | the cleared board has 20 rows of 10 cells: the cleared count of empty rows on top, then the kept rows in their original order, and no full row |
| LineClear.ClearLines | src/game/gameLogic.js:119-137 | the scan and padding loops return linesCleared = the number of full rows and the board of empty rows on top of the surviving rows in order, of height 20 and with no full row |
| LineClear.PadToHeight | src/game/gameLogic.js:132-134 | the unshift loop puts exactly 20 - n empty rows on top of n given rows and keeps those rows in order |
| LineClear.ClearLinesIdempotent | src/game/gameLogic.js:123-134 | clearing a cleared board removes nothing and returns the same board |
| Lock.MergedIsBoard | src/game/gameLogic.js:102 | locking keeps the board's dimensions |
| Lock.MergeFillsPiece | src/game/gameLogic.js:109-111 | locking never empties a cell, and every visible cell of the piece ends up filled |
| Lock.MergeIntoEmpty | src/game/gameLogic.js:101-117 | on the empty grid, the locked piece's visible cells are the only filled cells |
| Lock.LockClearsAtMostShapeHeight | App.js:162-169 | merging a shape of h rows into a board without full rows completes at most h rows, so the score table index is never out of range |
| Scoring.LineClearPoints | App.js:167-170 | a lock that clears nothing scores nothing, and at any level from 1 up a lock that clears a line always scores |
| Scoring.LineClearPointsExamples | App.js:169 | one line at level 1 is 40, four lines 1200, two lines at level 3 is 300, and a lock that clears nothing scores 0 |
| Scoring.LineClearPointsOrder | App.js:169 | at any level, more lines at once score strictly more, and the award scales linearly with the level |
| Scoring.LevelFor | App.js:64 | the level is at least 1 and is the unique l with (l-1)*10 <= lines < l*10 |
| Scoring.DropTimeFor | App.js:67 | the drop time is exactly max(100, 1000-(level-1)*100): at least both terms and equal to one of them, so at most 1000 ms from level 1 |
| Scoring.LevelMonotone | App.js:63-69 | more lines never lower the level nor raise the drop time |
| Scoring.LevelExamples | App.js:63-69 | 25 lines give level 3 and 800 ms; 0 lines give level 1 and 1000 ms; from level 10 the speed is capped at 100 ms |
| Session.Initial | App.js:35-45 | the starting state satisfies the invariant |
| Session.Incoming | App.js:91 | the incoming piece is a catalogue piece in spawn orientation |
| Session.Spawned | App.js:90-107 | a spawn leaves the board, score, lines, level, drop time and pause flag unchanged |
| Session.MoveAllowed | App.js:110-115 | the guard and the test of movePiece: a piece is falling, the game is neither paused nor over, and the shifted placement is valid; App.MoveVerdict and Invariants.MoveAndTurnKeepInv state what it decides |
| Session.Moved | App.js:109-124 | movePiece as a transition: the shifted position when the move is allowed, otherwise the same state; its properties are stated by App.MoveVerdict, Invariants.MoveAndTurnKeepInv and Invariants.InactiveIgnoresPieceCommands |
| Session.Turned | App.js:126-137 | rotate as a transition; its properties are stated by Invariants.TurnOutcome and Invariants.MoveAndTurnKeepInv |
| Session.Landing | App.js:142-145 | the landing row is never above the start row and, when the piece moved at all, is a valid placement |
| Session.LevelSynced | App.js:63-69 | the level becomes floor(lines/10)+1, the line total is unchanged, and a drop time in step with the old level ends in step with the new one |
| Session.LandingIsFirstBlocked | App.js:142-145 | the descent ends at the first row at or below y whose successor is invalid, and every row passed is valid |
| Session.ClearedBy | App.js:163 | one lock clears at most four lines |
| Session.AfterClear | App.js:162-165 | the board after merging and clearing has 20 rows of 10 cells and no full row |
| Session.Locked | App.js:159-179 | the corrected lock, whose spawn is checked against the board after the lock: nothing changes without a piece; otherwise lines grow by the cleared count, score grows by the table award at the level before the lock, and the level follows the new line total; its spawn half is stated by Invariants.LockOutcome |
| Session.Dropped | App.js:142-149 | hard drop lands at the first y' >= y whose successor is invalid, every row passed is valid, only y and the score change, and the score grows by exactly 2*(y'-y) |
| Session.HardDropped | App.js:139-157 | without an active piece nothing changes; otherwise the score grows by at least the drop points and lines never decrease; the lock is the corrected lock |
| Session.Ticked | App.js:195-203 | the gravity tick as a transition; its properties are stated by Invariants.TickOutcome and App.TickVerdict |
| Session.LoopStarted | App.js:183-193 | paused, over or with a piece falling, nothing changes; the board, score, lines and level never change; a running game that is not over afterwards has a falling piece |
| Session.PauseToggled | App.js:225-229 | flips the pause flag exactly when the game is not over, and changes nothing else |
| Session.Step | App.js:109-229 | only hard drops, ticks and new games change the board, the line total or the score |
| Invariants.SpawnedKeepsPieceInv | App.js:90-107 | a spawn on a board without a falling piece keeps the placement invariant and leaves score, lines, level and drop time alone |
| Invariants.SpawnOutcome | App.js:90-107 | a valid spawn brings in the incoming piece at x = (10 - width) div 2, y = 0, with a fresh draw queued; an invalid one sets game over and changes neither the falling piece nor the queue |
| Invariants.LevelSyncedRestoresInv | App.js:63-69 | the level effect brings the level and the drop time back in step with the line total |
| Invariants.LockedKeepsInv | App.js:159-179 | the corrected lock (spawn checked against the post-lock board) keeps the invariant: the new board has no full row and the spawned piece is valid on it |
| Invariants.LockedNeverLowersScore | App.js:159-179 | the corrected lock never lowers score or lines |
| Invariants.LockScoresAtPreviousLevel | App.js:162-170 | the corrected lock leaves the merged board with its full rows cleared, adds the cleared count n to lines, and adds table[n-1] times the level from before those lines count (nothing when n = 0) |
| Invariants.LockOutcome | App.js:159-179 | the spawn half of the corrected lock, for every state with a falling piece: the game ends exactly when the incoming piece does not fit at its spawn position on the board after the lock; otherwise that piece falls from the top centre with a fresh draw queued; a lock that ends the game leaves no piece falling and the queue unchanged |
| Invariants.LockWithoutClear | App.js:162-177 | a lock that completes no row only merges the piece and removes it |
| Invariants.MoveAndTurnKeepInv | App.js:109-137 | moves and turns are applied only when the new placement is valid, so the active placement stays valid |
| Invariants.TickOutcome | App.js:195-203 | a tick whose step down succeeds moves one row and adds 1 point; a tick whose step fails locks the piece |
| Invariants.TurnOutcome | App.js:126-137 | a turn changes nothing but the falling shape and keeps the piece's kind and colour; the shape becomes its clockwise turn when the game is running and the turned shape fits at the same origin, and any change implies that condition |
| Invariants.StepKeepsInv | App.js:90-229 | every handler keeps the invariant |
| Invariants.StepNeverLowersScore | App.js:109-210 | every handler except a new game never lowers score or lines |
| Invariants.GameOverAbsorbing | App.js:110 | once the game is over, every event except a new game leaves the state unchanged |
| Invariants.InactiveIgnoresPieceCommands | App.js:110 | with no piece, paused or over, moves, turns and hard drops change nothing |
| Invariants.RunKeepsInvAndScore | App.js:90-229 | any sequence of events keeps the invariant, and one without a new game never lowers score or lines |
| App.DropRow | App.js:142-145 | the while loop stops at the landing row: the first row at or below y whose successor is invalid |
| App.MoveVerdict | App.js:115-123 | the isValidMove verdict on the shifted piece is the move decision: true shifts by exactly (dx, dy), false leaves the state alone |
| App.TickVerdict | App.js:196-202 | a tick is the step down followed by one point when the step succeeded, or by the lock when it failed, and the step keeps the invariant |
| App.Game.constructor | App.js:35-45 | the initial state: empty grid, no piece, score 0, lines 0, level 1, 1000 ms, not paused, not over |
| App.Game.StartNewGame | App.js:212-223 | resets to the initial state, which satisfies the invariant |
| App.Game.TogglePause | App.js:225-229 | flips the pause flag unless the game is over |
| App.Game.SpawnPiece | App.js:90-107 | performs the spawn transition and returns whether the game goes on |
| App.Game.Place | App.js:103-105 | sets the falling piece, its top-centre position and the queued piece, nothing else |
| App.Game.MovePiece | App.js:109-124 | performs the move transition and returns true exactly when input is accepted and the shifted placement is valid |
| App.Game.Shift | App.js:116 | sets the position and nothing else |
| App.Game.Rotate | App.js:126-137 | turns the piece in place when the turned shape is valid at the same origin, keeping the invariant |
| App.Game.SyncLevel | App.js:63-69 | the level effect |
| App.Game.MergeAndClear | App.js:162-177 | merges, clears, and counts and scores the cleared lines |
| App.Game.Settle | App.js:165-177 | sets the cleared board, adds lines and points only when lines were cleared, and drops the piece |
| App.Game.LockPiece | App.js:159-179 | performs the corrected lock transition (spawn checked against the post-lock board) and keeps the invariant |
| App.Game.DropToLanding | App.js:142-149 | moves to the landing row for 2 points a row |
| App.Game.HardDrop | App.js:139-157 | descends and then performs the corrected lock in one step, keeping the invariant |
| App.Game.Tick | App.js:195-203 | performs the gravity tick, locking with the corrected lock, and keeps the invariant |
| App.Game.AwardStep | App.js:201 | adds the soft-drop point and changes nothing else |
| App.Game.StartLoop | App.js:183-193 | with the game running and no piece falling, spawns one |
| Scenarios.EmptyWellPlacement | src/game/gameLogic.js:64-84 | on the empty grid a placement is valid exactly when it stays inside the walls and above the floor |
| Scenarios.FirstSpawn | App.js:191-192 | a new game's first loop brings in the first draw at the top centre with the second draw queued |
| Scenarios.FirstIIsFirstSpawn | App.js:191-192 | that state is exactly what a new game's first spawn gives when it draws an I |
| Scenarios.FallsToFloor | App.js:143-145 | nothing stops the flat I above row 19 of the empty well |
| Scenarios.StopsAtFloor | App.js:143-145 | the floor stops it at row 19 |
| Scenarios.IDropsToFloor | App.js:142-149 | from row 0 the flat I falls to row 19 for 38 points |
| Scenarios.DroppedFrame | App.js:147-149 | a descent changes only the row and the score |
| Scenarios.ILocksOnFloor | src/game/gameLogic.js:101-137 | locking the flat I on the floor fills columns 3 to 6 of the bottom row and completes no row |
| Scenarios.FloorLockClearsNothing | App.js:162-177 | that lock only merges the piece |
| Scenarios.SpawnAboveFloorRow | App.js:90-107 | every piece then fits at its spawn position, so the queued piece comes in |
| Scenarios.HardDropFlatI | App.js:139-179 | a hard drop of the flat I from the top of the empty well scores 38, clears nothing and brings in the queued piece |
| Scenarios.HardDropIToFloor | App.js:139-179 | the first hard drop of a game that opens with an I: score 38, lines 0, level 1, the second draw falling |
| Scenarios.SpawnCoversCentre | App.js:93 | every spawn footprint has a filled top-row cell in columns 3 to 6 |
| Scenarios.BlockedSpawnEndsGame | App.js:95-101 | with columns 3 to 6 of the top row filled, every spawn ends the game and changes nothing else |
| StaleSpawn.SpawnedAgainst | App.js:90-107 | spawnPiece with its check made against another board: game over exactly when the piece does not fit there, and the ordinary spawn when that board is the state's own |
| StaleSpawn.SameVerdictSameSpawn | App.js:95 | a board giving the same verdict as the state's own board gives the same spawn |
| StaleSpawn.LockedAsWritten | App.js:159-179 | lockPiece as written: nothing changes without a piece; with one, board, lines and score are those of the merge and clear, the level follows the lines, and the game ends exactly when the incoming piece does not fit on the board from before the lock |
| StaleSpawn.AsWrittenAgreesWhenChecksAgree | App.js:159-179 | lockPiece as written agrees with the corrected lock whenever the pre-lock and post-lock boards give the same verdict on the incoming piece |
| StaleSpawn.BlockedCannotFall | App.js:198-199 | that O cannot step down, so the next tick locks it |
| StaleSpawn.StepMerge | src/game/gameLogic.js:101-117 | merging it completes no row and fills the spawn area's corner |
| StaleSpawn.BlockedLockBoard | App.js:162-165 | the board after that lock holds the locked O at the top |
| StaleSpawn.CoveredSpawnEndsLock | App.js:177-178 | with an O queued, a corrected lock whose cleared board blocks the O at the top centre ends the game |
| StaleSpawn.CorrectedLockEndsGame | App.js:178 | checked against the post-lock board, the next spawn ends the game |
| StaleSpawn.AsWrittenSpawnsWhenOldBoardFits | App.js:95 | checked against the pre-lock board, the incoming piece comes in whenever it fits there |
| StaleSpawn.AsWrittenSpawnsO | App.js:178 | so lockPiece as written brings in the queued O at the top centre |
| StaleSpawn.FilledCornerBlocksO | src/game/gameLogic.js:77-79 | a board whose cell in row 0, column 4 is filled rejects the O at the top centre |
| StaleSpawn.LockedOCoversSpawn | App.js:162-165 | the O at the top centre overlaps the locked O |
| StaleSpawn.StaleSpawnOverlaps | App.js:90-107 | lockPiece as written leaves a running game whose falling piece is not validly placed |

## Left out

- Rendering, styles, layout and the display-only piece overlay in `src/components/GameBoard.js` are presentation. The input widgets in `src/components/` only forward button presses to the handlers modelled here.
- Timers are not modelled: the `setInterval` that drives the gravity tick and its cleanup are left out. The tick is the explicit method `App.Game.Tick`, and `App.Game.StartLoop` is the part of the loop effect that spawns.
- App.Game.HardDrop: the source defers the lock by 50 ms through `setTimeout`. The model makes the descent and the lock one step. It does not capture a gravity tick that runs within those 50 ms. It also does not capture that the deferred callback is the `lockPiece` built in the render before the drop, which still holds the pre-drop position.
- The level effect runs in the model right after the lock that changed the line total. React runs it after the next render, and the model assumes no handler runs in between.
- The high score is not modelled: it is loaded from and saved to AsyncStorage, which is asynchronous I/O to a library that is not part of this model.
- Haptic feedback is a foreign side effect with no bearing on the state.
- `Math.random` in `createPiece` is not modelled: the drawn kinds are parameters (`draw`, `drawNext`).
- The imported `TETROMINOS` module is not part of this model. No modelled code uses it.
- Placement.MergePiece: requires that every write lands inside the board, which a valid placement guarantees (`Placement.ValidWritesInBounds`). The case of a JavaScript write past the end of a row is not modelled, since the game only merges validly placed pieces.
- Rotation.Rotated, Rotation.RotatePiece: require a rectangular shape, which every reachable shape is (`Rotation.RotationKeepsTetromino`). Ragged arrays are not modelled.
- Grids are values. The JavaScript copies (`board.map(row => [...row])`, `push`, `unshift`) are modelled as sequence updates, so aliasing between rows of different boards is not captured. No modelled code mutates a grid it did not just create.

## Findings

| source | as written | input that shows it | evidently intended | confidence | as-written member | corrected member |
|---|---|---|---|---|---|---|
| App.js:159-179 with App.js:90-107 | `lockPiece` calls the `spawnPiece` built in the same render, whose `isValidMove` check reads the board from before the lock; the spawned piece is then placed on the board after the lock | a board with one filled cell (row 2, column 4); an O piece resting on it at the spawn position (4, 0) with an O queued; a gravity tick | the spawn is checked against the board after the lock, so the game ends when the locked piece blocks the spawn area; as written, the new O spawns on top of the locked O and play goes on | not executed | StaleSpawn.StaleSpawnOverlaps | Invariants.LockOutcome |

The input in the table is a constructed state that satisfies the invariant; the model does not show it reachable from a new game. In play the same situation arises, for instance, when O pieces are stacked at the spawn columns until the last one comes to rest in rows 0 and 1 with another O queued; that play is not part of the model.

The corrected transition is `Session.Locked`, and the rest of the model uses it. `Invariants.LockOutcome` proves, for every state, that it ends the game exactly when the incoming piece does not fit on the board after the lock. `StaleSpawn.CorrectedLockEndsGame` shows that it ends the game on the example state, and `Invariants.LockedKeepsInv` proves the placement invariant for it.
