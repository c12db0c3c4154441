# pytetris rules engine in Dafny

A verified model of the rules engine of pytetris, a small Tetris clone written
in Python on pygame. Drawing and event plumbing are stripped away. What
remains is modelled:

- **Piece types** (`piece_type.dfy`, module `PieceTypes`): the seven types,
  the cyclic `Orientation`, each type's occupancy masks and its clockwise kick
  offset tables, with colours as opaque RGB tags.
- **Cells** (`block.dfy`, module `Blocks`): a `Block` value (x, y, colour,
  style), its one-step moves, and the collision predicates against the
  settled cells.
- **Pieces** (`piece.dfy`, module `Pieces`): the `Piece` class. Its cells are
  derived from the anchor, orientation and mask. It falls and moves
  atomically, and rotates by trying kick offsets in table order.
- **Randomiser** (`piece_generator.dfy`, module `PieceGenerators`): the 7-bag
  generator. It appends a permutation of all seven types when the bag is
  empty; `Next` pops from the end and `Peek` looks at the end.
- **Timer** (`timer.dfy`, module `Timers`): the bookkeeping of a pausable
  countdown, with the clock passed in.
- **Game loop** (`game.dfy`, module `Games`, with `line_clear.dfy`, module
  `LineClear`, as its specification side): one tick of `Game.loop`. It takes
  an abstract input record (keys pressed and released, a gravity event,
  auto-repeat events, a quit request). It covers the soft-drop and auto-repeat
  bookkeeping and the phase machine GENERATION, FALLING, LOCK, PATTERN,
  ELIMINATE, COMPLETION: hard drop, gravity, locking, the full-row scan and
  the compacting line clear.
- **Constants** (`constants.dfy`): board size and speeds.

The settled cells are a `seq<Block>`. The game keeps two invariants:

- `Game.Valid`: the well-formedness of the phase state.
- `Game.Sound`: no two settled cells share a position, and the falling piece
  does not overlap them.

Line clearing is specified by `LineClear.Compacted`: every surviving cell
keeps its column and drops one row per cleared row below it. The
row-by-row loop of the ELIMINATE phase is proved to compute exactly this.

## Model

| member | source | states |
|---|---|---|
| PieceTypes.RotateCw | piece_type.py:11-21 | the clockwise successor never returns its input |
| PieceTypes.RotateCwCycle | piece_type.py:12-21 | North goes to East, East to South, South to West, West to North |
| PieceTypes.RotateCwFourTimes | piece_type.py:12-21 | four clockwise turns are the identity |
| PieceTypes.MaskShape | piece_type.py:61-214 | the I masks are 4x4, all others 3x3, every entry 0 or 1 |
| PieceTypes.MaskHasFourCells | piece_type.py:61-214 | every mask of every type in every orientation has exactly four occupied entries |
| PieceTypes.OffsetsStartWithNoKick | piece_type.py:49-198 | every kick list is non-empty and starts with (0, 0) |
| PieceTypes.OPieceIsRotationInvariant | piece_type.py:49-62 | the O mask is the same in every orientation and each O kick list is exactly [(0, 0)] |
| PieceTypes.NonOPieceHasFiveOffsets | piece_type.py:66-198 | every non-O kick list has five entries |
| PieceTypes.LjszShareOffsets | piece_type.py:66-198 | L, J, S and Z have identical kick tables, and T's North and South lists differ from theirs |
| Blocks.Block.Fell | block.py:22-23 | falling lowers y by exactly 1 and keeps x, colour and style |
| Blocks.Block.MovedRight | block.py:30-31 | moving right raises x by exactly 1 and keeps the rest |
| Blocks.Block.MovedLeft | block.py:38-39 | moving left lowers x by exactly 1 and keeps the rest |
| Blocks.PositionsAreOccupied | block.py:26-27 | (x, y) is in the position list of a collection iff some cell of it sits at (x, y) |
| Blocks.CanFallIff | block.py:25-28 | a cell can fall iff y > 1 and (x, y - 1) is unoccupied |
| Blocks.CanMoveRightIff | block.py:33-36 | a cell can move right iff x < 10 and (x + 1, y) is unoccupied |
| Blocks.CanMoveLeftIff | block.py:41-44 | a cell can move left iff x > 1 and (x - 1, y) is unoccupied |
| Blocks.NotCollidedIff | block.py:46-56 | a cell is uncollided iff 1 <= x <= 10, y >= 1 and (x, y) is unoccupied, with no upper bound on y |
| Blocks.PermittedMovesLandFree | block.py:25-44 | after a permitted fall or move the cell is on a free position inside the bound that was tested |
| Pieces.PieceCellsMembership | piece.py:28-36 | the cells of a piece are exactly {(px + c - 1, py - r + 1) \| mask[r][c] = 1}, in the type's colour and the given style |
| Pieces.PieceCellsCount | piece.py:28-36 | every piece has exactly four cells |
| Pieces.PieceCellsDistinct | piece.py:28-36 | the four cells of a piece are on distinct positions |
| Pieces.PieceCellsTranslated | piece.py:41-57 | moving the anchor by (dx, dy) moves every derived cell by (dx, dy) |
| Pieces.Piece.constructor | piece.py:10-36 | a new piece has the given anchor (default 5, 21), orientation (default North), style (default Fill) and the derived cells |
| Pieces.Piece.Fall | piece.py:41-47 | returns whether every cell could fall; if so all cells drop one row and y decreases by 1, otherwise nothing changes; the derived-cells invariant and disjointness from the settled cells are kept |
| Pieces.Piece.MoveRight | piece.py:49-52 | all cells and the anchor shift one column right if every cell can move, otherwise nothing changes; the invariant is kept |
| Pieces.Piece.MoveLeft | piece.py:54-57 | all cells and the anchor shift one column left if every cell can move, otherwise nothing changes; the invariant is kept |
| Pieces.Piece.FallEach | piece.py:43 | every cell, taken one at a time, ends one row lower and otherwise unchanged |
| Pieces.Piece.MoveEachRight | piece.py:51 | every cell, taken one at a time, ends one column further right and otherwise unchanged |
| Pieces.Piece.MoveEachLeft | piece.py:56 | every cell, taken one at a time, ends one column further left and otherwise unchanged |
| Pieces.FallenCellsAboveFloor | piece.py:38-47 | after a permitted fall no cell is below row 1 |
| Pieces.IsBlockedIff | piece.py:59-60 | a piece is blocked iff some cell is off the board sideways, at or below row 0, or on a settled cell |
| Pieces.Piece.RotateCw | piece.py:62-76 | with the first kick offset whose candidate cells all fit, the orientation turns clockwise, the anchor moves by that offset and the cells are the new mask's cells; if none fits nothing changes |
| Pieces.Piece.TryKicks | piece.py:66-76 | the kick loop succeeds iff some offset fits, installs the first one that fits, and leaves every new cell uncollided |
| Pieces.GenerateRotatedBlocksMembership | piece.py:78-89 | the candidate cells for a turn with kick (dx, dy) are exactly {(x + dx + c - 1, y + dy - r + 1) \| mask[r][c] = 1} for the next orientation's mask, in the type's colour and the piece's style, and there are four of them |
| PieceGenerators.FullBagHasEachTypeOnce | piece_generator.py:9 | a full bag has seven entries and holds every type exactly once |
| PieceGenerators.FairAppend | piece_generator.py:15-18 | appending a full bag at a multiple of seven keeps every aligned group of seven a full bag |
| PieceGenerators.FairAfterRefill | piece_generator.py:20-23 | popping a fresh bag from its end continues a fair draw history fairly |
| PieceGenerators.FairPrefix | piece_generator.py:20-23 | every prefix of a fair draw sequence is fair |
| PieceGenerators.PieceGenerator.constructor | piece_generator.py:11-13 | a new generator holds a permutation of the seven types and has drawn nothing |
| PieceGenerators.PieceGenerator.Shuffle | piece_generator.py:15-18 | appends a permutation of the seven types and keeps the existing bag as prefix |
| PieceGenerators.PieceGenerator.Refill | piece_generator.py:21-22 | an empty bag becomes a full bag of seven and fairness is kept |
| PieceGenerators.PieceGenerator.Next | piece_generator.py:20-23 | never fails; refills an empty bag first; returns a fresh piece of the bag's last type at (5, 21), North, Fill; removes exactly that entry; every aligned group of seven draws so far is a full bag |
| PieceGenerators.PieceGenerator.Pop | piece_generator.py:23 | removes and returns the bag's last type and records the draw, keeping fairness |
| PieceGenerators.PieceGenerator.Peek | piece_generator.py:25-28 | returns the bag's last type without removing it; refills only an empty bag |
| PieceGenerators.PeekThenNext | piece_generator.py:20-28 | peeking and then drawing gives a piece of the peeked type |
| Timers.Timer.constructor | timer.py:5-8 | a new timer has no start time, no duration and is disarmed |
| Timers.Timer.Pause | timer.py:10-14 | the duration becomes the time left, duration - (now - last start), and the timer is disarmed |
| Timers.Timer.Resume | timer.py:16-18 | the start time becomes now and the timer is armed with the remaining duration |
| Timers.Timer.Start | timer.py:20-23 | the start time becomes now, the duration d, and the timer is armed with d |
| Timers.Timer.Stop | timer.py:25-28 | both fields are cleared and the timer is disarmed |
| Timers.StartPauseResume | timer.py:10-23 | start for d, pause e later and resume: the timer is re-armed for exactly d - e |
| Timers.StopIsIdempotent | timer.py:25-28 | stopping twice leaves the state stopping once leaves |
| LineClear.RowOf | main.py:139 | the row view holds exactly the settled cells whose y is that row |
| LineClear.FullRowCellsMembers | main.py:138-141 | a scan of rows [lo, hi) collects exactly the cells on rows in that range that hold exactly BoardWidth cells |
| LineClear.ScanAsWritten | main.py:138-141 | the scan as written collects exactly the cells of full rows 0 to 19 |
| LineClear.TopRowNeverCleared | main.py:138 | a full row on row 20 is missed by the scan as written and found by the scan of rows 1 to 20 |
| LineClear.WithoutMembers | main.py:145-146 | after killing the hits, the survivors are exactly the settled cells that are not hits, and there are no more of them than cells before |
| LineClear.WithoutStep | main.py:145-146 | killing the hits one at a time kills them all |
| LineClear.WithoutKeepsNoOverlap | main.py:145-146 | removing cells keeps the rest on distinct positions |
| LineClear.LoweredStep | main.py:148-151 | processing one more cleared row, below every row already processed, lowers exactly the cells above it by one |
| LineClear.LoweredMonotone | main.py:148-151 | compaction keeps the vertical order of cells off the cleared rows |
| LineClear.CompactionKeepsNoOverlap | main.py:148-151 | compacting cells that are off the cleared rows keeps their positions distinct |
| LineClear.FullRowCellsRows | main.py:144 | the rows a scan finds are exactly the full rows in its range |
| LineClear.EliminateKeepsNoOverlap | main.py:137-151 | scanning and then eliminating keeps the settled cells on distinct positions |
| LineClear.ClearingRowsThreeAndFive | main.py:148-151 | clearing rows 3 and 5 drops cells above 5 by two, on 4 and 5 by one, and leaves the rest |
| LineClear.SortedDescending | main.py:148 | the cleared rows in strictly descending order, each exactly once |
| Games.Game.constructor | main.py:33-46 | a new game starts in GENERATION with no piece, no settled cells, an empty hit list, running, no auto-repeat, speed 1000 and every timer disarmed |
| Games.Game.Loop | main.py:76-156 | one tick keeps the invariant; each phase moves to its successor (FALLING stays or moves to LOCK); running, soft-drop speed and both auto-repeat flags follow the delivered input; overlap-freedom is preserved |
| Games.Game.Advance | main.py:87-156 | the phase step: successors, auto-repeat cancellation in FALLING, overlap-freedom preserved |
| Games.Game.Settle | main.py:133-156 | LOCK, PATTERN, ELIMINATE and COMPLETION each advance to the next phase and keep overlap-freedom |
| Games.Game.ReceiveInput | main.py:59-85 | quit or escape stops the game; fired auto-repeat events raise their flags; down sets speed 50 when pressed and 1000 when released; releasing left or right disarms and clears that direction's auto-repeat |
| Games.Game.GenerationStep | main.py:88-92 | draws the next piece fairly, lets it drop one row iff all its spawn cells can fall, arms gravity at the current speed and enters FALLING |
| Games.Game.Spawn | main.py:89 | the drawn piece sits at the spawn anchor with its spawn cells and extends a fair draw history |
| Games.Game.FallingStep | main.py:93-132 | FALLING stays unless there was a hard drop or a failed gravity fall: with a gravity event and no hard drop it locks iff the piece, after the moves, could not fall, and otherwise drops exactly one row; a hard drop lands on the highest resting row below the moved piece; on LOCK the piece cannot fall and gravity is disarmed; a press of one direction cancels the other's auto-repeat |
| Games.Game.MoveInput | main.py:94-119 | left, right and rotation in that order keep the piece well formed and clear of the settled cells |
| Games.Game.SoftDropInput | main.py:121-122 | pressing or releasing down re-arms gravity at the current speed |
| Games.Game.LeftInput | main.py:94-104 | a left press or pending left auto-repeat moves the piece left iff it can; a press arms the left repeat and cancels the right one |
| Games.Game.RightInput | main.py:106-116 | a right press or pending right auto-repeat moves the piece right iff it can; a press arms the right repeat and cancels the left one |
| Games.Game.RotateInput | main.py:118-119 | without the up key the piece is unchanged; with it the piece stays well formed and clear of the settled cells |
| Games.Game.DropStep | main.py:124-132 | a hard drop locks with the piece on the highest resting row at or below where it was; a gravity event drops one row iff the piece can fall and locks otherwise; on LOCK the piece cannot fall and gravity is disarmed |
| Games.Game.HardDrop | main.py:125-126 | the piece falls until it cannot, keeping its column and orientation: it could fall from every row between its landing row and its start, and not from the landing row |
| Games.PathExtends | main.py:125-126 | one more successful fall extends the rows the piece has fallen through |
| Games.LandingRowIsUnique | main.py:125-126 | at most one row at or below the start is both reachable by falling and a resting row, so the hard-drop contract fixes the landing row |
| Games.Game.LockStep | main.py:133-136 | the settled cells become the old ones plus the piece's cells, the piece keeps none, and disjointness gives overlap-freedom |
| Games.Game.PatternStep | main.py:137-142 | the hit list holds exactly the cells of each row from 1 to 20 that holds exactly BoardWidth cells, rows ascending |
| Games.Game.EliminateStep | main.py:143-153 | the settled cells become the survivors compacted over the cleared rows; the hit list empties; overlap-freedom is kept |
| Games.ClearRows | main.py:144-151 | removing the hits and dropping the rows highest first yields `Compacted(Without(blocks, hits), rows of hits)` |
| Games.KillHits | main.py:145-146 | killing the hits one by one leaves exactly the non-hit cells, in order |
| Games.DropAbove | main.py:148-151 | dropping the cells above each row, rows highest first, lowers every cell once per processed row below it |

## Left out

- Rendering (`draw_board`, `Block.draw`, `Piece.draw`, surfaces, the clock tick, the display flip): UI only.
- Event polling and `Game.run`: an abstract `Input` record replaces the event queue, one per tick.
- The pygame timer service: each `set_timer` call becomes an integer field holding the armed interval (0 disarms). `get_ticks` becomes a `now` parameter of the timer methods. The game loop does not use `timer.py`.
- `random.shuffle`: any permutation of the seven types may be chosen; the quality of the randomness is not modelled.
- Sprite-group object identity: cell collections are sequences of values. Killing a sprite becomes removal by value, and group iteration order becomes sequence order.
- Timers.Timer.Pause: requires a started timer, because with no start time the source raises an error instead of pausing.
- Timers.Timer.Resume: requires a duration, because without one the source hands no valid interval to the timer service.
- Games.Game.RotateInput: states only the no-rotation case and the kept invariants; the rotation itself is the contract of Pieces.Piece.RotateCw.
- Games.Game.MoveInput: states the flags and the kept invariants; the moves themselves are the contracts of LeftInput, RightInput and RotateInput.
- Games.Game.Loop: overlap-freedom after GENERATION is stated only when the new piece dropped a row, because the source has no top-out check and a piece that cannot drop may spawn onto settled cells.
- Top-out, hold, ghost piece, pause, lockdown timer, scoring and levels: these have no implementation in the source. COMPLETION is a bare placeholder that returns to GENERATION.
- The `constants` module imported by `block.py` is not part of this model. Board width 10 and height 20 are taken from `main.py`.

## Findings

| source | as written | input that shows it | evidently intended | confidence | as-written member | corrected member |
|---|---|---|---|---|---|---|
| main.py:138 | PATTERN scans `range(BOARD_HEIGHT)`, rows 0 to 19. Cells live on rows 1 and up (no cell can fall below row 1), and rows 1 to 20 are the visible board (block.py:63 draws y = 20 at the top), so the scanned row 0 is always empty and row 20, the top visible row, is never cleared | ten cells on row 20, columns 1 to 10 (`LineClear.FullTopRow`) | scan rows 1 to 20 | high; not executed | LineClear.ScanAsWritten, LineClear.TopRowNeverCleared | Games.Game.PatternStep, LineClear.FullRowCellsMembers |

The game model uses the corrected scan, rows 1 to 20. `Game.Valid` requires
the ELIMINATE hit list to be that scan. Like the scan as written, the
corrected one does not look at rows above 20. Cells can settle there: a piece
spawns with its top row at 22, the East kicks lift a piece by two rows, and
there is no top-out check. Such rows are never cleared in either version.
