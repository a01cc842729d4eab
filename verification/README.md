# Falling-block engine: game-logic core in Dafny

This project models the game logic of `js/game.js`, a browser falling-block
game. The model covers:

- the fixed 10 x 20 grid and the active piece;
- the shape table with its four rotation states per kind;
- the collision test, the merge of a locked piece and the bottom-up line clear;
- the commands: spawn, move, rotate with horizontal kicks, soft drop, hard drop, one gravity step, bomb and restart;
- scoring, levels and the gravity speed curve;
- the energy meter that buys bombs, capped at three;
- the 7-bag randomiser and its Fisher-Yates refill.

The game state is an immutable record (`Engine.State`). Every command is a pure
function from one state to the next.

Each loop of the source is a recursive function that follows the loop as
written (`CollidesScan`, `MergeScan`, `ClearScan`, `FullestFrom`,
`ConvertEnergy`, `DropToFloor`, `FirstFit`). Three of them also have a short
reference definition (an existential, a sequence comprehension,
filter-and-prepend).

Where a reference definition exists (`CollidesScan`, `MergeScan`, `ClearScan`)
the loop is proved equal to it and the rest of the model reasons about the
reference. The other recursions (`FullestFrom`, `ConvertEnergy`, `DropToFloor`,
`FirstFit`) have no second definition: each is fully characterised by its own
`ensures`, and callers use them directly. The bag shuffle is a single
`while` loop whose invariant states the permutation.

Modules:

- `Shapes` (`shapes.dfy`): piece kinds, the rotation table, the piece record.
- `Board` (`board.dfy`): grid, collision, merge, line clear, the bomb's row choice.
- `Bag` (`bag.dfy`): the shuffle and the draws.
- `Scoring` (`scoring.dfy`): line scores, levels, energy conversion, speed curve.
- `Engine` (`engine.dfy`): the state record, the commands, and the invariants every command keeps.

Randomness is handled in two ways:

- `Bag.Refill` shuffles with a freely chosen index `j` in `0..i`, where the source draws a random one. It is proved to return a permutation of the seven kinds.
- Engine functions that may spawn a piece take that shuffled bag as a parameter `refill`. Whenever the current bag is empty, the model requires `refill` to be a permutation of the seven kinds.

The main whole-game facts are:

- every command keeps the invariant (`Engine.StepPreservesInv`): a well-formed grid, no full row, a partial bag, a level and speed consistent with the lines cleared, energy below 100, at most three bombs;
- apart from restart, commands never lower score, lines or level and never slow gravity (`Engine.StepMonotone`);
- every command except the bomb keeps the running piece clear of walls, floor and blocks (`Engine.StepKeepsFit`);
- once the game is over only restart changes anything (`Engine.GameOverIsFinal`).

`useBomb` shifts the rows above the removed one down without re-checking the
active piece. A bomb can therefore push blocks into the piece, so the fit
property is not claimed for it.

## Model

| member | source | states |
|---|---|---|
| Shapes.Rotations | js/game.js:46-229 | each kind has exactly four rotation states (the 4x4 matrices of the table are the body) |
| Shapes.MatrixFor | js/game.js:289-291 | the matrix of a piece is one of its kind's four rotation states and is 4x4, whatever the stored rotation counter |
| Shapes.HasCell | js/game.js:46-229 | no matrix of the table is empty: every piece in every rotation occupies some cell of its box |
| Board.CreateMatrix | js/game.js:231-233 | a new grid has 20 rows of 10 cells, every cell empty, and so no full row |
| Board.CollidesRow | js/game.js:296-302 | the inner collision loop returns true exactly when some occupied cell in columns dx..3 of the box row is off a side, at or below the floor, or on a filled cell |
| Board.CollidesFrom | js/game.js:295-303 | the outer collision loop returns true exactly when such a cell exists in box rows dy..3 |
| Board.CollidesScan | js/game.js:293-305 | the collision scan answers exactly Collides: some occupied cell is outside columns 0..9, at or below row 20, or on a filled in-grid cell |
| Board.AboveTopIsFree | js/game.js:300-301 | a single piece cell on an in-range column and a negative row is never stopped, whatever the grid holds |
| Board.FloorCollides | js/game.js:300 | a piece whose box starts at or below the floor always collides |
| Board.Write | js/game.js:315 | writing one cell changes that cell only and keeps the grid shape |
| Board.MergeRow | js/game.js:310-317 | the inner merge loop writes the kind into exactly the covered in-grid cells of the box row from column dx on; every other cell is unchanged |
| Board.MergeFrom | js/game.js:309-318 | the outer merge loop writes the kind into exactly the covered in-grid cells of box rows dy..3 |
| Board.Merge | js/game.js:307-319 | reference definition of the merge (the covered cells get the kind, others keep their value); the grid keeps its shape |
| Board.MergeScan | js/game.js:307-319 | the merge as written changes exactly the cells the piece covers inside the grid, to the piece's kind, and equals Merge |
| Board.MergedPieceCollides | js/game.js:307-319 | once merged, a piece with a cell inside the grid collides with the result at its own position |
| Board.SurvivorsShape | js/game.js:389-400 | the rows kept plus the rows counted as full make up all rows; no kept row is full |
| Board.ClearScan | js/game.js:389-400 | the splice / unshift / recheck scan from row y up returns the number of full rows among rows 0..y and leaves that many empty rows on top, then the non-full rows in order, then the untouched rows below y |
| Board.ClearLines | js/game.js:389-400 | the count is the number of full rows; the grid stays 20 x 10 and has no full row |
| Board.ClearLinesScan | js/game.js:389-400 | the scan from the bottom row equals the reference: one empty row per full row on top of the non-full rows in their original order |
| Board.ClearLinesIdempotent | js/game.js:389-400 | a grid without full rows is left as it is with count 0, so clearing a cleared grid changes nothing |
| Board.FullestFrom | js/game.js:644-649 | the row scan with the strict `>` test returns a row whose count no row exceeds and which every earlier row falls short of |
| Board.FullestRow | js/game.js:643-649 | the chosen row has the most filled cells and is the topmost row with that count |
| Board.FullestRowUnique | js/game.js:643-649 | a row satisfies the tie-breaking rule if and only if it is the scan's answer |
| Board.RemoveRow | js/game.js:650-651 | after the splice and unshift the grid is still 20 x 10, row 0 is empty, rows above the removed one moved down by one, rows below are unchanged |
| Board.RemoveRowFilled | js/game.js:650-651 | removing a row takes away exactly that row's filled cells from the grid total |
| Bag.Refill | js/game.js:240-246 | the Fisher-Yates refill, with any choice of swap index, returns a permutation of the seven kinds |
| Bag.Draw | js/game.js:240-248 | a draw pops the last element of the bag, or of a fresh shuffled bag when it is empty; the value and the rest together are the bag drawn from |
| Bag.DrawKeepsPartial | js/game.js:248 | after a draw every kind remains at most once in the bag |
| Bag.Draws | js/game.js:236-250 | n successive draws yield n values |
| Bag.DrainBag | js/game.js:248 | draining a bag yields its elements from last to first and leaves it empty without a refill |
| Bag.FreshBagDrawsEachKindOnce | js/game.js:236-250 | the seven draws that start from an empty bag contain each kind exactly once and leave the bag empty |
| Scoring.ScoreForLines | js/game.js:402-410 | a clear scores points exactly when it removes one to four lines; every award is a multiple of 100 and at most 800 |
| Scoring.ScoreForLinesShape | js/game.js:402-410 | only one to four lines score; more lines at once score strictly more; clearing 2-4 lines together beats clearing them one at a time |
| Scoring.LevelFor | js/game.js:372 | the level is at least 1 and goes up by one every LEVEL_LINES cleared lines: the line count lies in the level's band of ten |
| Scoring.ConvertEnergy | js/game.js:381-384 | the conversion loop leaves energy mod 100 and adds one bomb per hundred, capped at 3; energy converted past the cap is lost |
| Scoring.ConvertEnergyBounds | js/game.js:381-384 | after conversion energy is below 100, bombs never decrease and stay at most 3 |
| Scoring.DropIntervalFor | js/game.js:268-271 | the gravity interval lies between 70 and 1000 ms and is 1000 ms at level 1 |
| Scoring.DropIntervalMonotone | js/game.js:268-271 | a higher level never has a longer gravity interval |
| Engine.SpawnPiece | js/game.js:273-287 | the next kind appears at x 3, y -1, rotation 0; the next kind is drawn from the bag; the game stops exactly when the new piece collides; nothing else changes |
| Engine.SpawnEndsGameOnlyOnFilledCell | js/game.js:273-287 | at the spawn position walls and floor are out of reach: the game ends exactly when a cell of the new piece lands on a filled cell |
| Engine.TryMove | js/game.js:321-331 | the move is made, and reported as made, exactly when the game runs and the shifted piece does not collide; otherwise the state is unchanged; the grid never changes and a fitting piece keeps fitting |
| Engine.TryMoveUndo | js/game.js:321-331 | a move that was made is undone by the opposite move |
| Engine.FirstFit | js/game.js:338-345 | returns the first kick index whose offset fits, all earlier ones colliding, or none exactly when all five collide |
| Engine.Turned | js/game.js:336 | turning changes only the rotation, keeps it in 0..3, and the opposite turn brings it back to the original rotation mod 4 |
| Engine.Rotate | js/game.js:333-347 | the piece turns by one step (three for counter-clockwise), the first of the offsets 0, 1, -1, 2, -2 that fits is committed with the row unchanged, and when none fits or the game is over nothing changes |
| Engine.RotateUndo | js/game.js:333-347 | a rotation that fits without a kick is undone by the opposite rotation |
| Engine.DropToFloor | js/game.js:352 | the drop loop keeps the column, never rises, passes only free rows and stops with the row below blocked |
| Engine.HardDrop | js/game.js:349-354 | a hard drop does nothing when the game is over and keeps the grid shape |
| Engine.SoftDrop | js/game.js:356-361 | a soft drop does nothing when the game is over and moves the piece one row down when that row is free; when the row below is blocked it is exactly a lock |
| Engine.HardDropIsRepeatedSoftDrop | js/game.js:349-361 | with the row below blocked, hard drop, soft drop and lock coincide; otherwise a hard drop equals a hard drop after one soft drop |
| Engine.ApplyClear | js/game.js:366-377 | a clear adds the table's points times the current level, adds the lines and 20 energy per line, and keeps level and interval consistent with the new line total, never lowering the level or slowing gravity |
| Engine.ClearSpeedsUp | js/game.js:372-376 | more lines never lower the level and never lengthen the gravity interval |
| Engine.FeedEnergy | js/game.js:378-384 | the lock adds 5 energy and converts whole hundreds into bombs: energy ends below 100, bombs stay capped and never decrease, no energy is created |
| Engine.LockPiece | js/game.js:363-387 | locking leaves a 20 x 10 grid without full rows: empty rows for the cleared ones over the surviving rows of the merged grid; score grows by the table's points times the level; lines grow by the count; the next piece is spawned and the game goes on exactly when it fits |
| Engine.LockPieceEnergy | js/game.js:370-384 | a lock adds 20 energy per line plus 5, keeps the remainder mod 100 and converts the hundreds into bombs capped at 3 |
| Engine.UseBomb | js/game.js:641-654 | with the game running and a bomb in stock, the fullest row (topmost of equals) is removed, an empty row goes on top and one bomb is used; otherwise nothing changes |
| Engine.UseBombRemovesMostCells | js/game.js:643-651 | the cells a bomb removes are as many as the fullest row holds, and no row holds more |
| Engine.Tick | js/game.js:596-602 | a gravity step does nothing when the game is over and, before the interval is reached, only advances the counter |
| Engine.GravityIsSoftDrop | js/game.js:596-602 | a gravity step that reaches the interval is a soft drop with the counter reset to 0 |
| Engine.Restart | js/game.js:678-693 | restart gives an empty grid, zero score, lines, energy, bombs and counter, level 1 at 1000 ms, a running game and a fresh spawn that fits |
| Engine.AboveTopFreeOnEmptyGrid | js/game.js:279-280 | on an empty grid the spawn position never collides |
| Engine.Init | js/game.js:252-266 | the starting state of lines 252-266, with the interval set and the first piece spawned as at the start-up calls of lines 698-700, satisfies the invariant and runs with a fitting piece: an empty grid, zero score, lines, energy, bombs and drop counter, level 1, the fresh bag's last kind spawned at (3, -1) in rotation 0, the one before it as next kind, and the first five left in the bag |
| Engine.Step | js/game.js:671-676 | every command keeps the grid 20 x 10 |
| Engine.LockKeepsBoard | js/game.js:363-387 | after a lock the grid has no full row, the bag is partial and a running piece fits |
| Engine.LockKeepsCounters | js/game.js:363-387 | after a lock level and interval match the line total, energy is below 100, bombs at most 3, and score, lines and level did not drop |
| Engine.LockPreservesInv | js/game.js:363-387 | locking keeps the whole invariant and the fit, and never loses progress |
| Engine.BombPreservesInv | js/game.js:641-654 | a bomb keeps the invariant; in particular no full row appears |
| Engine.SoftDropPreservesInv | js/game.js:356-361 | a soft drop keeps the invariant, leaves a running piece fitting and loses no progress |
| Engine.HardDropPreservesInv | js/game.js:349-354 | a hard drop keeps the invariant, leaves a running piece fitting and loses no progress |
| Engine.TickPreservesInv | js/game.js:596-602 | a gravity step keeps the invariant, keeps a fitting piece fitting and loses no progress |
| Engine.RestartPreservesInv | js/game.js:678-693 | restart establishes the invariant and a fitting piece |
| Engine.StepPreservesInv | js/game.js:671-676 | every command keeps the invariant |
| Engine.StepKeepsFit | js/game.js:671-676 | every command except the bomb keeps a running piece clear of walls, floor and blocks |
| Engine.StepMonotone | js/game.js:608-638 | over every command of the key dispatch (and the buttons of lines 671-676, gravity at 596-602, the lock at 363-387 and the bomb at 641-654), apart from restart no command lowers score, lines or level or slows gravity |
| Engine.GameOverIsFinal | js/game.js:608-638 | over every command of the key dispatch and the buttons of lines 671-676, when the game is over every command but restart leaves the state unchanged, by the running guards at lines 322, 334, 350, 357, 596 and 642 |

## Left out

- Canvas drawing, resizing, the ghost piece, colour helpers and CSS colours: these are presentation only.
- The DOM and HUD updates, the button bindings with their auto-repeat timers, and the keyboard mapping in `onKey`. Commands are modelled as the `Engine.Command` values they dispatch to; `updateHUD` is a no-op.
- The `requestAnimationFrame` loop: one frame is `Engine.Tick` with the elapsed time as an integer parameter. The real timestamps are floating-point milliseconds and are not modelled.
- `Math.random`: the shuffle takes any index in range, and the shuffled bag a refill produces is a parameter of the engine functions.
- `updateSpeed`'s `Math.pow(0.85, level - 1)` is floating point. It is modelled as the exact rational 1000 * 17^n / 20^n rounded down and then raised to at least 70; a floating-point result that rounds differently at an exact integer boundary is not modelled.
- The moment before the first spawn, when `current` is null, is not modelled: `Engine.Init` is the state after the first spawn.
- `lockPiece`'s `scoredByDrop` argument and `hardDrop`'s `dropped` counter are never used by the source and are left out.
- `merge` takes a cell value parameter; its only caller passes the piece's kind, so the model writes the kind.
- Grid cells are `0` or a kind name in the source; here they are `Empty` or `Block(kind)`.
- Scoring.ScoreForLines: its contract states the shape of the award table (which counts score, multiples of 100, at most 800); the values 100, 300, 500 and 800 themselves are its body.
- Shapes.Rotations: its contract states only that there are four rotation states; the matrices themselves are the data in its body.
- Board.Merge: its contract states only the grid shape, because it is the reference definition; Board.MergeScan states the cell-by-cell effect.
- Bag.Draws: its contract states only the number of values; what they are is stated by Bag.DrainBag and Bag.FreshBagDrawsEachKindOnce.
- Engine.HardDrop: its contract states only the no-op case and the grid shape; the relation to soft drops and locking is Engine.HardDropIsRepeatedSoftDrop, and the landing row is Engine.DropToFloor.
- Engine.Tick: its contract states only the cases that do not fire; the firing case is Engine.GravityIsSoftDrop.
- Engine.StepKeepsFit: excludes the bomb, because `useBomb` shifts rows into the active piece without checking it.
- Every refill during a run of `Bag.Draws` uses the same shuffled bag; distinct shuffles per refill are not modelled.
