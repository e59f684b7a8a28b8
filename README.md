# Tetris game engine in Dafny

This project models the game-state engine of a small pygame Tetris
(`tetris.py`) and proves properties of it. The engine covers the following:

- a 14-column by 28-row field of colours, where `black` means empty;
- the seven-piece catalog;
- the collision check `valid_position`;
- the lock `join_shape`;
- the line clear `clear_lines`;
- the rotation `rotate`;
- the per-frame logic of `game()`: gravity, lock, clear, scoring, speed ramp, spawn, game over, held-key moves, rotation, pause and restart.

Modules:

- `Shapes` (shapes.dfy): shapes as rectangular `seq<seq<bool>>`, and `Rotate`.
- `Board` (board.dfy): colours, the grid as `seq<seq<Color>>` with `Empty` for `black`, and the pure parts of the field logic. These are the collision check, the field a lock produces (`Joined`) and the line clear.
- `Pieces` (pieces.dfy): the catalog as two parallel lists, `AllShapes` and `ShapeColors`. A colour is found the way the source finds it, with `list.index` (`IndexOf`).
- `Scoring` (scoring.dfy): the points per clear and the fall interval.
- `Game` (engine.dfy): the class `Engine`. Its fields are the locals of `game()` plus the global grid. Its methods change them step by step, as the loop body does. Each step also has a pure model on `State` values, a record of the engine's fields:
  - `Fell` models the gravity tick, with `Locked` for its lock branch;
  - `Moved` models one held-key test, and `Shifted` models the three held keys;
  - `Rotated` and `Restarted` model the up and enter keys;
  - `StepEvent` models one event, and `StepEvents` models a frame's events in order.

  The pure models give a new piece the colour `ShapeColors[choice]`. `CatalogColor` proves that this is the colour the `list.index` lookup finds, and the methods do that lookup. Each method is proved to leave the engine in the state its model computes. `Frame` therefore ends in `StepEvents(Shifted(Fell(old state)))`.

The class invariant `Engine.Valid()` holds after the constructor, and every step method keeps it: `LockPiece`, `DropOrLock`, `GravityTick`, `RepeatMove`, `MoveHeld`, `TryRotate`, `Restart`, `HandleEvent`, `HandleEvents` and `Frame`. The helpers `Spawn`, `JoinShape`, `JoinAndClear` and `ClearAndScore` run in the middle of a lock, where it may not hold. Instead, each of them states the parts of the state it changes. The invariant says:

- the field is 28 rows of 14 cells and has no full row;
- the falling shape is a rectangle at most 4 by 4;
- `moveDownTime` equals `FallInterval(score)`;
- the game is never paused and over at the same time;
- while the game is not over, the falling piece sits at a valid position.

Places where the code differs from what one might expect of this game. The model follows the code:

- Rotation: `result[i][j] = shape[j][C-1-i]` puts the last column on top. With rows growing downward on screen, that is a quarter turn counter-clockwise, not clockwise. The model keeps the index formula.
- `valid_position` rejects negative rows and negative columns outright. It has no "above the ceiling" allowance.
- Pause only toggles a flag. The fall timer is not frozen, so a gravity step is due right after unpausing if the pause lasted longer than the fall interval.
- Restart does not reset `last_move_down_time`, `last_move_side_time` or `paused`. (`paused` is always false at that point.)
- The three held keys share one repeat timer with a strict `>` test. At most one of them acts per frame, left before right before down.

## Model

| member | source | states |
|---|---|---|
| Shapes.Rotate | tetris.py:93-94 | rotating an R×C rectangular shape gives a rectangular C×R shape |
| Shapes.RotateTwice | tetris.py:93-94 | two rotations give the shape turned upside down and mirrored: cell (i, j) becomes cell (R-1-i, C-1-j) |
| Shapes.RotateFourTimes | tetris.py:93-94 | four rotations give back the original shape |
| Shapes.RotateKeepsTight | tetris.py:93-94 | if every row and every column of a shape holds a block, the same is true after rotation |
| Shapes.RotateBlocks | tetris.py:93-94 | the blocks of the rotated shape are exactly the original blocks, each moved from (y, x) to (C-1-x, y) |
| Shapes.RotateKeepsBlockCount | tetris.py:93-94 | rotation keeps the number of blocks |
| Board.CreateGrid | tetris.py:45-46 | the new field has 28 rows of 14 cells, all empty, and no full row |
| Board.RowIsClear | tetris.py:65-73 | the inner loop is true exactly when every block of the row from cell x on lands on a free cell |
| Board.RowsAreClear | tetris.py:64-74 | the outer loop is true exactly when every block from row y on lands on a free cell |
| Board.ValidPosition | tetris.py:62-74 | valid exactly when every block lands on a free cell. A free cell has non-negative coordinates, lies inside the field (otherwise the IndexError path applies) and is empty |
| Board.ValidPositionInBounds | tetris.py:62-74 | on a 28×14 field: valid exactly when every block lands at 0 ≤ x+ox < 14 and 0 ≤ y+oy < 28 on an empty cell |
| Board.NegativeRejected | tetris.py:68-69 | a block at a negative row or column makes the position invalid; indices never wrap |
| Board.Joined | tetris.py:77-82 | the locked field has as many rows as the old one, and every row keeps its width |
| Board.JoinedCells | tetris.py:77-82 | locking at a valid position keeps the field's size, writes the colour under each block, and leaves the piece no longer valid where it was locked |
| Board.JoinedFullRows | tetris.py:77-90 | locking a shape into a field with no full row leaves at most as many full rows as the shape is high |
| Board.Survivors | tetris.py:87 | filtering never yields more rows than the field has |
| Board.SurvivorsSpec | tetris.py:87 | the filtered rows are exactly the rows that are not full. Their k-th row is row KeptRows[k] of the field, the indices increase, an index is kept exactly when its row is not full, and the number dropped is the number of full rows |
| Board.SurvivorsNotFull | tetris.py:87 | no kept row is full |
| Board.SurvivorsOfNoFull | tetris.py:87 | a field with no full row is kept whole |
| Board.ClearLines | tetris.py:85-90 | the cleared field again has 28 rows of 14 cells, and the returned count is the number of full rows |
| Board.ClearLinesLayout | tetris.py:85-90 | the top `count` rows are empty, and row count+k is the k-th non-full row of the old field, in the original order |
| Board.ClearLinesLeavesNoFullRow | tetris.py:87-89 | no row is full after a clear |
| Board.ClearLinesIdempotent | tetris.py:85-90 | a second clear returns 0 and leaves the field as it is |
| Pieces.IndexOf | tetris.py:154 | `list.index` returns the first position holding the value |
| Pieces.ColorOf | tetris.py:154 | the colour a catalog shape gets is one of the catalog colours, never black |
| Pieces.CatalogColor | tetris.py:23-34 | looking a catalog shape up by equality finds its own entry, so the shape gets the colour at the same position, and that colour is not black |
| Pieces.CatalogShape | tetris.py:23-31 | every catalog shape is a rectangle at most 2 high and 4 wide, with a block in every row and every column |
| Scoring.FallInterval | tetris.py:181 | the fall interval always lies in [100, 500] ms |
| Scoring.FallIntervalMonotone | tetris.py:181 | a higher score never gives a longer fall interval |
| Scoring.FallIntervalSteps | tetris.py:159-181 | 500 ms at score 0, 50 ms shorter for each 100 points up to 800 points, and 100 ms from 800 points on |
| Scoring.ScoreGain | tetris.py:179 | a lock scores nothing exactly when it clears no row |
| Scoring.ScoreGainRewardsCombos | tetris.py:179 | clearing a+b rows in one lock scores 20·a·b more than clearing a rows and then b rows |
| Scoring.ScoreGainPositive | tetris.py:179 | every cleared row is worth at least 10 points |
| Scoring.ScoreGainAtMostFour | tetris.py:179 | clearing at most 4 rows scores at most 160 |
| Game.SpawnX | tetris.py:155 | a shape no wider than the field spawns inside it, centred: the columns left free on its left are as many as on its right, or one more |
| Game.SpawnFitsEmpty | tetris.py:155 | on an empty field, any shape that fits in the field is valid at the centred spawn position (SpawnX(s), 0) |
| Game.Engine.constructor | tetris.py:151-161 | the game starts with an empty field and the chosen piece at the spawn position. Score is 0, the interval is 500, the game is neither paused nor over, and the invariant holds |
| Game.Engine.Spawn | tetris.py:182-184 | the new piece is catalog entry `choice` with its paired colour, at (SpawnX, 0) |
| Game.Engine.JoinShape | tetris.py:77-82 | the nested loops write the colour into exactly the cells covered by the shape's blocks at the offset, and leave every other cell unchanged |
| Game.Engine.ClearAndScore | tetris.py:177-181 | the field becomes the cleared field and the score grows by n·10·n. When n > 0 the interval becomes FallInterval(score). No full row remains |
| Game.Engine.LockPiece | tetris.py:176-186 | the new state is `Locked` of the old one: lock, clear and score, then spawn entry `choice`. The game is over exactly when the spawn position is invalid. At most 4 rows are cleared |
| Game.Engine.JoinAndClear | tetris.py:176-181 | the field becomes the cleared field of the locked piece, with no full row. The score grows by the points for the cleared rows, which are at most 4, so by at most 160 |
| Game.Engine.GravityDue | tetris.py:164-171 | when gravity is due, more than 100 ms have passed since the last fall, because the interval is never below 100 ms |
| Game.Engine.GravityTick | tetris.py:171-187 | the new state is `Fell` of the old one. Nothing changes unless gravity is due. When due: the piece moves down one row if that is valid, and the grid is unchanged; otherwise the piece is locked. The fall timer becomes `now`. The score does not decrease and rises by at most 160 |
| Game.Engine.DropOrLock | tetris.py:172-186 | a due gravity step moves the piece one row down, changing nothing else, if it is valid there. Otherwise the new state is `Locked` of the old one: the field is the cleared field of the locked piece, the score grows by its points (at most 160), and the next piece spawns, with game over exactly when it does not fit |
| Game.Engine.RepeatMove | tetris.py:209-225 | the new state is `Moved` of the old one: once the repeat interval has passed, the piece shifts by (dx, dy) only if valid there, and the repeat timer restarts either way |
| Game.Engine.SideMoveDue | tetris.py:208-221 | a held move is only attempted from a valid position, because the game is running |
| Game.Engine.MoveHeld | tetris.py:208-225 | the new state is `Shifted` of the old one. When a held move is due, the result is one `Moved` step for the first held key among left, right and down. Nothing changes while paused or over |
| Game.Engine.TryRotate | tetris.py:233-236 | the new state is `Rotated` of the old one: the rotated shape is taken only if it is valid at the unchanged position |
| Game.Engine.Restart | tetris.py:241-248 | the new state is `Restarted` of the old one: a fresh field, score 0, interval 500 and a new piece at spawn. The game is no longer over, and the timers are untouched |
| Game.Locked | tetris.py:176-186 | after a lock the field has its size and no full row, and the new piece is a rectangle at the top. The score does not drop. The game is over exactly when the new piece is not at a valid position. The pause flag and the timers are kept |
| Game.Fell | tetris.py:164-187 | the gravity step never lowers the score, and keeps the pause flag and the side timer. Either nothing changes or the fall timer becomes `now`. A changed field has no full row, and the new piece starts at the top |
| Game.Moved | tetris.py:209-225 | one held-key test keeps the field, the shape and the score. Either nothing changes or the side timer becomes `now`. A piece that moved is at a valid position |
| Game.Shifted | tetris.py:208-225 | the held keys keep the field, the shape, the score, the flags and the fall timer. The piece moves at most one cell: left, right or down, never up. A valid position stays valid |
| Game.ShiftedKeys | tetris.py:208-225 | the shared timer at work: when no move is due nothing changes. Otherwise only the first held key of left, right, down acts. It moves the piece one cell if that is valid, and the side timer becomes `now` |
| Game.Rotated | tetris.py:233-236 | only the shape changes, and only to its rotation. A changed shape is at a valid position, and a valid position stays valid |
| Game.Restarted | tetris.py:241-248 | a fresh field, score 0, interval 500, not over, and catalog entry `choice` with its colour at a valid spawn position. The pause flag and the timers are kept |
| Game.StepEvent | tetris.py:228-251 | one event ends the loop exactly when it is the close event, or escape after game over. It never changes the timers. It changes the score only when it is enter after game over, and then the score is 0; the same holds for the field, which becomes a fresh one |
| Game.StepEvents | tetris.py:228-251 | the events of a frame are handled in order, and handling stops at the first one that ends the loop. The timers do not change |
| Game.StepEventsRestartOnly | tetris.py:228-251 | over a frame's events, the score and the field change only if enter is among them, and then the score is 0 and the field is fresh |
| Game.StepEventsQuit | tetris.py:228-251 | a close event among a frame's events always ends the loop, and the loop ends only on a close event or an escape |
| Game.Engine.HandleEvent | tetris.py:228-251 | the new state and `quit` are those of `StepEvent`. In words: up rotates only while running, space toggles pause unless the game is over, and enter restarts only after game over, keeping `paused`. Quit, and escape after game over, end the game. The colour is unchanged except by a restart. Everything else changes nothing |
| Game.Engine.HandleEvents | tetris.py:228-251 | the new state and `quit` are those of `StepEvents`. The score and the field change only if enter was pressed, and then the score is 0 and the field fresh. The loop ends on a close event, or on an escape while the game is over. No events change nothing |
| Game.Engine.Frame | tetris.py:163-251 | the new state and `quit` are `StepEvents` applied to `Shifted` of `Fell` of the old state: gravity first, then the held keys, then the events. The fall timer becomes `gravityNow` exactly when gravity was due. A paused frame with no events changes nothing. One loop pass keeps the invariant, and in particular a running game's piece stays at a valid position. The score never decreases except when enter restarted the game, which sets it to 0 and the interval to 500. A close event always ends the loop, and an escape ends it only while the game is over |

## Left out

- Drawing: the blocks, the grid, the falling piece, the score text, and the title, pause and game-over screens (tetris.py:50-59, 96-146, 189-202). These are display calls with no effect on the state.
- Key polling and clock reads. `pygame.key.get_pressed` becomes the `left`/`right`/`down` flags. `pygame.time.get_ticks` becomes the `gravityNow`/`keysNow` parameters. Frame pacing (`clock.tick(30)`) is left out.
- The clock reads at tetris.py:171 and tetris.py:187 are one `now` in `GravityTick`. The timer is reset to the same instant that made gravity due, not to a slightly later one.
- `random.choice` (tetris.py:153, 182, 244) becomes a catalog index supplied by the caller. Randomness itself is not modelled.
- The title-screen wait loop, `pygame.init`, `set_mode` and `pygame.quit` with process exit (tetris.py:4-5, 36-38, 253-266). The window-close and escape events only set `quit`, and the remaining events of that frame are not handled.
- Colours are an enumeration, not RGB triples. Only whether a cell equals `black` matters to the engine. Shape cells `0`/`1` are booleans, as the code only tests their truth.
- The grid is a value (`seq<seq<Color>>`), so Python list identity and aliasing between rows are not modelled. `create_grid` builds distinct row lists and nothing shares them.
