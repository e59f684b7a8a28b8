/**
  The state machine of `game()` (tetris.py:149-251): the locals of the game
  loop and the global grid become the fields of an `Engine`; one pass of the
  loop is `Frame`, built from the gravity tick, the held-key moves and the
  key-down events. Clock reads and `random.choice` become parameters.
 */
module Game {
  import opened Shapes
  import opened Board
  import opened Pieces
  import opened Scoring

  /** The centred spawn column `grid_width // 2 - len(shape[0]) // 2` (tetris.py:155, 184, 246). */
  function SpawnX(s: Shape): (x: int)
    requires |s| > 0
    ensures Width(s) <= GridWidth ==> 0 <= x && x + Width(s) <= GridWidth
    ensures var right := GridWidth - (x + Width(s)); right <= x <= right + 1
  {
    GridWidth / 2 - Width(s) / 2
  }

  /** On an empty field every shape that fits inside it can spawn. */
  lemma SpawnFitsEmpty(s: Shape)
    requires Rectangular(s) && |s| <= GridHeight && Width(s) <= GridWidth
    ensures ValidPosition(CreateGrid(), s, SpawnX(s), 0)
  {
  }

  /** Keys the engine reacts to on key-down (tetris.py:233-251); other keys do nothing. */
  datatype Key = Up | Space | Return | Escape | OtherKey

  /** The events of `pygame.event.get()` that matter here (tetris.py:228-232). */
  datatype Event = Quit | KeyDown(key: Key) | OtherEvent

  /** The fields of an `Engine` as one value, for the pure model of event handling below. */
  datatype State = State(grid: Grid, shape: Shape, color: Color, posX: int, posY: int,
                         paused: bool, gameOver: bool, score: nat, moveDownTime: int,
                         lastMoveDownTime: int, lastMoveSideTime: int)

  /** The state after handling one or more events, and whether the game loop ends. */
  datatype Outcome = Outcome(state: State, quit: bool)

  /**
    The lock branch of the gravity tick (tetris.py:176-186): the piece is
    written into the field, full rows are cleared and scored, the interval
    follows the new score when rows went, catalog entry `choice` spawns,
    and the game is over exactly when it cannot be placed.
   */
  function Locked(st: State, choice: nat): (r: State)
    requires WellFormed(st.grid) && choice < |AllShapes|
    ensures WellFormed(r.grid) && NoFullRow(r.grid) && Rectangular(r.shape)
    ensures r.score >= st.score && r.posY == 0
    ensures r.gameOver <==> !ValidPosition(r.grid, r.shape, r.posX, r.posY)
    ensures r.paused == st.paused && r.lastMoveDownTime == st.lastMoveDownTime
      && r.lastMoveSideTime == st.lastMoveSideTime
  {
    CatalogShape(choice);
    var g := Joined(st.grid, st.shape, st.posX, st.posY, st.color);
    ClearLinesLeavesNoFullRow(g);
    var cleared := ClearLines(g);
    var score := st.score + ScoreGain(cleared.count);
    var s := AllShapes[choice];
    st.(grid := cleared.grid, score := score,
        moveDownTime := if cleared.count > 0 then FallInterval(score) else st.moveDownTime,
        shape := s, color := ShapeColors[choice], posX := SpawnX(s), posY := 0,
        gameOver := !ValidPosition(cleared.grid, s, SpawnX(s), 0))
  }

  /** A state with the fields `Locked` computes is the state it returns. */
  lemma LockedIs(st: State, choice: nat, r: State)
    requires WellFormed(st.grid) && choice < |AllShapes|
    requires var cleared := ClearLines(Joined(st.grid, st.shape, st.posX, st.posY, st.color));
      r.grid == cleared.grid && r.score == st.score + ScoreGain(cleared.count)
      && r.moveDownTime == (if cleared.count > 0 then FallInterval(r.score) else st.moveDownTime)
    requires r.shape == AllShapes[choice] && r.color == ShapeColors[choice]
    requires r.posX == SpawnX(r.shape) && r.posY == 0
    requires r.gameOver == !ValidPosition(r.grid, r.shape, r.posX, r.posY)
    requires r.paused == st.paused && r.lastMoveDownTime == st.lastMoveDownTime
      && r.lastMoveSideTime == st.lastMoveSideTime
    ensures r == Locked(st, choice)
  {
  }

  /**
    The gravity tick (tetris.py:164-187): when the game runs and more than
    `moveDownTime` ms have passed, the piece falls one row if it can and is
    locked otherwise, and the fall timer restarts at `now`. The score never
    drops, and a due tick always restarts the timer.
   */
  function Fell(st: State, now: int, choice: nat): (r: State)
    requires WellFormed(st.grid) && Rectangular(st.shape) && choice < |AllShapes|
    ensures WellFormed(r.grid) && Rectangular(r.shape)
    ensures r.score >= st.score && r.paused == st.paused && r.lastMoveSideTime == st.lastMoveSideTime
    ensures r == st || r.lastMoveDownTime == now
    ensures r.grid != st.grid ==> NoFullRow(r.grid) && r.posY == 0
  {
    if st.gameOver || st.paused || now - st.lastMoveDownTime <= st.moveDownTime then st
    else if ValidPosition(st.grid, st.shape, st.posX, st.posY + 1) then
      st.(posY := st.posY + 1, lastMoveDownTime := now)
    else Locked(st, choice).(lastMoveDownTime := now)
  }

  /** The three branches of `Fell`, one by one. */
  lemma FellCases(st: State, now: int, choice: nat)
    requires WellFormed(st.grid) && Rectangular(st.shape) && choice < |AllShapes|
    ensures st.gameOver || st.paused || now - st.lastMoveDownTime <= st.moveDownTime ==> Fell(st, now, choice) == st
    ensures (!st.gameOver && !st.paused && now - st.lastMoveDownTime > st.moveDownTime
             && ValidPosition(st.grid, st.shape, st.posX, st.posY + 1)) ==>
      Fell(st, now, choice) == st.(posY := st.posY + 1, lastMoveDownTime := now)
    ensures (!st.gameOver && !st.paused && now - st.lastMoveDownTime > st.moveDownTime
             && !ValidPosition(st.grid, st.shape, st.posX, st.posY + 1)) ==>
      Fell(st, now, choice) == Locked(st, choice).(lastMoveDownTime := now)
  {
  }

  /**
    One held-key test (tetris.py:209-213, 215-219, 221-225): once the
    repeat interval has passed, the piece moves by (dx, dy) if it is valid
    there, and the repeat timer restarts either way.
   */
  function Moved(st: State, now: int, dx: int, dy: int): (r: State)
    ensures r.grid == st.grid && r.shape == st.shape && r.score == st.score
    ensures r == st || r.lastMoveSideTime == now
    ensures r.posX != st.posX || r.posY != st.posY ==> ValidPosition(r.grid, r.shape, r.posX, r.posY)
  {
    if now - st.lastMoveSideTime > MoveSideTime then
      var p := if ValidPosition(st.grid, st.shape, st.posX + dx, st.posY + dy)
        then st.(posX := st.posX + dx, posY := st.posY + dy) else st;
      p.(lastMoveSideTime := now)
    else st
  }

  /** A state that differs from `st` as `Moved` says is the state it returns. */
  lemma MovedIs(st: State, now: int, dx: int, dy: int, r: State)
    requires r.grid == st.grid && r.shape == st.shape && r.color == st.color
      && r.paused == st.paused && r.gameOver == st.gameOver && r.score == st.score
      && r.moveDownTime == st.moveDownTime && r.lastMoveDownTime == st.lastMoveDownTime
    requires now - st.lastMoveSideTime <= MoveSideTime ==>
      r.posX == st.posX && r.posY == st.posY && r.lastMoveSideTime == st.lastMoveSideTime
    requires now - st.lastMoveSideTime > MoveSideTime ==>
      r.lastMoveSideTime == now
      && if ValidPosition(st.grid, st.shape, st.posX + dx, st.posY + dy)
         then r.posX == st.posX + dx && r.posY == st.posY + dy
         else r.posX == st.posX && r.posY == st.posY
    ensures r == Moved(st, now, dx, dy)
  {
  }

  /**
    The held keys (tetris.py:208-225), tested left, right, down in turn
    while the game runs. Because the three share one timer, the piece moves
    by at most one cell, never up, and only onto a valid position.
   */
  function Shifted(st: State, now: int, left: bool, right: bool, down: bool): (r: State)
    ensures r.grid == st.grid && r.shape == st.shape && r.score == st.score
    ensures r.paused == st.paused && r.gameOver == st.gameOver && r.lastMoveDownTime == st.lastMoveDownTime
    ensures (r.posX == st.posX && st.posY <= r.posY <= st.posY + 1)
      || (r.posY == st.posY && st.posX - 1 <= r.posX <= st.posX + 1)
    ensures ValidPosition(st.grid, st.shape, st.posX, st.posY) ==> ValidPosition(r.grid, r.shape, r.posX, r.posY)
  {
    if st.paused || st.gameOver then st
    else
      var a := if left then Moved(st, now, -1, 0) else st;
      var b := if right then Moved(a, now, 1, 0) else a;
      if down then Moved(b, now, 0, 1) else b
  }

  /**
    The shared timer at work: once one held key has moved the piece (or
    tried to), the others find the timer just reset and do nothing. So the
    first held key of left, right, down moves the piece one cell if that is
    valid, the timer restarts, and nothing else changes.
   */
  lemma ShiftedKeys(st: State, now: int, left: bool, right: bool, down: bool)
    ensures var r := Shifted(st, now, left, right, down);
      var due := !st.paused && !st.gameOver && (left || right || down) && now - st.lastMoveSideTime > MoveSideTime;
      (!due ==> r == st)
      && (due ==> r == st.(posX := r.posX, posY := r.posY, lastMoveSideTime := now))
      && (due && left ==>
        if ValidPosition(st.grid, st.shape, st.posX - 1, st.posY)
        then r.posX == st.posX - 1 && r.posY == st.posY
        else r.posX == st.posX && r.posY == st.posY)
      && (due && !left && right ==>
        if ValidPosition(st.grid, st.shape, st.posX + 1, st.posY)
        then r.posX == st.posX + 1 && r.posY == st.posY
        else r.posX == st.posX && r.posY == st.posY)
      && (due && !left && !right ==>
        if ValidPosition(st.grid, st.shape, st.posX, st.posY + 1)
        then r.posX == st.posX && r.posY == st.posY + 1
        else r.posX == st.posX && r.posY == st.posY)
  {
  }

  /** The up key's effect (tetris.py:233-236): the rotated shape if it is valid where the piece is. */
  function Rotated(st: State): (r: State)
    requires Rectangular(st.shape)
    ensures r == st.(shape := r.shape)
    ensures r.shape == st.shape || r.shape == Rotate(st.shape)
    ensures r.shape != st.shape ==> ValidPosition(r.grid, r.shape, r.posX, r.posY)
    ensures ValidPosition(st.grid, st.shape, st.posX, st.posY) ==> ValidPosition(r.grid, r.shape, r.posX, r.posY)
  {
    var r := Rotate(st.shape);
    if ValidPosition(st.grid, r, st.posX, st.posY) then st.(shape := r) else st
  }

  /** The enter key's effect after game over (tetris.py:241-248), with catalog entry `choice`. */
  function Restarted(st: State, choice: nat): (r: State)
    requires choice < |AllShapes|
    ensures r.grid == CreateGrid() && r.score == 0 && !r.gameOver && r.moveDownTime == FallInterval(0)
    ensures r.shape == AllShapes[choice] && r.color == ShapeColors[choice] && r.posY == 0
    ensures ValidPosition(r.grid, r.shape, r.posX, r.posY)
    ensures r.paused == st.paused && r.lastMoveDownTime == st.lastMoveDownTime
      && r.lastMoveSideTime == st.lastMoveSideTime
  {
    var s := AllShapes[choice];
    CatalogShape(choice);
    SpawnFitsEmpty(s);
    st.(grid := CreateGrid(), gameOver := false, shape := s, color := ShapeColors[choice],
        posX := SpawnX(s), posY := 0, score := 0, moveDownTime := InitialFallInterval)
  }

  /** A state with the fields `Restarted` computes is the state it returns. */
  lemma RestartedIs(st: State, choice: nat, r: State)
    requires choice < |AllShapes|
    requires r.grid == CreateGrid() && !r.gameOver && r.score == 0 && r.moveDownTime == InitialFallInterval
    requires r.shape == AllShapes[choice] && r.color == ShapeColors[choice]
    requires r.posX == SpawnX(r.shape) && r.posY == 0
    requires r.paused == st.paused && r.lastMoveDownTime == st.lastMoveDownTime
      && r.lastMoveSideTime == st.lastMoveSideTime
    ensures r == Restarted(st, choice)
  {
  }

  /**
    One event (tetris.py:228-251). Only the window's close event and escape
    after game over end the loop; the timers never change; the score
    changes only by a restart after game over, which sets it to 0.
   */
  function StepEvent(st: State, e: Event, choice: nat): (o: Outcome)
    requires Rectangular(st.shape) && choice < |AllShapes|
    ensures Rectangular(o.state.shape)
    ensures o.quit <==> e == Quit || (e == KeyDown(Escape) && st.gameOver)
    ensures o.state.lastMoveDownTime == st.lastMoveDownTime && o.state.lastMoveSideTime == st.lastMoveSideTime
    ensures o.state.score != st.score ==> e == KeyDown(Return) && st.gameOver && o.state.score == 0
    ensures o.state.grid != st.grid ==> e == KeyDown(Return) && st.gameOver && o.state.grid == CreateGrid()
  {
    CatalogShape(choice);
    match e
    case Quit => Outcome(st, true)
    case KeyDown(k) =>
      if k == Up && !st.paused && !st.gameOver then Outcome(Rotated(st), false)
      else if k == Space && !st.gameOver then Outcome(st.(paused := !st.paused), false)
      else if k == Return && st.gameOver then Outcome(Restarted(st, choice), false)
      else Outcome(st, k == Escape && st.gameOver)
    case OtherEvent => Outcome(st, false)
  }

  /** The events of one frame, handled in order until one of them ends the loop. */
  function StepEvents(st: State, events: seq<Event>, choice: nat): (o: Outcome)
    requires Rectangular(st.shape) && choice < |AllShapes|
    ensures Rectangular(o.state.shape)
    ensures o.state.lastMoveDownTime == st.lastMoveDownTime && o.state.lastMoveSideTime == st.lastMoveSideTime
    decreases |events|
  {
    if events == [] then Outcome(st, false)
    else
      var first := StepEvent(st, events[0], choice);
      if first.quit then first else StepEvents(first.state, events[1..], choice)
  }

  /**
    Over a frame's events the score and the field change only through a
    restart: if either differs at the end, enter was pressed, and the score
    is 0 or the field is fresh.
   */
  lemma {:induction false} StepEventsRestartOnly(st: State, events: seq<Event>, choice: nat)
    requires Rectangular(st.shape) && choice < |AllShapes|
    ensures var o := StepEvents(st, events, choice);
      (o.state.score == st.score || (o.state.score == 0 && KeyDown(Return) in events))
      && (o.state.grid == st.grid || (o.state.grid == CreateGrid() && KeyDown(Return) in events))
    decreases |events|
  {
    if events != [] {
      var first := StepEvent(st, events[0], choice);
      if !first.quit {
        StepEventsRestartOnly(first.state, events[1..], choice);
        assert forall e :: e in events[1..] ==> e in events;
      }
    }
  }

  /**
    The loop ends exactly when some event ends it: a close event always
    does, and otherwise it took an escape.
   */
  lemma {:induction false} StepEventsQuit(st: State, events: seq<Event>, choice: nat)
    requires Rectangular(st.shape) && choice < |AllShapes|
    ensures Quit in events ==> StepEvents(st, events, choice).quit
    ensures StepEvents(st, events, choice).quit ==> Quit in events || KeyDown(Escape) in events
    decreases |events|
  {
    if events != [] {
      var first := StepEvent(st, events[0], choice);
      if !first.quit {
        StepEventsQuit(first.state, events[1..], choice);
        assert events == [events[0]] + events[1..];
      }
    }
  }

  class Engine {
    var grid: Grid
    var currentShape: Shape
    var currentColor: Color
    var posX: int
    var posY: int
    var paused: bool
    var gameOver: bool
    var score: nat
    var moveDownTime: int
    var lastMoveDownTime: int
    var lastMoveSideTime: int

    /**
      The field has its fixed size and no full row, the falling shape is a
      rectangle at most 4 by 4, the fall interval matches the score, the
      game is never paused and over at once, and while the game is not over
      the falling piece sits at a valid position.
     */
    ghost predicate Valid()
      reads this
    {
      WellFormed(grid) && NoFullRow(grid)
      && Rectangular(currentShape) && |currentShape| <= 4 && Width(currentShape) <= 4
      && moveDownTime == FallInterval(score)
      && !(paused && gameOver)
      && (!gameOver ==> ValidPosition(grid, currentShape, posX, posY))
    }

    /** The engine's fields as a `State` value. */
    ghost function Snapshot(): State
      reads this
    {
      State(grid, currentShape, currentColor, posX, posY, paused, gameOver, score,
            moveDownTime, lastMoveDownTime, lastMoveSideTime)
    }

    /** The start of `game()` (tetris.py:48, 151-161), with catalog entry `choice` falling. */
    constructor (now: int, choice: nat)
      requires choice < |AllShapes|
      ensures Valid()
      ensures grid == CreateGrid()
      ensures currentShape == AllShapes[choice] && currentColor == ShapeColors[choice]
      ensures posX == SpawnX(currentShape) && posY == 0
      ensures !paused && !gameOver && score == 0 && moveDownTime == InitialFallInterval
      ensures lastMoveDownTime == now && lastMoveSideTime == 0
    {
      CatalogShape(choice);
      CatalogColor(choice);
      var shape := AllShapes[choice];
      grid := CreateGrid();
      lastMoveDownTime := now;
      currentShape := shape;
      currentColor := ColorOf(shape);
      posX, posY := SpawnX(shape), 0;
      paused, gameOver := false, false;
      score := 0;
      moveDownTime := InitialFallInterval;
      lastMoveSideTime := 0;
      SpawnFitsEmpty(shape);
    }

    /** A new piece from catalog entry `choice` at the centred spawn position (tetris.py:182-184). */
    method Spawn(choice: nat)
      requires choice < |AllShapes|
      modifies this`currentShape, this`currentColor, this`posX, this`posY
      ensures currentShape == AllShapes[choice] && currentColor == ShapeColors[choice]
      ensures posX == SpawnX(currentShape) && posY == 0
      ensures Rectangular(currentShape) && |currentShape| <= 2 && Width(currentShape) <= 4
    {
      CatalogShape(choice);
      CatalogColor(choice);
      currentShape := AllShapes[choice];
      currentColor := ColorOf(currentShape);
      posX, posY := SpawnX(currentShape), 0;
    }

    /**
      `join_shape` (tetris.py:77-82): writes colour `c` into every cell under
      a block of `s` at (ox, oy) and into no other cell. The caller has
      checked `ValidPosition`, so every write is in range.
     */
    method JoinShape(s: Shape, ox: int, oy: int, c: Color)
      requires WellFormed(grid) && ValidPosition(grid, s, ox, oy)
      modifies this`grid
      ensures WellFormed(grid)
      ensures forall r, col :: 0 <= r < GridHeight && 0 <= col < GridWidth ==>
        grid[r][col] == (if Covers(s, ox, oy, col, r) then c else old(grid)[r][col])
      ensures grid == Joined(old(grid), s, ox, oy, c)
    {
      var y := 0;
      while y < |s|
        invariant 0 <= y <= |s|
        invariant WellFormed(grid)
        invariant forall r, col :: 0 <= r < GridHeight && 0 <= col < GridWidth ==>
          grid[r][col] == (if Covers(s, ox, oy, col, r) && r - oy < y then c else old(grid)[r][col])
      {
        var x := 0;
        while x < |s[y]|
          invariant 0 <= x <= |s[y]|
          invariant WellFormed(grid)
          invariant forall r, col :: 0 <= r < GridHeight && 0 <= col < GridWidth ==>
            grid[r][col] == (if Covers(s, ox, oy, col, r) && (r - oy < y || (r - oy == y && col - ox < x)) then c else old(grid)[r][col])
        {
          if s[y][x] {
            assert CellFree(old(grid), x + ox, y + oy);
            grid := grid[y + oy := grid[y + oy][x + ox := c]];
          }
          x := x + 1;
        }
        y := y + 1;
      }
      ghost var j := Joined(old(grid), s, ox, oy, c);
      forall r | 0 <= r < GridHeight
        ensures grid[r] == j[r]
      {
      }
    }

    /**
      The lock branch of the gravity tick (tetris.py:176-186): the piece is
      written into the field, full rows are cleared and scored, the fall
      interval is recomputed from the new score, catalog entry `choice`
      spawns, and the game is over exactly when it cannot be placed. At most
      4 rows go at once, so one lock scores at most 160.
     */
    method LockPiece(choice: nat)
      requires Valid() && !gameOver && !paused && choice < |AllShapes|
      modifies this`grid, this`score, this`moveDownTime, this`gameOver
      modifies this`currentShape, this`currentColor, this`posX, this`posY
      ensures Valid()
      ensures Snapshot() == Locked(old(Snapshot()), choice)
      ensures var cleared := ClearLines(Joined(old(grid), old(currentShape), old(posX), old(posY), old(currentColor)));
        grid == cleared.grid
        && score == old(score) + ScoreGain(cleared.count)
        && moveDownTime == (if cleared.count > 0 then FallInterval(score) else old(moveDownTime))
        && cleared.count <= 4 && score <= old(score) + 160
      ensures currentShape == AllShapes[choice] && currentColor == ShapeColors[choice]
      ensures posX == SpawnX(currentShape) && posY == 0
      ensures gameOver == !ValidPosition(grid, currentShape, posX, posY)
    {
      ghost var start := Snapshot();
      JoinAndClear();
      Spawn(choice);
      if !ValidPosition(grid, currentShape, posX, posY) {
        gameOver := true;
      }
      LockedIs(start, choice, Snapshot());
    }

    /**
      The first half of a lock (tetris.py:177-181): the piece is written
      into the field and the full rows are cleared and scored. The piece
      covers at most 4 rows, so at most 4 rows go and the score grows by at
      most 160.
     */
    method JoinAndClear()
      requires Valid() && !gameOver
      modifies this`grid, this`score, this`moveDownTime
      ensures WellFormed(grid) && NoFullRow(grid) && moveDownTime == FallInterval(score)
      ensures var cleared := ClearLines(Joined(old(grid), currentShape, posX, posY, currentColor));
        grid == cleared.grid
        && score == old(score) + ScoreGain(cleared.count)
        && moveDownTime == (if cleared.count > 0 then FallInterval(score) else old(moveDownTime))
        && cleared.count <= 4 && score <= old(score) + 160
    {
      JoinedFullRows(grid, currentShape, posX, posY, currentColor);
      JoinShape(currentShape, posX, posY, currentColor);
      ClearAndScore();
    }

    /**
      `clear_lines` applied to the field (tetris.py:177-181): the cleared
      rows are scored and, if there were any, the fall interval follows the
      new score. When the field had at most 4 full rows, the score grows by
      at most 160.
     */
    method ClearAndScore()
      requires WellFormed(grid) && moveDownTime == FallInterval(score)
      modifies this`grid, this`score, this`moveDownTime
      ensures WellFormed(grid) && NoFullRow(grid) && moveDownTime == FallInterval(score)
      ensures var cleared := ClearLines(old(grid));
        grid == cleared.grid
        && score == old(score) + ScoreGain(cleared.count)
        && moveDownTime == (if cleared.count > 0 then FallInterval(score) else old(moveDownTime))
      ensures CountFull(old(grid)) <= 4 ==> score <= old(score) + 160
    {
      var cleared := ClearLines(grid);
      ClearLinesLeavesNoFullRow(grid);
      grid := cleared.grid;
      if cleared.count > 0 {
        score := score + ScoreGain(cleared.count);
        moveDownTime := FallInterval(score);
      }
      if cleared.count <= 4 {
        ScoreGainAtMostFour(cleared.count);
      }
    }

    /** Gravity is due: the game runs and more than `moveDownTime` ms passed since the last fall (tetris.py:164-171). */
    ghost predicate GravityDue(now: int): (due: bool)
      requires Valid()
      reads this
      ensures due ==> now - lastMoveDownTime > MinFallInterval
    {
      !gameOver && !paused && now - lastMoveDownTime > moveDownTime
    }

    /**
      The gravity tick (tetris.py:171-187). When due, the piece falls one
      row if it can and is locked otherwise (`LockPiece`); either way the
      fall timer restarts at `now`.
     */
    method GravityTick(now: int, choice: nat)
      requires Valid() && choice < |AllShapes|
      modifies this
      ensures Valid()
      ensures Snapshot() == Fell(old(Snapshot()), now, choice)
      ensures old(score) <= score <= old(score) + 160
      ensures paused == old(paused) && lastMoveSideTime == old(lastMoveSideTime)
      ensures !old(GravityDue(now)) ==> unchanged(this)
      ensures old(GravityDue(now)) ==> lastMoveDownTime == now
      ensures old(GravityDue(now)) && ValidPosition(old(grid), old(currentShape), old(posX), old(posY) + 1) ==>
        grid == old(grid) && currentShape == old(currentShape) && currentColor == old(currentColor)
        && posX == old(posX) && posY == old(posY) + 1
        && score == old(score) && moveDownTime == old(moveDownTime) && !gameOver
      ensures old(GravityDue(now)) && !ValidPosition(old(grid), old(currentShape), old(posX), old(posY) + 1) ==>
        var cleared := ClearLines(Joined(old(grid), old(currentShape), old(posX), old(posY), old(currentColor)));
        grid == cleared.grid
        && score == old(score) + ScoreGain(cleared.count)
        && moveDownTime == (if cleared.count > 0 then FallInterval(score) else old(moveDownTime))
        && currentShape == AllShapes[choice] && currentColor == ShapeColors[choice]
        && posX == SpawnX(currentShape) && posY == 0
        && gameOver == !ValidPosition(grid, currentShape, posX, posY)
    {
      ghost var start := Snapshot();
      FellCases(start, now, choice);
      if !gameOver && !paused && now - lastMoveDownTime > moveDownTime {
        DropOrLock(choice);
        ghost var dropped := Snapshot();
        lastMoveDownTime := now;
        assert Snapshot() == dropped.(lastMoveDownTime := now);
      }
    }

    /**
      The body of a due gravity tick (tetris.py:172-186): the piece moves
      one row down if it is valid there, and is locked otherwise.
     */
    method DropOrLock(choice: nat)
      requires Valid() && !gameOver && !paused && choice < |AllShapes|
      modifies this`grid, this`score, this`moveDownTime, this`gameOver
      modifies this`currentShape, this`currentColor, this`posX, this`posY
      ensures Valid()
      ensures old(score) <= score <= old(score) + 160
      ensures ValidPosition(old(grid), old(currentShape), old(posX), old(posY) + 1) ==>
        Snapshot() == old(Snapshot()).(posY := old(posY) + 1)
      ensures !ValidPosition(old(grid), old(currentShape), old(posX), old(posY) + 1) ==>
        Snapshot() == Locked(old(Snapshot()), choice)
        && var cleared := ClearLines(Joined(old(grid), old(currentShape), old(posX), old(posY), old(currentColor)));
        grid == cleared.grid
        && score == old(score) + ScoreGain(cleared.count)
        && moveDownTime == (if cleared.count > 0 then FallInterval(score) else old(moveDownTime))
        && currentShape == AllShapes[choice] && currentColor == ShapeColors[choice]
        && posX == SpawnX(currentShape) && posY == 0
        && gameOver == !ValidPosition(grid, currentShape, posX, posY)
    {
      if ValidPosition(grid, currentShape, posX, posY + 1) {
        posY := posY + 1;
      } else {
        LockPiece(choice);
      }
    }

    /**
      One held-key move (tetris.py:209-213, 215-219, 221-225): once the
      repeat interval has passed, the piece moves by (dx, dy) if it is valid
      there, and the repeat timer restarts whether or not it moved.
     */
    method RepeatMove(now: int, dx: int, dy: int)
      requires Valid() && !gameOver
      modifies this`posX, this`posY, this`lastMoveSideTime
      ensures Valid()
      ensures Snapshot() == Moved(old(Snapshot()), now, dx, dy)
      ensures old(now - lastMoveSideTime <= MoveSideTime) ==> unchanged(this)
      ensures old(now - lastMoveSideTime > MoveSideTime) ==>
        lastMoveSideTime == now
        && if ValidPosition(grid, currentShape, old(posX) + dx, old(posY) + dy)
           then posX == old(posX) + dx && posY == old(posY) + dy
           else posX == old(posX) && posY == old(posY)
    {
      ghost var start := Snapshot();
      if now - lastMoveSideTime > MoveSideTime {
        if ValidPosition(grid, currentShape, posX + dx, posY + dy) {
          posX, posY := posX + dx, posY + dy;
        }
        lastMoveSideTime := now;
      }
      MovedIs(start, now, dx, dy, Snapshot());
    }

    /** A held-key move is due: the game runs, one of the keys is held and the repeat interval passed. */
    ghost predicate SideMoveDue(now: int, left: bool, right: bool, down: bool): (due: bool)
      requires Valid()
      reads this
      ensures due ==> ValidPosition(grid, currentShape, posX, posY)
    {
      !paused && !gameOver && (left || right || down) && now - lastMoveSideTime > MoveSideTime
    }

    /**
      Held left, right and down (tetris.py:208-225). The three share one
      repeat timer, so at most one of them acts per frame, left before
      right before down; the timer restarts even when the move is rejected.
     */
    method MoveHeld(now: int, left: bool, right: bool, down: bool)
      requires Valid()
      modifies this`posX, this`posY, this`lastMoveSideTime
      ensures Valid()
      ensures Snapshot() == Shifted(old(Snapshot()), now, left, right, down)
      ensures !old(SideMoveDue(now, left, right, down)) ==> unchanged(this)
      ensures old(SideMoveDue(now, left, right, down)) ==> lastMoveSideTime == now
      ensures old(SideMoveDue(now, left, right, down)) && left ==> Snapshot() == Moved(old(Snapshot()), now, -1, 0)
      ensures old(SideMoveDue(now, left, right, down)) && !left && right ==> Snapshot() == Moved(old(Snapshot()), now, 1, 0)
      ensures old(SideMoveDue(now, left, right, down)) && !left && !right ==> Snapshot() == Moved(old(Snapshot()), now, 0, 1)
    {
      ghost var start := Snapshot();
      if !paused && !gameOver {
        if left {
          RepeatMove(now, -1, 0);
        }
        ghost var afterLeft := Snapshot();
        if right {
          RepeatMove(now, 1, 0);
        }
        ghost var afterRight := Snapshot();
        if down {
          RepeatMove(now, 0, 1);
        }
        assert afterLeft == if left then Moved(start, now, -1, 0) else start;
        assert afterRight == if right then Moved(afterLeft, now, 1, 0) else afterLeft;
      }
    }

    /** The up key (tetris.py:233-236): take the rotated shape only if it is valid where the piece is. */
    method TryRotate()
      requires Valid() && !gameOver
      modifies this`currentShape
      ensures Valid()
      ensures Snapshot() == Rotated(old(Snapshot()))
      ensures currentShape == if ValidPosition(grid, Rotate(old(currentShape)), posX, posY)
        then Rotate(old(currentShape)) else old(currentShape)
    {
      var rotated := Rotate(currentShape);
      if ValidPosition(grid, rotated, posX, posY) {
        currentShape := rotated;
      }
    }

    /** The enter key after game over (tetris.py:241-248): a fresh field, score and speed, and a new piece. */
    method Restart(choice: nat)
      requires Valid() && gameOver && choice < |AllShapes|
      modifies this
      ensures Valid()
      ensures Snapshot() == Restarted(old(Snapshot()), choice)
      ensures grid == CreateGrid() && !gameOver
      ensures currentShape == AllShapes[choice] && currentColor == ShapeColors[choice]
      ensures posX == SpawnX(currentShape) && posY == 0
      ensures score == 0 && moveDownTime == InitialFallInterval
      ensures paused == old(paused)
      ensures lastMoveDownTime == old(lastMoveDownTime) && lastMoveSideTime == old(lastMoveSideTime)
    {
      ghost var start := Snapshot();
      grid := CreateGrid();
      gameOver := false;
      Spawn(choice);
      score := 0;
      moveDownTime := InitialFallInterval;
      SpawnFitsEmpty(currentShape);
      RestartedIs(start, choice, Snapshot());
    }

    /**
      One key-down or quit event (tetris.py:228-251), as `StepEvent` says.
      `quit` reports the events that end the game: the window's close
      event, and escape once the game is over.
     */
    method HandleEvent(e: Event, choice: nat) returns (quit: bool)
      requires Valid() && choice < |AllShapes|
      modifies this
      ensures Valid()
      ensures Outcome(Snapshot(), quit) == StepEvent(old(Snapshot()), e, choice)
      ensures quit <==> e == Quit || (e == KeyDown(Escape) && old(gameOver))
      ensures score != old(score) ==> e == KeyDown(Return) && old(gameOver)
      ensures e == KeyDown(Up) && old(!paused && !gameOver) ==>
        grid == old(grid) && posX == old(posX) && posY == old(posY) && score == old(score) && !gameOver && !paused
        && currentColor == old(currentColor)
        && currentShape == if ValidPosition(grid, Rotate(old(currentShape)), posX, posY)
           then Rotate(old(currentShape)) else old(currentShape)
      ensures e == KeyDown(Space) && !old(gameOver) ==>
        paused == !old(paused) && grid == old(grid) && currentShape == old(currentShape)
        && currentColor == old(currentColor)
        && posX == old(posX) && posY == old(posY) && score == old(score) && !gameOver
      ensures e == KeyDown(Return) && old(gameOver) ==>
        grid == CreateGrid() && !gameOver && score == 0 && moveDownTime == InitialFallInterval
        && currentShape == AllShapes[choice] && currentColor == ShapeColors[choice]
        && posX == SpawnX(currentShape) && posY == 0 && paused == old(paused)
      ensures (!(e == KeyDown(Up) && old(!paused && !gameOver)) && !(e == KeyDown(Space) && !old(gameOver))
        && !(e == KeyDown(Return) && old(gameOver))) ==> unchanged(this)
    {
      quit := false;
      match e
      case Quit =>
        quit := true;
      case KeyDown(k) =>
        if k == Up && !paused && !gameOver {
          TryRotate();
        } else if k == Space && !gameOver {
          paused := !paused;
        } else if k == Return && gameOver {
          Restart(choice);
        } else if k == Escape && gameOver {
          quit := true;
        }
      case OtherEvent =>
    }

    /**
      The event loop of one frame (tetris.py:228-251): the events are handled
      in order until one of them ends the loop, as `StepEvents` says. The
      score and the field change only if enter was pressed, and then the
      score is 0 and the field fresh.
     */
    method HandleEvents(events: seq<Event>, choice: nat) returns (quit: bool)
      requires Valid() && choice < |AllShapes|
      modifies this
      ensures Valid()
      ensures Outcome(Snapshot(), quit) == StepEvents(old(Snapshot()), events, choice)
      ensures score == old(score) || (score == 0 && moveDownTime == InitialFallInterval && KeyDown(Return) in events)
      ensures grid == old(grid) || (grid == CreateGrid() && KeyDown(Return) in events)
      ensures lastMoveDownTime == old(lastMoveDownTime) && lastMoveSideTime == old(lastMoveSideTime)
      ensures Quit in events ==> quit
      ensures quit ==> Quit in events || (KeyDown(Escape) in events && gameOver)
      ensures events == [] ==> unchanged(this) && !quit
    {
      ghost var start := Snapshot();
      quit := false;
      var i := 0;
      while i < |events| && !quit
        invariant 0 <= i <= |events|
        invariant Valid()
        invariant quit ==> StepEvents(start, events, choice) == Outcome(Snapshot(), true)
        invariant !quit ==> StepEvents(start, events, choice) == StepEvents(Snapshot(), events[i..], choice)
        invariant quit ==> Quit in events || (KeyDown(Escape) in events && gameOver)
        invariant i == 0 ==> unchanged(this)
      {
        assert events[i..][0] == events[i] && events[i..][1..] == events[i + 1..];
        quit := HandleEvent(events[i], choice);
        i := i + 1;
      }
      if !quit {
        assert events[i..] == [];
      }
      StepEventsRestartOnly(start, events, choice);
      StepEventsQuit(start, events, choice);
    }

    /**
      One pass of the game loop (tetris.py:163-251): the gravity tick at
      `gravityNow`, the held keys at `keysNow`, then the events, so the new
      state is `StepEvents` of `Shifted` of `Fell` of the old one.
      `fallChoice` and `restartChoice` stand for the two `random.choice`
      calls a frame can make.
     */
    method Frame(gravityNow: int, keysNow: int, left: bool, right: bool, down: bool,
                 events: seq<Event>, fallChoice: nat, restartChoice: nat) returns (quit: bool)
      requires Valid() && fallChoice < |AllShapes| && restartChoice < |AllShapes|
      modifies this
      ensures Valid()
      ensures old(score) <= score || (score == 0 && moveDownTime == InitialFallInterval && KeyDown(Return) in events)
      ensures Quit in events ==> quit
      ensures quit ==> Quit in events || (KeyDown(Escape) in events && gameOver)
      ensures Outcome(Snapshot(), quit) ==
        StepEvents(Shifted(Fell(old(Snapshot()), gravityNow, fallChoice), keysNow, left, right, down), events, restartChoice)
      ensures lastMoveDownTime == if old(GravityDue(gravityNow)) then gravityNow else old(lastMoveDownTime)
      ensures old(paused) && events == [] ==> unchanged(this)
    {
      GravityTick(gravityNow, fallChoice);
      MoveHeld(keysNow, left, right, down);
      quit := HandleEvents(events, restartChoice);
    }
  }
}
