/** What the rules of SnakeRules guarantee: the effect of one tick in each
    of its cases, the key and button transitions, reset, and the invariant
    every reachable game keeps. */
module SnakeProperties {
  import opened SnakeRules

  // ---------------------------------------------------------------------
  // Movement

  /** Turning round and stepping back returns to the cell one came from. */
  lemma StepBack(c: Cell, d: Direction)
    ensures NextHead(NextHead(c, d), Opposite(d)) == c
    ensures Opposite(Opposite(d)) == d && Opposite(d) != d
  {
  }

  /** The four directions lead to four different cells. */
  lemma NextHeadInjective(c: Cell, d1: Direction, d2: Direction)
    ensures NextHead(c, d1) == NextHead(c, d2) <==> d1 == d2
  {
  }

  // ---------------------------------------------------------------------
  // One tick

  /** moveSnake returns at once unless the game is being played. */
  lemma TickIdleUnlessPlaying(g: Game, draws: seq<Cell>)
    requires g.state != Playing
    ensures Tick(g, draws) == g
  {
  }

  /** A tick while playing ends the game exactly when the new head collides:
      it leaves the grid or lands on a cell of the snake as it was before
      the move, its last cell included. A collision changes nothing but the
      state and the high score, which becomes the larger of the two scores. */
  lemma TickCollision(g: Game, draws: seq<Cell>)
    requires |g.snake| >= 1 && g.state == Playing
    requires Eats(g) ==> Supplies(draws, g.snake)
    ensures Tick(g, draws).state == GameOver <==>
            (!InBounds(Target(g)) || exists i :: 0 <= i < |g.snake| && g.snake[i] == Target(g))
    ensures Tick(g, draws).state == GameOver ==>
            Tick(g, draws) == g.(state := GameOver,
                                 highScore := if g.score > g.highScore then g.score else g.highScore)
  {
  }

  /** Moving into the cell the tail occupies is fatal, even though a
      non-eating move would have vacated it. */
  lemma TailIsFatal(g: Game, draws: seq<Cell>)
    requires |g.snake| >= 1 && g.state == Playing
    requires Target(g) == g.snake[|g.snake| - 1]
    ensures !Eats(g)
    ensures Tick(g, draws).state == GameOver
  {
  }

  /** A tick that does not end the game puts the old head shifted by one
      unit in the current direction in front, keeps the rest of the old
      snake behind it, and leaves the game running. */
  lemma TickMovesHead(g: Game, draws: seq<Cell>)
    requires |g.snake| >= 1 && g.state == Playing
    requires Eats(g) ==> Supplies(draws, g.snake)
    requires Tick(g, draws).state != GameOver
    ensures var n := Tick(g, draws);
      n.state == Playing &&
      |n.snake| >= 1 && n.snake[0] == NextHead(g.snake[0], g.direction) &&
      Manhattan(n.snake[0], g.snake[0]) == 1 &&
      n.snake[1..] == g.snake[..|n.snake| - 1] &&
      n.direction == g.direction && n.highScore == g.highScore
  {
  }

  /** A move onto an empty cell: the snake slides by one cell and keeps
      its length; score, food and speed are untouched. */
  lemma TickPlainMove(g: Game, draws: seq<Cell>)
    requires |g.snake| >= 1 && g.state == Playing
    requires !Collides(Target(g), g.snake) && Target(g) != g.food
    ensures var n := Tick(g, draws);
      n.snake == [Target(g)] + g.snake[..|g.snake| - 1] &&
      |n.snake| == |g.snake| &&
      n.score == g.score && n.food == g.food && n.speed == g.speed
  {
  }

  /** A move onto the food: the snake grows by one, the score by ten, the
      speed drops by two while above the floor, and the new food is the
      first sample off the pre-move snake. */
  lemma TickEats(g: Game, draws: seq<Cell>)
    requires Eats(g) && Supplies(draws, g.snake)
    ensures var n := Tick(g, draws);
      n.snake == [g.food] + g.snake &&
      |n.snake| == |g.snake| + 1 &&
      n.score == g.score + 10 &&
      n.speed == (if g.speed > 50 then g.speed - 2 else g.speed) &&
      n.food == FirstFree(draws, g.snake) && n.food !in g.snake &&
      InBounds(n.food)
  {
  }

  /** The new food is only kept off the pre-move snake, so it can land on
      the cell the head has just moved into. */
  lemma FoodMayLandOnHead()
    ensures var g := Game(Playing, 0, 0, [Origin], Right, Cell(11, 10), InitialSpeed);
            var draws := [Cell(11, 10)];
            Eats(g) && Supplies(draws, g.snake) &&
            Tick(g, draws).food == Tick(g, draws).snake[0]
  {
    var g := Game(Playing, 0, 0, [Origin], Right, Cell(11, 10), InitialSpeed);
    assert [Cell(11, 10)][0] !in g.snake;
  }

  /** On an eating tick a free cell on the grid always exists: the food
      cell itself, which the head reaches without colliding. So the
      resampling loop can only run forever if every sample hits the snake
      while that cell is free. */
  lemma EatingLeavesFreeCell(g: Game)
    requires Invariant(g) && Eats(g)
    ensures Supplies([g.food], g.snake)
  {
    assert [g.food][0] !in g.snake;
  }

  // ---------------------------------------------------------------------
  // Speed

  /** From 150 in steps of two the speed reaches exactly the floor of 50,
      and stays within [50, 150]. */
  lemma SpeedBounds(len: int)
    requires len >= 1
    ensures MinSpeed <= SpeedFor(len) <= InitialSpeed
    ensures SpeedFor(len + 1) == if SpeedFor(len) > MinSpeed then SpeedFor(len) - SpeedStep else SpeedFor(len)
  {
  }

  // ---------------------------------------------------------------------
  // The invariant

  lemma InitialInvariant(stored: int)
    ensures Invariant(Initial(stored))
  {
  }

  /** A tick keeps the snake on the grid and free of overlaps; the food it
      places is on the grid. */
  lemma TickPreservesInvariant(g: Game, draws: seq<Cell>)
    requires Invariant(g)
    requires Eats(g) ==> Supplies(draws, g.snake)
    ensures Invariant(Tick(g, draws))
  {
  }

  /** Reset, from any game, restarts the round: one snake cell at (10, 10)
      heading right, no score, the initial speed, waiting for a start, food
      off (10, 10), and the high score kept. */
  lemma ResetEffect(g: Game, draws: seq<Cell>)
    requires Supplies(draws, [Origin])
    ensures var n := Reset(g, draws);
      n.snake == [Cell(10, 10)] && n.direction == Right && n.score == 0 &&
      n.speed == 150 && n.state == Waiting && n.highScore == g.highScore &&
      n.food != Cell(10, 10) && InBounds(n.food) &&
      Invariant(n)
  {
  }

  /** On reset the snake is the single cell (10, 10), so the other 399
      cells are free; (15, 15) is one of them. */
  lemma ResetLeavesFreeCell()
    ensures Supplies([InitialFood], [Origin])
  {
    assert [InitialFood][0] !in [Origin];
  }

  // ---------------------------------------------------------------------
  // Keys

  function ArrowDirection(key: Key): Option<Direction> {
    match key
    case ArrowUp => Some(Up)
    case ArrowDown => Some(Down)
    case ArrowLeft => Some(Left)
    case ArrowRight => Some(Right)
    case _ => None
  }

  /** An arrow key sets its direction exactly when the game is being
      played and the direction is not the reverse of the current one;
      otherwise it changes nothing. It never changes anything but the
      direction, and never to the reverse of the current one. */
  lemma ArrowRule(g: Game, key: Key, draws: seq<Cell>)
    requires ArrowDirection(key).Some?
    ensures var d := ArrowDirection(key).value;
      KeyPress(g, key, draws) ==
        (if g.state == Playing && g.direction != Opposite(d) then g.(direction := d) else g) &&
      KeyPress(g, key, draws).direction != Opposite(g.direction)
  {
  }

  /** Turns are not buffered until the next tick: two quick presses
      are each checked against the latest direction, so a snake moving right
      can be pointed left before it has moved. */
  lemma TwoPressesReverse(g: Game, draws: seq<Cell>)
    requires g.state == Playing && g.direction == Right
    ensures KeyPress(g, ArrowLeft, draws) == g
    ensures KeyPress(KeyPress(g, ArrowUp, draws), ArrowLeft, draws).direction == Left
  {
  }

  /** ... and on a snake of two or more cells lying straight behind its head
      the next tick then runs into its own neck. */
  lemma ReversalIsFatal(g: Game, draws: seq<Cell>)
    requires g.state == Playing && |g.snake| >= 2
    requires g.snake[1] == NextHead(g.snake[0], Opposite(g.direction))
    ensures var r := g.(direction := Opposite(g.direction));
      !Eats(r) && Tick(r, draws).state == GameOver
  {
  }

  /** Space starts, pauses and resumes; a finished game ignores it.
      Pressed twice while playing or paused it restores the state. */
  lemma SpaceTwice(g: Game, draws: seq<Cell>)
    requires g.state == Playing || g.state == Paused
    ensures KeyPress(KeyPress(g, Space, draws), Space, draws) == g
    ensures KeyPress(g, Space, draws).state != g.state
  {
  }

  lemma SpaceOnFinishedGame(g: Game, draws: seq<Cell>)
    requires g.state == GameOver
    ensures KeyPress(g, Space, draws) == g
  {
  }

  lemma SpaceStarts(g: Game, draws: seq<Cell>)
    requires g.state == Waiting
    ensures KeyPress(g, Space, draws) == g.(state := Playing)
    ensures KeyPress(KeyPress(g, Space, draws), Space, draws) == g.(state := Paused)
  {
  }

  // ---------------------------------------------------------------------
  // Buttons

  /** Each rendered button does what a key does: the start, pause and
      resume buttons what Space does, the restart and reset buttons what
      KeyR does. */
  lemma ButtonsMatchKeys(g: Game, b: Button, draws: seq<Cell>)
    requires Visible(g.state, b) && ButtonReady(b, draws)
    ensures b in {StartButton, PauseButton, ResumeButton} ==>
            Click(g, b, draws) == KeyPress(g, Space, draws)
    ensures b in {RestartButton, ResetButton} ==>
            Click(g, b, draws) == KeyPress(g, KeyR, draws)
  {
  }

  // ---------------------------------------------------------------------
  // Reachable games

  lemma ApplyPreservesInvariant(g: Game, e: Event)
    requires Invariant(g) && Enabled(g, e)
    ensures Invariant(Apply(g, e))
  {
  }

  lemma {:induction false} RunPreservesInvariant(g: Game, events: seq<Event>)
    requires Invariant(g)
    requires Run(g, events).Some?
    ensures Invariant(Run(g, events).value)
    decreases |events|
  {
    if events != [] {
      ApplyPreservesInvariant(g, events[0]);
      RunPreservesInvariant(Apply(g, events[0]), events[1..]);
    }
  }

  /** Every game reachable from the start has a non-empty snake on the grid
      without overlaps, food on the grid, 10 points per cell grown and a
      speed between 50 and 150. */
  lemma ReachableIsValid(g: Game)
    requires Reachable(g)
    ensures Invariant(g)
    ensures forall i :: 0 <= i < |g.snake| ==> InBounds(g.snake[i])
    ensures MinSpeed <= g.speed <= InitialSpeed && g.score >= 0
  {
    var stored, events :| Run(Initial(stored), events) == Some(g);
    InitialInvariant(stored);
    RunPreservesInvariant(Initial(stored), events);
    SpeedBounds(|g.snake|);
  }
}
