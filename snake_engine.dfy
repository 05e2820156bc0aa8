/** The `App` component's game engine: one object whose fields are the
    component's signals and whose methods update them in the order the
    source's handlers call the setters. Every method is proved to leave
    exactly the snapshot the matching function of SnakeRules gives, and to
    keep the invariant of SnakeRules. */
module SnakeEngine {
  import opened SnakeRules
  import SnakeProperties

  class Engine {
    var gameState: GameState
    var score: int
    var highScore: int
    var snake: seq<Cell>
    var direction: Direction
    var food: Cell
    var gameSpeed: int

    /** The signals as one value. */
    function Snapshot(): Game
      reads this
    {
      Game(gameState, score, highScore, snake, direction, food, gameSpeed)
    }

    predicate Valid()
      reads this
    {
      Invariant(Snapshot())
    }

    /** The signals as `App` creates them; `stored` is the high score
        loaded from local storage. */
    constructor (stored: int)
      ensures Snapshot() == Initial(stored)
      ensures Valid()
    {
      gameState := Waiting;
      score := 0;
      highScore := stored;
      snake := [Cell(10, 10)];
      direction := Right;
      food := Cell(15, 15);
      gameSpeed := InitialSpeed;
      SnakeProperties.InitialInvariant(stored);
    }

    /** generateFood: sample until a cell off the current snake comes up.
        The do-while loop consumes `draws` one sample at a time. */
    method GenerateFood(draws: seq<Cell>) returns (newFood: Cell)
      requires Supplies(draws, snake)
      ensures newFood == FirstFree(draws, snake)
      ensures newFood !in snake && InBounds(newFood)
    {
      var i := 0;
      newFood := draws[0];
      while Occupies(snake, newFood)
        invariant 0 <= i < |draws| && newFood == draws[i]
        invariant exists k :: i <= k < |draws| && draws[k] !in snake
        invariant FirstFree(draws[i..], snake) == FirstFree(draws, snake)
        decreases |draws| - i
      {
        assert draws[i..][1..] == draws[i + 1..];
        i := i + 1;
        newFood := draws[i];
      }
      assert draws[i..][0] == newFood;
    }

    /** moveSnake: one tick of the game loop. */
    method MoveSnake(draws: seq<Cell>)
      requires gameState == Playing ==> |snake| >= 1
      requires Eats(Snapshot()) ==> Supplies(draws, snake)
      modifies this
      ensures Snapshot() == Tick(old(Snapshot()), draws)
      ensures old(Valid()) ==> Valid()
    {
      ghost var before := Snapshot();
      if gameState != Playing {
        return;
      }
      var currentSnake := snake;
      var currentDirection := direction;
      var head := currentSnake[0];
      var newHead := NextHead(head, currentDirection);

      if Collides(newHead, snake) {
        gameState := GameOver;
        var currentScore := score;
        if currentScore > highScore {
          highScore := currentScore;
        }
        if Invariant(before) {
          SnakeProperties.TickPreservesInvariant(before, draws);
        }
        return;
      }

      var newSnake := [newHead] + currentSnake;
      var currentFood := food;
      if newHead == currentFood {
        score := score + ScoreStep;
        food := GenerateFood(draws);
        if gameSpeed > MinSpeed {
          gameSpeed := gameSpeed - SpeedStep;
        }
      } else {
        newSnake := newSnake[..|newSnake| - 1];
      }
      assert newSnake == Tick(before, draws).snake;
      snake := newSnake;
      if Invariant(before) {
        SnakeProperties.TickPreservesInvariant(before, draws);
      }
    }

    /** resetGame. The snake is set first, so generateFood samples against
        the one-cell snake. */
    method ResetGame(draws: seq<Cell>)
      requires Supplies(draws, [Origin])
      modifies this
      ensures Snapshot() == Reset(old(Snapshot()), draws)
      ensures Valid()
    {
      ghost var before := Snapshot();
      snake := [Cell(10, 10)];
      direction := Right;
      food := GenerateFood(draws);
      score := 0;
      gameSpeed := InitialSpeed;
      gameState := Waiting;
      SnakeProperties.ResetEffect(before, draws);
    }

    /** handleKeyPress, for the key codes its switch distinguishes. */
    method HandleKeyPress(key: Key, draws: seq<Cell>)
      requires KeyReady(key, draws)
      modifies this
      ensures Snapshot() == KeyPress(old(Snapshot()), key, draws)
      ensures old(Valid()) ==> Valid()
    {
      var currentDirection := direction;
      var currentState := gameState;
      match key
      case ArrowUp =>
        if currentDirection != Down && currentState == Playing {
          direction := Up;
        }
      case ArrowDown =>
        if currentDirection != Up && currentState == Playing {
          direction := Down;
        }
      case ArrowLeft =>
        if currentDirection != Right && currentState == Playing {
          direction := Left;
        }
      case ArrowRight =>
        if currentDirection != Left && currentState == Playing {
          direction := Right;
        }
      case Space =>
        if currentState == Waiting {
          gameState := Playing;
        } else if currentState == Playing {
          gameState := Paused;
        } else if currentState == Paused {
          gameState := Playing;
        }
      case KeyR =>
        ResetGame(draws);
      case OtherKey =>
    }

    /** The onClick handler of a button that is on screen. */
    method ClickButton(b: Button, draws: seq<Cell>)
      requires Visible(gameState, b)
      requires ButtonReady(b, draws)
      modifies this
      ensures Snapshot() == Click(old(Snapshot()), b, draws)
      ensures old(Valid()) ==> Valid()
    {
      match b
      case StartButton => gameState := Playing;
      case PauseButton => gameState := Paused;
      case ResumeButton => gameState := Playing;
      case RestartButton => ResetGame(draws);
      case ResetButton => ResetGame(draws);
    }
  }
}
