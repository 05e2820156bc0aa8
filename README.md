# Solid Snake: the game engine, modelled in Dafny

The `App` component of Solid Snake holds a complete snake game in seven
signals:

- the game state (waiting, playing, paused, game over);
- the score and the high score;
- the snake, a sequence of grid cells with the head first;
- the direction;
- the food cell;
- the tick interval ("game speed").

It has these handlers:

- `moveSnake`, one tick of the game loop;
- `generateFood`, which rejection-samples a free cell;
- `resetGame`;
- `handleKeyPress`, for the arrow keys, Space and R;
- the start, pause, resume, restart and reset buttons.

The grid is 20 × 20 cells (a 400-pixel canvas with 20-pixel cells).

The project has three modules:

- `SnakeRules` (`snake_rules.dfy`) holds the data model and the constants
  of the source. It defines the pure parts of the source: the new-head
  switch, the `.some` test, `checkCollision` and the cell `generateFood`
  stops at. It also gives, as functions on a snapshot `Game` of the seven
  signals, the effect of every event: `Tick`, `Reset`, `KeyPress`, `Click`.
  `Run` applies a sequence of events. `Invariant` is the property every
  reachable game keeps.
- `SnakeProperties` (`snake_properties.dfy`) proves what those rules
  guarantee: the effect of a tick in each of its cases, the key and button
  transitions, reset, and the invariant of every reachable game.
- `SnakeEngine` (`snake_engine.dfy`) is the engine itself. Class `Engine`
  has one field per signal. Its methods update the fields in the order the
  source calls the setters, with `generateFood`'s do-while as a `while`
  loop. Each method is proved to leave exactly the snapshot that the
  matching `SnakeRules` function gives, and to keep `Invariant`.

`Math.random` is replaced by a parameter `draws`: the cells the sampling
loop would draw, one after another. The requirement `Supplies` says that
every draw lies on the grid, as `Math.floor(Math.random() * 20)` does, and
that one draw is off the snake, so that the loop stops.

The proofs also found an invariant that the source keeps without stating
it. In every reachable game the score is 10 × (length − 1), and the speed
is max(50, 150 − 2 × (length − 1)).

Several behaviours of the code are kept as written:

- The self-collision test includes the tail cell, so moving into the tail is
  fatal (`TailIsFatal`).
- The food is kept off the snake as the snake was when the food was placed.
  On an eating tick that is the pre-move snake, so the new food can land on
  the new head (`FoodMayLandOnHead`).
- Key presses are each checked against the latest direction, so two quick
  presses can reverse the snake between ticks (`TwoPressesReverse`,
  `ReversalIsFatal`).
- In `resetGame` the snake is set before `generateFood` runs (Solid's
  setters take effect at once), so the reset food avoids (10, 10).

## Model

| member | source | states |
|---|---|---|
| `SnakeRules.NextHead` | src/App.tsx:76-90 | the new head is the old head plus the unit vector of the direction (UP y−1, DOWN y+1, LEFT x−1, RIGHT x+1), at Manhattan distance 1 |
| `SnakeRules.Occupies` | src/App.tsx:65 | the segment-by-segment `.some` test is true iff the cell is an element of the body |
| `SnakeRules.Collides` | src/App.tsx:57-66 | a collision is reported iff the head is outside [0,20)×[0,20) or equals some cell of the body, its last cell included |
| `SnakeRules.FirstFree` | src/App.tsx:45-54 | the chosen food cell is off the body, and it is the first sample whose predecessors all lie on the body |
| `SnakeEngine.Engine.constructor` | src/App.tsx:32-42 | the initial signals: waiting, score 0, stored high score, snake [(10,10)], RIGHT, food (15,15), speed 150; the invariant holds |
| `SnakeEngine.Engine.GenerateFood` | src/App.tsx:45-54 | the do-while loop returns exactly the first sample off the current snake, which is on the grid and not on the snake |
| `SnakeEngine.Engine.MoveSnake` | src/App.tsx:69-121 | the new fields are exactly `Tick` of the old ones; the invariant is preserved |
| `SnakeEngine.Engine.ResetGame` | src/App.tsx:124-131 | the new fields are exactly `Reset` of the old ones; the invariant holds afterwards, from any state |
| `SnakeEngine.Engine.HandleKeyPress` | src/App.tsx:134-178 | the new fields are exactly `KeyPress` of the old ones; the invariant is preserved |
| `SnakeEngine.Engine.ClickButton` | src/App.tsx:336-360 | a rendered button's click leaves exactly `Click` of the old fields; the invariant is preserved |
| `SnakeProperties.StepBack` | src/App.tsx:77-90 | stepping in the opposite direction undoes a step; opposite is an involution without fixed points |
| `SnakeProperties.NextHeadInjective` | src/App.tsx:77-90 | different directions give different new heads |
| `SnakeProperties.TickIdleUnlessPlaying` | src/App.tsx:70 | a tick when not playing changes nothing |
| `SnakeProperties.TickCollision` | src/App.tsx:93-101 | a playing tick ends the game iff the new head is off the grid or on a pre-move cell; on collision only the state (GAME_OVER) and the high score (max of score and high score) change |
| `SnakeProperties.TailIsFatal` | src/App.tsx:65 | moving into the current tail cell is never an eating move and always ends the game |
| `SnakeProperties.TickMovesHead` | src/App.tsx:72-104 | a tick that does not end the game puts the old head shifted one unit in the current direction in front of the old snake's prefix; direction and high score are unchanged |
| `SnakeProperties.TickPlainMove` | src/App.tsx:115-120 | a non-eating move gives `[newHead] + old[..len-1]`: same length, same score, food and speed |
| `SnakeProperties.TickEats` | src/App.tsx:106-114 | an eating move prepends the food cell (length + 1), adds 10 to the score, lowers the speed by 2 only when above 50, and places the first sample off the pre-move snake, on the grid |
| `SnakeProperties.FoodMayLandOnHead` | src/App.tsx:108-120 | for snake [(10,10)] moving right onto food (11,10) with sample (11,10), the new food equals the new head |
| `SnakeProperties.EatingLeavesFreeCell` | src/App.tsx:106-110 | in a valid game about to eat, the food cell is on the grid and off the pre-move snake, so the sampling loop has a free cell to stop at |
| `SnakeProperties.ResetLeavesFreeCell` | src/App.tsx:125-127 | after the snake is set to [(10,10)], the grid has a free cell, (15,15), for the sampling loop |
| `SnakeProperties.SpeedBounds` | src/App.tsx:111-114 | the speed for a snake of any length is within [50,150], and one more cell lowers it by 2 exactly when it is above 50 |
| `SnakeProperties.InitialInvariant` | src/App.tsx:32-42 | the initial signals satisfy the invariant |
| `SnakeProperties.TickPreservesInvariant` | src/App.tsx:93-120 | a tick keeps the snake non-empty, on the grid and without overlaps, the food on the grid, and score and speed tied to the length |
| `SnakeProperties.ResetEffect` | src/App.tsx:124-131 | reset gives snake [(10,10)], RIGHT, score 0, speed 150, WAITING, the same high score, food on the grid and not at (10,10), and the invariant |
| `SnakeProperties.ArrowRule` | src/App.tsx:139-162 | an arrow key sets its direction iff the game is playing and the direction is not the opposite of the current one, otherwise changes nothing; the direction never becomes the reverse of the current one |
| `SnakeProperties.TwoPressesReverse` | src/App.tsx:135-162 | moving right, LEFT alone is rejected, but UP then LEFT ends with direction LEFT |
| `SnakeProperties.ReversalIsFatal` | src/App.tsx:77-93 | after such a reversal, a snake whose second cell lies behind its head collides on the next tick |
| `SnakeProperties.SpaceTwice` | src/App.tsx:163-172 | from PLAYING or PAUSED, Space changes the state, and twice restores the game |
| `SnakeProperties.SpaceOnFinishedGame` | src/App.tsx:163-172 | Space leaves a finished game unchanged |
| `SnakeProperties.SpaceStarts` | src/App.tsx:163-172 | Space starts a waiting game; a second press pauses it |
| `SnakeProperties.ButtonsMatchKeys` | src/App.tsx:338-360 | the start, pause and resume buttons do what Space does; the restart and reset buttons do what R does |
| `SnakeProperties.ApplyPreservesInvariant` | src/App.tsx:69-178 | every enabled event (tick, key, click) preserves the invariant |
| `SnakeProperties.RunPreservesInvariant` | src/App.tsx:69-178 | any sequence of enabled events preserves the invariant |
| `SnakeProperties.ReachableIsValid` | src/App.tsx:32-178 | every game reachable from the initial signals has a non-empty, in-bounds, overlap-free snake, food on the grid, a non-negative score and a speed in [50,150] |

## Left out

- Canvas rendering (src/App.tsx:204-301) and the JSX markup: presentation only. The button handlers are modelled, with the condition under which each button is rendered as a precondition.
- The keydown listener registration and `preventDefault`: event plumbing. A key press is the `Key` value of the codes the handler switches on; any other code is `OtherKey` and changes nothing.
- The `setInterval` game loop and its re-arming when the speed or state changes: host scheduling. Only the interval value `gameSpeed` is modelled, and a tick is the `TimerFired` event.
- `localStorage` reading through `parseInt` and writing at src/App.tsx:99: external persistence. The stored high score is a parameter of the constructor, and the write happens exactly when the modelled `highScore` changes.
- `Math.random` and `Math.floor`: floating-point randomness. It is replaced by the supplied sequence of sampled cells `draws`.
- SnakeEngine.Engine.GenerateFood: at every call a free cell on the grid exists: the food cell itself on an eating tick (`EatingLeavesFreeCell`), and any cell but (10, 10) on reset (`ResetLeavesFreeCell`). The source's loop therefore runs forever only if every random sample hits the snake while free cells remain, an event of probability zero. The model requires a sample off the snake and does not capture that case.
- SnakeEngine.Engine.MoveSnake: requires a non-empty snake while the game is playing. The source reads the head only then, after the early return at src/App.tsx:70, and would fail on an empty snake, which no reachable game has.
