/** The rules of the snake game in `App`: the grid, cells, directions, the
    collision test, food placement and the effect of every event (a timer
    tick, a key press, a button click) on a snapshot of the game's signals.
    The class in SnakeEngine updates its fields step by step; each of its
    methods is proved to produce exactly the snapshot these functions give. */
module SnakeRules {

  // Configuration constants (src/App.tsx:5-8) and the literals of moveSnake.
  const GridSize: int := 20
  const CanvasWidth: int := 400
  const CanvasHeight: int := 400
  const InitialSpeed: int := 150
  const Width: int := CanvasWidth / GridSize
  const Height: int := CanvasHeight / GridSize
  const ScoreStep: int := 10
  const SpeedStep: int := 2
  const MinSpeed: int := 50

  datatype Cell = Cell(x: int, y: int)

  datatype Direction = Up | Down | Left | Right

  datatype GameState = Waiting | Playing | Paused | GameOver

  /** The `event.code` values the key handler distinguishes; every other
      code falls through its switch and is `OtherKey`. */
  datatype Key = ArrowUp | ArrowDown | ArrowLeft | ArrowRight | Space | KeyR | OtherKey

  /** The buttons under the board. Start, Pause, Resume and Restart are only
      rendered in one game state each; Reset is always rendered. */
  datatype Button = StartButton | PauseButton | ResumeButton | RestartButton | ResetButton

  datatype Option<T> = None | Some(value: T)

  /** The single cell the snake starts from, and the first food cell. */
  const Origin: Cell := Cell(10, 10)
  const InitialFood: Cell := Cell(15, 15)

  /** A snapshot of the seven signals of `App`. */
  datatype Game = Game(
    state: GameState,
    score: int,
    highScore: int,
    snake: seq<Cell>,
    direction: Direction,
    food: Cell,
    speed: int)

  predicate InBounds(c: Cell) {
    0 <= c.x < Width && 0 <= c.y < Height
  }

  /** No two cells of the snake coincide. */
  predicate Distinct(body: seq<Cell>) {
    forall i, j :: 0 <= i < j < |body| ==> body[i] != body[j]
  }

  // ---------------------------------------------------------------------
  // Directions and the movement of the head

  function Opposite(d: Direction): Direction {
    match d
    case Up => Down
    case Down => Up
    case Left => Right
    case Right => Left
  }

  /** The unit vector of a direction, with y growing downwards. */
  function DeltaX(d: Direction): int {
    match d
    case Left => -1
    case Right => 1
    case _ => 0
  }

  function DeltaY(d: Direction): int {
    match d
    case Up => -1
    case Down => 1
    case _ => 0
  }

  /** The switch of moveSnake that computes the new head. */
  function NextHead(head: Cell, d: Direction): (r: Cell)
    ensures r == Cell(head.x + DeltaX(d), head.y + DeltaY(d))
    ensures Manhattan(head, r) == 1
  {
    match d
    case Up => Cell(head.x, head.y - 1)
    case Down => Cell(head.x, head.y + 1)
    case Left => Cell(head.x - 1, head.y)
    case Right => Cell(head.x + 1, head.y)
  }

  function Abs(n: int): nat {
    if n < 0 then -n else n
  }

  function Manhattan(a: Cell, b: Cell): nat {
    Abs(a.x - b.x) + Abs(a.y - b.y)
  }

  // ---------------------------------------------------------------------
  // Collision

  /** `body.some(segment => segment equals c)`, one segment at a time. */
  function Occupies(body: seq<Cell>, c: Cell): (r: bool)
    ensures r <==> c in body
  {
    |body| > 0 && (body[0] == c || Occupies(body[1..], c))
  }

  /** checkCollision: a wall test against the grid, then a test against
      every cell of the given body, its last cell included. */
  function Collides(head: Cell, body: seq<Cell>): (r: bool)
    ensures r <==> !InBounds(head) || head in body
  {
    if head.x < 0 || head.x >= CanvasWidth / GridSize ||
       head.y < 0 || head.y >= CanvasHeight / GridSize
    then true
    else Occupies(body, head)
  }

  // ---------------------------------------------------------------------
  // Food placement

  /** `draws` stands for the successive cells that generateFood samples with
      Math.random: each one lies on the grid, and one of them is off the
      body, so the resampling loop stops. */
  predicate Supplies(draws: seq<Cell>, body: seq<Cell>) {
    (forall i :: 0 <= i < |draws| ==> InBounds(draws[i])) &&
    exists i :: 0 <= i < |draws| && draws[i] !in body
  }

  /** The first sample that is not on the body: the cell generateFood's
      do-while loop stops at. */
  function FirstFree(draws: seq<Cell>, body: seq<Cell>): (r: Cell)
    requires exists i :: 0 <= i < |draws| && draws[i] !in body
    ensures r !in body
    ensures exists k :: 0 <= k < |draws| && draws[k] == r &&
                        forall j :: 0 <= j < k ==> draws[j] in body
    decreases |draws|
  {
    if draws[0] !in body then draws[0]
    else
      var i :| 0 <= i < |draws| && draws[i] !in body;
      assert draws[1..][i - 1] == draws[i];
      var r := FirstFree(draws[1..], body);
      var k :| 0 <= k < |draws| - 1 && draws[1..][k] == r &&
               forall j :: 0 <= j < k ==> draws[1..][j] in body;
      assert draws[k + 1] == r;
      assert forall j :: 0 <= j < k + 1 ==> draws[j] in body by {
        forall j | 0 <= j < k + 1 ensures draws[j] in body {
          if j > 0 { assert draws[j] == draws[1..][j - 1]; }
        }
      }
      r
  }

  // ---------------------------------------------------------------------
  // The effect of each event on the signals

  /** The state of the signals when `App` is created (src/App.tsx:32-42);
      `stored` is the high score read back from local storage. */
  function Initial(stored: int): Game {
    Game(Waiting, 0, stored, [Origin], Right, InitialFood, InitialSpeed)
  }

  /** The head moveSnake would compute for `g`. */
  function Target(g: Game): Cell
    requires |g.snake| >= 1
  {
    NextHead(g.snake[0], g.direction)
  }

  /** The tick of `g` is an eating one: the only case that samples food. */
  predicate Eats(g: Game) {
    g.state == Playing && |g.snake| >= 1 &&
    !Collides(Target(g), g.snake) && Target(g) == g.food
  }

  /** moveSnake (src/App.tsx:69-121) on a snapshot. */
  function Tick(g: Game, draws: seq<Cell>): Game
    requires g.state == Playing ==> |g.snake| >= 1
    requires Eats(g) ==> Supplies(draws, g.snake)
  {
    if g.state != Playing then g
    else
      var h := Target(g);
      if Collides(h, g.snake) then
        g.(state := GameOver,
           highScore := if g.score > g.highScore then g.score else g.highScore)
      else if h == g.food then
        g.(score := g.score + ScoreStep,
           food := FirstFree(draws, g.snake),
           speed := if g.speed > MinSpeed then g.speed - SpeedStep else g.speed,
           snake := [h] + g.snake)
      else
        g.(snake := [h] + g.snake[..|g.snake| - 1])
  }

  /** resetGame (src/App.tsx:124-131). The snake is set before generateFood
      runs, so the food is sampled against `[Origin]`. */
  function Reset(g: Game, draws: seq<Cell>): Game
    requires Supplies(draws, [Origin])
  {
    g.(snake := [Origin],
       direction := Right,
       food := FirstFree(draws, [Origin]),
       score := 0,
       speed := InitialSpeed,
       state := Waiting)
  }

  /** The Space branch of handleKeyPress (src/App.tsx:163-172). */
  function SpaceState(s: GameState): GameState {
    if s == Waiting then Playing
    else if s == Playing then Paused
    else if s == Paused then Playing
    else s
  }

  /** What a key press needs from the random source: only KeyR samples food. */
  predicate KeyReady(key: Key, draws: seq<Cell>) {
    key == KeyR ==> Supplies(draws, [Origin])
  }

  /** handleKeyPress (src/App.tsx:134-178): each arrow key is checked against
      the current direction, not against a direction buffered for the next
      tick. */
  function KeyPress(g: Game, key: Key, draws: seq<Cell>): Game
    requires KeyReady(key, draws)
  {
    match key
    case ArrowUp =>
      if g.direction != Down && g.state == Playing then g.(direction := Up) else g
    case ArrowDown =>
      if g.direction != Up && g.state == Playing then g.(direction := Down) else g
    case ArrowLeft =>
      if g.direction != Right && g.state == Playing then g.(direction := Left) else g
    case ArrowRight =>
      if g.direction != Left && g.state == Playing then g.(direction := Right) else g
    case Space => g.(state := SpaceState(g.state))
    case KeyR => Reset(g, draws)
    case OtherKey => g
  }

  /** The game state in which each button is rendered (src/App.tsx:338-360). */
  predicate Visible(s: GameState, b: Button) {
    match b
    case StartButton => s == Waiting
    case PauseButton => s == Playing
    case ResumeButton => s == Paused
    case RestartButton => s == GameOver
    case ResetButton => true
  }

  predicate ButtonReady(b: Button, draws: seq<Cell>) {
    (b == RestartButton || b == ResetButton) ==> Supplies(draws, [Origin])
  }

  /** The onClick handler of a rendered button. */
  function Click(g: Game, b: Button, draws: seq<Cell>): Game
    requires Visible(g.state, b)
    requires ButtonReady(b, draws)
  {
    match b
    case StartButton => g.(state := Playing)
    case PauseButton => g.(state := Paused)
    case ResumeButton => g.(state := Playing)
    case RestartButton => Reset(g, draws)
    case ResetButton => Reset(g, draws)
  }

  // ---------------------------------------------------------------------
  // Runs of events

  /** Everything that can happen to the game: the interval timer firing,
      a key press or a click, each with the samples food placement would
      draw. */
  datatype Event =
    | TimerFired(draws: seq<Cell>)
    | Pressed(key: Key, keyDraws: seq<Cell>)
    | Clicked(button: Button, clickDraws: seq<Cell>)

  /** The event can be handled in `g`: the timer needs, while playing, a
      non-empty snake and a random source that ends the food loop; a click
      needs a rendered button. */
  predicate Enabled(g: Game, e: Event) {
    match e
    case TimerFired(draws) =>
      (g.state == Playing ==> |g.snake| >= 1) && (Eats(g) ==> Supplies(draws, g.snake))
    case Pressed(key, draws) => KeyReady(key, draws)
    case Clicked(b, draws) => Visible(g.state, b) && ButtonReady(b, draws)
  }

  function Apply(g: Game, e: Event): Game
    requires Enabled(g, e)
  {
    match e
    case TimerFired(draws) => Tick(g, draws)
    case Pressed(key, draws) => KeyPress(g, key, draws)
    case Clicked(b, draws) => Click(g, b, draws)
  }

  /** The game after the events, or None if one of them is not enabled
      when it arrives. */
  function Run(g: Game, events: seq<Event>): Option<Game>
    decreases |events|
  {
    if events == [] then Some(g)
    else if Enabled(g, events[0]) then Run(Apply(g, events[0]), events[1..])
    else None
  }

  // ---------------------------------------------------------------------
  // The invariant of every reachable game

  /** The speed after the snake has grown to `len` cells: two less per food
      eaten, but never below the floor. */
  function SpeedFor(len: int): int {
    var s := InitialSpeed - SpeedStep * (len - 1);
    if s < MinSpeed then MinSpeed else s
  }

  /** The snake is non-empty, on the grid and without overlaps; the food is
      on the grid; the score counts the food eaten and the speed follows
      from it. */
  predicate Invariant(g: Game) {
    |g.snake| >= 1 &&
    (forall i :: 0 <= i < |g.snake| ==> InBounds(g.snake[i])) &&
    Distinct(g.snake) &&
    InBounds(g.food) &&
    g.score == ScoreStep * (|g.snake| - 1) &&
    g.speed == SpeedFor(|g.snake|)
  }

  ghost predicate Reachable(g: Game) {
    exists stored: int, events: seq<Event> :: Run(Initial(stored), events) == Some(g)
  }
}
