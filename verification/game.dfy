/** The whole game as one state machine: the initial snapshot, one step per
    input or tick, and the invariant every reachable snapshot keeps. */
module Game {
  import opened Types
  import opened Settings
  import opened Food
  import opened Engine
  import opened Menu
  import opened Input

  /** Everything that can happen to the game: a key, a button, or a timer tick. */
  datatype Event = KeyPress(key: Key) | Press(button: Button) | Tick

  /** The snapshot at start-up: the start snake, placeholder food at (20, 20),
      idle in Classic mode at stage 1, and the stored high score. */
  function InitialState(storedHighScore: int): (r: GameState)
    ensures r.status == Idle && r.mode == Classic && r.stage == 1
    ensures r.menuContext == MainMenu && r.menuOption == 0
    ensures r.snake == StartSnake() && r.direction == Right && r.pending == Right
    ensures r.score == 0 && r.snakeHue == 0 && r.highScore == storedHighScore
  {
    GameState(StartSnake(), Cell(20, 20), Right, Idle, 0, storedHighScore, 1, Classic, 0, MainMenu, 0, Right)
  }

  predicate StepReady(cfg: Config, s: GameState, e: Event, draws: seq<Cell>)
    requires cfg.Valid()
  {
    match e
    case KeyPress(k) => KeyReady(cfg, s, k, draws)
    case Press(b) => ButtonReady(cfg, s, b, draws)
    case Tick => TickReady(cfg, s, draws)
  }

  function Step(cfg: Config, s: GameState, e: Event, draws: seq<Cell>): GameState
    requires cfg.Valid() && StepReady(cfg, s, e, draws)
  {
    match e
    case KeyPress(k) => HandleKey(cfg, s, k, draws)
    case Press(b) => HandleControl(cfg, s, b, draws)
    case Tick => MoveSnake(cfg, s, draws)
  }

  /** The snake is at least three cells long, on the grid, and never
      crosses itself. */
  predicate SnakeLegal(cfg: Config, snake: seq<Cell>)
  {
    && |snake| >= 3
    && (forall i | 0 <= i < |snake| :: cfg.InGrid(snake[i]))
    && NoDuplicates(snake)
  }

  /** No snake cell is on an obstacle in force, and the food is on the grid,
      off the snake and off the obstacles. */
  predicate BoardLegal(cfg: Config, s: GameState)
  {
    && Disjoint(s.snake, cfg.Obstacles(s.stage, s.mode))
    && cfg.InGrid(s.food)
    && Vacant(s.food, s.snake, cfg.Obstacles(s.stage, s.mode))
  }

  /** What every reachable snapshot satisfies. */
  predicate Inv(cfg: Config, s: GameState)
  {
    && 1 <= s.stage <= cfg.maxStages
    && (s.mode == Classic ==> s.stage == 1)
    && CursorInRange(cfg, s)
    && s.snakeHue < cfg.paletteSize
    && s.score % FOOD_POINTS == 0
    && SnakeLegal(cfg, s.snake)
    && (s.status == Playing || s.status == Paused || s.status == GameOver ==> BoardLegal(cfg, s))
  }

  lemma InitialStateSatisfiesInv(cfg: Config, storedHighScore: int)
    requires cfg.Fair()
    ensures Inv(cfg, InitialState(storedHighScore))
  {
  }

  /** A tick keeps the invariant: the head only enters free grid cells. */
  lemma MoveSnakePreservesInv(cfg: Config, s: GameState, draws: seq<Cell>)
    requires cfg.Fair() && Inv(cfg, s) && TickReady(cfg, s, draws)
    ensures Inv(cfg, MoveSnake(cfg, s, draws))
  {
  }

  /** On a fair configuration a fresh board is legal at any stage. */
  lemma StartSnakeLegal(cfg: Config, stage: int, mode: Mode)
    requires cfg.Fair()
    ensures SnakeLegal(cfg, StartSnake())
    ensures Disjoint(StartSnake(), cfg.Obstacles(stage, mode))
  {
  }

  /** A key keeps the invariant. */
  lemma HandleKeyPreservesInv(cfg: Config, s: GameState, k: Key, draws: seq<Cell>)
    requires cfg.Fair() && Inv(cfg, s) && KeyReady(cfg, s, k, draws)
    ensures Inv(cfg, HandleKey(cfg, s, k, draws))
  {
    StartSnakeLegal(cfg, s.stage, s.mode);
  }

  /** A button keeps the invariant. */
  lemma HandleControlPreservesInv(cfg: Config, s: GameState, b: Button, draws: seq<Cell>)
    requires cfg.Fair() && Inv(cfg, s) && ButtonReady(cfg, s, b, draws)
    ensures Inv(cfg, HandleControl(cfg, s, b, draws))
  {
    StartSnakeLegal(cfg, s.stage, s.mode);
  }

  /** Every event keeps the invariant. */
  lemma StepPreservesInv(cfg: Config, s: GameState, e: Event, draws: seq<Cell>)
    requires cfg.Fair() && Inv(cfg, s) && StepReady(cfg, s, e, draws)
    ensures Inv(cfg, Step(cfg, s, e, draws))
  {
    match e
    case KeyPress(k) => HandleKeyPreservesInv(cfg, s, k, draws);
    case Press(b) => HandleControlPreservesInv(cfg, s, b, draws);
    case Tick => MoveSnakePreservesInv(cfg, s, draws);
  }

  /** One input: an event and the cells the random source would draw for it. */
  datatype Occurrence = Occurrence(event: Event, draws: seq<Cell>)

  /** Every input of the run finds the draws it needs. */
  predicate RunReady(cfg: Config, s: GameState, inputs: seq<Occurrence>)
    requires cfg.Valid()
    decreases |inputs|
  {
    |inputs| == 0
    || (StepReady(cfg, s, inputs[0].event, inputs[0].draws)
        && RunReady(cfg, Step(cfg, s, inputs[0].event, inputs[0].draws), inputs[1..]))
  }

  /** The snapshot after a whole sequence of inputs. */
  function Run(cfg: Config, s: GameState, inputs: seq<Occurrence>): GameState
    requires cfg.Valid() && RunReady(cfg, s, inputs)
    decreases |inputs|
  {
    if |inputs| == 0 then s
    else Run(cfg, Step(cfg, s, inputs[0].event, inputs[0].draws), inputs[1..])
  }

  /** A whole run of inputs keeps the invariant. */
  lemma {:induction false} RunPreservesInv(cfg: Config, s: GameState, inputs: seq<Occurrence>)
    requires cfg.Fair() && Inv(cfg, s) && RunReady(cfg, s, inputs)
    ensures Inv(cfg, Run(cfg, s, inputs))
    decreases |inputs|
  {
    if |inputs| > 0 {
      StepPreservesInv(cfg, s, inputs[0].event, inputs[0].draws);
      RunPreservesInv(cfg, Step(cfg, s, inputs[0].event, inputs[0].draws), inputs[1..]);
    }
  }

  /** Every snapshot reachable from start-up keeps the invariant; in particular
      the snake always has at least three distinct on-grid cells, and while a
      run is on, or just over, it avoids the obstacles and the food is on the
      grid and free. */
  lemma ReachableStatesSatisfyInv(cfg: Config, storedHighScore: int, inputs: seq<Occurrence>)
    requires cfg.Fair() && RunReady(cfg, InitialState(storedHighScore), inputs)
    ensures var r := Run(cfg, InitialState(storedHighScore), inputs);
            && SnakeLegal(cfg, r.snake)
            && 1 <= r.stage <= cfg.maxStages
            && (r.status == Playing || r.status == Paused || r.status == GameOver ==> BoardLegal(cfg, r))
  {
    InitialStateSatisfiesInv(cfg, storedHighScore);
    RunPreservesInv(cfg, InitialState(storedHighScore), inputs);
  }
}
