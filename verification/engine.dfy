/** The simulation engine: starting a run, continuing after a level-up,
    pausing, and the per-tick move with its collision, eating, scoring and
    levelling rules. */
module Engine {
  import opened Types
  import opened Settings
  import opened Food

  /** What one tick did, in the order the rules are tried. */
  datatype TickResult = NotPlaying | Died | Moved | Ate | LeveledUp

  /** Switches between playing and paused; every other status is left alone. */
  function TogglePause(s: GameState): (r: GameState)
    ensures r.status == Paused <==> s.status == Playing
    ensures r.status == Playing <==> s.status == Paused
    ensures s.status != Playing && s.status != Paused ==> r == s
    ensures r == s.(status := r.status)
  {
    if s.status == Playing then s.(status := Paused)
    else if s.status == Paused then s.(status := Playing)
    else s
  }

  /** The menu entry every "menu" input and most confirmations lead to. */
  function OpenMainMenu(s: GameState): (r: GameState)
    ensures r.status == Menu && r.menuContext == MainMenu && r.menuOption == 0
    ensures r == s.(status := r.status, menuContext := r.menuContext, menuOption := r.menuOption)
  {
    s.(status := Menu, menuContext := MainMenu, menuOption := 0)
  }

  /** The cell the head moves into on the next tick. */
  function NextHead(s: GameState): Cell
    requires |s.snake| > 0
  {
    Advance(s.snake[0], s.pending)
  }

  /** A move into `h` ends the run: off the grid, onto an obstacle in force,
      or onto any cell of the current body, the tail included. */
  predicate Collides(cfg: Config, s: GameState, h: Cell)
  {
    !cfg.InGrid(h) || h in cfg.Obstacles(s.stage, s.mode) || h in s.snake
  }

  /** Reaching `newScore` advances the stage: only in Stages mode, only on a
      positive multiple of the level threshold, and only below the last stage. */
  predicate LevelsUp(cfg: Config, s: GameState, newScore: int)
    requires cfg.pointsPerLevel > 0
  {
    s.mode == Stages && newScore > 0 && newScore % cfg.pointsPerLevel == 0 && s.stage < cfg.maxStages
  }

  function Classify(cfg: Config, s: GameState): TickResult
    requires cfg.Valid()
    requires s.status == Playing ==> |s.snake| > 0
  {
    if s.status != Playing then NotPlaying
    else if Collides(cfg, s, NextHead(s)) then Died
    else if NextHead(s) != s.food then Moved
    else if LevelsUp(cfg, s, s.score + FOOD_POINTS) then LeveledUp
    else Ate
  }

  /** The tick needs the random source only when food is eaten without a
      level-up; then the retry loop must stop within `draws`. */
  predicate TickReady(cfg: Config, s: GameState, draws: seq<Cell>)
    requires cfg.Valid()
  {
    && (s.status == Playing ==> |s.snake| > 0)
    && (Classify(cfg, s) == Ate ==>
          CanSpawn(cfg, [NextHead(s)] + s.snake, cfg.Obstacles(s.stage, s.mode), draws))
  }

  /** The run ends; the high score becomes the better of the two. */
  function EndRun(s: GameState): (r: GameState)
    ensures r.status == GameOver
    ensures r.highScore >= s.score && r.highScore >= s.highScore
    ensures r.highScore == s.score || r.highScore == s.highScore
    ensures r == s.(status := r.status, highScore := r.highScore)
  {
    s.(status := GameOver, highScore := Max(s.score, s.highScore))
  }

  /** One tick of the game. */
  function MoveSnake(cfg: Config, s: GameState, draws: seq<Cell>): (r: GameState)
    requires cfg.Valid()
    requires TickReady(cfg, s, draws)
    // Ticks do nothing unless a run is in progress.
    ensures s.status != Playing ==> r == s
    ensures s.status == Playing ==> r.status == Playing || r.status == GameOver || r.status == LevelUp
    // Death: exactly on a collision, and then only the status and high score change.
    ensures s.status == Playing ==> (r.status == GameOver <==> Collides(cfg, s, NextHead(s)))
    ensures s.status == Playing && r.status == GameOver ==>
              r == s.(status := GameOver, highScore := Max(s.score, s.highScore))
    ensures !(s.status == Playing && r.status == GameOver) ==> r.highScore == s.highScore
    // Survival: the head moves first; food is eaten exactly when the head lands on it.
    ensures s.status == Playing && r.status != GameOver ==>
              (r.score == s.score + FOOD_POINTS <==> NextHead(s) == s.food)
              && (r.score == s.score <==> NextHead(s) != s.food)
    ensures s.status == Playing && r.status == Playing && NextHead(s) != s.food ==>
              && |r.snake| == |s.snake|
              && r.snake == [NextHead(s)] + s.snake[..|s.snake| - 1]
              && r == s.(snake := r.snake)
    ensures s.status == Playing && r.status == Playing && NextHead(s) == s.food ==>
              && |r.snake| == |s.snake| + 1
              && r.snake[0] == NextHead(s) && r.snake[1..] == s.snake
              && cfg.InGrid(r.food) && Vacant(r.food, r.snake, cfg.Obstacles(s.stage, s.mode))
              && r.snakeHue == (s.snakeHue + 1) % cfg.paletteSize
              && r == s.(snake := r.snake, food := r.food, score := r.score, snakeHue := r.snakeHue)
    // Level-up: only in Stages mode, below the last stage, on a multiple of the
    // threshold; the snake and food stay as they were before the tick.
    ensures s.status == Playing && r.status == LevelUp ==>
              && s.mode == Stages && s.stage < cfg.maxStages
              && r.score % cfg.pointsPerLevel == 0
              && r == s.(status := LevelUp, score := s.score + FOOD_POINTS, stage := s.stage + 1,
                         snakeHue := (s.snakeHue + 1) % cfg.paletteSize)
  {
    if s.status != Playing then s
    else
      var newHead := NextHead(s);
      if newHead.x < 0 || newHead.x >= cfg.gridWidth || newHead.y < 0 || newHead.y >= cfg.gridHeight then
        EndRun(s)
      else if newHead in cfg.Obstacles(s.stage, s.mode) then
        EndRun(s)
      else if newHead in s.snake then
        EndRun(s)
      else
        var newSnake := [newHead] + s.snake;
        if newHead == s.food then
          var newScore := s.score + FOOD_POINTS;
          var nextHue := (s.snakeHue + 1) % cfg.paletteSize;
          if s.mode == Stages && newScore > 0 && newScore % cfg.pointsPerLevel == 0 && s.stage < cfg.maxStages then
            s.(status := LevelUp, score := newScore, stage := s.stage + 1, snakeHue := nextHue)
          else
            s.(snake := newSnake, food := SpawnFood(cfg, newSnake, s.stage, s.mode, draws),
               score := newScore, snakeHue := nextHue)
        else
          s.(snake := newSnake[..|newSnake| - 1])
  }

  /** The mode a reset plays in: the forced one, else the current one. */
  function ResetMode(s: GameState, forcedMode: Option<Mode>): Mode
  {
    if forcedMode.Some? then forcedMode.value else s.mode
  }

  /** The stage a reset plays at: the forced one, else 1 in Classic mode and
      the current stage in Stages mode. */
  function ResetStage(s: GameState, forcedStage: Option<int>, forcedMode: Option<Mode>): int
  {
    if forcedStage.Some? then forcedStage.value
    else if ResetMode(s, forcedMode) == Classic then 1
    else s.stage
  }

  /** Starts a new run: the start snake heading right, fresh food, no score. */
  function ResetGame(cfg: Config, s: GameState, forcedStage: Option<int>, forcedMode: Option<Mode>,
                     draws: seq<Cell>): (r: GameState)
    requires CanSpawn(cfg, StartSnake(), cfg.Obstacles(ResetStage(s, forcedStage, forcedMode),
                                                       ResetMode(s, forcedMode)), draws)
    ensures r.status == Playing && r.score == 0 && r.snakeHue == 0
    ensures r.snake == StartSnake() && r.direction == Right && r.pending == Right
    ensures cfg.InGrid(r.food) && Vacant(r.food, r.snake, cfg.Obstacles(r.stage, r.mode))
    ensures forcedMode.Some? ==> r.mode == forcedMode.value
    ensures forcedMode.None? ==> r.mode == s.mode
    ensures forcedStage.Some? ==> r.stage == forcedStage.value
    ensures forcedStage.None? && r.mode == Classic ==> r.stage == 1
    ensures forcedStage.None? && r.mode == Stages ==> r.stage == s.stage
    ensures r.highScore == s.highScore && r.menuOption == s.menuOption && r.menuContext == s.menuContext
  {
    var mode := ResetMode(s, forcedMode);
    var stage := ResetStage(s, forcedStage, forcedMode);
    var initialSnake := StartSnake();
    s.(snake := initialSnake,
       food := SpawnFood(cfg, initialSnake, stage, mode, draws),
       direction := Right,
       status := Playing,
       score := 0,
       stage := stage,
       mode := mode,
       snakeHue := 0,
       pending := Right)
  }

  /** Resumes play after a level-up at the new stage: the start snake heading
      right and fresh food; score, stage and colour are kept. */
  function ContinueLevel(cfg: Config, s: GameState, draws: seq<Cell>): (r: GameState)
    requires CanSpawn(cfg, StartSnake(), cfg.Obstacles(s.stage, s.mode), draws)
    ensures r.status == Playing && r.snake == StartSnake() && r.pending == Right
    ensures cfg.InGrid(r.food) && Vacant(r.food, r.snake, cfg.Obstacles(r.stage, r.mode))
    ensures r == s.(status := Playing, snake := r.snake, food := r.food, pending := Right)
  {
    var initialSnake := StartSnake();
    s.(status := Playing, snake := initialSnake,
       food := SpawnFood(cfg, initialSnake, s.stage, s.mode, draws), pending := Right)
  }

  /** Pausing twice, or resuming twice, changes nothing. */
  lemma TogglePauseTwiceRestores(s: GameState)
    ensures TogglePause(TogglePause(s)) == s
  {
  }

  /** Continuing after a level-up and starting a fresh Stages run at the same
      stage lay out the same board; they differ only in the kept score,
      colour and snapshot direction. */
  lemma ContinueIsResetKeepingProgress(cfg: Config, s: GameState, draws: seq<Cell>)
    requires s.mode == Stages
    requires CanSpawn(cfg, StartSnake(), cfg.Obstacles(s.stage, s.mode), draws)
    ensures ResetGame(cfg, s, None, None, draws)
              == ContinueLevel(cfg, s, draws).(score := 0, snakeHue := 0, direction := Right)
  {
  }

  /** Classic mode never levels up, whatever the score. */
  lemma ClassicNeverLevelsUp(cfg: Config, s: GameState, draws: seq<Cell>)
    requires cfg.Valid() && TickReady(cfg, s, draws)
    requires s.status == Playing && s.mode == Classic
    ensures MoveSnake(cfg, s, draws).status != LevelUp
    ensures MoveSnake(cfg, s, draws).stage == s.stage
  {
  }

  /** Moving onto the cell the tail is about to leave still ends the run:
      collisions are checked against the body before the move. */
  lemma TailCellIsDeadly(cfg: Config, s: GameState, draws: seq<Cell>)
    requires cfg.Valid() && TickReady(cfg, s, draws)
    requires s.status == Playing && NextHead(s) == s.snake[|s.snake| - 1]
    ensures MoveSnake(cfg, s, draws).status == GameOver
  {
  }

  /** The score changes by one food's worth at most and never goes down; a
      tick that changes it also grows the snake or levels up. */
  lemma TickScoresOneFoodAtMost(cfg: Config, s: GameState, draws: seq<Cell>)
    requires cfg.Valid() && TickReady(cfg, s, draws)
    ensures var r := MoveSnake(cfg, s, draws);
            (r.score == s.score || r.score == s.score + FOOD_POINTS)
            && (r.score != s.score ==> r.status == LevelUp || |r.snake| == |s.snake| + 1)
  {
  }

  /** The tick outcome agrees with the rule order. */
  lemma ClassifyDescribesMove(cfg: Config, s: GameState, draws: seq<Cell>)
    requires cfg.Valid() && TickReady(cfg, s, draws)
    ensures var r := MoveSnake(cfg, s, draws);
            match Classify(cfg, s)
            case NotPlaying => r == s
            case Died => r.status == GameOver
            case Moved => r.status == Playing && r.score == s.score && |r.snake| == |s.snake|
            case Ate => r.status == Playing && r.score == s.score + FOOD_POINTS && |r.snake| == |s.snake| + 1
            case LeveledUp => r.status == LevelUp && r.stage == s.stage + 1
  {
  }
}
