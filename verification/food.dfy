/** The food spawner. The game draws uniformly random cells until one is
    on neither the snake nor the obstacles in force. The random source is a
    parameter here: `draws` is the sequence of cells the retry loop would
    draw, in order. Each draw is `floor(random * size)` per axis, hence on the
    grid; the loop stops at the first vacant draw. */
module Food {
  import opened Types
  import opened Settings

  /** A draw the retry loop accepts: on neither the snake nor the obstacles. */
  predicate Vacant(c: Cell, snake: seq<Cell>, obstacles: seq<Cell>)
  {
    c !in snake && c !in obstacles
  }

  predicate DrawsOnGrid(cfg: Config, draws: seq<Cell>)
  {
    forall i | 0 <= i < |draws| :: cfg.InGrid(draws[i])
  }

  predicate HasVacantDraw(draws: seq<Cell>, snake: seq<Cell>, obstacles: seq<Cell>)
  {
    exists i | 0 <= i < |draws| :: Vacant(draws[i], snake, obstacles)
  }

  /** The draws are on the grid and the loop stops within them. */
  predicate CanSpawn(cfg: Config, snake: seq<Cell>, obstacles: seq<Cell>, draws: seq<Cell>)
  {
    DrawsOnGrid(cfg, draws) && HasVacantDraw(draws, snake, obstacles)
  }

  /** The draw at which the retry loop stops. */
  function FirstVacant(draws: seq<Cell>, snake: seq<Cell>, obstacles: seq<Cell>): (c: Cell)
    requires HasVacantDraw(draws, snake, obstacles)
    ensures Vacant(c, snake, obstacles)
    ensures c in draws
    decreases |draws|
  {
    if Vacant(draws[0], snake, obstacles) then draws[0]
    else
      var i :| 0 <= i < |draws| && Vacant(draws[i], snake, obstacles);
      assert Vacant(draws[1..][i - 1], snake, obstacles);
      FirstVacant(draws[1..], snake, obstacles)
  }

  /** A new food cell for `snake` at `stage` in `mode`: on the grid, off the
      snake, and off the stage's obstacles in Stages mode. */
  function SpawnFood(cfg: Config, snake: seq<Cell>, stage: int, mode: Mode, draws: seq<Cell>): (food: Cell)
    requires CanSpawn(cfg, snake, cfg.Obstacles(stage, mode), draws)
    ensures cfg.InGrid(food)
    ensures food !in snake
    ensures mode == Stages && stage in cfg.stageObstacles ==> food !in cfg.stageObstacles[stage]
    ensures food in draws
  {
    FirstVacant(draws, snake, cfg.Obstacles(stage, mode))
  }

  /** The loop stops at the first vacant draw: every draw before it is
      rejected, and what comes after it is never looked at. */
  lemma {:induction false} FirstVacantIsFirst(draws: seq<Cell>, snake: seq<Cell>, obstacles: seq<Cell>, i: nat)
    requires i < |draws| && Vacant(draws[i], snake, obstacles)
    requires forall j | 0 <= j < i :: !Vacant(draws[j], snake, obstacles)
    ensures FirstVacant(draws, snake, obstacles) == draws[i]
    decreases i
  {
    if i > 0 {
      assert Vacant(draws[1..][i - 1], snake, obstacles);
      forall j | 0 <= j < i - 1
        ensures !Vacant(draws[1..][j], snake, obstacles)
      {
        assert draws[1..][j] == draws[j + 1];
      }
      FirstVacantIsFirst(draws[1..], snake, obstacles, i - 1);
    }
  }

  /** In Classic mode the stage plays no part in where food lands. */
  lemma ClassicSpawnIgnoresStage(cfg: Config, snake: seq<Cell>, stage1: int, stage2: int, draws: seq<Cell>)
    requires CanSpawn(cfg, snake, [], draws)
    ensures SpawnFood(cfg, snake, stage1, Classic, draws) == SpawnFood(cfg, snake, stage2, Classic, draws)
    ensures SpawnFood(cfg, snake, stage1, Classic, draws) == FirstVacant(draws, snake, [])
  {
  }
}
