/** The game's tuning constants. Those constants.ts defines are literal
    constants here; the grid size, the level threshold, the stage count, the
    palette size and the per-stage obstacle table are fields of a `Config`
    so that every property is proved for every table that meets `Valid`. */
module Settings {
  import opened Types

  /** Tick interval at stage 1 with no progress, in milliseconds. */
  const INITIAL_SPEED: int := 120
  /** The floor of the tick interval, in milliseconds. */
  const MIN_SPEED: int := 50
  /** Points for one piece of food. */
  const FOOD_POINTS: nat := 10
  /** Milliseconds taken off the interval per stage above the first. */
  const STAGE_PENALTY: int := 15
  /** Milliseconds taken off the interval per FOOD_POINTS within a level. */
  const PROGRESS_PENALTY: int := 2

  datatype Config = Config(
    gridWidth: int,
    gridHeight: int,
    pointsPerLevel: int,
    maxStages: int,
    paletteSize: int,
    stageObstacles: map<int, seq<Cell>>)
  {
    /** What the game's arithmetic needs: a non-empty grid, a positive level
        threshold and palette, at least one stage. */
    predicate Valid()
    {
      && gridWidth > 0
      && gridHeight > 0
      && pointsPerLevel > 0
      && maxStages >= 1
      && paletteSize > 0
    }

    /** The starting snake lies on the grid and on no stage's obstacles, so
        every run starts on a legal board. */
    predicate Fair()
    {
      && Valid()
      && (forall c | c in StartSnake() :: InGrid(c))
      && (forall st | st in stageObstacles :: Disjoint(StartSnake(), stageObstacles[st]))
    }

    predicate InGrid(c: Cell)
    {
      0 <= c.x < gridWidth && 0 <= c.y < gridHeight
    }

    /** The obstacles in force: the stage's layout in Stages mode (none when
        the table has no entry for the stage), and none in Classic mode. */
    function Obstacles(stage: int, mode: Mode): (obs: seq<Cell>)
      ensures mode == Classic ==> obs == []
      ensures mode == Stages && stage in stageObstacles ==> obs == stageObstacles[stage]
      ensures stage !in stageObstacles ==> obs == []
    {
      if mode == Stages && stage in stageObstacles then stageObstacles[stage] else []
    }
  }

  /** The fixed three-cell snake every run and every stage starts with, head
      first, pointing right. */
  function StartSnake(): (snake: seq<Cell>)
    ensures |snake| == 3 && NoDuplicates(snake)
    ensures snake[1] == Advance(snake[0], Left) && snake[2] == Advance(snake[1], Left)
  {
    [Cell(10, 10), Cell(9, 10), Cell(8, 10)]
  }
}
