/** The speed curve: how many milliseconds pass between two ticks, given the
    stage and the score. */
module Speed {
  import opened Types
  import opened Settings

  /** Points scored since the last level boundary. Scores are never negative,
      so JavaScript's truncating `%` agrees with Dafny's. */
  function LevelProgress(cfg: Config, score: nat): (p: nat)
    requires cfg.pointsPerLevel > 0
    ensures p < cfg.pointsPerLevel
  {
    score % cfg.pointsPerLevel
  }

  /** Each stage above the first takes STAGE_PENALTY ms off the interval, each
      completed FOOD_POINTS of level progress takes PROGRESS_PENALTY ms off,
      and the interval never drops below MIN_SPEED. */
  function TickInterval(cfg: Config, stage: int, score: nat): (ms: int)
    requires cfg.pointsPerLevel > 0
    ensures ms >= MIN_SPEED
    ensures stage >= 1 ==> ms <= INITIAL_SPEED
    ensures ms >= INITIAL_SPEED - (stage - 1) * STAGE_PENALTY - (LevelProgress(cfg, score) / 10) * PROGRESS_PENALTY
    ensures ms == MIN_SPEED || ms == INITIAL_SPEED - (stage - 1) * STAGE_PENALTY - (LevelProgress(cfg, score) / 10) * PROGRESS_PENALTY
  {
    var stageDifficulty := (stage - 1) * STAGE_PENALTY;
    var scoreDifficulty := (LevelProgress(cfg, score) / 10) * PROGRESS_PENALTY;
    Max(MIN_SPEED, INITIAL_SPEED - stageDifficulty - scoreDifficulty)
  }

  /** Euclidean division is unique: a quotient and a remainder in range are
      the ones `/` and `%` produce. */
  lemma ModUnique(a: int, p: int, q: int, r: int)
    requires p > 0 && 0 <= r < p && a == q * p + r
    ensures a % p == r
  {
    var q', r' := a / p, a % p;
    assert (q - q') * p == r' - r;
    if q - q' >= 1 {
      assert false;
    } else if q - q' <= -1 {
      assert false;
    }
  }

  /** At a fixed score a later stage never ticks more slowly. */
  lemma TickIntervalNonIncreasingInStage(cfg: Config, stage1: int, stage2: int, score: nat)
    requires cfg.pointsPerLevel > 0
    requires stage1 <= stage2
    ensures TickInterval(cfg, stage2, score) <= TickInterval(cfg, stage1, score)
  {
  }

  /** At a fixed stage, more progress within the level never ticks more slowly. */
  lemma TickIntervalNonIncreasingInProgress(cfg: Config, stage: int, score1: nat, score2: nat)
    requires cfg.pointsPerLevel > 0
    requires LevelProgress(cfg, score1) <= LevelProgress(cfg, score2)
    ensures TickInterval(cfg, stage, score2) <= TickInterval(cfg, stage, score1)
  {
  }

  /** The interval depends on the score only through the progress within the
      current level. */
  lemma TickIntervalDependsOnProgress(cfg: Config, stage: int, score1: nat, score2: nat)
    requires cfg.pointsPerLevel > 0
    requires LevelProgress(cfg, score1) == LevelProgress(cfg, score2)
    ensures TickInterval(cfg, stage, score1) == TickInterval(cfg, stage, score2)
  {
  }

  /** One more level's worth of points leaves the interval where it was. */
  lemma TickIntervalPeriodicInScore(cfg: Config, stage: int, score: nat)
    requires cfg.pointsPerLevel > 0
    ensures TickInterval(cfg, stage, score + cfg.pointsPerLevel) == TickInterval(cfg, stage, score)
  {
    var p := cfg.pointsPerLevel;
    ModUnique(score + p, p, score / p + 1, score % p);
    TickIntervalDependsOnProgress(cfg, stage, score + p, score);
  }

  /** Within a level, each food eaten takes PROGRESS_PENALTY ms off the
      interval until the floor is reached. */
  lemma TickIntervalStepPerFood(cfg: Config, stage: int, score: nat)
    requires cfg.pointsPerLevel > 0
    requires LevelProgress(cfg, score) + FOOD_POINTS < cfg.pointsPerLevel
    requires INITIAL_SPEED - (stage - 1) * STAGE_PENALTY
             - ((LevelProgress(cfg, score) + FOOD_POINTS) / 10) * PROGRESS_PENALTY >= MIN_SPEED
    ensures TickInterval(cfg, stage, score + FOOD_POINTS) == TickInterval(cfg, stage, score) - PROGRESS_PENALTY
  {
    var p := cfg.pointsPerLevel;
    ModUnique(score + FOOD_POINTS, p, score / p, score % p + FOOD_POINTS);
  }

  /** On a level boundary the interval is back at the stage's starting pace. */
  lemma TickIntervalAtLevelBoundary(cfg: Config, stage: int, score: nat)
    requires cfg.pointsPerLevel > 0
    requires score % cfg.pointsPerLevel == 0
    ensures TickInterval(cfg, stage, score) == TickInterval(cfg, stage, 0)
    ensures stage >= 1 ==> TickInterval(cfg, stage, score) == Max(MIN_SPEED, INITIAL_SPEED - (stage - 1) * STAGE_PENALTY)
  {
    TickIntervalDependsOnProgress(cfg, stage, score, 0);
  }
}
