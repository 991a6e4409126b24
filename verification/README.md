# Snake game core in Dafny

This project models the game logic of a Nokia-style snake game. The snake
moves on a fixed grid, one cell per tick. It dies when its head would leave
the grid or move onto a stage obstacle or its own body. It grows and scores
when it eats food, and in Stages mode, below the last stage, it advances a
stage at every level threshold. A menu chooses
between Classic and Stages mode and picks the starting stage. Keyboard keys
and on-screen buttons are dispatched to these transitions according to the
current status.

The state is one immutable `GameState` record (`types.dfy`). Every transition
is a pure function from one snapshot to the next:

- `settings.dfy` (`Settings`): the constants and the `Config` record. App.tsx
  refers to a grid size, a level threshold, a stage count, a palette
  size and an obstacle table that are not defined in its constants file. They
  are therefore fields of `Config`, and every property holds for every
  configuration that meets `Valid` (positive sizes, at least one stage).
  Properties about the whole game also need `Fair`: the start snake lies on the
  grid and on no stage's obstacles.
- `food.dfy` (`Food`): the food spawner. The random source is a parameter.
  `draws` lists the cells the retry loop would draw, in order, and the result
  is the first vacant one.
- `speed.dfy` (`Speed`): the tick interval as a function of stage and score.
- `engine.dfy` (`Engine`): pause, the per-tick move, starting a run, and
  continuing after a level-up.
- `menu.dfy` (`Menu`): menu navigation with a clamped cursor.
- `input.dfy` (`Input`): the keyboard and button dispatch, and the
  reversal-blocking direction buffer. The buffer is the `pending` field.
- `game.dfy` (`Game`): the whole machine as `Step(state, event)`, and the
  invariant that every reachable snapshot keeps.

Behaviours of the code worth knowing:

- After a level-up, the snapshot keeps the snake and food from before the
  tick (App.tsx:258-264). The grown snake is dropped, and the board is
  rebuilt when play continues (App.tsx:345-355).
- The M key opens the main menu from every status, including the level-up
  pause (App.tsx:321-324). The control handler serves a menu command with the
  same effect (App.tsx:404-407), but the phone's props type its commands as a
  direction, reset or pause (components/Nokia3310.tsx:7), and none of its
  buttons sends it (components/Nokia3310.tsx:35-72). The model keeps the
  command as `MenuCommand`.
- A direction request is checked against the buffered direction, not against
  the direction the snake last moved in (App.tsx:367-370). So two quick
  presses between ticks (up, then left, while moving right) turn the snake
  back onto its neck, and the next tick ends the run.
  `Input.TwoPressesCanReverse` proves this.
- The `direction` field of the snapshot is written only by a reset
  (App.tsx:191). The tick reads the buffer (App.tsx:220).
- Confirm on the idle screen starts a run directly (App.tsx:328-329, 426-427).
  The branch of the menu handler that opens the menu from the idle screen
  (App.tsx:284-287) is modelled, but no key or button reaches it.

## Model

| member | source | states |
|---|---|---|
| Types.Advance | App.tsx:217-225 | the new head is a different cell, exactly one step away along one axis; Up and Left decrease y and x, Down and Right increase them |
| Types.AdvanceOppositeReturns | App.tsx:220-225 | a step followed by a step in the opposite direction returns to the start cell |
| Settings.Config.Obstacles | App.tsx:234 | the obstacles in force are the stage's layout in Stages mode, none when the table has no entry for the stage, and none in Classic mode |
| Settings.StartSnake | App.tsx:181-185 | every run starts with three distinct, contiguous cells, head first, with the body trailing to the left |
| Food.FirstVacant | App.tsx:164-172 | the retry loop stops at a drawn cell that is on neither the snake nor the obstacles |
| Food.SpawnFood | App.tsx:161-174 | new food is on the grid and off the snake; in Stages mode it is also off the stage's obstacles; it is one of the drawn cells |
| Food.FirstVacantIsFirst | App.tsx:164-172 | the spawner returns the first vacant draw; every earlier draw is rejected |
| Food.ClassicSpawnIgnoresStage | App.tsx:163 | in Classic mode no obstacles are in force, so the stage has no effect on where food lands |
| Speed.LevelProgress | App.tsx:380 | progress within a level is always below the level threshold |
| Speed.TickInterval | App.tsx:379-381 | the interval is never below MIN_SPEED and, from stage 1 on, never above INITIAL_SPEED; it is never below the linear stage and progress penalties, and above the floor it equals them |
| Speed.TickIntervalNonIncreasingInStage | App.tsx:379-381 | at a fixed score, a later stage never ticks more slowly |
| Speed.TickIntervalNonIncreasingInProgress | App.tsx:379-381 | at a fixed stage, more progress within the level never ticks more slowly |
| Speed.TickIntervalDependsOnProgress | App.tsx:380 | two scores with the same progress within their levels give the same interval |
| Speed.TickIntervalPeriodicInScore | App.tsx:380 | adding a full level's worth of points leaves the interval unchanged |
| Speed.TickIntervalStepPerFood | App.tsx:380-381 | within a level and above the floor, each food eaten takes PROGRESS_PENALTY ms off the interval |
| Speed.TickIntervalAtLevelBoundary | App.tsx:379-381 | on a level boundary the interval returns to the stage's base pace |
| Engine.TogglePause | App.tsx:204-211 | playing becomes paused and paused becomes playing; every other status is unchanged; nothing but the status changes |
| Engine.TogglePauseTwiceRestores | App.tsx:206-209 | toggling twice restores the snapshot |
| Engine.EndRun | App.tsx:229-231 | a run ends with status game over and the high score max(score, highScore), which is at least both; nothing else changes |
| Engine.OpenMainMenu | App.tsx:322 | the main menu opens with the cursor on its first entry; nothing but status, context and cursor changes |
| Engine.MoveSnake | App.tsx:213-279 | no-op unless playing; game over exactly on a wall, obstacle or body collision, with high score max(score, highScore) and nothing else changed; otherwise the new head goes first; without food the tail is dropped; with food the snake grows by one, the score rises by 10, the hue advances modulo the palette, and the new food is vacant; a level-up (Stages mode, positive multiple of the threshold, below the last stage) keeps the pre-tick snake and food and advances the stage |
| Engine.ResetGame | App.tsx:176-202 | a run starts playing with the start snake heading right, zero score and hue, and vacant food; a forced mode or stage is used when given; otherwise it keeps the mode; the stage is 1 in Classic mode and unchanged in Stages mode; the high score and menu are untouched |
| Engine.ContinueLevel | App.tsx:345-355 | after a level-up, play resumes with the start snake heading right and vacant food; score, stage, hue and mode are kept |
| Engine.ContinueIsResetKeepingProgress | App.tsx:417-425 | continuing in Stages mode lays out the same board as a fresh run at that stage; only score, hue and snapshot direction differ |
| Engine.ClassicNeverLevelsUp | App.tsx:256 | a Classic-mode tick never levels up and never changes the stage |
| Engine.TailCellIsDeadly | App.tsx:241-245 | moving onto the cell the tail is about to leave still ends the run |
| Engine.TickScoresOneFoodAtMost | App.tsx:247-277 | a tick raises the score by 0 or 10; when it scores, the snake grows by one or the stage advances |
| Engine.ClassifyDescribesMove | App.tsx:213-279 | the five tick outcomes (not playing, died, moved, ate, levelled up) each have their effect on status, score, length and stage |
| Menu.HandleMenuNav | App.tsx:281-313 | outside the idle screen and the menu, nothing changes; up and down move the cursor by one, clamped to the context's range, which is kept; in the main menu, select on option 0 picks Classic at stage 1 and goes idle, and any other option opens the stage list at 0; in the stage list, select picks Stages at stage cursor+1, within [1, stage count], keeping the context and cursor; the run itself is never touched |
| Menu.CursorClampsAtEnds | App.tsx:292-305 | up at the first entry and down at the last entry do nothing |
| Menu.UpAndDownAreInverse | App.tsx:292-305 | away from the ends, down then up (and up then down) restore the snapshot |
| Menu.PressDownMoves | App.tsx:305 | from the top of the stage list, k presses of down (k below the stage count) put the cursor on entry k |
| Menu.EveryStageSelectable | App.tsx:303-308 | every stage from 1 to the stage count can be reached from the stage list |
| Input.SetDirection | App.tsx:367-370 | the buffer stays as it was exactly when the request repeats it or reverses it; any other request replaces it; one request never turns the buffer to its own reverse |
| Input.ArrowKey | App.tsx:366-371 | each direction has its arrow key, which the dispatch maps back to that direction |
| Input.HandleKey | App.tsx:315-376 | keys never change the high score, and change the score only when a run starts; M opens the main menu from every status; confirm starts a run from idle, resumes after a level-up, and goes from game over to the main menu's first entry; on idle and game over every other key does nothing; in the menu, up and down move the cursor, confirm selects, and other keys do nothing; while paused, only pause keys and M act; P, Escape and Space toggle pause during a run; while playing, arrows change only the direction buffer and every other non-pause key, Enter included, does nothing |
| Input.HandleControl | App.tsx:401-447 | the menu command (which no phone button sends) opens the main menu and changes nothing else; in the menu, pad up and down move the cursor, reset selects, and pad left/right and pause do nothing; reset starts a run from idle, resumes after a level-up, and otherwise leaves for the main menu, changing nothing but status, context and cursor; pause toggles outside the menu; the pad steers only while playing and is ignored outside the menu |
| Input.KeysAndButtonsAgree | App.tsx:401-447 | keyboard and buttons agree on steering and pause, and the M key agrees with the menu command; confirm and reset agree in every status except during a run, where Enter does nothing and reset leaves for the menu |
| Input.TwoPressesCanReverse | App.tsx:367-370 | two presses between ticks can set the buffer to the reverse of the last move, and the next tick then ends the run |
| Game.InitialState | App.tsx:45-61 | start-up is idle in Classic mode at stage 1 on the main menu's first entry, with the start snake heading right, no score, hue 0 and the stored high score |
| Game.InitialStateSatisfiesInv | App.tsx:45-61 | the start-up snapshot satisfies the game invariant |
| Game.MoveSnakePreservesInv | App.tsx:213-279 | a tick keeps the invariant: stage in [1, stage count], Classic at stage 1, cursor in range, hue below the palette size, score a multiple of 10, a legal snake, and during a run a legal board |
| Game.StartSnakeLegal | App.tsx:181-185 | on a fair configuration the start snake is three distinct on-grid cells, clear of the obstacles of any stage |
| Game.HandleKeyPreservesInv | App.tsx:315-376 | every key keeps the invariant |
| Game.HandleControlPreservesInv | App.tsx:401-447 | every button keeps the invariant |
| Game.StepPreservesInv | App.tsx:315-447 | every key, button and tick keeps the invariant |
| Game.RunPreservesInv | App.tsx:281-447 | any sequence of inputs, each finding the random draws it needs, keeps the invariant |
| Game.ReachableStatesSatisfyInv | App.tsx:45-61 | every snapshot reachable from start-up has a snake of at least three distinct on-grid cells and a stage in [1, stage count]; while playing, paused or just over, the snake avoids the obstacles in force and the food is on the grid, off the snake and off the obstacles |

## Left out

- Audio and speech: the Web Audio helpers, the text-to-speech network call and its cache, and the level-up jingle (App.tsx:15-159, 251, 257). They are fire-and-forget side effects with no influence on the state.
- Persistence: the high-score reads and writes to browser storage (App.tsx:55, 230, 237, 243). The stored value is the `storedHighScore` argument of `Game.InitialState`, and only the `max` update is modelled. A stored value that does not parse as a number is not modelled.
- Timing: the animation-frame loop and the elapsed-time comparison (App.tsx:383-399) are host timing. Only the interval formula is modelled, and a `Tick` event stands for one accepted frame.
- Randomness: `Math.random` is replaced by the `draws` parameter. The retry loop (App.tsx:164-172) ends with probability 1 only while a free cell exists. When the grown snake and the obstacles in force cover the whole grid, which can happen in Classic mode or at the last stage, the loop never exits and the game hangs. The model does not describe that hang: each transition that spawns food requires, through `Food.CanSpawn`, that `draws` is on the grid and contains a vacant cell, so a tick that would hang is outside every modelled run.
- Food.SpawnFood: it does not state that the food is chosen uniformly, because the model has no probabilities.
- Event timing: the handlers read the status from the last rendered snapshot. The model assumes each event sees the snapshot left by the previous one, so batched or stale renders are not modelled.
- Number representation: scores and coordinates are unbounded integers. JavaScript's 64-bit floating-point numbers agree with them far beyond any reachable score.
- Keys other than arrows, Enter, Space, M, P and Escape all become `OtherKey`, and no handler reacts to them.
- Difficulty: the Easy/Medium/Hard setting does not exist in this version of the game, so it is not modelled.
- The menu command: `MenuCommand` is an input the model admits although no button on the phone sends it, so the reachable states the invariant covers are a superset of those a player can reach.
- Rendering: `components/Nokia3310.tsx` and `components/LCDScreen.tsx`, browser event plumbing (`preventDefault`) and React hooks are presentation only.
