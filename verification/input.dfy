/** Input dispatch: which transition a keyboard key or an on-screen button
    triggers in each status, and the reversal-blocking direction buffer. */
module Input {
  import opened Types
  import opened Settings
  import opened Food
  import opened Engine
  import opened Menu

  /** The keys the game reacts to; `KeyM` stands for 'm' and 'M', `KeyP` for
      'p' and 'P'. */
  datatype Key = ArrowUp | ArrowDown | ArrowLeft | ArrowRight | Enter | Space | KeyM | KeyP | Escape | OtherKey

  /** The commands the on-screen control handler accepts: the phone's
      direction pad, start/reset and pause buttons, and a menu command that
      the handler serves although no button on the phone sends it. */
  datatype Button = DirButton(dir: Direction) | ResetButton | PauseButton | MenuCommand

  predicate IsArrow(k: Key)
  {
    k == ArrowUp || k == ArrowDown || k == ArrowLeft || k == ArrowRight
  }

  function ArrowDirection(k: Key): Direction
    requires IsArrow(k)
  {
    match k
    case ArrowUp => Up
    case ArrowDown => Down
    case ArrowLeft => Left
    case ArrowRight => Right
  }

  function ArrowKey(d: Direction): (k: Key)
    ensures IsArrow(k) && ArrowDirection(k) == d
  {
    match d
    case Up => ArrowUp
    case Down => ArrowDown
    case Left => ArrowLeft
    case Right => ArrowRight
  }

  predicate IsConfirm(k: Key)
  {
    k == Enter || k == Space
  }

  predicate IsPauseKey(k: Key)
  {
    k == KeyP || k == Escape || k == Space
  }

  /** The buffered direction after a request: a request for the opposite of
      the buffered direction is dropped, any other overwrites the buffer. */
  function SetDirection(buffered: Direction, requested: Direction): (d: Direction)
    ensures d == requested || d == buffered
    ensures d == buffered <==> requested == buffered || requested == Opposite(buffered)
    ensures d != Opposite(buffered)
  {
    match requested
    case Up => if buffered != Down then Up else buffered
    case Down => if buffered != Up then Down else buffered
    case Left => if buffered != Right then Left else buffered
    case Right => if buffered != Left then Right else buffered
  }

  /** The spawner must stop within `draws` when a fresh board is laid out:
      the start snake at the current stage and mode. In Classic mode no
      obstacles are in force, so the stage a reset would pick makes no
      difference. */
  predicate FreshBoardReady(cfg: Config, s: GameState, draws: seq<Cell>)
  {
    CanSpawn(cfg, StartSnake(), cfg.Obstacles(s.stage, s.mode), draws)
  }

  predicate KeyReady(cfg: Config, s: GameState, k: Key, draws: seq<Cell>)
  {
    (k != KeyM && IsConfirm(k) && (s.status == Idle || s.status == LevelUp)) ==> FreshBoardReady(cfg, s, draws)
  }

  predicate ButtonReady(cfg: Config, s: GameState, b: Button, draws: seq<Cell>)
  {
    (b == ResetButton && (s.status == Idle || s.status == LevelUp)) ==> FreshBoardReady(cfg, s, draws)
  }

  /** The keyboard handler. */
  function HandleKey(cfg: Config, s: GameState, k: Key, draws: seq<Cell>): (r: GameState)
    requires KeyReady(cfg, s, k, draws)
    // Keys never end a run nor add points; only a new run resets the score.
    ensures r.highScore == s.highScore
    ensures r.score == s.score || (r.score == 0 && r.status == Playing && s.status == Idle)
    // The menu key opens the main menu from every status, a level-up included.
    ensures k == KeyM ==> r.status == Menu && r.menuContext == MainMenu && r.menuOption == 0
                          && r == s.(status := r.status, menuContext := r.menuContext, menuOption := r.menuOption)
    // Confirm starts a run from the idle screen, resumes after a level-up,
    // and leads from game over to the main menu.
    ensures s.status == Idle && IsConfirm(k) ==> r == ResetGame(cfg, s, None, None, draws)
    ensures s.status == LevelUp && IsConfirm(k) ==> r == ContinueLevel(cfg, s, draws)
    ensures s.status == GameOver && IsConfirm(k) ==> r == OpenMainMenu(s)
    // On the idle and game-over screens every other key does nothing.
    ensures (s.status == Idle || s.status == GameOver) && k != KeyM && !IsConfirm(k) ==> r == s
    // In the menu, up and down move the cursor, confirm selects, and the rest
    // is ignored.
    ensures s.status == Menu && k == ArrowUp ==> r == HandleMenuNav(cfg, s, NavUp)
    ensures s.status == Menu && k == ArrowDown ==> r == HandleMenuNav(cfg, s, NavDown)
    ensures s.status == Menu && IsConfirm(k) ==> r == HandleMenuNav(cfg, s, NavSelect)
    ensures s.status == Menu && k != KeyM && k != ArrowUp && k != ArrowDown && !IsConfirm(k) ==> r == s
    ensures s.status == LevelUp && k != KeyM && !IsConfirm(k) ==> r == s
    // While paused, only a pause key or the menu key does anything.
    ensures s.status == Paused && k != KeyM && !IsPauseKey(k) ==> r == s
    ensures (s.status == Playing || s.status == Paused) && IsPauseKey(k) ==> r == TogglePause(s)
    // While playing, arrows feed the direction buffer and nothing else.
    ensures s.status == Playing && IsArrow(k) ==>
              r == s.(pending := SetDirection(s.pending, ArrowDirection(k)))
    // While playing, every other key (Enter included) does nothing.
    ensures s.status == Playing && k != KeyM && !IsPauseKey(k) && !IsArrow(k) ==> r == s
    ensures s.status != Playing ==> r.pending == s.pending || r.pending == Right
  {
    if k == KeyM then OpenMainMenu(s)
    else if s.status == Idle || s.status == GameOver then
      if IsConfirm(k) then
        if s.status == Idle then ResetGame(cfg, s, None, None, draws) else OpenMainMenu(s)
      else if k == ArrowUp then HandleMenuNav(cfg, s, NavUp)
      else if k == ArrowDown then HandleMenuNav(cfg, s, NavDown)
      else s
    else if s.status == Menu then
      if k == ArrowUp then HandleMenuNav(cfg, s, NavUp)
      else if k == ArrowDown then HandleMenuNav(cfg, s, NavDown)
      else if IsConfirm(k) then HandleMenuNav(cfg, s, NavSelect)
      else s
    else if s.status == LevelUp then
      if IsConfirm(k) then ContinueLevel(cfg, s, draws) else s
    else if IsPauseKey(k) then TogglePause(s)
    else if s.status == Paused then s
    else if IsArrow(k) then
      assert s.status == Playing;
      s.(pending := SetDirection(s.pending, ArrowDirection(k)))
    else s
  }

  /** The on-screen button handler. */
  function HandleControl(cfg: Config, s: GameState, b: Button, draws: seq<Cell>): (r: GameState)
    requires ButtonReady(cfg, s, b, draws)
    ensures r.highScore == s.highScore
    ensures r.score == s.score || (r.score == 0 && r.status == Playing && s.status == Idle)
    ensures b == MenuCommand ==> r == OpenMainMenu(s)
    // Reset: starts a run when idle, resumes after a level-up, and otherwise
    // (game over, playing, paused) abandons to the main menu.
    ensures s.status == Idle && b == ResetButton ==> r == ResetGame(cfg, s, None, None, draws)
    ensures s.status == LevelUp && b == ResetButton ==> r == ContinueLevel(cfg, s, draws)
    ensures (s.status == GameOver || s.status == Playing || s.status == Paused) && b == ResetButton ==>
              r == OpenMainMenu(s)
    ensures s.status != Menu && b == PauseButton ==> r == TogglePause(s)
    // In the menu, the pad's up and down move the cursor, reset selects, and
    // the pad's left and right and the pause button are ignored.
    ensures s.status == Menu && b == DirButton(Up) ==> r == HandleMenuNav(cfg, s, NavUp)
    ensures s.status == Menu && b == DirButton(Down) ==> r == HandleMenuNav(cfg, s, NavDown)
    ensures s.status == Menu && b == ResetButton ==> r == HandleMenuNav(cfg, s, NavSelect)
    ensures s.status == Menu && (b == DirButton(Left) || b == DirButton(Right) || b == PauseButton) ==> r == s
    // The pad steers only while playing.
    ensures s.status == Playing && b.DirButton? ==> r == s.(pending := SetDirection(s.pending, b.dir))
    ensures s.status != Playing && s.status != Menu && b.DirButton? ==> r == s
  {
    if b == MenuCommand then OpenMainMenu(s)
    else if s.status == Menu then
      if b == DirButton(Up) then HandleMenuNav(cfg, s, NavUp)
      else if b == DirButton(Down) then HandleMenuNav(cfg, s, NavDown)
      else if b == ResetButton then HandleMenuNav(cfg, s, NavSelect)
      else s
    else if b == ResetButton then
      if s.status == LevelUp then ContinueLevel(cfg, s, draws)
      else if s.status == Idle then ResetGame(cfg, s, None, None, draws)
      else if s.status == GameOver then OpenMainMenu(s)
      else OpenMainMenu(s)
    else if b == PauseButton then TogglePause(s)
    else if s.status != Playing then s
    else s.(pending := SetDirection(s.pending, b.dir))
  }

  /** The keyboard and the buttons agree: arrows and the pad steer alike,
      the menu key and the menu command are the same, the pause keys and the
      pause button are the same while a run is on, and confirm and the reset
      button agree everywhere except during a run, where only the button
      abandons it. */
  lemma KeysAndButtonsAgree(cfg: Config, s: GameState, d: Direction, draws: seq<Cell>)
    requires FreshBoardReady(cfg, s, draws)
    ensures HandleKey(cfg, s, KeyM, draws) == HandleControl(cfg, s, MenuCommand, draws)
    ensures s.status == Playing ==>
              HandleKey(cfg, s, ArrowKey(d), draws) == HandleControl(cfg, s, DirButton(d), draws)
    ensures s.status == Playing || s.status == Paused ==>
              HandleKey(cfg, s, KeyP, draws) == HandleControl(cfg, s, PauseButton, draws)
    ensures s.status != Playing && s.status != Paused ==>
              HandleKey(cfg, s, Enter, draws) == HandleControl(cfg, s, ResetButton, draws)
    ensures s.status == Playing ==>
              HandleKey(cfg, s, Enter, draws) == s && HandleControl(cfg, s, ResetButton, draws).status == Menu
  {
  }

  /** The buffer is checked against the buffered direction, not against the
      direction the snake last moved in: two quick presses between ticks can
      turn the snake back onto its own neck, which ends the run. */
  lemma TwoPressesCanReverse(cfg: Config, s: GameState, draws: seq<Cell>)
    requires cfg.Valid()
    requires s.status == Playing && s.snake == StartSnake() && s.pending == Right
    ensures var t := HandleKey(cfg, HandleKey(cfg, s, ArrowUp, draws), ArrowLeft, draws);
            t.pending == Opposite(s.pending) && MoveSnake(cfg, t, draws).status == GameOver
  {
  }
}
