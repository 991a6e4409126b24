/** The menu: a main list (Classic, Stages) and a stage list, navigated with
    up, down and select. The cursor is clamped at both ends, never wrapped. */
module Menu {
  import opened Types
  import opened Settings
  import Engine

  datatype MenuNav = NavUp | NavDown | NavSelect

  /** Entries in a menu context: Classic and Stages in the main list, one
      entry per stage in the stage list. */
  function OptionCount(cfg: Config, ctx: MenuContext): int
  {
    match ctx
    case MainMenu => 2
    case StageSelect => cfg.maxStages
  }

  predicate CursorInRange(cfg: Config, s: GameState)
  {
    0 <= s.menuOption < OptionCount(cfg, s.menuContext)
  }

  /** The menu's reaction to one navigation input. Outside the menu only
      select on the idle screen does anything: it opens the main menu. */
  function HandleMenuNav(cfg: Config, s: GameState, nav: MenuNav): (r: GameState)
    // The run itself is never touched.
    ensures r.snake == s.snake && r.food == s.food && r.score == s.score && r.highScore == s.highScore
    ensures r.snakeHue == s.snakeHue && r.direction == s.direction && r.pending == s.pending
    // Only the idle screen and the menu react.
    ensures s.status != Idle && s.status != Menu ==> r == s
    ensures s.status == Idle ==> r == (if nav == NavSelect then Engine.OpenMainMenu(s) else s)
    ensures s.status == Menu ==> r.status == Menu || r.status == Idle
    // Up and down move the cursor by one within its range and change nothing else.
    ensures s.status == Menu && nav != NavSelect ==> r == s.(menuOption := r.menuOption)
    ensures s.status == Menu && cfg.Valid() && CursorInRange(cfg, s) ==> CursorInRange(cfg, r)
    ensures s.status == Menu && nav == NavUp && CursorInRange(cfg, s) ==>
              r.menuOption == (if s.menuOption == 0 then 0 else s.menuOption - 1)
    ensures s.status == Menu && nav == NavDown && CursorInRange(cfg, s) ==>
              r.menuOption == (if s.menuOption == OptionCount(cfg, s.menuContext) - 1 then s.menuOption
                               else s.menuOption + 1)
    // Select in the main list: Classic starts over at stage 1, Stages opens the stage list.
    ensures s.status == Menu && nav == NavSelect && s.menuContext == MainMenu && s.menuOption == 0 ==>
              r == s.(mode := Classic, stage := 1, status := Idle)
    ensures s.status == Menu && nav == NavSelect && s.menuContext == MainMenu && s.menuOption != 0 ==>
              r == s.(menuContext := StageSelect, menuOption := 0)
    // Select in the stage list picks the stage under the cursor.
    ensures s.status == Menu && nav == NavSelect && s.menuContext == StageSelect ==>
              r == s.(mode := Stages, stage := s.menuOption + 1, status := Idle)
              && (CursorInRange(cfg, s) ==> 1 <= r.stage <= cfg.maxStages)
  {
    if s.status == Idle then
      if nav == NavSelect then Engine.OpenMainMenu(s) else s
    else if s.status != Menu then s
    else if s.menuContext == MainMenu then
      match nav
      case NavUp => s.(menuOption := Max(0, s.menuOption - 1))
      case NavDown => s.(menuOption := Min(1, s.menuOption + 1))
      case NavSelect =>
        if s.menuOption == 0 then s.(mode := Classic, stage := 1, status := Idle)
        else s.(menuContext := StageSelect, menuOption := 0)
    else
      match nav
      case NavUp => s.(menuOption := Max(0, s.menuOption - 1))
      case NavDown => s.(menuOption := Min(cfg.maxStages - 1, s.menuOption + 1))
      case NavSelect => s.(mode := Stages, stage := s.menuOption + 1, status := Idle)
  }

  /** At either end of a list, moving further is ignored. */
  lemma CursorClampsAtEnds(cfg: Config, s: GameState)
    requires s.status == Menu && CursorInRange(cfg, s)
    ensures s.menuOption == 0 ==> HandleMenuNav(cfg, s, NavUp) == s
    ensures s.menuOption == OptionCount(cfg, s.menuContext) - 1 ==> HandleMenuNav(cfg, s, NavDown) == s
  {
  }

  /** Away from the ends, up and down undo each other. */
  lemma UpAndDownAreInverse(cfg: Config, s: GameState)
    requires s.status == Menu && CursorInRange(cfg, s)
    ensures s.menuOption < OptionCount(cfg, s.menuContext) - 1 ==>
              HandleMenuNav(cfg, HandleMenuNav(cfg, s, NavDown), NavUp) == s
    ensures s.menuOption > 0 ==>
              HandleMenuNav(cfg, HandleMenuNav(cfg, s, NavUp), NavDown) == s
  {
  }

  /** Every stage can be chosen: from the stage list, `k` presses of down and
      a select start stage `k + 1`. The proof is the call to `PressDownMoves`;
      automatic induction on `k` is switched off so that it is not redone here. */
  lemma {:induction false} EveryStageSelectable(cfg: Config, s: GameState, k: nat)
    requires cfg.Valid() && k < cfg.maxStages
    requires s.status == Menu && s.menuContext == StageSelect && s.menuOption == 0
    ensures var r := HandleMenuNav(cfg, PressDown(cfg, s, k), NavSelect);
            r.status == Idle && r.mode == Stages && r.stage == k + 1
  {
    PressDownMoves(cfg, s, k);
  }

  /** `k` presses of down. */
  function PressDown(cfg: Config, s: GameState, k: nat): GameState
  {
    if k == 0 then s else HandleMenuNav(cfg, PressDown(cfg, s, k - 1), NavDown)
  }

  lemma {:induction false} PressDownMoves(cfg: Config, s: GameState, k: nat)
    requires cfg.Valid() && k < cfg.maxStages
    requires s.status == Menu && s.menuContext == StageSelect && s.menuOption == 0
    ensures PressDown(cfg, s, k) == s.(menuOption := k)
  {
    if k > 0 {
      PressDownMoves(cfg, s, k - 1);
    }
  }
}
