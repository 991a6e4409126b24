/** The value types of the game: grid cells, directions, the status of a run,
    the game mode, the menu context and the whole state snapshot that the
    presentation layer reads after every transition. */
module Types {

  datatype Option<+T> = None | Some(value: T)

  /** An integer grid coordinate; equality is by value. */
  datatype Cell = Cell(x: int, y: int)

  datatype Direction = Up | Down | Left | Right

  /** The direction that points the other way. */
  function Opposite(d: Direction): Direction
  {
    match d
    case Up => Down
    case Down => Up
    case Left => Right
    case Right => Left
  }

  /** The neighbouring cell one step away in direction `d`; y grows downwards. */
  function Advance(c: Cell, d: Direction): (n: Cell)
    ensures n != c
    ensures (n.x == c.x && (n.y == c.y - 1 || n.y == c.y + 1))
         || (n.y == c.y && (n.x == c.x - 1 || n.x == c.x + 1))
    // Up and Left head towards the walls at coordinate 0.
    ensures d == Up ==> n.y < c.y
    ensures d == Down ==> n.y > c.y
    ensures d == Left ==> n.x < c.x
    ensures d == Right ==> n.x > c.x
  {
    match d
    case Up => Cell(c.x, c.y - 1)
    case Down => Cell(c.x, c.y + 1)
    case Left => Cell(c.x - 1, c.y)
    case Right => Cell(c.x + 1, c.y)
  }

  datatype Status = Idle | Menu | Playing | Paused | GameOver | LevelUp

  datatype Mode = Classic | Stages

  datatype MenuContext = MainMenu | StageSelect

  /** One snapshot of the game. `pending` is the buffered direction that the
      next tick moves in; `direction` is the field the snapshot carries, which
      only a reset writes. */
  datatype GameState = GameState(
    snake: seq<Cell>,
    food: Cell,
    direction: Direction,
    status: Status,
    score: nat,
    highScore: int,
    stage: int,
    mode: Mode,
    menuOption: int,
    menuContext: MenuContext,
    snakeHue: nat,
    pending: Direction)

  function Max(a: int, b: int): int
  {
    if a >= b then a else b
  }

  function Min(a: int, b: int): int
  {
    if a <= b then a else b
  }

  /** No cell occurs twice. */
  predicate NoDuplicates(cells: seq<Cell>)
  {
    forall i, j | 0 <= i < j < |cells| :: cells[i] != cells[j]
  }

  /** No cell of `a` is a cell of `b`. */
  predicate Disjoint(a: seq<Cell>, b: seq<Cell>)
  {
    forall c | c in a :: c !in b
  }

  /** Stepping one way and then the opposite way returns to the start. */
  lemma AdvanceOppositeReturns(c: Cell, d: Direction)
    ensures Opposite(d) != d && Opposite(Opposite(d)) == d
    ensures Advance(Advance(c, d), Opposite(d)) == c
  {
  }
}
