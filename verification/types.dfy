/** Basic vocabulary of the Go engine: stone colours, board positions, moves,
    and the failure values that replace the engine's exceptions. */
module GoTypes {

  /** The content of one board cell. The engine encodes these as +1, -1 and 0;
      `Empty` is also what the winner query returns for a tie. */
  datatype Color = Empty | Black | White

  /** A colour that can be to move or own a stone. */
  type Player = c: Color | c != Empty witness Black

  /** The engine's unary minus on cell values: it swaps the two players and
      leaves `Empty` (the value 0) alone. */
  function Opponent(c: Color): (r: Color)
    ensures c == Empty <==> r == Empty
    ensures r != c || c == Empty
  {
    match c
    case Empty => Empty
    case Black => White
    case White => Black
  }

  /** A board coordinate `(x, y)`; `x` indexes rows and `y` columns. */
  datatype Pos = Pos(x: int, y: int)

  /** A move: a stone at a position, or a pass (`None` in the engine). */
  datatype Action = Pass | Play(at: Pos)

  /** Board contents, one entry per on-board position. */
  type Board = map<Pos, Color>

  datatype Option<T> = None | Some(value: T)

  /** Why an operation was refused. */
  datatype Error =
    | IllegalAction(action: Action)   // `IllegalMove(str(action))`
    | HandicapOnStartedGame           // `IllegalMove("Cannot place handicap on a started game")`
    | UndefinedName(name: string)     // a Python `NameError`

  datatype Result<T> = Success(value: T) | Failure(error: Error)
}
