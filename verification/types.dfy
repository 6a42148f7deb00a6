/** The entities of the rules engine: pieces, boards, moves, actions and the game log. */
module Types {
  import opened Dimensions

  datatype Option<+T> = None | Some(value: T)

  /** The outcome of an operation that may reject its input. */
  datatype Result<+T, +E> = Success(value: T) | Failure(error: E)

  /** The single error of the engine: the move is not allowed. */
  datatype MoveError = IllegalMove

  datatype Color = Red | White

  datatype Rank = Man | King

  datatype Piece = Piece(color: Color, rank: Rank)

  /** A board snapshot: one entry per playing square, `None` for an empty square. */
  type Board = b: seq<Option<Piece>> | |b| == PlayingSquaresCount
    witness seq(PlayingSquaresCount, _ => None)

  datatype Direction = NW | NE | SE | SW

  /** A move between two playing-square indices; its kind and direction are derived. */
  datatype Move = Move(from: int, to: int)

  datatype MoveKind = SimpleMove | JumpMove

  datatype MoveTypeAndDirection = MoveTypeAndDirection(kind: MoveKind, direction: Direction)

  /** One applied move: who made it, the board it produced, and the flags derived from that board. */
  datatype PlayerAction = PlayerAction(
    color: Color,
    kind: MoveKind,
    move: Move,
    resultant: Board,
    endsTurn: bool,
    endsGame: bool,
    winner: Option<Color>)

  /** The game log: the starting board, the append-only list of actions and the UI selection. */
  datatype GameState = GameState(
    initialBoard: Board,
    actions: seq<PlayerAction>,
    selectedIndex: Option<int>)

  /** A square of the 8x8 board, by row (0 = top) and column (0 = left). */
  datatype PhysicalLocation = PhysicalLocation(row: int, column: int)

  /** A dark square of the rendered board: its playing-square index and its contents. */
  datatype PhysicalSquare = PhysicalSquare(index: int, piece: Option<Piece>)
}
