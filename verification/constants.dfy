/** Board dimensions of the 32-square playing area (the dark squares of an 8x8 board). */
module Dimensions {
  const PlayingSquaresPerRow: nat := 4
  const NumberOfRows: nat := PlayingSquaresPerRow * 2
  const PlayingSquaresCount: nat := PlayingSquaresPerRow * NumberOfRows
  const MaxPlayingSquareIndex: int := PlayingSquaresCount - 1
}

/** The fixed pieces, direction order and offset tables of the rules engine. */
module Constants {
  import opened Types

  /** The two starting pieces: a red man and a white man. */
  const Rm: Piece := Piece(Red, Man)
  const Wm: Piece := Piece(White, Man)

  /** The search order of every direction scan: nw, ne, se, sw. */
  const Directions: seq<Direction> := [NW, NE, SE, SW]

  lemma DirectionsListsEveryDirection(d: Direction)
    ensures d in Directions
  {
  }

  /** Index offset of one diagonal step from a square in an even row (rows 0, 2, 4, 6).
      Meaningful only once the direction has been checked to stay on the board. */
  function EvenRowOffset(d: Direction): int
  {
    match d
    case NW => -4
    case NE => -3
    case SE => 5
    case SW => 4
  }

  /** Index offset of one diagonal step from a square in an odd row (rows 1, 3, 5, 7). */
  function OddRowOffset(d: Direction): int
  {
    match d
    case NW => -5
    case NE => -4
    case SE => 4
    case SW => 3
  }
}
