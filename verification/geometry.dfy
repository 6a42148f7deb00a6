/** Index arithmetic over the zigzag numbering of the 32 playing squares.

    Square `i` lies in row `i / 4` (row 0 at the top, where the red men start) and is the
    `i % 4`-th playing square of that row. In even rows the playing squares sit in the odd
    physical columns, in odd rows in the even ones, so the index offset of a diagonal step
    depends on the parity of the row it starts from. */
module Geometry {
  import opened Types
  import opened Dimensions
  import opened Constants

  /** Row of an index; for the positive divisor 4, Dafny's division is the floor division of the source. */
  function Row(i: int): int
  {
    i / PlayingSquaresPerRow
  }

  /** Position of an index within its row, 0..3 from the left. */
  function Column(i: int): int
  {
    i % PlayingSquaresPerRow
  }

  predicate IsInEvenRow(i: int)
  {
    Row(i) % 2 == 0
  }

  /** Whether an index names one of the 32 playing squares, that is, lies in one of the rows. */
  function IndexIsInBounds(i: int): (r: bool)
    ensures r <==> 0 <= Row(i) < NumberOfRows
  {
    0 <= i <= MaxPlayingSquareIndex
  }

  predicate IsNorth(d: Direction) { d == NW || d == NE }
  predicate IsSouth(d: Direction) { d == SW || d == SE }
  predicate IsWest(d: Direction) { d == NW || d == SW }
  predicate IsEast(d: Direction) { d == NE || d == SE }

  /** Row change of one step in direction `d`. */
  function RowStep(d: Direction): int
  {
    if IsNorth(d) then -1 else 1
  }

  /** Index change of a two-step jump in direction `d`; it does not depend on row parity. */
  function JumpOffset(d: Direction): int
  {
    match d
    case NW => -9
    case NE => -7
    case SE => 9
    case SW => 7
  }

  function Opposite(d: Direction): Direction
  {
    match d
    case NW => SE
    case NE => SW
    case SE => NW
    case SW => NE
  }

  /** Whether one step from `origin` in direction `d` stays on the board: it leaves the board
      exactly going north from the top row, south from the bottom row, west from the leftmost
      square of an odd row and east from the rightmost square of an even row. */
  function DirectionIsInBounds(origin: int, d: Direction): (r: bool)
    ensures IndexIsInBounds(origin) ==>
      (r <==>
        && !(IsNorth(d) && Row(origin) == 0)
        && !(IsSouth(d) && Row(origin) == NumberOfRows - 1)
        && !(IsWest(d) && !IsInEvenRow(origin) && Column(origin) == 0)
        && !(IsEast(d) && IsInEvenRow(origin) && Column(origin) == PlayingSquaresPerRow - 1))
  {
    if IsNorth(d) && origin < PlayingSquaresPerRow then false
    else if IsSouth(d) && origin >= PlayingSquaresPerRow * (NumberOfRows - 1) then false
    else if IsWest(d) && !IsInEvenRow(origin) && origin % PlayingSquaresPerRow == 0 then false
    else if IsEast(d) && IsInEvenRow(origin) && (origin + 1) % PlayingSquaresPerRow == 0 then false
    else true
  }

  /** The square one diagonal step away, or `None` when the step leaves the board.
      A step moves exactly one row north or south, and from a square of the board it lands
      on a square of the board. */
  function AdjacentIndex(origin: int, d: Direction): (r: Option<int>)
    ensures r.None? <==> !DirectionIsInBounds(origin, d)
    ensures r.Some? ==> Row(r.value) == Row(origin) + RowStep(d)
    ensures r.Some? && IndexIsInBounds(origin) ==> IndexIsInBounds(r.value)
  {
    if !DirectionIsInBounds(origin, d) then None
    else if IsInEvenRow(origin) then Some(origin + EvenRowOffset(d))
    else Some(origin + OddRowOffset(d))
  }

  /** The square two steps away in the same direction, or `None` when either step leaves the board.
      A jump always changes the index by 7 or 9 and the row by two. */
  function JumpIndex(origin: int, d: Direction): (r: Option<int>)
    ensures r.Some? <==>
      AdjacentIndex(origin, d).Some? && AdjacentIndex(AdjacentIndex(origin, d).value, d).Some?
    ensures r.Some? ==> r.value == origin + JumpOffset(d)
    ensures r.Some? ==> Row(r.value) == Row(origin) + 2 * RowStep(d)
    ensures r.Some? && IndexIsInBounds(origin) ==> IndexIsInBounds(r.value)
  {
    var adjacent := AdjacentIndex(origin, d);
    if adjacent.None? then None else AdjacentIndex(adjacent.value, d)
  }

  /** The candidate destination of a move of the given kind: a step or a jump. */
  function TargetIndex(origin: int, kind: MoveKind, d: Direction): Option<int>
  {
    match kind
    case SimpleMove => AdjacentIndex(origin, d)
    case JumpMove => JumpIndex(origin, d)
  }

  /** Red men move south (towards higher indices), white men north. */
  function DirectionIsForward(d: Direction, c: Color): (r: bool)
    ensures r <==> RowStep(d) == (if c == Red then 1 else -1)
  {
    if c == Red then d == SW || d == SE else d == NW || d == NE
  }

  /** The promotion test: the last row for red, the first row for white. */
  function IndexIsInKingsRow(i: int, c: Color): (r: bool)
    ensures r <==> IndexIsInBounds(i) && Row(i) == (if c == Red then NumberOfRows - 1 else 0)
  {
    if c == Red then MaxPlayingSquareIndex - PlayingSquaresPerRow < i <= MaxPlayingSquareIndex
    else 0 <= i < PlayingSquaresPerRow
  }
}

/** Properties of the geometry that the legality rules rely on. */
module GeometryFacts {
  import opened Types
  import opened Dimensions
  import opened Geometry

  /** The literal cases of the source's unit tests for bounds and adjacency. */
  lemma UnitTestCases()
    ensures !DirectionIsInBounds(0, NW) && DirectionIsInBounds(3, SW) && !DirectionIsInBounds(3, NE)
    ensures DirectionIsInBounds(19, SW) && !DirectionIsInBounds(19, NE) && DirectionIsInBounds(24, SE)
    ensures DirectionIsInBounds(27, NW) && !DirectionIsInBounds(31, SW)
    ensures AdjacentIndex(0, NW) == None && AdjacentIndex(19, SW) == Some(23)
    ensures AdjacentIndex(19, NW) == Some(15) && AdjacentIndex(19, NE) == None
  {
  }

  /** Stepping in a direction and then in the opposite one returns to the starting square:
      the even-row and odd-row offset tables are inverse to each other across row parity. */
  lemma StepThenOppositeReturns(i: int, d: Direction)
    requires IndexIsInBounds(i) && AdjacentIndex(i, d).Some?
    ensures AdjacentIndex(AdjacentIndex(i, d).value, Opposite(d)) == Some(i)
  {
  }

  /** A target square determines the direction of a step, the direction of a jump,
      and a square is never both a step and a jump away. */
  lemma TargetsAreDistinct(origin: int, d1: Direction, d2: Direction)
    ensures AdjacentIndex(origin, d1).Some? && AdjacentIndex(origin, d1) == AdjacentIndex(origin, d2) ==> d1 == d2
    ensures JumpIndex(origin, d1).Some? && JumpIndex(origin, d1) == JumpIndex(origin, d2) ==> d1 == d2
    ensures AdjacentIndex(origin, d1).Some? ==> AdjacentIndex(origin, d1) != JumpIndex(origin, d2)
  {
  }

  /** Square 0 is never the jumped square of a jump from the board: it lies in the top row,
      and nothing lies beyond it to the north. */
  lemma JumpedSquareIsNeverZero(origin: int, d: Direction)
    requires IndexIsInBounds(origin) && JumpIndex(origin, d).Some?
    ensures AdjacentIndex(origin, d).value != 0
  {
  }

  /** The kings row of a colour is the row from which no forward step stays on the board. */
  lemma KingsRowIsFarEdge(i: int, c: Color)
    requires IndexIsInBounds(i)
    ensures IndexIsInKingsRow(i, c) <==> forall d :: DirectionIsForward(d, c) ==> !DirectionIsInBounds(i, d)
  {
    if !IndexIsInKingsRow(i, c) {
      // A forward step that runs away from the blocked side edge of this row stays on the board.
      var d := if c == Red then (if IsInEvenRow(i) then SW else SE)
               else (if IsInEvenRow(i) then NW else NE);
      assert DirectionIsForward(d, c) && DirectionIsInBounds(i, d);
    }
  }

  /** Row parity alternates every four indices: an index is in an even row exactly when it is
      among the first four of its block of eight. */
  lemma EvenRowsAlternate(i: int)
    ensures IsInEvenRow(i) <==> i % (2 * PlayingSquaresPerRow) < PlayingSquaresPerRow
  {
  }
}
