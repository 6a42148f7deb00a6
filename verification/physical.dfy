/** Conversion between playing-square indices and locations on the 8x8 board. */
module Physical {
  import opened Types
  import opened Dimensions
  import opened Geometry

  /** The playing squares are the board squares whose row and column differ in parity. */
  predicate IsPlayingSquare(loc: PhysicalLocation)
  {
    (loc.row % 2 == 0) != (loc.column % 2 == 0)
  }

  predicate IsOnBoard(loc: PhysicalLocation)
  {
    0 <= loc.row < NumberOfRows && 0 <= loc.column < NumberOfRows
  }

  /** The playing-square index of a board location, or `None` for a light square.
      The source does not check that the location lies on the board. */
  function PhysicalToIndex(loc: PhysicalLocation): (r: Option<int>)
    ensures r.Some? <==> IsPlayingSquare(loc)
    ensures r.Some? && 0 <= loc.column < NumberOfRows ==>
      Row(r.value) == loc.row && 2 * Column(r.value) + (if loc.row % 2 == 0 then 1 else 0) == loc.column
  {
    var rowIsEven := loc.row % 2 == 0;
    var columnIsEven := loc.column % 2 == 0;
    if (rowIsEven && !columnIsEven) || (!rowIsEven && columnIsEven) then
      var playingColumn := if rowIsEven then (loc.column - 1) / 2 else loc.column / 2;
      Some(playingColumn + loc.row * PlayingSquaresPerRow)
    else
      None
  }

  /** The board location of a playing square, or `None` for an index off the board. */
  function IndexToPhysical(i: int): (r: Option<PhysicalLocation>)
    ensures r.Some? <==> IndexIsInBounds(i)
    ensures r.Some? ==> IsOnBoard(r.value) && IsPlayingSquare(r.value) && r.value.row == Row(i)
  {
    if !IndexIsInBounds(i) then None
    else
      var row := i / PlayingSquaresPerRow;
      var column := if IsInEvenRow(i) then (i % PlayingSquaresPerRow) * 2 + 1 else (i % PlayingSquaresPerRow) * 2;
      Some(PhysicalLocation(row, column))
  }

  lemma IndexRoundTrip(i: int)
    requires IndexIsInBounds(i)
    ensures PhysicalToIndex(IndexToPhysical(i).value) == Some(i)
  {
  }

  lemma LocationRoundTrip(loc: PhysicalLocation)
    requires IsOnBoard(loc) && IsPlayingSquare(loc)
    ensures PhysicalToIndex(loc).Some? && IndexIsInBounds(PhysicalToIndex(loc).value)
    ensures IndexToPhysical(PhysicalToIndex(loc).value) == Some(loc)
  {
  }

  function ColumnDelta(d: Direction): int
  {
    if IsWest(d) then -1 else 1
  }

  /** Reference definition of adjacency on the 8x8 board: move one row and one column
      diagonally and read back the index of the square reached, if it is on the board. */
  function DiagonalNeighbour(i: int, d: Direction): Option<int>
    requires IndexIsInBounds(i)
  {
    var loc := IndexToPhysical(i).value;
    var target := PhysicalLocation(loc.row + RowStep(d), loc.column + ColumnDelta(d));
    if IsOnBoard(target) then PhysicalToIndex(target) else None
  }

  /** The bounds test and the two offset tables together compute diagonal adjacency. */
  lemma AdjacentIsDiagonalNeighbour(i: int, d: Direction)
    requires IndexIsInBounds(i)
    ensures AdjacentIndex(i, d) == DiagonalNeighbour(i, d)
  {
  }
}
