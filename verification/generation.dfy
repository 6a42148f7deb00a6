/** Enumeration of the legal simple moves and the legal jumps of one colour. */
module Generation {
  import opened Types
  import opened Dimensions
  import opened Constants
  import opened Geometry
  import opened Legality

  /** Whether square `i` holds a piece of colour `c`. */
  predicate HoldsColor(b: Board, i: int, c: Color)
  {
    At(b, i).Some? && At(b, i).value.color == c
  }

  /** The squares from `k` on that hold a piece of colour `c`, in increasing order. */
  function PieceIndicesFrom(b: Board, c: Color, k: nat): (r: seq<int>)
    requires k <= PlayingSquaresCount
    ensures forall i :: i in r <==> k <= i && HoldsColor(b, i, c)
    ensures forall x, y :: 0 <= x < y < |r| ==> r[x] < r[y]
    decreases PlayingSquaresCount - k
  {
    if k == PlayingSquaresCount then []
    else
      var rest := PieceIndicesFrom(b, c, k + 1);
      assert forall j :: 0 <= j < |rest| ==> rest[j] in rest;
      if HoldsColor(b, k, c) then [k] + rest else rest
  }

  /** The squares holding a piece of colour `c`, in increasing order. */
  function PieceIndicesForColor(b: Board, c: Color): (r: seq<int>)
    ensures forall i :: i in r <==> HoldsColor(b, i, c)
  {
    PieceIndicesFrom(b, c, 0)
  }

  /** The on-board candidate moves of the given kind from `origin`, one per direction of `ds`. */
  function PotentialMovesAlong(origin: int, kind: MoveKind, ds: seq<Direction>): (r: seq<Move>)
    ensures forall m :: m in r <==>
      m.from == origin && exists d :: d in ds && TargetIndex(origin, kind, d) == Some(m.to)
  {
    if |ds| == 0 then []
    else
      var rest := PotentialMovesAlong(origin, kind, ds[1..]);
      assert forall d :: d in ds <==> d == ds[0] || d in ds[1..];
      match TargetIndex(origin, kind, ds[0])
      case Some(t) => [Move(origin, t)] + rest
      case None => rest
  }

  /** The candidate moves of the given kind from `origin`, in direction order. */
  function PotentialMoves(origin: int, kind: MoveKind): (r: seq<Move>)
    ensures forall m :: m in r <==> m.from == origin && exists d :: TargetIndex(origin, kind, d) == Some(m.to)
  {
    assert forall d :: d in Directions by {
      forall d: Direction { DirectionsListsEveryDirection(d); }
    }
    PotentialMovesAlong(origin, kind, Directions)
  }

  /** The candidate moves of the given kind from every square of `origins`, concatenated. */
  function PotentialMovesFrom(origins: seq<int>, kind: MoveKind): (r: seq<Move>)
    ensures forall m :: m in r <==>
      m.from in origins && exists d :: TargetIndex(m.from, kind, d) == Some(m.to)
  {
    if |origins| == 0 then []
    else
      var rest := PotentialMovesFrom(origins[1..], kind);
      assert forall i :: i in origins <==> i == origins[0] || i in origins[1..];
      PotentialMoves(origins[0], kind) + rest
  }

  /** The moves of `ms` that are legal on `b`, in their original order. */
  function LegalOnly(b: Board, ms: seq<Move>): (r: seq<Move>)
    ensures forall m :: m in r <==> m in ms && IsMoveLegal(b, m)
    ensures |r| <= |ms|
  {
    if |ms| == 0 then []
    else
      var rest := LegalOnly(b, ms[1..]);
      assert forall m :: m in ms <==> m == ms[0] || m in ms[1..];
      if IsMoveLegal(b, ms[0]) then [ms[0]] + rest else rest
  }

  /** The moves of `ms` that start on square `origin`, in their original order. */
  function MovesFrom(ms: seq<Move>, origin: int): (r: seq<Move>)
    ensures forall m :: m in r <==> m in ms && m.from == origin
    ensures |r| > 0 <==> exists m :: m in ms && m.from == origin
  {
    if |ms| == 0 then []
    else
      var rest := MovesFrom(ms[1..], origin);
      assert forall m :: m in ms <==> m == ms[0] || m in ms[1..];
      if ms[0].from == origin then [ms[0]] + rest else rest
  }

  /** Every legal one-step move of colour `c`, and nothing else. */
  function AllLegalSimpleMoves(b: Board, c: Color): (r: seq<Move>)
    ensures forall m :: m in r <==>
      IsMoveLegal(b, m) && HoldsColor(b, m.from, c) && IsStepShaped(m)
  {
    LegalOnly(b, PotentialMovesFrom(PieceIndicesForColor(b, c), SimpleMove))
  }

  /** Every legal jump of colour `c`, and nothing else. */
  function AllLegalJumpMoves(b: Board, c: Color): (r: seq<Move>)
    ensures forall m :: m in r <==>
      IsMoveLegal(b, m) && HoldsColor(b, m.from, c) && IsJumpShaped(m)
  {
    LegalOnly(b, PotentialMovesFrom(PieceIndicesForColor(b, c), JumpMove))
  }

  /** Whether colour `c` has any legal move at all on `b`. */
  ghost predicate HasLegalMove(b: Board, c: Color)
  {
    exists m :: IsMoveLegal(b, m) && HoldsColor(b, m.from, c)
  }

  /** The two enumerations together cover every legal move of a colour: they are both empty
      exactly when that colour cannot move. */
  lemma EnumerationsCoverAllMoves(b: Board, c: Color)
    ensures |AllLegalJumpMoves(b, c)| + |AllLegalSimpleMoves(b, c)| == 0 <==> !HasLegalMove(b, c)
  {
    var jumps, steps := AllLegalJumpMoves(b, c), AllLegalSimpleMoves(b, c);
    if |jumps| > 0 {
      assert jumps[0] in jumps;
      assert IsMoveLegal(b, jumps[0]) && HoldsColor(b, jumps[0].from, c);
    }
    if |steps| > 0 {
      assert steps[0] in steps;
      assert IsMoveLegal(b, steps[0]) && HoldsColor(b, steps[0].from, c);
    }
    if HasLegalMove(b, c) {
      var m :| IsMoveLegal(b, m) && HoldsColor(b, m.from, c);
      IsMoveLegalIff(b, m);
      var d :| IsLegalStep(b, m, d) || IsLegalJump(b, m, d);
      if IsLegalStep(b, m, d) {
        assert m in steps;
      } else {
        assert m in jumps;
      }
    }
  }
}
