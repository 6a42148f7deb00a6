/** Whether a move is legal on a board: occupancy, geometry, forward rule, capture rule. */
module Legality {
  import opened Types
  import opened Dimensions
  import opened Constants
  import opened Geometry
  import opened GeometryFacts

  /** The contents of a square; an index off the board reads as empty, as an out-of-range
      array read does in the source. */
  function At(b: Board, i: int): Option<Piece>
  {
    if 0 <= i < |b| then b[i] else None
  }

  /** The destination is one diagonal step from the origin in some direction. */
  ghost predicate IsStepShaped(m: Move)
  {
    exists d :: AdjacentIndex(m.from, d) == Some(m.to)
  }

  /** The destination is one diagonal jump from the origin in some direction. */
  ghost predicate IsJumpShaped(m: Move)
  {
    exists d :: JumpIndex(m.from, d) == Some(m.to)
  }

  /** The first direction of `ds` whose target of the given kind from `origin` is `target`. */
  function FirstMatchingDirection(ds: seq<Direction>, origin: int, kind: MoveKind, target: int): (r: Option<Direction>)
    ensures r.Some? ==> r.value in ds && TargetIndex(origin, kind, r.value) == Some(target)
    ensures r.None? ==> forall d :: d in ds ==> TargetIndex(origin, kind, d) != Some(target)
  {
    if |ds| == 0 then None
    else if TargetIndex(origin, kind, ds[0]) == Some(target) then Some(ds[0])
    else FirstMatchingDirection(ds[1..], origin, kind, target)
  }

  /** Classifies a move by geometry alone: a step if some direction's adjacent square is the
      destination, else a jump if some direction's jump square is, else nothing. */
  function MoveTypeAndDirectionOf(m: Move): (r: Option<MoveTypeAndDirection>)
    ensures r.Some? ==> TargetIndex(m.from, r.value.kind, r.value.direction) == Some(m.to)
    ensures r.Some? && r.value.kind == SimpleMove <==> IsStepShaped(m)
    ensures r.Some? && r.value.kind == JumpMove <==> IsJumpShaped(m)
  {
    assert forall d :: d in Directions by {
      forall d: Direction { DirectionsListsEveryDirection(d); }
    }
    match FirstMatchingDirection(Directions, m.from, SimpleMove, m.to)
    case Some(d) =>
      assert forall d' :: JumpIndex(m.from, d') != Some(m.to) by {
        forall d': Direction { TargetsAreDistinct(m.from, d, d'); }
      }
      Some(MoveTypeAndDirection(SimpleMove, d))
    case None =>
      assert forall d :: AdjacentIndex(m.from, d) != Some(m.to) by {
        forall d: Direction ensures AdjacentIndex(m.from, d) != Some(m.to) {
          assert d in Directions && TargetIndex(m.from, SimpleMove, d) == AdjacentIndex(m.from, d);
        }
      }
      match FirstMatchingDirection(Directions, m.from, JumpMove, m.to)
      case Some(d) => Some(MoveTypeAndDirection(JumpMove, d))
      case None =>
        assert forall d :: JumpIndex(m.from, d) != Some(m.to) by {
          forall d: Direction ensures JumpIndex(m.from, d) != Some(m.to) {
            assert d in Directions && TargetIndex(m.from, JumpMove, d) == JumpIndex(m.from, d);
          }
        }
        None
  }

  /** Whether a piece may travel in a direction: kings anywhere, men only forward. */
  predicate MayTravel(p: Piece, d: Direction)
  {
    p.rank == King || DirectionIsForward(d, p.color)
  }

  /** The source's legality test. The jumped square is rejected when it is falsy, which
      includes square 0; `JumpedSquareIsNeverZero` shows that case never arises. */
  function IsMoveLegal(b: Board, m: Move): (r: bool)
    ensures r ==> IndexIsInBounds(m.from) && IndexIsInBounds(m.to)
    ensures r ==> At(b, m.from).Some? && At(b, m.to).None?
  {
    var pieceAtOrigin := At(b, m.from);
    var pieceAtDestination := At(b, m.to);
    if pieceAtOrigin.None? || pieceAtDestination.Some? then false
    else
      match MoveTypeAndDirectionOf(m)
      case None => false
      case Some(td) =>
        if pieceAtOrigin.value.rank == Man && !DirectionIsForward(td.direction, pieceAtOrigin.value.color) then false
        else if td.kind == JumpMove then
          var jumpedIndex := AdjacentIndex(m.from, td.direction);
          if jumpedIndex.None? || jumpedIndex.value == 0 then false
          else
            var jumpedPiece := At(b, jumpedIndex.value);
            jumpedPiece.Some? && jumpedPiece.value.color != pieceAtOrigin.value.color
        else true
  }

  /** A legal step in direction `d`: the mover may travel that way onto an adjacent empty square. */
  predicate IsLegalStep(b: Board, m: Move, d: Direction)
  {
    && At(b, m.from).Some?
    && At(b, m.to).None?
    && AdjacentIndex(m.from, d) == Some(m.to)
    && MayTravel(At(b, m.from).value, d)
  }

  /** A legal jump in direction `d`: the mover may travel that way, the square two steps away
      is empty and the square in between holds an opponent's piece. */
  predicate IsLegalJump(b: Board, m: Move, d: Direction)
  {
    && At(b, m.from).Some?
    && At(b, m.to).None?
    && JumpIndex(m.from, d) == Some(m.to)
    && MayTravel(At(b, m.from).value, d)
    && At(b, AdjacentIndex(m.from, d).value).Some?
    && At(b, AdjacentIndex(m.from, d).value).value.color != At(b, m.from).value.color
  }

  /** A move is legal exactly when it is a legal step or a legal jump in some direction. */
  lemma IsMoveLegalIff(b: Board, m: Move)
    ensures IsMoveLegal(b, m) <==> exists d :: IsLegalStep(b, m, d) || IsLegalJump(b, m, d)
  {
    var td := MoveTypeAndDirectionOf(m);
    if IsMoveLegal(b, m) {
      var d := td.value.direction;
      assert IsLegalStep(b, m, d) || IsLegalJump(b, m, d);
    }
    if exists d :: IsLegalStep(b, m, d) || IsLegalJump(b, m, d) {
      var d :| IsLegalStep(b, m, d) || IsLegalJump(b, m, d);
      assert IndexIsInBounds(m.from);
      TargetsAreDistinct(m.from, d, td.value.direction);
      if IsLegalJump(b, m, d) {
        JumpedSquareIsNeverZero(m.from, d);
      }
    }
  }
}
