/** The action factory: the board and the turn and game flags that a move produces. */
module Actions {
  import opened Types
  import opened Dimensions
  import opened Geometry
  import opened GeometryFacts
  import opened Legality
  import opened Generation

  function OpponentOf(c: Color): (r: Color)
    ensures r != c
  {
    if c == Red then White else Red
  }

  /** The piece as it lands on `to`: crowned when `to` is in its kings row, otherwise as it was. */
  function Promoted(p: Piece, to: int): (r: Piece)
    ensures r.color == p.color
    ensures r.rank == King <==> p.rank == King || IndexIsInKingsRow(to, p.color)
  {
    if IndexIsInKingsRow(to, p.color) then p.(rank := King) else p
  }

  /** The boards agree on every square outside `changed`. */
  predicate SameExcept(before: Board, after: Board, changed: set<int>)
  {
    forall i :: 0 <= i < |before| && i !in changed ==> after[i] == before[i]
  }

  /** The board after a piece `p` leaves `from`, lands (possibly crowned) on `to`, and the
      square `jumped` is cleared, in the source's order of writes. */
  function JumpResultant(b: Board, from: int, to: int, jumped: int, p: Piece): (after: Board)
    requires IndexIsInBounds(from) && IndexIsInBounds(to) && IndexIsInBounds(jumped) && from != to
    ensures after[from] == None && after[jumped] == None
    ensures to != jumped ==> after[to] == Some(Promoted(p, to))
    ensures SameExcept(b, after, {from, jumped, to})
  {
    b[from := None][to := Some(Promoted(p, to))][jumped := None]
  }

  /** The board after a piece `p` leaves `from` and lands (possibly crowned) on `to`. */
  function StepResultant(b: Board, from: int, to: int, p: Piece): (after: Board)
    requires IndexIsInBounds(from) && IndexIsInBounds(to) && from != to
    ensures after[from] == None && after[to] == Some(Promoted(p, to))
    ensures SameExcept(b, after, {from, to})
  {
    b[from := None][to := Some(Promoted(p, to))]
  }

  /** Whether the piece on square `i` has a legal jump. */
  ghost predicate CanJumpFrom(b: Board, i: int)
  {
    exists d :: JumpIndex(i, d).Some? && IsMoveLegal(b, Move(i, JumpIndex(i, d).value))
  }

  /** The colour `c` piece on `i` can continue jumping exactly when some legal jump of
      colour `c` starts on `i`. */
  lemma ContinuationJumpsIff(b: Board, c: Color, i: int)
    requires HoldsColor(b, i, c)
    ensures |MovesFrom(AllLegalJumpMoves(b, c), i)| > 0 <==> CanJumpFrom(b, i)
  {
    var jumps := AllLegalJumpMoves(b, c);
    if exists n :: n in jumps && n.from == i {
      var n :| n in jumps && n.from == i;
      assert IsJumpShaped(n);
      var d :| JumpIndex(n.from, d) == Some(n.to);
      assert n == Move(i, JumpIndex(i, d).value);
    }
    if CanJumpFrom(b, i) {
      var d :| JumpIndex(i, d).Some? && IsMoveLegal(b, Move(i, JumpIndex(i, d).value));
      var n := Move(i, JumpIndex(i, d).value);
      assert JumpIndex(n.from, d) == Some(n.to);
      assert IsJumpShaped(n);
      assert IsMoveLegal(b, n) && HoldsColor(b, n.from, c);
      assert n in jumps;
    }
  }

  /** An empty square has no jump of its own to continue with. */
  lemma NoJumpsFromEmptySquare(b: Board, c: Color, i: int)
    requires At(b, i).None?
    ensures |MovesFrom(AllLegalJumpMoves(b, c), i)| == 0 && !CanJumpFrom(b, i)
  {
  }

  /** A simple move: the mover leaves `from` and lands, possibly crowned, on `to`; the turn
      always ends, and the game ends, with the mover as winner, exactly when the opponent is
      left without a legal move. An illegal move is rejected. */
  function CreateSimpleMoveAction(b: Board, m: Move): (r: Result<PlayerAction, MoveError>)
    ensures r.Success? <==> IsMoveLegal(b, m)
    ensures r.Success? ==>
      var a, p := r.value, b[m.from].value;
      && a.kind == SimpleMove && a.color == p.color && a.move == m
      && a.resultant[m.from] == None
      && a.resultant[m.to] == Some(Promoted(p, m.to))
      && SameExcept(b, a.resultant, {m.from, m.to})
      && a.endsTurn
      && (a.endsGame <==> !HasLegalMove(a.resultant, OpponentOf(p.color)))
      && a.winner == (if a.endsGame then Some(p.color) else None)
  {
    var pieceAtOrigin := At(b, m.from);
    if pieceAtOrigin.None? || !IsMoveLegal(b, m) then Failure(IllegalMove)
    else Success(StepOutcome(b, m, pieceAtOrigin.value))
  }

  /** The action of a simple move by `p` from `m.from` to `m.to`: the flags follow from the
      board it produces. */
  function StepOutcome(b: Board, m: Move, p: Piece): (a: PlayerAction)
    requires IndexIsInBounds(m.from) && IndexIsInBounds(m.to) && m.from != m.to
    ensures a.kind == SimpleMove && a.color == p.color && a.move == m
    ensures a.resultant == StepResultant(b, m.from, m.to, p)
    ensures a.endsTurn
    ensures a.endsGame <==> !HasLegalMove(a.resultant, OpponentOf(p.color))
    ensures a.winner == (if a.endsGame then Some(p.color) else None)
  {
    var after := StepResultant(b, m.from, m.to, p);
    var opponent := OpponentOf(p.color);
    var opponentHasNoMoves := |AllLegalJumpMoves(after, opponent)| + |AllLegalSimpleMoves(after, opponent)| == 0;
    EnumerationsCoverAllMoves(after, opponent);
    PlayerAction(p.color, SimpleMove, m, after, true, opponentHasNoMoves,
                 if opponentHasNoMoves then Some(p.color) else None)
  }

  /** The action of a jump by `p` from `m.from` to `m.to` over `jumped`: the flags follow from
      the board it produces. */
  function JumpOutcome(b: Board, m: Move, p: Piece, jumped: int): (a: PlayerAction)
    requires IndexIsInBounds(m.from) && IndexIsInBounds(m.to) && IndexIsInBounds(jumped) && m.from != m.to
    ensures a.kind == JumpMove && a.color == p.color && a.move == m
    ensures a.resultant == JumpResultant(b, m.from, m.to, jumped, p)
    ensures a.endsTurn <==> IndexIsInKingsRow(m.to, p.color) || !CanJumpFrom(a.resultant, m.to)
    ensures a.endsGame <==> a.endsTurn && !HasLegalMove(a.resultant, OpponentOf(p.color))
    ensures a.winner == (if a.endsGame then Some(p.color) else None)
  {
    var after := JumpResultant(b, m.from, m.to, jumped, p);
    var isPromotion := IndexIsInKingsRow(m.to, p.color);
    var nextJumpsForPiece := MovesFrom(AllLegalJumpMoves(after, p.color), m.to);
    var endsTurn := isPromotion || |nextJumpsForPiece| == 0;
    assert endsTurn <==> isPromotion || !CanJumpFrom(after, m.to) by {
      if m.to == jumped {
        NoJumpsFromEmptySquare(after, p.color, m.to);
      } else {
        ContinuationJumpsIff(after, p.color, m.to);
      }
    }
    var opponent := OpponentOf(p.color);
    var opponentHasNoMoves := |AllLegalJumpMoves(after, opponent)| + |AllLegalSimpleMoves(after, opponent)| == 0;
    var endsGame := endsTurn && opponentHasNoMoves;
    EnumerationsCoverAllMoves(after, opponent);
    PlayerAction(p.color, JumpMove, m, after, endsTurn, endsGame, if endsGame then Some(p.color) else None)
  }

  /** A jump: the mover leaves `from`, the jumped square is cleared and the mover lands,
      possibly crowned, on `to`; nothing else changes. The turn ends when the piece lands in
      its kings row, a king included (it is not crowned again), or when the piece has no further
      jump from `to`; the game ends only with the turn, when the opponent
      is left without a legal move. An illegal move is rejected. The source does not check the
      kind of the move: given a legal simple move it clears `to` a second time, as stated last. */
  function CreateJumpMoveAction(b: Board, m: Move): (r: Result<PlayerAction, MoveError>)
    ensures r.Success? <==> IsMoveLegal(b, m)
    ensures r.Success? ==>
      var a, p := r.value, b[m.from].value;
      && a.kind == JumpMove && a.color == p.color && a.move == m
      && a.resultant[m.from] == None
      && (a.endsTurn <==> IndexIsInKingsRow(m.to, p.color) || !CanJumpFrom(a.resultant, m.to))
      && (a.endsGame <==> a.endsTurn && !HasLegalMove(a.resultant, OpponentOf(p.color)))
      && a.winner == (if a.endsGame then Some(p.color) else None)
    ensures r.Success? ==> forall d :: JumpIndex(m.from, d) == Some(m.to) ==>
      r.value.resultant == JumpResultant(b, m.from, m.to, AdjacentIndex(m.from, d).value, b[m.from].value)
    ensures r.Success? && IsStepShaped(m) ==> r.value.resultant[m.to] == None
  {
    var pieceAtOrigin := At(b, m.from);
    var moveTypeAndDirection := MoveTypeAndDirectionOf(m);
    if pieceAtOrigin.None? || moveTypeAndDirection.None? || !IsMoveLegal(b, m) then Failure(IllegalMove)
    else
      var direction := moveTypeAndDirection.value.direction;
      var jumpedIndex := AdjacentIndex(m.from, direction).value;
      assert forall d :: JumpIndex(m.from, d) == Some(m.to) ==> d == direction by {
        forall d | JumpIndex(m.from, d) == Some(m.to) ensures d == direction {
          TargetsAreDistinct(m.from, d, direction);
        }
      }
      Success(JumpOutcome(b, m, pieceAtOrigin.value, jumpedIndex))
  }

  /** A red king on 21 and white men on 25 and 26, every other square empty. */
  function KingJumpBoard(): (b: Board)
    ensures b[21] == Some(Piece(Red, King)) && b[25] == Some(Piece(White, Man)) && b[26] == Some(Piece(White, Man))
    ensures b[30] == None && b[23] == None
  {
    seq(32, i => if i == 21 then Some(Piece(Red, King))
                 else if i == 25 || i == 26 then Some(Piece(White, Man))
                 else None)
  }

  /** After the king's jump from 21 over 25 to 30 it could jump again, over 26 to 23. */
  lemma KingCanJumpAgain()
    ensures CanJumpFrom(JumpResultant(KingJumpBoard(), 21, 30, 25, Piece(Red, King)), 30)
  {
    var after := JumpResultant(KingJumpBoard(), 21, 30, 25, Piece(Red, King));
    assert after[26] == Some(Piece(White, Man)) && after[23] == None;
    assert AdjacentIndex(30, NE) == Some(26) && JumpIndex(30, NE) == Some(23);
    assert IsLegalJump(after, Move(30, 23), NE);
    IsMoveLegalIff(after, Move(30, 23));
  }

  /** The kings-row test that ends a jump's turn does not look at the rank: the red king on 21
      jumps the white man on 25 and lands on 30, in red's kings row, and its turn ends although
      it could go on to jump the white man on 26. */
  lemma KingEndsTurnInKingsRow()
    ensures var r := CreateJumpMoveAction(KingJumpBoard(), Move(21, 30));
      && r.Success? && r.value.endsTurn && CanJumpFrom(r.value.resultant, 30)
  {
    var b := KingJumpBoard();
    assert AdjacentIndex(21, SE) == Some(25) && JumpIndex(21, SE) == Some(30);
    assert IsLegalJump(b, Move(21, 30), SE);
    IsMoveLegalIff(b, Move(21, 30));
    KingCanJumpAgain();
  }
}
