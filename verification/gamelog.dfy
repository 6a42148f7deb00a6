/** Properties of game logs built by `MakeMove`: the turn rules the offered-moves list
    enforces, and what the log records about captures. */
module GameLog {
  import opened Types
  import opened Dimensions
  import opened Geometry
  import opened Legality
  import opened Generation
  import opened Actions
  import opened GameSlice
  import opened Material

  /** The game that has played `actions` from board `b`, with nothing selected. */
  function Played(b: Board, actions: seq<PlayerAction>): GameState
  {
    GameState(b, actions, None)
  }

  /** Every action of `actions`, played from `b`, is what `MakeMove` appends for its move on
      the board before it. */
  ghost predicate IsLogFrom(b: Board, actions: seq<PlayerAction>)
    decreases |actions|
  {
    |actions| > 0 ==>
      var prior := actions[..|actions| - 1];
      && IsLogFrom(b, prior)
      && ApplyMove(CurrentBoard(Played(b, prior)), actions[|actions| - 1].move) == Success(actions[|actions| - 1])
  }

  /** The game's log is one `MakeMove` could have built from its initial board. */
  ghost predicate ValidLog(gs: GameState)
  {
    IsLogFrom(gs.initialBoard, gs.actions)
  }

  lemma InitialStateIsValid()
    ensures ValidLog(InitialState())
  {
  }

  /** Appending the action a move produces on the current board keeps the log valid. */
  lemma AppendPreservesValidLog(gs: GameState, a: PlayerAction)
    requires ValidLog(gs) && ApplyMove(CurrentBoard(gs), a.move) == Success(a)
    ensures ValidLog(gs.(actions := gs.actions + [a], selectedIndex := None))
  {
    assert (gs.actions + [a])[..|gs.actions|] == gs.actions;
  }

  /** `MakeMove` keeps the log valid. */
  lemma MakeMovePreservesValidLog(gs: GameState, m: Move)
    requires ValidLog(gs) && MakeMove(gs, m).Success?
    ensures ValidLog(MakeMove(gs, m).value)
  {
    var next := MakeMove(gs, m).value;
    var a := next.actions[|gs.actions|];
    assert next.actions == gs.actions + [a] by {
      assert next.actions == next.actions[..|gs.actions|] + [a];
    }
    AppendPreservesValidLog(gs, a);
  }

  /** `MakeMove` does not enforce the turn order: at the start, with red on turn, it accepts
      a white man's step. */
  lemma MakeMoveIgnoresTurn()
    ensures WhoseTurn(InitialState()) == Some(Red)
    ensures MakeMove(InitialState(), Move(20, 16)).Success?
    ensures MakeMove(InitialState(), Move(20, 16)).value.actions[0].color == White
  {
    assert AdjacentIndex(20, NE) == Some(16);
    assert MoveTypeAndDirectionOf(Move(20, 16)) == Some(MoveTypeAndDirection(SimpleMove, NE));
  }

  /** Every action offered to the player on turn is accepted by `MakeMove`, which appends exactly it. */
  lemma OfferedActionsAreAccepted(gs: GameState, i: int)
    requires 0 <= i < |CurrentValidMoveActions(gs)|
    ensures MakeMove(gs, CurrentValidMoveActions(gs)[i].move)
      == Success(gs.(actions := gs.actions + [CurrentValidMoveActions(gs)[i]], selectedIndex := None))
  {
    var a := CurrentValidMoveActions(gs)[i];
    var next := MakeMove(gs, a.move).value;
    assert next.actions == next.actions[..|gs.actions|] + [next.actions[|gs.actions|]];
  }

  /** In a valid log, a player on turn again after their own jump has a further jump from the
      square that jump landed on. */
  lemma MultiJumpCanContinue(gs: GameState)
    requires ValidLog(gs) && IsStartOfMultiJump(gs)
    ensures exists m :: IsAllowedJump(gs, m)
  {
    var n := |gs.actions|;
    var last := gs.actions[n - 1];
    var before := CurrentBoard(Played(gs.initialBoard, gs.actions[..n - 1]));
    assert ApplyMove(before, last.move) == Success(last);
    assert IsJumpShaped(last.move);
    ApplyMoveDispatch(before, last.move);
    var d :| JumpIndex(last.move.from, d) == Some(last.move.to);
    assert CanJumpFrom(last.resultant, last.move.to);
    ContinuationJumpsIff(last.resultant, last.color, last.move.to);
    var m :| m in AllLegalJumpMoves(last.resultant, last.color) && m.from == last.move.to;
    assert IsAllowedJump(gs, m);
  }

  /** An offered action is a jump exactly when some jump is allowed, and then its move is an
      allowed jump. */
  lemma OfferedActionKind(gs: GameState, i: int)
    requires 0 <= i < |CurrentValidMoveActions(gs)|
    ensures var a := CurrentValidMoveActions(gs)[i];
      && (a.kind == JumpMove <==> exists m :: IsAllowedJump(gs, m))
      && (a.kind == JumpMove ==> IsAllowedJump(gs, a.move))
      && (a.kind == JumpMove && IsStartOfMultiJump(gs) ==> a.move.from == LastAction(gs).value.move.to)
  {
    var r := CurrentValidMoveActions(gs);
    var a := r[i];
    assert Offers(r, a.move);
    assert ApplyMove(CurrentBoard(gs), a.move) == Success(a);
    if exists m :: IsAllowedJump(gs, m) {
      assert IsAllowedJump(gs, a.move);
    } else {
      assert IsAllowedStep(gs, a.move);
      IsMoveLegalIff(CurrentBoard(gs), a.move);
    }
  }

  /** Every allowed jump is offered. */
  lemma AllowedJumpIsOffered(gs: GameState)
    requires exists m :: IsAllowedJump(gs, m)
    ensures |CurrentValidMoveActions(gs)| > 0
  {
    var m :| IsAllowedJump(gs, m);
    assert Offers(CurrentValidMoveActions(gs), m);
  }

  /** When a multi-jump is under way and can continue, only jumps by the piece that has just
      jumped are offered. */
  lemma OnlyTheJumpingPieceIsOffered(gs: GameState)
    requires IsStartOfMultiJump(gs) && exists m :: IsAllowedJump(gs, m)
    ensures forall a :: a in CurrentValidMoveActions(gs) ==>
      a.kind == JumpMove && a.move.from == LastAction(gs).value.move.to
  {
    var r := CurrentValidMoveActions(gs);
    forall i | 0 <= i < |r|
      ensures r[i].kind == JumpMove && r[i].move.from == LastAction(gs).value.move.to
    {
      OfferedActionKind(gs, i);
    }
  }

  /** Forced continuation: in a valid log, during a multi-jump only jumps by the piece that has
      just jumped are offered, and at least one is. */
  lemma ForcedContinuation(gs: GameState)
    requires ValidLog(gs) && IsStartOfMultiJump(gs)
    ensures |CurrentValidMoveActions(gs)| > 0
    ensures forall a :: a in CurrentValidMoveActions(gs) ==>
      a.kind == JumpMove && a.move.from == LastAction(gs).value.move.to
  {
    MultiJumpCanContinue(gs);
    AllowedJumpIsOffered(gs);
    OnlyTheJumpingPieceIsOffered(gs);
  }

  /** Mandatory capture: in a valid log, when the player on turn has any legal jump, every
      offered action is a jump. */
  lemma MandatoryCapture(gs: GameState)
    requires ValidLog(gs) && WhoseTurn(gs).Some?
    requires |AllLegalJumpMoves(CurrentBoard(gs), WhoseTurn(gs).value)| > 0
    ensures forall a :: a in CurrentValidMoveActions(gs) ==> a.kind == JumpMove
  {
    var r := CurrentValidMoveActions(gs);
    JumpMeansAllowedJump(gs);
    forall i | 0 <= i < |r| ensures r[i].kind == JumpMove {
      OfferedActionKind(gs, i);
    }
  }

  /** In a valid log, when the player on turn has a legal jump, some jump is allowed. */
  lemma JumpMeansAllowedJump(gs: GameState)
    requires ValidLog(gs) && WhoseTurn(gs).Some?
    requires |AllLegalJumpMoves(CurrentBoard(gs), WhoseTurn(gs).value)| > 0
    ensures exists m :: IsAllowedJump(gs, m)
  {
    if IsStartOfMultiJump(gs) {
      MultiJumpCanContinue(gs);
    } else {
      var jumps := AllLegalJumpMoves(CurrentBoard(gs), WhoseTurn(gs).value);
      assert jumps[0] in jumps;
      assert IsAllowedJump(gs, jumps[0]);
    }
  }

  /** Every jump removes one opponent piece: played from `b`, the pieces of colour `c` still
      on the board and the jumps made against them add up to the pieces of colour `c` at the start. */
  lemma {:induction false} LogMaterial(b: Board, actions: seq<PlayerAction>, c: Color)
    requires IsLogFrom(b, actions)
    ensures CountOf(CurrentBoard(Played(b, actions)), c) + CountJumps(actions, OpponentOf(c)) == CountOf(b, c)
  {
    if |actions| > 0 {
      var prior := actions[..|actions| - 1];
      LogMaterial(b, prior, c);
      ActionMaterial(CurrentBoard(Played(b, prior)), actions[|actions| - 1], c);
    }
  }

  /** The capture count of colour `c` is the number of opponent pieces missing from the board. */
  lemma CapturesAreMissingPieces(gs: GameState, c: Color)
    requires ValidLog(gs)
    ensures CountOf(CurrentBoard(gs), OpponentOf(c)) + CaptureCount(gs, c) == CountOf(gs.initialBoard, OpponentOf(c))
  {
    LogMaterial(gs.initialBoard, gs.actions, OpponentOf(c));
    assert OpponentOf(OpponentOf(c)) == c;
  }

  /** From the standard set-up no player captures more than the opponent's twelve pieces. */
  lemma CaptureCountIsBounded(gs: GameState, c: Color)
    requires ValidLog(gs) && gs.initialBoard == InitialBoard
    ensures CaptureCount(gs, c) == 12 - CountOf(CurrentBoard(gs), OpponentOf(c)) <= 12
  {
    CapturesAreMissingPieces(gs, c);
    InitialMaterial();
  }

  /** `MakeMove` raises the capture count of colour `c` by one exactly when it appends a jump by `c`. */
  lemma CaptureCountAfterMove(gs: GameState, m: Move, c: Color)
    requires MakeMove(gs, m).Success?
    ensures var a := MakeMove(gs, m).value.actions[|gs.actions|];
      CaptureCount(MakeMove(gs, m).value, c)
        == CaptureCount(gs, c) + (if a.kind == JumpMove && a.color == c then 1 else 0)
  {
  }
}
