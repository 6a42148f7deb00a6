/** The game log and the turn resolver: the initial state, the `makeMove` reducer and the
    selectors, as pure functions of a `GameState` value. */
module GameSlice {
  import opened Types
  import opened Dimensions
  import opened Constants
  import opened Geometry
  import opened Physical
  import opened Legality
  import opened Generation
  import opened Actions

  /** Twelve red men on squares 0-11, two empty rows, twelve white men on squares 20-31. */
  const InitialBoard: Board := [
      Some(Rm), Some(Rm), Some(Rm), Some(Rm),
    Some(Rm), Some(Rm), Some(Rm), Some(Rm),
      Some(Rm), Some(Rm), Some(Rm), Some(Rm),
    None, None, None, None,
      None, None, None, None,
    Some(Wm), Some(Wm), Some(Wm), Some(Wm),
      Some(Wm), Some(Wm), Some(Wm), Some(Wm),
    Some(Wm), Some(Wm), Some(Wm), Some(Wm)
  ]

  /** The starting game: the standard set-up, no action played, no square selected. */
  function InitialState(): (gs: GameState)
    ensures forall i :: 0 <= i < 12 ==> gs.initialBoard[i] == Some(Piece(Red, Man))
    ensures forall i :: 12 <= i < 20 ==> gs.initialBoard[i] == None
    ensures forall i :: 20 <= i < PlayingSquaresCount ==> gs.initialBoard[i] == Some(Piece(White, Man))
    ensures gs.actions == [] && gs.selectedIndex == None
  {
    GameState(InitialBoard, [], None)
  }

  function LastAction(gs: GameState): (r: Option<PlayerAction>)
    ensures r.None? <==> gs.actions == []
    ensures r.Some? ==> r.value == gs.actions[|gs.actions| - 1]
  {
    if |gs.actions| == 0 then None else Some(gs.actions[|gs.actions| - 1])
  }

  /** The board the game is at: the board left by the last action, or the initial board. */
  function CurrentBoard(gs: GameState): (b: Board)
    ensures gs.actions == [] ==> b == gs.initialBoard
    ensures gs.actions != [] ==> b == gs.actions[|gs.actions| - 1].resultant
  {
    match LastAction(gs)
    case Some(a) => a.resultant
    case None => gs.initialBoard
  }

  function GameOver(gs: GameState): (r: bool)
    ensures r <==> gs.actions != [] && gs.actions[|gs.actions| - 1].endsGame
  {
    match LastAction(gs)
    case Some(a) => a.endsGame
    case None => false
  }

  /** Whose turn it is: red to start, nobody once the game is over, otherwise the player of
      the last action again exactly when that action did not end the turn. */
  function WhoseTurn(gs: GameState): (r: Option<Color>)
    ensures gs.actions == [] ==> r == Some(Red)
    ensures r.None? <==> GameOver(gs)
    ensures r.Some? && gs.actions != [] ==>
      (r.value == gs.actions[|gs.actions| - 1].color <==> !gs.actions[|gs.actions| - 1].endsTurn)
  {
    match LastAction(gs)
    case None => Some(Red)
    case Some(a) =>
      if a.endsGame then None
      else if a.endsTurn then Some(OpponentOf(a.color))
      else Some(a.color)
  }

  /** The number of jumps of colour `c` among `actions`. */
  function CountJumps(actions: seq<PlayerAction>, c: Color): (r: nat)
    ensures r <= |actions|
    ensures r == |actions| <==> forall i :: 0 <= i < |actions| ==> actions[i].kind == JumpMove && actions[i].color == c
  {
    if |actions| == 0 then 0
    else
      var last := actions[|actions| - 1];
      var rest := actions[..|actions| - 1];
      assert forall i :: 0 <= i < |rest| ==> rest[i] == actions[i];
      CountJumps(rest, c) + (if last.kind == JumpMove && last.color == c then 1 else 0)
  }

  /** The number of captures made by colour `c` so far. */
  function CaptureCount(gs: GameState, c: Color): (r: nat)
    ensures r <= |gs.actions|
  {
    CountJumps(gs.actions, c)
  }

  /** The squares of the player on turn; none once the game is over. */
  function CurrentPlayerBoardIndices(gs: GameState): (r: seq<int>)
    ensures WhoseTurn(gs).None? ==> r == []
    ensures WhoseTurn(gs).Some? ==> forall i :: i in r <==> HoldsColor(CurrentBoard(gs), i, WhoseTurn(gs).value)
  {
    match WhoseTurn(gs)
    case None => []
    case Some(turn) => PieceIndicesForColor(CurrentBoard(gs), turn)
  }

  /** The action a move produces on board `b`: the factory is chosen by the move's geometry. */
  function ApplyMove(b: Board, m: Move): (r: Result<PlayerAction, MoveError>)
    ensures r.Success? <==> IsMoveLegal(b, m)
    ensures r.Success? ==> r.value.move == m && r.value.color == b[m.from].value.color
    ensures r.Success? ==> (r.value.kind == JumpMove <==> IsJumpShaped(m))
  {
    match MoveTypeAndDirectionOf(m)
    case None => Failure(IllegalMove)
    case Some(td) =>
      if td.kind == JumpMove then CreateJumpMoveAction(b, m) else CreateSimpleMoveAction(b, m)
  }

  /** The `makeMove` reducer. It rejects a move only when the move is illegal on the current
      board; it does not check whose turn it is, mandatory capture, forced continuation or
      whether the game is over. Otherwise it appends exactly one action and clears the selection. */
  function MakeMove(gs: GameState, m: Move): (r: Result<GameState, MoveError>)
    ensures r.Success? <==> IsMoveLegal(CurrentBoard(gs), m)
    ensures r.Success? ==>
      && r.value.initialBoard == gs.initialBoard
      && |r.value.actions| == |gs.actions| + 1
      && r.value.actions[..|gs.actions|] == gs.actions
      && Success(r.value.actions[|gs.actions|]) == ApplyMove(CurrentBoard(gs), m)
      && CurrentBoard(r.value) == ApplyMove(CurrentBoard(gs), m).value.resultant
      && r.value.selectedIndex == None
  {
    match ApplyMove(CurrentBoard(gs), m)
    case Failure(e) => Failure(e)
    case Success(action) =>
      assert (gs.actions + [action])[..|gs.actions|] == gs.actions;
      Success(gs.(actions := gs.actions + [action], selectedIndex := None))
  }

  /** The `selectPhysicalSquare` reducer: remembers the index of the clicked square, if any. */
  function SelectPhysicalSquare(gs: GameState, loc: Option<PhysicalLocation>): (r: GameState)
    ensures r.initialBoard == gs.initialBoard && r.actions == gs.actions
    ensures loc.None? ==> r.selectedIndex == None
    ensures loc.Some? ==> (r.selectedIndex.Some? <==> IsPlayingSquare(loc.value))
  {
    gs.(selectedIndex := if loc.Some? then PhysicalToIndex(loc.value) else None)
  }

  /** The board location of the selected square, if it is a square of the board. */
  function SelectedPhysicalLocation(gs: GameState): (r: Option<PhysicalLocation>)
    ensures r.Some? ==> gs.selectedIndex.Some? && IndexIsInBounds(gs.selectedIndex.value)
  {
    match gs.selectedIndex
    case Some(i) => IndexToPhysical(i)
    case None => None
  }

  /** Selecting a dark square of the board and reading the selection back gives that square. */
  lemma SelectionRoundTrip(gs: GameState, loc: PhysicalLocation)
    requires IsOnBoard(loc) && IsPlayingSquare(loc)
    ensures SelectedPhysicalLocation(SelectPhysicalSquare(gs, Some(loc))) == Some(loc)
  {
    LocationRoundTrip(loc);
  }

  /** The cell of the rendered board at (`row`, `column`). */
  function PhysicalCell(b: Board, row: int, column: int): (r: Option<PhysicalSquare>)
    requires 0 <= row < NumberOfRows && 0 <= column < NumberOfRows
    ensures r.Some? <==> IsPlayingSquare(PhysicalLocation(row, column))
    ensures r.Some? ==>
      && IndexToPhysical(r.value.index) == Some(PhysicalLocation(row, column))
      && r.value.piece == b[r.value.index]
  {
    var loc := PhysicalLocation(row, column);
    match PhysicalToIndex(loc)
    case None => None
    case Some(i) =>
      LocationRoundTrip(loc);
      Some(PhysicalSquare(i, b[i]))
  }

  /** The current position laid out as the 8x8 board, dark squares carrying their index and contents. */
  function CurrentPhysicalBoard(gs: GameState): (rows: seq<seq<Option<PhysicalSquare>>>)
    ensures |rows| == NumberOfRows
    ensures forall r :: 0 <= r < NumberOfRows ==> |rows[r]| == NumberOfRows
    ensures forall r, c :: 0 <= r < NumberOfRows && 0 <= c < NumberOfRows ==>
      rows[r][c] == PhysicalCell(CurrentBoard(gs), r, c)
  {
    var b := CurrentBoard(gs);
    seq(NumberOfRows, r requires 0 <= r < NumberOfRows =>
      seq(NumberOfRows, c requires 0 <= c < NumberOfRows => PhysicalCell(b, r, c)))
  }

  /** `MakeMove` builds a jump with the jump factory and a step with the simple-move factory. */
  lemma ApplyMoveDispatch(b: Board, m: Move)
    ensures IsJumpShaped(m) ==> ApplyMove(b, m) == CreateJumpMoveAction(b, m)
    ensures IsStepShaped(m) ==> ApplyMove(b, m) == CreateSimpleMoveAction(b, m)
  {
  }

  /** Whether some action of `actions` is for move `m`. */
  ghost predicate Offers(actions: seq<PlayerAction>, m: Move)
  {
    exists i :: 0 <= i < |actions| && actions[i].move == m
  }

  /** Actions made one per move offer exactly those moves. */
  lemma OffersExactly(r: seq<PlayerAction>, ms: seq<Move>)
    requires |r| == |ms| && forall i :: 0 <= i < |r| ==> r[i].move == ms[i]
    ensures forall m :: Offers(r, m) <==> m in ms
  {
    forall m | m in ms ensures Offers(r, m) {
      var i :| 0 <= i < |ms| && ms[i] == m;
      assert r[i].move == m;
    }
  }

  /** The actions previewed for legal moves on `b`, one per move, each the action `MakeMove`
      would append for it. The source builds the previews of jumps with the jump factory and
      those of simple moves with the simple-move factory; `ApplyMoveDispatch` shows that this
      is the factory `ApplyMove` chooses for them. */
  function Previews(b: Board, ms: seq<Move>): (r: seq<PlayerAction>)
    requires forall m :: m in ms ==> IsMoveLegal(b, m)
    ensures |r| == |ms|
    ensures forall i :: 0 <= i < |r| ==> Success(r[i]) == ApplyMove(b, ms[i]) && r[i].move == ms[i]
  {
    seq(|ms|, i requires 0 <= i < |ms| => assert ms[i] in ms; ApplyMove(b, ms[i]).value)
  }

  /** Previews of moves by pieces of colour `c` are actions of colour `c`. */
  lemma PreviewsAreByMover(b: Board, ms: seq<Move>, r: seq<PlayerAction>, c: Color)
    requires forall m :: m in ms ==> IsMoveLegal(b, m) && HoldsColor(b, m.from, c)
    requires |r| == |ms| && forall i :: 0 <= i < |r| ==> Success(r[i]) == ApplyMove(b, ms[i])
    ensures forall i :: 0 <= i < |r| ==> r[i].color == c
  {
    forall i | 0 <= i < |r| ensures r[i].color == c {
      assert ms[i] in ms;
    }
  }

  /** The last action was a jump by the player who is on turn again: a multi-jump is under way.
      That is the case exactly when the last action is a jump that ended neither the turn nor
      the game. */
  function IsStartOfMultiJump(gs: GameState): (r: bool)
    ensures r <==> && gs.actions != []
                   && var last := gs.actions[|gs.actions| - 1];
                      last.kind == JumpMove && !last.endsTurn && !last.endsGame
  {
    && WhoseTurn(gs).Some?
    && LastAction(gs).Some?
    && LastAction(gs).value.color == WhoseTurn(gs).value
    && LastAction(gs).value.kind == JumpMove
  }

  /** A jump the player on turn may make now: legal, by one of their pieces, and during a
      multi-jump by the piece that has just jumped. */
  ghost predicate IsAllowedJump(gs: GameState, m: Move)
  {
    && WhoseTurn(gs).Some?
    && IsMoveLegal(CurrentBoard(gs), m)
    && HoldsColor(CurrentBoard(gs), m.from, WhoseTurn(gs).value)
    && IsJumpShaped(m)
    && (IsStartOfMultiJump(gs) ==> m.from == LastAction(gs).value.move.to)
  }

  /** A legal simple move of the player on turn. */
  ghost predicate IsAllowedStep(gs: GameState, m: Move)
  {
    && WhoseTurn(gs).Some?
    && IsMoveLegal(CurrentBoard(gs), m)
    && HoldsColor(CurrentBoard(gs), m.from, WhoseTurn(gs).value)
    && IsStepShaped(m)
  }

  /** The jumps offered to the player on turn: all their legal jumps, narrowed during a
      multi-jump to those of the piece that has just jumped. */
  function OfferedJumpMoves(gs: GameState): (ms: seq<Move>)
    requires WhoseTurn(gs).Some?
    ensures forall m :: m in ms <==> IsAllowedJump(gs, m)
  {
    var legalJumpMoves := AllLegalJumpMoves(CurrentBoard(gs), WhoseTurn(gs).value);
    if IsStartOfMultiJump(gs) then MovesFrom(legalJumpMoves, LastAction(gs).value.move.to)
    else legalJumpMoves
  }

  /** Whether every action of `r` is the one `MakeMove` appends for its move on the current
      board, by the player on turn. */
  ghost predicate AreTurnActions(gs: GameState, r: seq<PlayerAction>)
  {
    forall i :: 0 <= i < |r| ==>
      ApplyMove(CurrentBoard(gs), r[i].move) == Success(r[i]) && Some(r[i].color) == WhoseTurn(gs)
  }

  /** The actions for the allowed jumps of the player on turn, one per jump. */
  function OfferedJumpActions(gs: GameState): (r: seq<PlayerAction>)
    requires WhoseTurn(gs).Some?
    ensures AreTurnActions(gs, r)
    ensures forall m :: Offers(r, m) <==> IsAllowedJump(gs, m)
  {
    var board := CurrentBoard(gs);
    var offeredJumps := OfferedJumpMoves(gs);
    var r := Previews(board, offeredJumps);
    OffersExactly(r, offeredJumps);
    PreviewsAreByMover(board, offeredJumps, r, WhoseTurn(gs).value);
    r
  }

  /** The actions for the legal simple moves of the player on turn, one per move. */
  function OfferedStepActions(gs: GameState): (r: seq<PlayerAction>)
    requires WhoseTurn(gs).Some?
    ensures AreTurnActions(gs, r)
    ensures forall m :: Offers(r, m) <==> IsAllowedStep(gs, m)
  {
    var board := CurrentBoard(gs);
    var legalSimpleMoves := AllLegalSimpleMoves(board, WhoseTurn(gs).value);
    var r := Previews(board, legalSimpleMoves);
    OffersExactly(r, legalSimpleMoves);
    PreviewsAreByMover(board, legalSimpleMoves, r, WhoseTurn(gs).value);
    r
  }

  /** The moves offered to the player on turn, each with the action it would produce. Nothing
      is offered once the game is over. Capturing is mandatory: when an allowed jump exists,
      exactly the allowed jumps are offered; otherwise exactly the legal simple moves. Every
      offered action is the one `MakeMove` would append for its move, by the player on turn. */
  function CurrentValidMoveActions(gs: GameState): (r: seq<PlayerAction>)
    ensures WhoseTurn(gs).None? ==> r == []
    ensures AreTurnActions(gs, r)
    ensures (exists m :: IsAllowedJump(gs, m)) ==>
      forall m :: Offers(r, m) <==> IsAllowedJump(gs, m)
    ensures (forall m :: !IsAllowedJump(gs, m)) ==>
      forall m :: Offers(r, m) <==> IsAllowedStep(gs, m)
  {
    match WhoseTurn(gs)
    case None => []
    case Some(turn) =>
      var legalJumpMoveActions := OfferedJumpActions(gs);
      if |legalJumpMoveActions| > 0 then
        assert Offers(legalJumpMoveActions, legalJumpMoveActions[0].move);
        legalJumpMoveActions
      else
        assert forall m :: !IsAllowedJump(gs, m) by {
          forall m ensures !IsAllowedJump(gs, m) {
            assert !Offers(legalJumpMoveActions, m);
          }
        }
        OfferedStepActions(gs)
  }
}
