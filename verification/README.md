# Checkers rules engine, modelled in Dafny

This project models the rules engine of a checkers (English draughts) game. The engine lives in
`src/features/game/utilities.ts`, `gameSlice.ts` and `constants.ts`. The model covers:

- **Board geometry.** The 32 playing squares are numbered 0-31 in a zigzag, four per row, over
  eight rows. The model covers the per-parity offset tables, the bounds test
  (`directionIsInBounds`), the adjacent and jump squares, the forward test, the kings-row test,
  and the conversion between playing-square indices and 8x8 board locations.
- **Move legality** (`isMoveLegal`, `getMoveTypeAndDirection`).
- **Move generation** (`getAllLegalSimpleMoves`, `getAllLegalJumpMoves`).
- **The action factory** (`createSimpleMoveAction`, `createJumpMoveAction`). It computes the
  resulting board and the `endsTurn`, `endsGame` and winner flags.
- **The game log.** This is the `makeMove` reducer, the `selectPhysicalSquare` reducer and the
  selectors that derive the current board, whose turn it is, game-over, capture counts and the
  offered moves. Mandatory capture and forced multi-jump continuation are enforced there.

Everything is a pure function over immutable values:

- A board is a `seq<Option<Piece>>` of length 32.
- A game is its initial board plus an append-only list of `PlayerAction`s.
- A thrown `Error('Illegal move')` becomes `Failure(IllegalMove)`.

Modules follow the source:

| module | file | models |
|---|---|---|
| `Dimensions`, `Constants` | `constants.dfy` | `constants.ts` |
| `Types` | `types.dfy` | `types.d.ts` |
| `Geometry`, `GeometryFacts`, `Physical`, `Legality`, `Generation`, `Actions` | `geometry.dfy`, `physical.dfy`, `legality.dfy`, `generation.dfy`, `actions.dfy` | `utilities.ts` |
| `GameSlice` | `gameslice.dfy` | `gameSlice.ts` |
| `Material`, `GameLog` | `material.dfy`, `gamelog.dfy` | properties of boards and logs built by `makeMove` |

`makeMove` is modelled exactly as the code is written, by `GameSlice.MakeMove`:

- It rejects a move only when no direction matches its geometry or when the move fails
  `isMoveLegal` on the current board.
- It does not check whose turn it is, mandatory capture, forced continuation, or whether the game
  is over. English draughts forbids moving out of turn or after the game has ended, but
  `makeMove` checks neither, and the model follows the code. `GameLog.MakeMoveIgnoresTurn`
  exhibits a white move accepted while red is on turn.
- A jump ends the turn whenever the piece lands in its kings row, whatever its rank. In English
  draughts only a man's crowning ends a capture sequence, and a king may capture on through its
  far row. The model follows the code; `Actions.KingEndsTurnInKingsRow` exhibits a king that
  stops with a capture still open.
- The turn rules live only in the offered-moves selector (`GameSlice.CurrentValidMoveActions`).
  The `GameLog` lemmas prove those rules hold for every log that `makeMove` can build.

## Model

| member | source | states |
|---|---|---|
| Constants.DirectionsListsEveryDirection | src/features/game/constants.ts:20-24 | The direction order nw, ne, se, sw lists every direction, so each scan over it considers every direction. |
| GeometryFacts.EvenRowsAlternate | src/features/game/utilities.ts:31-35 | An index lies in an even row exactly when it is among the first four of each block of eight indices, since the rows alternate every four indices. |
| Geometry.IndexIsInBounds | src/features/game/utilities.ts:77-79 | An index is in bounds exactly when its row is one of the eight rows of the board. |
| Geometry.DirectionIsInBounds | src/features/game/utilities.ts:37-75 | For a square of the board, a step is in bounds unless it goes north from row 0, south from row 7, west from column 0 of an odd row, or east from column 3 of an even row. |
| Geometry.AdjacentIndex | src/features/game/utilities.ts:81-88 | Gives no square exactly when the direction is out of bounds. Otherwise the result is one row north or south of the origin, and a square of the board maps to a square of the board. |
| Geometry.JumpIndex | src/features/game/utilities.ts:90-95 | Defined exactly when both hops in the same direction exist. Then it is the origin plus or minus 7 or 9 (`JumpOffset`), two rows away. |
| Geometry.DirectionIsForward | src/features/game/utilities.ts:188-191 | A direction is forward exactly when it moves south for red and north for white. |
| Geometry.IndexIsInKingsRow | src/features/game/utilities.ts:233-238 | True exactly for the squares of row 7 for red and row 0 for white. |
| GeometryFacts.UnitTestCases | src/features/game/utilities.spec.ts:11-72 | The literal bounds and adjacency cases of the unit tests hold in the model. |
| GeometryFacts.StepThenOppositeReturns | src/features/game/constants.ts:29-41 | The even-row and odd-row offsets are inverse across row parity: a step followed by the opposite step returns to the origin. |
| GeometryFacts.TargetsAreDistinct | src/features/game/utilities.ts:166-186 | A destination determines the direction of a step and of a jump, and no square is both a step and a jump away. |
| GeometryFacts.JumpedSquareIsNeverZero | src/features/game/utilities.ts:216-220 | The falsy test on the jumped index never rejects a real jump: the jumped square of a jump from the board is never square 0. |
| GeometryFacts.KingsRowIsFarEdge | src/features/game/utilities.ts:233-238 | A square is in a colour's kings row exactly when no forward step from it stays on the board. |
| Physical.PhysicalToIndex | src/features/game/utilities.ts:240-253 | Gives an index exactly for locations whose row and column parities differ. On the board, that index has the location's row and the matching playing column. |
| Physical.IndexToPhysical | src/features/game/utilities.ts:255-266 | Gives a location exactly for indices 0-31. The location is a dark square of the board, in row index/4. |
| Physical.IndexRoundTrip | src/features/game/utilities.ts:240-266 | Converting an index to its location and back gives the index. |
| Physical.LocationRoundTrip | src/features/game/utilities.ts:240-266 | Converting a dark square of the board to its index and back gives the location. |
| Physical.AdjacentIsDiagonalNeighbour | src/features/game/utilities.ts:37-95 | The bounds test and offset tables compute the same square as one diagonal step on the 8x8 board. |
| Legality.MoveTypeAndDirectionOf | src/features/game/utilities.ts:166-186 | The move is classified as a step exactly when its destination is adjacent, and as a jump exactly when it is a jump away. The reported direction reaches the destination. |
| Legality.FirstMatchingDirection | src/features/game/utilities.ts:166-186 | The direction found reaches the target from the origin; when none is found, no direction of the list reaches it. |
| Legality.IsMoveLegal | src/features/game/utilities.ts:193-231 | A legal move starts on an occupied square of the board and ends on an empty one. |
| Legality.IsMoveLegalIff | src/features/game/utilities.ts:193-231 | A move is legal exactly when, in some direction, it is a step onto an adjacent empty square, or it is a jump onto an empty square over an opponent's piece. In both cases a man must be moving forward. |
| Generation.PieceIndicesForColor | src/features/game/utilities.ts:107-115 | Lists exactly the squares holding a piece of the colour. |
| Generation.PieceIndicesFrom | src/features/game/utilities.ts:107-115 | From a starting square on, lists exactly the squares holding the colour, in strictly increasing order. |
| Generation.PotentialMoves | src/features/game/utilities.ts:117-128 | Lists exactly the moves from the origin to a square one step (or one jump) away in some direction. |
| Generation.PotentialMovesFrom | src/features/game/utilities.ts:130-136 | The concatenated candidates are exactly the moves from a listed origin to a square one step (or one jump) away in some direction. |
| Generation.LegalOnly | src/features/game/utilities.ts:137-139 | Keeps exactly the moves of the list that are legal on the board. |
| Generation.MovesFrom | src/features/game/utilities.ts:348-349 | Keeps exactly the moves that start on the given square, and is non-empty exactly when one exists. |
| Generation.AllLegalSimpleMoves | src/features/game/utilities.ts:130-141 | Contains exactly the legal step-shaped moves that start on a square of the colour. |
| Generation.AllLegalJumpMoves | src/features/game/utilities.ts:143-154 | Contains exactly the legal jump-shaped moves that start on a square of the colour. |
| Generation.EnumerationsCoverAllMoves | src/features/game/utilities.ts:295-300 | The two enumerations are both empty exactly when the colour has no legal move at all. |
| Actions.Promoted | src/features/game/utilities.ts:287-289 | The landing piece keeps its colour. It is a king exactly when it was one or it lands in its kings row. |
| Actions.OpponentOf | src/features/game/utilities.ts:291-293 | The opponent of a colour is the other colour. |
| Actions.JumpResultant | src/features/game/utilities.ts:339-347 | After a jump, the origin and the jumped square are empty, the landing square holds the (possibly crowned) piece, and no other square changes. |
| Actions.StepResultant | src/features/game/utilities.ts:285-289 | After a step, the origin is empty, the destination holds the (possibly crowned) piece, and no other square changes. |
| Actions.ContinuationJumpsIff | src/features/game/utilities.ts:348-351 | The filtered list of next jumps is non-empty exactly when the piece on the landing square has a legal jump. |
| Actions.NoJumpsFromEmptySquare | src/features/game/utilities.ts:348-349 | No jump, and no listed next jump, starts on an empty square. |
| Actions.CreateSimpleMoveAction | src/features/game/utilities.ts:268-316 | Succeeds exactly on legal moves. The result has the resultant board of a step, and the turn always ends. The game ends, with the mover as winner, exactly when the opponent has no legal move. |
| Actions.StepOutcome | src/features/game/utilities.ts:285-315 | A simple-move action by the moving piece: the step's board, the turn ends, and the game ends with the mover as winner exactly when the opponent has no legal move on that board. |
| Actions.CreateJumpMoveAction | src/features/game/utilities.ts:318-377 | Succeeds exactly on legal moves. The result has the resultant board of the jump. The turn ends exactly when the piece lands in its kings row (a king included, which is not crowned again) or cannot jump again. The game ends exactly when the turn ends and the opponent has no legal move, and the winner is set exactly then. |
| Actions.JumpOutcome | src/features/game/utilities.ts:337-376 | A jump action by the moving piece: the jump's board; the turn ends exactly when the piece lands in its kings row (a king included, which is not crowned again) or cannot jump again; the game ends exactly when the turn ends and the opponent has no legal move, with the mover as winner. |
| Actions.KingEndsTurnInKingsRow | src/features/game/utilities.ts:342-351 | A king that jumps into its own kings row ends its turn even when it has a further jump: a red king jumping 21 to 30 stops, although 30 over 26 to 23 is open. |
| GameSlice.InitialState | src/features/game/gameSlice.ts:47-60 | Squares 0-11 hold red men, 12-19 are empty and 20-31 hold white men. No action has been played and nothing is selected. |
| GameSlice.LastAction | src/features/game/utilities.ts:97-98 | Gives no action exactly for an empty log, and otherwise gives the last action. |
| GameSlice.CurrentBoard | src/features/game/gameSlice.ts:152-157 | The initial board for an empty log, and otherwise the board left by the last action. |
| GameSlice.GameOver | src/features/game/gameSlice.ts:127-132 | True exactly when a last action exists and it ended the game. |
| GameSlice.WhoseTurn | src/features/game/gameSlice.ts:134-150 | Red with an empty log; nobody exactly when the game is over; otherwise the colour of the last action again exactly when that action did not end the turn. |
| GameSlice.CountJumps | src/features/game/gameSlice.ts:159-169 | At most the number of actions, and equal to it exactly when every action is a jump of the colour. |
| GameSlice.CaptureCount | src/features/game/gameSlice.ts:159-169 | A capture count never exceeds the number of actions. |
| GameSlice.CurrentPlayerBoardIndices | src/features/game/gameSlice.ts:171-177 | Empty when nobody is on turn. Otherwise it lists exactly the squares holding the colour on turn. |
| GameSlice.ApplyMove | src/features/game/gameSlice.ts:66-80 | Succeeds exactly on legal moves. The action records the move and the mover's colour, and it is a jump exactly when the move is jump-shaped. |
| GameSlice.ApplyMoveDispatch | src/features/game/gameSlice.ts:76-78 | Jump-shaped moves are built by the jump factory and step-shaped moves by the simple-move factory. |
| GameSlice.OffersExactly | src/features/game/gameSlice.ts:197-199 | Mapping a list of moves to actions with those moves offers exactly the listed moves. |
| GameSlice.MakeMove | src/features/game/gameSlice.ts:66-89 | Succeeds exactly when the move is legal on the current board. It then keeps the initial board and the earlier actions, appends exactly the factory's action, makes that action's board the current board, and clears the selection. |
| GameSlice.SelectPhysicalSquare | src/features/game/gameSlice.ts:90-97 | Keeps the log. It selects a square exactly when a dark square was clicked, and clears the selection for no click. |
| GameSlice.SelectedPhysicalLocation | src/features/game/gameSlice.ts:122-125 | Gives a location only for a selected index on the board. |
| GameSlice.SelectionRoundTrip | src/features/game/gameSlice.ts:90-125 | Selecting a dark square of the board and reading the selection back gives that square. |
| GameSlice.PhysicalCell | src/features/game/gameSlice.ts:221-227 | A cell is filled exactly for dark squares. It then carries the index that converts back to that cell, and that square's contents. |
| GameSlice.CurrentPhysicalBoard | src/features/game/gameSlice.ts:216-232 | Eight rows of eight cells, each the cell of the current board at that row and column. |
| GameSlice.Previews | src/features/game/gameSlice.ts:191-210 | One action per legal move, each the action `makeMove` appends for that move. |
| GameSlice.PreviewsAreByMover | src/features/game/gameSlice.ts:191-210 | Previews of moves by pieces of one colour are actions of that colour. |
| GameSlice.IsStartOfMultiJump | src/features/game/gameSlice.ts:186-188 | A multi-jump is under way exactly when the last action is a jump that ended neither the turn nor the game. |
| GameSlice.OfferedJumpMoves | src/features/game/gameSlice.ts:186-199 | Contains exactly the allowed jumps: legal jumps of the colour on turn, and during a multi-jump only those from the square the last jump landed on. |
| GameSlice.OfferedJumpActions | src/features/game/gameSlice.ts:190-199 | Offers exactly the allowed jumps, each as the action `makeMove` would append, by the colour on turn. |
| GameSlice.OfferedStepActions | src/features/game/gameSlice.ts:207-212 | Offers exactly the legal simple moves of the colour on turn, each as the action `makeMove` would append. |
| GameSlice.CurrentValidMoveActions | src/features/game/gameSlice.ts:179-214 | Empty once the game is over. When an allowed jump exists, it offers exactly the allowed jumps; otherwise it offers exactly the legal simple moves. Every offered action is what `makeMove` appends for its move, by the colour on turn. |
| GameLog.InitialStateIsValid | src/features/game/gameSlice.ts:47-60 | The initial game is a valid log. |
| GameLog.AppendPreservesValidLog | src/features/game/gameSlice.ts:82-88 | Appending the action a move produces on the current board keeps the log valid. |
| GameLog.MakeMovePreservesValidLog | src/features/game/gameSlice.ts:66-89 | Every log `makeMove` builds is valid: each action is what the factories produce on the board before it. |
| GameLog.MakeMoveIgnoresTurn | src/features/game/gameSlice.ts:66-89 | At the start, with red on turn, `makeMove` accepts a white man's step. |
| GameLog.OfferedActionsAreAccepted | src/features/game/gameSlice.ts:179-214 | Playing an offered action's move through `makeMove` appends exactly that action. |
| GameLog.MultiJumpCanContinue | src/features/game/utilities.ts:348-351 | In a valid log, a player who is on turn again after their own jump has a further jump from the landing square. |
| GameLog.OfferedActionKind | src/features/game/gameSlice.ts:186-211 | An offered action is a jump exactly when an allowed jump exists. It is then allowed, and during a multi-jump it starts on the last landing square. |
| GameLog.AllowedJumpIsOffered | src/features/game/gameSlice.ts:190-203 | When an allowed jump exists, something is offered. |
| GameLog.OnlyTheJumpingPieceIsOffered | src/features/game/gameSlice.ts:186-199 | During a multi-jump that can continue, every offered action is a jump from the last landing square. |
| GameLog.ForcedContinuation | src/features/game/gameSlice.ts:186-203 | In a valid log during a multi-jump, at least one action is offered, and all of them are jumps by the piece that just jumped. |
| GameLog.MandatoryCapture | src/features/game/gameSlice.ts:199-203 | In a valid log, when the colour on turn has any legal jump, every offered action is a jump. |
| GameLog.JumpMeansAllowedJump | src/features/game/gameSlice.ts:186-199 | In a valid log, a legal jump for the colour on turn means some jump is allowed, during a multi-jump too. |
| GameLog.LogMaterial | src/features/game/gameSlice.ts:159-169 | Along a valid log, a colour's pieces on the board plus the jumps made against it equal its pieces at the start. |
| GameLog.CapturesAreMissingPieces | src/features/game/gameSlice.ts:159-169 | A colour's capture count is the number of opponent pieces missing from the current board. |
| GameLog.CaptureCountIsBounded | src/features/game/gameSlice.ts:159-169 | From the standard set-up, a capture count is 12 minus the opponent pieces left, so it never exceeds 12. |
| GameLog.CaptureCountAfterMove | src/features/game/gameSlice.ts:159-169 | `makeMove` raises a colour's capture count by one exactly when it appends a jump by that colour, and otherwise leaves the count unchanged. |
| Material.CountOf | src/features/game/gameSlice.ts:159-169 | The number of pieces of a colour on a board, at most the number of squares. |
| Material.InitialMaterial | src/features/game/gameSlice.ts:47-60 | The starting position has twelve pieces of each colour. |
| Material.StepResultantMaterial | src/features/game/utilities.ts:285-289 | Moving a piece onto an empty square keeps the count of every colour. |
| Material.JumpResultantMaterial | src/features/game/utilities.ts:339-347 | A jump's board also loses whatever stood on the jumped square. |
| Material.SimpleMoveMaterial | src/features/game/utilities.ts:285-289 | A simple move keeps the number of pieces of every colour. |
| Material.JumpedSquareHoldsOpponent | src/features/game/utilities.ts:216-228 | A legal jump-shaped move jumps an opponent's piece. |
| Material.JumpMaterial | src/features/game/utilities.ts:339-347 | A jump keeps the mover's pieces and removes exactly one opponent piece. |
| Material.ActionMaterial | src/features/game/gameSlice.ts:76-78 | The action a move produces removes one opponent piece exactly when it is a jump, and otherwise keeps both counts. |

## Left out

- The React components (`Game.tsx`, `Piece.tsx`) are not part of this model. Nor is the Redux
  Toolkit machinery (`createSlice`, `createSelector` memoisation, `RootState`): reducers and
  selectors are plain total functions over a `GameState` value.
- The `resignation` action type is left out, because nothing in the code produces one. As a
  result, `selectLastMovePlayerAction` is the same as the last action (`GameSlice.LastAction`),
  and `PlayerAction.move` is always a move.
- Exceptions are modelled as `Failure(IllegalMove)`.
- The factories' `validate = false` path is left out as a separate branch. The offered-moves
  selector uses it only on moves that are already legal, and on those it produces the same
  action as the validated path. `GameSlice.Previews` therefore builds previews with
  `GameSlice.ApplyMove` on legal moves, and `GameSlice.ApplyMoveDispatch` shows that
  `ApplyMove` uses the same factory the selector calls.
- `createJumpMoveAction` does not check that its move is a jump. Given a legal simple move, it
  clears the destination again after placing the piece there. The model keeps this behaviour
  and states it in `Actions.CreateJumpMoveAction`'s contract. No caller passes it a simple move.
- Boards always have 32 squares. An out-of-range read, which is `undefined` in the source,
  reads as an empty square (`Legality.At`). Move indices are integers; non-integer numbers
  cannot be expressed.
- The trivial accessors `selectGameState`, `selectPlayerColor` and `selectLastPlayerAction` are
  not separate members. They are subsumed by `GameSlice.LastAction` and the `GameState` fields.
- Generation.AllLegalSimpleMoves: the contract states which moves are listed, not their order
  (by origin square, then nw, ne, se, sw). The order only fixes the order of the offered actions.
- Generation.AllLegalJumpMoves: as above, membership only, not order.
- GameSlice.CurrentValidMoveActions: as above, membership only, not order.
