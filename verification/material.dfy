/** Material on the board: how many pieces of each colour there are, and how the actions
    the factories produce change those numbers. */
module Material {
  import opened Types
  import opened Dimensions
  import opened Geometry
  import opened GeometryFacts
  import opened Legality
  import opened Actions
  import opened GameSlice

  /** One for a square holding a piece of colour `c`, zero otherwise. */
  function Tally(o: Option<Piece>, c: Color): nat
  {
    if o.Some? && o.value.color == c then 1 else 0
  }

  /** The number of pieces of colour `c` on the squares `s`. */
  function CountOf(s: seq<Option<Piece>>, c: Color): (n: nat)
    ensures n <= |s|
  {
    if |s| == 0 then 0 else CountOf(s[..|s| - 1], c) + Tally(s[|s| - 1], c)
  }

  /** Overwriting one square changes the count by what leaves and what arrives. */
  lemma {:induction false} CountOfUpdate(s: seq<Option<Piece>>, i: int, v: Option<Piece>, c: Color)
    requires 0 <= i < |s|
    ensures CountOf(s[i := v], c) == CountOf(s, c) - Tally(s[i], c) + Tally(v, c)
  {
    var n := |s| - 1;
    if i == n {
      assert s[i := v][..n] == s[..n];
    } else {
      assert s[i := v][..n] == s[..n][i := v];
      CountOfUpdate(s[..n], i, v, c);
    }
  }

  /** Counting splits over concatenation. */
  lemma {:induction false} CountOfAppend(s: seq<Option<Piece>>, t: seq<Option<Piece>>, c: Color)
    ensures CountOf(s + t, c) == CountOf(s, c) + CountOf(t, c)
  {
    if |t| == 0 {
      assert s + t == s;
    } else {
      var n := |t| - 1;
      assert (s + t)[..|s + t| - 1] == s + t[..n];
      assert (s + t)[|s + t| - 1] == t[n];
      CountOfAppend(s, t[..n], c);
    }
  }

  /** A run of `n` equal squares counts `n` times that square. */
  lemma {:induction false} CountOfRun(n: nat, v: Option<Piece>, c: Color)
    ensures CountOf(seq(n, _ => v), c) == n * Tally(v, c)
  {
    if n > 0 {
      assert seq(n, _ => v)[..n - 1] == seq(n - 1, _ => v);
      CountOfRun(n - 1, v, c);
    }
  }

  /** The starting position has twelve pieces of each colour. */
  lemma InitialMaterial()
    ensures CountOf(InitialBoard, Red) == 12 && CountOf(InitialBoard, White) == 12
  {
    var reds: seq<Option<Piece>> := seq(12, _ => Some(Piece(Red, Man)));
    var empties: seq<Option<Piece>> := seq(8, _ => None);
    var whites: seq<Option<Piece>> := seq(12, _ => Some(Piece(White, Man)));
    assert InitialBoard == reds + empties + whites;
    forall c ensures CountOf(InitialBoard, c) == 12 * Tally(Some(Piece(Red, Man)), c) + 12 * Tally(Some(Piece(White, Man)), c) {
      CountOfAppend(reds + empties, whites, c);
      CountOfAppend(reds, empties, c);
      CountOfRun(12, Some(Piece(Red, Man)), c);
      CountOfRun(8, None, c);
      CountOfRun(12, Some(Piece(White, Man)), c);
    }
  }

  /** Lifting a piece from `from` and setting it down on the empty square `to` keeps the count. */
  lemma StepResultantMaterial(b: Board, from: int, to: int, p: Piece, c: Color)
    requires IndexIsInBounds(from) && IndexIsInBounds(to) && from != to
    requires b[from] == Some(p) && b[to] == None
    ensures CountOf(StepResultant(b, from, to, p), c) == CountOf(b, c)
  {
    CountOfUpdate(b, from, None, c);
    CountOfUpdate(b[from := None], to, Some(Promoted(p, to)), c);
  }

  /** A jump's board also loses what stood on the jumped square. */
  lemma JumpResultantMaterial(b: Board, from: int, to: int, jumped: int, p: Piece, c: Color)
    requires IndexIsInBounds(from) && IndexIsInBounds(to) && IndexIsInBounds(jumped)
    requires from != to && jumped != from && jumped != to
    requires b[from] == Some(p) && b[to] == None
    ensures CountOf(JumpResultant(b, from, to, jumped, p), c) == CountOf(b, c) - Tally(b[jumped], c)
  {
    var landed := StepResultant(b, from, to, p);
    StepResultantMaterial(b, from, to, p, c);
    assert JumpResultant(b, from, to, jumped, p) == landed[jumped := None];
    CountOfUpdate(landed, jumped, None, c);
  }

  /** A simple move leaves the number of pieces of every colour as it was. */
  lemma SimpleMoveMaterial(b: Board, m: Move, c: Color)
    requires IsMoveLegal(b, m)
    ensures CountOf(CreateSimpleMoveAction(b, m).value.resultant, c) == CountOf(b, c)
  {
    StepResultantMaterial(b, m.from, m.to, b[m.from].value, c);
  }

  /** A legal jump-shaped move jumps an opponent's piece on the square between `from` and `to`. */
  lemma JumpedSquareHoldsOpponent(b: Board, m: Move, d: Direction)
    requires IsMoveLegal(b, m) && JumpIndex(m.from, d) == Some(m.to)
    ensures IsLegalJump(b, m, d)
  {
    IsMoveLegalIff(b, m);
    var e :| IsLegalStep(b, m, e) || IsLegalJump(b, m, e);
    TargetsAreDistinct(m.from, e, d);
  }

  /** A legal jump leaves the mover's pieces as they were and removes exactly one of the
      opponent's. */
  lemma JumpMaterial(b: Board, m: Move, d: Direction, c: Color)
    requires IsMoveLegal(b, m) && JumpIndex(m.from, d) == Some(m.to)
    ensures CountOf(JumpResultant(b, m.from, m.to, AdjacentIndex(m.from, d).value, b[m.from].value), c)
      == CountOf(b, c) - (if c == b[m.from].value.color then 0 else 1)
  {
    var p, jumped := b[m.from].value, AdjacentIndex(m.from, d).value;
    JumpedSquareHoldsOpponent(b, m, d);
    assert Tally(b[jumped], c) == if c == p.color then 0 else 1;
    JumpResultantMaterial(b, m.from, m.to, jumped, p, c);
  }

  /** The action a move produces keeps the mover's pieces and removes one opponent piece
      exactly when it is a jump. */
  lemma ActionMaterial(b: Board, a: PlayerAction, c: Color)
    requires ApplyMove(b, a.move) == Success(a)
    ensures CountOf(a.resultant, c) == CountOf(b, c) - (if a.kind == JumpMove && a.color != c then 1 else 0)
  {
    ApplyMoveDispatch(b, a.move);
    if IsJumpShaped(a.move) {
      var d :| JumpIndex(a.move.from, d) == Some(a.move.to);
      JumpMaterial(b, a.move, d, c);
    } else {
      assert IsStepShaped(a.move);
      SimpleMoveMaterial(b, a.move, c);
    }
  }
}
