/**
 * King.is_valid_move, the polymorphic Piece.is_valid_move and
 * ChessBoard.is_king_in_check as specification functions (chess.py).
 *
 * The King's castling branch asks is_king_in_check, which asks every enemy
 * piece, the enemy King included, whether it accepts the king's square. That
 * recursion is bounded: when the destination holds a King the castling branch
 * answers False before it probes anything (CastleGateExcludesKingTarget). The
 * decreases measure KingTargetRank records exactly this.
 */
module Rules {
  import opened Wrappers
  import opened Grid
  import opened Pieces

  /** The errors raised inside the core. */
  datatype Fault =
    /** ValueError of is_king_in_check: no King of that colour on the board. */
    | NoKingFound(color: Color)
    /** UnboundLocalError of move_piece: `direction` read before assignment. */
    | DirectionUnbound

  // ---------------------------------------------------------------------------
  // Row-major king search
  // ---------------------------------------------------------------------------

  /** The square with row-major index i. */
  function SquareAt(i: int): Square {
    Square(i / 8, i % 8)
  }

  function Index(q: Square): int {
    8 * q.row + q.col
  }

  lemma IndexInverse(q: Square)
    requires OnBoard(q)
    ensures 0 <= Index(q) < 64 && SquareAt(Index(q)) == q
  {
  }

  /**
   * The king search of is_king_in_check: the first King of colour c in
   * row-major order at linear index i or later.
   */
  function FirstKing(g: Grid, c: Color, i: int): (k: Option<Square>)
    requires 0 <= i <= 64
    decreases 64 - i
    ensures k.Some? ==> OnBoard(k.value) && IsKingOf(g, k.value, c) && i <= Index(k.value)
                        && forall j :: i <= j < Index(k.value) ==> !IsKingOf(g, SquareAt(j), c)
    ensures k.None? ==> forall j :: i <= j < 64 ==> !IsKingOf(g, SquareAt(j), c)
  {
    if i == 64 then None
    else if IsKingOf(g, SquareAt(i), c) then Some(SquareAt(i))
    else FirstKing(g, c, i + 1)
  }

  /** The search finds a King exactly when the board holds one of that colour. */
  lemma FirstKingFinds(g: Grid, c: Color)
    ensures FirstKing(g, c, 0).Some? <==> exists q :: OnBoard(q) && IsKingOf(g, q, c)
  {
    if q :| OnBoard(q) && IsKingOf(g, q, c) {
      IndexInverse(q);
      assert IsKingOf(g, SquareAt(Index(q)), c);
    }
  }

  // ---------------------------------------------------------------------------
  // The castling gate: everything the castling branch checks before probing
  // ---------------------------------------------------------------------------

  /** `direction` of the castling branch. */
  function CastleDir(s: Square, e: Square): int {
    if e.col > s.col then 1 else -1
  }

  /** `rook_y`: the corner column on the side the king moves to. */
  function RookCol(s: Square, e: Square): int {
    if e.col > s.col then 7 else 0
  }

  predicate IsUnmovedRook(cell: Cell) {
    cell.Some? && cell.value.kind == Rook && !cell.value.hasMoved
  }

  /**
   * Unmoved king, same row, two columns; an unmoved Rook (of any colour) in
   * the corner on that side; every square between king and corner empty.
   */
  predicate CastleGate(g: Grid, s: Square, e: Square)
    requires GetPiece(g, s).Some?
  {
    var d := CastleDir(s, e);
    var rc := RookCol(s, e);
    && !GetPiece(g, s).value.hasMoved
    && s.row == e.row && Abs(e.col - s.col) == 2
    && IsUnmovedRook(GetPiece(g, Square(s.row, rc)))
    && RayClear(g, Square(s.row, s.col + d), 0, d, Abs(rc - s.col) - 1)
  }

  /** The gate stated without the loop: the corridor to the corner is empty. */
  lemma CastleGateReference(g: Grid, s: Square, e: Square)
    requires OnBoard(s) && OnBoard(e) && GetPiece(g, s).Some?
    ensures CastleGate(g, s, e) <==>
      && !GetPiece(g, s).value.hasMoved
      && s.row == e.row && Abs(e.col - s.col) == 2
      && IsUnmovedRook(GetPiece(g, Square(s.row, RookCol(s, e))))
      && forall y :: Between(s.col, RookCol(s, e), y) ==> IsEmpty(g, Square(s.row, y))
  {
    CorridorReference(g, s, e);
  }

  /** The corridor ray of CastleGate is clear exactly when every column between King and corner is empty. */
  lemma CorridorReference(g: Grid, s: Square, e: Square)
    requires OnBoard(s)
    ensures RayClear(g, Square(s.row, s.col + CastleDir(s, e)), 0, CastleDir(s, e), Abs(RookCol(s, e) - s.col) - 1) <==>
      forall y :: Between(s.col, RookCol(s, e), y) ==> IsEmpty(g, Square(s.row, y))
  {
    var d := CastleDir(s, e);
    var rc := RookCol(s, e);
    var start := Square(s.row, s.col + d);
    var n := Abs(rc - s.col) - 1;
    RayClearIff(g, start, 0, d, n);
    if forall y :: Between(s.col, rc, y) ==> IsEmpty(g, Square(s.row, y)) {
      forall i | 0 <= i < n
        ensures IsEmpty(g, Along(start, 0, d, i))
      {
        CorridorSquareBetween(s, e, i);
      }
    }
    if RayClear(g, start, 0, d, n) {
      forall y | Between(s.col, rc, y)
        ensures IsEmpty(g, Square(s.row, y))
      {
        BetweenCorridorSquare(s, e, y);
      }
    }
  }

  /** The i-th square of the castling corridor lies between the King and the corner. */
  lemma CorridorSquareBetween(s: Square, e: Square, i: int)
    requires OnBoard(s) && 0 <= i < Abs(RookCol(s, e) - s.col) - 1
    ensures Along(Square(s.row, s.col + CastleDir(s, e)), 0, CastleDir(s, e), i).row == s.row
    ensures Between(s.col, RookCol(s, e), Along(Square(s.row, s.col + CastleDir(s, e)), 0, CastleDir(s, e), i).col)
  {
  }

  /** A column between the King and the corner is a square of the castling corridor. */
  lemma BetweenCorridorSquare(s: Square, e: Square, y: int)
    requires OnBoard(s) && Between(s.col, RookCol(s, e), y)
    ensures 0 <= Abs(y - s.col) - 1 < Abs(RookCol(s, e) - s.col) - 1
    ensures Square(s.row, y) == Along(Square(s.row, s.col + CastleDir(s, e)), 0, CastleDir(s, e), Abs(y - s.col) - 1)
  {
  }

  /**
   * When the destination holds a King the gate is shut: either the destination
   * is the corner, which then holds no Rook, or it lies in the corridor, which
   * then is not empty.
   */
  lemma CastleGateExcludesKingTarget(g: Grid, s: Square, e: Square)
    requires OnBoard(s) && OnBoard(e) && GetPiece(g, s).Some? && CastleGate(g, s, e)
    ensures !IsKingAt(g, e)
  {
    var d := CastleDir(s, e);
    var rc := RookCol(s, e);
    if e.col != rc {
      RayClearIff(g, Square(s.row, s.col + d), 0, d, Abs(rc - s.col) - 1);
      assert Along(Square(s.row, s.col + d), 0, d, 1) == e;
    }
  }

  /** The square of the k-th king probe: start, start + direction, start + 2 * direction. */
  function ProbeSquare(s: Square, e: Square, k: int): Square
    requires 0 <= k < 3
  {
    Square(s.row, s.col + Scale(k, CastleDir(s, e)))
  }

  /** The piece on s lifted off and put down on q, nothing else changed (a castling probe, a game-over trial). */
  function Relocated(g: Grid, s: Square, q: Square): Grid
    requires OnBoard(s) && OnBoard(q)
  {
    Set(Set(g, s, None), q, GetPiece(g, s))
  }

  /** Past the start, a probe square that is not the corner lies in the corridor, which the gate keeps empty. */
  lemma ProbeSquareEmpty(g: Grid, s: Square, e: Square, k: int)
    requires OnBoard(s) && OnBoard(e) && GetPiece(g, s).Some? && CastleGate(g, s, e)
    requires 0 < k < 3 && ProbeSquare(s, e, k).col != RookCol(s, e)
    ensures OnBoard(ProbeSquare(s, e, k)) && IsEmpty(g, ProbeSquare(s, e, k))
  {
    CastleGateReference(g, s, e);
    assert Between(s.col, RookCol(s, e), ProbeSquare(s, e, k).col);
  }

  /** Taking the probe back (the probe square emptied, the king put back on s) restores the grid. */
  lemma ProbeUndone(g: Grid, s: Square, q: Square)
    requires OnBoard(s) && OnBoard(q) && (q == s || IsEmpty(g, q))
    ensures Set(Set(Relocated(g, s, q), q, None), s, GetPiece(g, s)) == g
  {
    GridExt(Set(Set(Relocated(g, s, q), q, None), s, GetPiece(g, s)), g);
  }

  /** 0 when the destination holds a King (no castling probe can follow), else 2. */
  function KingTargetRank(g: Grid, e: Square): nat {
    if IsKingAt(g, e) then 0 else 2
  }

  // ---------------------------------------------------------------------------
  // King.is_valid_move, Piece.is_valid_move, is_king_in_check
  // ---------------------------------------------------------------------------

  /** The k-th probe passes: it is the corner column (skipped) or the king is not in check there. */
  ghost predicate ProbeSafe(g: Grid, s: Square, e: Square, k: int)
    requires OnBoard(s) && OnBoard(e) && GetPiece(g, s).Some? && CastleGate(g, s, e) && 0 <= k < 3
    decreases KingTargetRank(g, e), 0
  {
    var q := ProbeSquare(s, e, k);
    || q.col == RookCol(s, e)
    || (CastleGateExcludesKingTarget(g, s, e);
        InCheck(Relocated(g, s, q), GetPiece(g, s).value.color) != Ok(true))
  }

  /**
   * A probe moves the King itself, so the check test it makes never raises:
   * a probe that is not in check is one the test answers False.
   */
  lemma ProbeNeverFaults(g: Grid, s: Square, q: Square)
    requires OnBoard(s) && OnBoard(q) && IsKingAt(g, s)
    ensures InCheck(Relocated(g, s, q), GetPiece(g, s).value.color).Ok?
    ensures InCheck(Relocated(g, s, q), GetPiece(g, s).value.color) != Ok(true) <==>
      InCheck(Relocated(g, s, q), GetPiece(g, s).value.color) == Ok(false)
  {
    KingPresentNoFault(Relocated(g, s, q), q, GetPiece(g, s).value.color);
  }

  /** King.is_valid_move for the piece on s. */
  ghost predicate KingAccepts(g: Grid, s: Square, e: Square)
    requires OnBoard(s) && OnBoard(e) && GetPiece(g, s).Some?
    decreases KingTargetRank(g, e), 1
  {
    if Abs(e.row - s.row) <= 1 && Abs(e.col - s.col) <= 1 then
      !HasColor(g, e, GetPiece(g, s).value.color)
    else
      CastleGate(g, s, e) && ProbeSafe(g, s, e, 0) && ProbeSafe(g, s, e, 1) && ProbeSafe(g, s, e, 2)
  }

  /** Piece.is_valid_move for the piece standing on s. */
  ghost predicate ValidMove(g: Grid, s: Square, e: Square)
    requires OnBoard(s) && OnBoard(e) && GetPiece(g, s).Some?
    decreases KingTargetRank(g, e), 2
  {
    var p := GetPiece(g, s).value;
    if p.kind == King then KingAccepts(g, s, e) else SimpleAccepts(g, p, s, e)
  }

  /**
   * ChessBoard.is_king_in_check: the first King of colour c, and whether some
   * piece of the other colour accepts its square.
   */
  ghost function InCheck(g: Grid, c: Color): Result<bool, Fault>
    decreases 1, 3
  {
    match FirstKing(g, c, 0)
    case None => Err(NoKingFound(c))
    case Some(k) => Ok(exists q :: OnBoard(q) && HasColor(g, q, Opponent(c)) && ValidMove(g, q, k))
  }

  // ---------------------------------------------------------------------------
  // Properties
  // ---------------------------------------------------------------------------

  /** The plain attack relation: is_valid_move with the castling branch removed. */
  predicate Attacks(g: Grid, s: Square, e: Square)
    requires GetPiece(g, s).Some?
  {
    var p := GetPiece(g, s).value;
    if p.kind == King then
      Abs(e.row - s.row) <= 1 && Abs(e.col - s.col) <= 1 && !HasColor(g, e, p.color)
    else
      SimpleAccepts(g, p, s, e)
  }

  /** Onto a King's square, is_valid_move is the plain attack relation. */
  lemma ValidMoveOntoKing(g: Grid, s: Square, e: Square)
    requires OnBoard(s) && OnBoard(e) && GetPiece(g, s).Some? && IsKingAt(g, e)
    ensures ValidMove(g, s, e) == Attacks(g, s, e)
  {
    if !(Abs(e.row - s.row) <= 1 && Abs(e.col - s.col) <= 1) && CastleGate(g, s, e) {
      CastleGateExcludesKingTarget(g, s, e);
    }
  }

  /**
   * is_king_in_check raises exactly when there is no King of that colour, and
   * otherwise answers whether an enemy piece attacks the first one found.
   */
  lemma InCheckReference(g: Grid, c: Color)
    ensures InCheck(g, c).Err? <==> forall q :: OnBoard(q) ==> !IsKingOf(g, q, c)
    ensures InCheck(g, c).Err? ==> InCheck(g, c).error == NoKingFound(c)
    ensures InCheck(g, c).Ok? ==>
      (InCheck(g, c).value <==>
        exists q :: OnBoard(q) && HasColor(g, q, Opponent(c)) && Attacks(g, q, FirstKing(g, c, 0).value))
  {
    FirstKingFinds(g, c);
    if FirstKing(g, c, 0).Some? {
      var k := FirstKing(g, c, 0).value;
      forall q | OnBoard(q) && HasColor(g, q, Opponent(c))
        ensures ValidMove(g, q, k) == Attacks(g, q, k)
      {
        ValidMoveOntoKing(g, q, k);
      }
    }
  }

  /** is_king_in_check raises exactly when the board holds no King of colour c. */
  lemma InCheckFaults(g: Grid, c: Color)
    ensures InCheck(g, c).Err? <==> forall q :: OnBoard(q) ==> !IsKingOf(g, q, c)
    ensures InCheck(g, c).Err? ==> InCheck(g, c).error == NoKingFound(c)
  {
    FirstKingFinds(g, c);
  }

  /** A board holding a King of colour c never makes is_king_in_check raise. */
  lemma KingPresentNoFault(g: Grid, q: Square, c: Color)
    requires OnBoard(q) && IsKingOf(g, q, c)
    ensures InCheck(g, c).Ok?
  {
    FirstKingFinds(g, c);
  }

  /** A King never accepts the move onto its own square. */
  lemma KingRejectsNullMove(g: Grid, s: Square)
    requires OnBoard(s) && GetPiece(g, s).Some?
    ensures !KingAccepts(g, s, s)
  {
  }

  /** The first probe puts the king back on its own square: castling out of check is refused. */
  lemma CastlingRequiresNotInCheck(g: Grid, s: Square, e: Square)
    requires OnBoard(s) && OnBoard(e) && GetPiece(g, s).Some?
    requires Abs(e.col - s.col) == 2 && KingAccepts(g, s, e)
    ensures InCheck(g, GetPiece(g, s).value.color) != Ok(true)
  {
    assert ProbeSafe(g, s, e, 0);
    assert ProbeSquare(s, e, 0) == s;
    SetSet(g, s, None, GetPiece(g, s));
    SetSame(g, s);
    assert Relocated(g, s, s) == g;
  }

  /**
   * The castling branch, stated outright: all of the gate's conditions hold,
   * and on each probe square other than the corner the king is not in check.
   */
  lemma CastlingReference(g: Grid, s: Square, e: Square)
    requires OnBoard(s) && OnBoard(e) && GetPiece(g, s).Some?
    requires Abs(e.col - s.col) == 2
    ensures KingAccepts(g, s, e) <==>
      && !GetPiece(g, s).value.hasMoved
      && s.row == e.row
      && IsUnmovedRook(GetPiece(g, Square(s.row, RookCol(s, e))))
      && (forall y :: Between(s.col, RookCol(s, e), y) ==> IsEmpty(g, Square(s.row, y)))
      && forall k | 0 <= k < 3 ::
           || ProbeSquare(s, e, k).col == RookCol(s, e)
           || InCheck(Relocated(g, s, ProbeSquare(s, e, k)), GetPiece(g, s).value.color) != Ok(true)
  {
    CastleGateReference(g, s, e);
    if CastleGate(g, s, e) {
      ProbesReference(g, s, e);
    }
  }

  /** The three probes of KingAccepts, as one statement over the probe number. */
  lemma ProbesReference(g: Grid, s: Square, e: Square)
    requires OnBoard(s) && OnBoard(e) && GetPiece(g, s).Some? && CastleGate(g, s, e)
    ensures (ProbeSafe(g, s, e, 0) && ProbeSafe(g, s, e, 1) && ProbeSafe(g, s, e, 2)) <==>
      forall k | 0 <= k < 3 ::
        || ProbeSquare(s, e, k).col == RookCol(s, e)
        || InCheck(Relocated(g, s, ProbeSquare(s, e, k)), GetPiece(g, s).value.color) != Ok(true)
  {
    forall k | 0 <= k < 3
      ensures ProbeSafe(g, s, e, k) <==>
        || ProbeSquare(s, e, k).col == RookCol(s, e)
        || InCheck(Relocated(g, s, ProbeSquare(s, e, k)), GetPiece(g, s).value.color) != Ok(true)
    {
    }
    if ProbeSafe(g, s, e, 0) && ProbeSafe(g, s, e, 1) && ProbeSafe(g, s, e, 2) {
      forall k | 0 <= k < 3
        ensures ProbeSafe(g, s, e, k)
      {
        assert k == 0 || k == 1 || k == 2;
      }
    }
  }
}
