/**
 * ChessBoard.is_game_over as a specification function, and the starting
 * position of ChessBoard.setup_board (chess.py).
 */
module Game {
  import opened Wrappers
  import opened Grid
  import opened Pieces
  import opened Rules

  // ---------------------------------------------------------------------------
  // is_game_over
  // ---------------------------------------------------------------------------

  /**
   * A trial of is_game_over that finds a way out: a piece of colour c accepts
   * e, e does not hold a King, and relocating the piece (nothing else moves)
   * leaves c out of check.
   */
  ghost predicate Escapes(g: Grid, c: Color, s: Square, e: Square) {
    && OnBoard(s) && OnBoard(e) && HasColor(g, s, c)
    && ValidMove(g, s, e)
    && !IsKingAt(g, e)
    && InCheck(Relocated(g, s, e), c) == Ok(false)
  }

  /** No trial of the piece on s finds a way out. */
  ghost predicate NoEscapeFrom(g: Grid, c: Color, s: Square) {
    forall e :: !Escapes(g, c, s, e)
  }

  /** Only a piece of colour c can be tried. */
  lemma NoPieceNoEscape(g: Grid, c: Color, s: Square)
    requires !HasColor(g, s, c)
    ensures NoEscapeFrom(g, c, s)
  {
  }

  /** False, "checkmate", "stalemate". */
  datatype Status = Ongoing | Checkmate | Stalemate

  /** What is_game_over(c) returns on grid g, or the error it raises. */
  ghost function GameOver(g: Grid, c: Color): Result<Status, Fault> {
    if FirstKing(g, c, 0).None? then Err(NoKingFound(c))
    else if exists s, e :: Escapes(g, c, s, e) then Ok(Ongoing)
    else if InCheck(g, c) == Ok(true) then Ok(Checkmate)
    else Ok(Stalemate)
  }

  /**
   * A trial never removes the mover's King (the destination is never a King),
   * so a trial's check test raises exactly when the board has no King of c.
   */
  lemma RelocationKeepsKing(g: Grid, c: Color, s: Square, e: Square)
    requires OnBoard(s) && OnBoard(e) && !IsKingAt(g, e)
    ensures InCheck(Relocated(g, s, e), c).Ok? <==> exists q :: OnBoard(q) && IsKingOf(g, q, c)
  {
    var h := Relocated(g, s, e);
    InCheckFaults(h, c);
    if q :| OnBoard(q) && IsKingOf(g, q, c) {
      if q == s {
        assert IsKingOf(h, e, c);
      } else {
        assert IsKingOf(h, q, c);
      }
    }
    if q :| OnBoard(q) && IsKingOf(h, q, c) {
      if q == e {
        assert IsKingOf(g, s, c);
      } else {
        assert IsKingOf(g, q, c);
      }
    }
  }

  /** A trial whose check test raises shows that the board holds no King of c. */
  lemma TrialFaults(g: Grid, c: Color, s: Square, e: Square)
    requires OnBoard(s) && OnBoard(e) && !IsKingAt(g, e)
    requires InCheck(Relocated(g, s, e), c).Err?
    ensures InCheck(Relocated(g, s, e), c).error == NoKingFound(c)
    ensures forall q :: OnBoard(q) ==> !IsKingOf(g, q, c)
  {
    RelocationKeepsKing(g, c, s, e);
    InCheckFaults(Relocated(g, s, e), c);
  }

  /** Putting the two cells back, start first, restores the grid. */
  lemma RelocationUndone(g: Grid, s: Square, e: Square)
    requires OnBoard(s) && OnBoard(e)
    ensures Set(Set(Relocated(g, s, e), s, GetPiece(g, s)), e, GetPiece(g, e)) == g
  {
    GridExt(Set(Set(Relocated(g, s, e), s, GetPiece(g, s)), e, GetPiece(g, e)), g);
  }

  /** is_game_over raises exactly when the board holds no King of colour c. */
  lemma GameOverFaults(g: Grid, c: Color)
    ensures GameOver(g, c).Err? <==> forall q :: OnBoard(q) ==> !IsKingOf(g, q, c)
    ensures GameOver(g, c).Err? ==> GameOver(g, c).error == NoKingFound(c)
  {
    FirstKingFinds(g, c);
  }

  /**
   * "checkmate" means in check with no escape, "stalemate" no escape and not
   * in check.
   */
  lemma GameOverVerdicts(g: Grid, c: Color)
    ensures GameOver(g, c) == Ok(Checkmate) <==>
      InCheck(g, c) == Ok(true) && forall s, e :: !Escapes(g, c, s, e)
    ensures GameOver(g, c) == Ok(Stalemate) <==>
      InCheck(g, c) == Ok(false) && forall s, e :: !Escapes(g, c, s, e)
  {
    InCheckReference(g, c);
  }

  /**
   * A Rook, Bishop or Queen accepts the null move, and lifting a piece and
   * putting it back changes nothing: while c is not in check such a piece is
   * always an escape, so is_game_over never reports stalemate for c.
   */
  lemma NullMoveBlocksStalemate(g: Grid, c: Color, s: Square)
    requires HasColor(g, s, c) && GetPiece(g, s).value.kind in {Rook, Bishop, Queen}
    requires InCheck(g, c) == Ok(false)
    ensures GameOver(g, c) == Ok(Ongoing)
  {
    assert OnBoard(s);
    SlidersAcceptNullMove(g, s);
    SetSet(g, s, None, GetPiece(g, s));
    SetSame(g, s);
    assert Relocated(g, s, s) == g;
    assert Escapes(g, c, s, s);
  }

  // ---------------------------------------------------------------------------
  // The starting position
  // ---------------------------------------------------------------------------

  /** The back rank, column by column: Rook, Knight, Bishop, Queen, King, Bishop, Knight, Rook. */
  function BackRank(col: int): Kind
    requires 0 <= col < 8
  {
    [Rook, Knight, Bishop, Queen, King, Bishop, Knight, Rook][col]
  }

  /** What setup_board puts on square q, if anything: Black on rows 0-1, White on rows 6-7. */
  function InitialPiece(q: Square): Cell {
    if !OnBoard(q) then None
    else if q.row == 0 then Some(Piece(BackRank(q.col), Black, false, false))
    else if q.row == 1 then Some(Piece(Pawn, Black, false, false))
    else if q.row == 6 then Some(Piece(Pawn, White, false, false))
    else if q.row == 7 then Some(Piece(BackRank(q.col), White, false, false))
    else None
  }

  function InitialGrid(): Grid {
    Tabulate((r, c) => InitialPiece(Square(r, c)))
  }

  /** Each side has exactly one King, White's on (7, 4) and Black's on (0, 4). */
  lemma InitialKings(q: Square)
    requires OnBoard(q)
    ensures IsKingOf(InitialGrid(), q, White) <==> q == Square(7, 4)
    ensures IsKingOf(InitialGrid(), q, Black) <==> q == Square(0, 4)
  {
  }

  /** Only rows 0, 1, 6 and 7 are occupied, and no piece has moved or is open to en passant. */
  lemma InitialPieces(q: Square)
    ensures GetPiece(InitialGrid(), q).Some? <==> OnBoard(q) && q.row in {0, 1, 6, 7}
    ensures GetPiece(InitialGrid(), q).Some? ==>
      !GetPiece(InitialGrid(), q).value.hasMoved && !GetPiece(InitialGrid(), q).value.enPassant
  {
  }

  /** Neither side is in check in the starting position: no piece attacks the other King. */
  lemma InitialNotInCheck(c: Color)
    ensures InCheck(InitialGrid(), c) == Ok(false)
  {
    var g := InitialGrid();
    var k := if c == White then Square(7, 4) else Square(0, 4);
    InitialKings(k);
    forall q | OnBoard(q) && IsKingOf(g, q, c)
      ensures q == k
    {
      InitialKings(q);
    }
    FirstKingUnique(g, c, k);
    forall q | OnBoard(q) && HasColor(g, q, Opponent(c))
      ensures !Attacks(g, q, k)
    {
      InitialNoAttack(c, q, k);
    }
    InCheckReference(g, c);
  }

  /** The search finds the only King. */
  lemma FirstKingUnique(g: Grid, c: Color, k: Square)
    requires OnBoard(k) && IsKingOf(g, k, c)
    requires forall q :: OnBoard(q) && IsKingOf(g, q, c) ==> q == k
    ensures FirstKing(g, c, 0) == Some(k)
  {
    FirstKingFinds(g, c);
    IndexInverse(k);
    IndexInverse(FirstKing(g, c, 0).value);
  }

  /** No piece of the other side attacks a King on its home square, piece by piece. */
  lemma InitialNoAttack(c: Color, q: Square, k: Square)
    requires k == (if c == White then Square(7, 4) else Square(0, 4))
    requires OnBoard(q) && HasColor(InitialGrid(), q, Opponent(c))
    ensures !Attacks(InitialGrid(), q, k)
  {
    var g := InitialGrid();
    var p := GetPiece(g, q).value;
    if p.kind == Rook {
      RookReference(g, q, k);
    } else if p.kind == Bishop {
      BishopReference(g, q, k);
    } else if p.kind == Queen {
      RookReference(g, q, k);
      BishopReference(g, q, k);
    } else if p.kind == Knight {
      KnightReference(q, k);
    }
  }

  /** The game is not over for either side at the start (a Rook stands on its corner). */
  lemma InitialOngoing(c: Color)
    ensures GameOver(InitialGrid(), c) == Ok(Ongoing)
  {
    InitialNotInCheck(c);
    var corner := if c == White then Square(7, 0) else Square(0, 0);
    NullMoveBlocksStalemate(InitialGrid(), c, corner);
  }
}
