/**
 * The outcome of ChessBoard.move_piece (chess.py) as a specification function
 * of the grid before the call: the tentative placement, the placement taken
 * back when it leaves the mover in check, and the committed move.
 *
 * Each of the three grids is defined cell by cell; the lemmas below state what
 * the source promises of them (where the piece ends up, which flags are set,
 * what is restored, when an error escapes).
 */
module Moves {
  import opened Wrappers
  import opened Grid
  import opened Pieces
  import opened Rules

  // ---------------------------------------------------------------------------
  // The squares and tests of move_piece
  // ---------------------------------------------------------------------------

  /** `captured_pawn_pos`: beside the start square, in the destination's column. */
  function VictimSquare(s: Square, e: Square): Square {
    Square(s.row, e.col)
  }

  /** `[start_x, rook_y]`: the corner on the side the king moves to. */
  function RookHome(s: Square, e: Square): Square {
    Square(s.row, RookCol(s, e))
  }

  /** `[start_x, start_y + direction]`: where a castled rook lands. */
  function RookLanding(s: Square, e: Square): Square {
    Square(s.row, s.col + CastleDir(s, e))
  }

  /** A pawn moving one column sideways onto an empty square (the en-passant branch). */
  predicate IsEnPassantCapture(g: Grid, s: Square, e: Square)
    requires GetPiece(g, s).Some?
  {
    GetPiece(g, s).value.kind == Pawn && Abs(e.col - s.col) == 1 && IsEmpty(g, e)
  }

  /** A king moving two columns, the test of both the castling branch and its undo. */
  predicate IsCastleMove(g: Grid, s: Square, e: Square)
    requires GetPiece(g, s).Some?
  {
    GetPiece(g, s).value.kind == King && Abs(e.col - s.col) == 2
  }

  /** A castling move whose corner holds a Rook, the only case in which the rook is moved. */
  predicate RookShifts(g: Grid, s: Square, e: Square)
    requires GetPiece(g, s).Some?
  {
    IsCastleMove(g, s, e) && GetPiece(g, RookHome(s, e)).Some? && GetPiece(g, RookHome(s, e)).value.kind == Rook
  }

  /** A pawn moving one column sideways: the undo path that reads the unbound `direction`. */
  predicate IsPawnDiagonal(g: Grid, s: Square, e: Square)
    requires GetPiece(g, s).Some?
  {
    GetPiece(g, s).value.kind == Pawn && Abs(e.col - s.col) == 1
  }

  /** The flag loop on one cell: a pawn of colour c loses `can_be_captured_en_passant`. */
  function ClearFlag(cell: Cell, c: Color): Cell {
    if cell.Some? && cell.value.kind == Pawn && cell.value.color == c then
      Some(cell.value.(enPassant := false))
    else
      cell
  }

  /** The grid after the flag loop over every cell. */
  function ClearFlags(g: Grid, c: Color): (h: Grid)
    ensures forall q :: OnBoard(q) ==> GetPiece(h, q) == ClearFlag(GetPiece(g, q), c)
  {
    Tabulate((r, col) => ClearFlag(GetPiece(g, Square(r, col)), c))
  }

  /**
   * The moving piece once the flags are updated: a pawn's flag is cleared by
   * the loop and set again after a two-row advance.
   */
  function Carried(p: Piece, s: Square, e: Square): Piece {
    if p.kind == Pawn then p.(enPassant := Abs(e.row - s.row) == 2) else p
  }

  // ---------------------------------------------------------------------------
  // The three grids of move_piece
  // ---------------------------------------------------------------------------

  /** One cell after the tentative placement (the writes of chess.py:294-327, later writes first). */
  function TentativeCell(g: Grid, s: Square, e: Square, q: Square): Cell
    requires GetPiece(g, s).Some?
  {
    var p := GetPiece(g, s).value;
    if q == s then None
    else if q == e then Some(Carried(p, s, e))
    else if RookShifts(g, s, e) && q == RookLanding(s, e) then GetPiece(g, RookHome(s, e))
    else if RookShifts(g, s, e) && q == RookHome(s, e) then None
    else if IsEnPassantCapture(g, s, e) && q == VictimSquare(s, e) then None
    else ClearFlag(GetPiece(g, q), p.color)
  }

  function Tentative(g: Grid, s: Square, e: Square): Grid
    requires GetPiece(g, s).Some?
  {
    Tabulate((r, col) => TentativeCell(g, s, e, Square(r, col)))
  }

  /**
   * One cell after the tentative placement is taken back (chess.py:334-346):
   * the piece returns to s with its updated flags, the destination gets its
   * former occupant, a castled rook returns to its corner, and the en-passant
   * victim stays removed.
   */
  function RetractedCell(g: Grid, s: Square, e: Square, q: Square): Cell
    requires GetPiece(g, s).Some?
  {
    var p := GetPiece(g, s).value;
    if q == s then Some(Carried(p, s, e))
    else if IsCastleMove(g, s, e) && q == RookLanding(s, e) then None
    else if IsEnPassantCapture(g, s, e) && q == VictimSquare(s, e) then None
    else ClearFlag(GetPiece(g, q), p.color)
  }

  function Retracted(g: Grid, s: Square, e: Square): Grid
    requires GetPiece(g, s).Some?
  {
    Tabulate((r, col) => RetractedCell(g, s, e, Square(r, col)))
  }

  /**
   * The committed move: the tentative grid with the piece marked as moved. A
   * null move (s == e) has already removed the piece from the grid, so marking
   * it changes no cell.
   */
  function Committed(g: Grid, s: Square, e: Square): Grid
    requires OnBoard(e) && GetPiece(g, s).Some?
  {
    var p := GetPiece(g, s).value;
    if s == e then Tentative(g, s, e) else Set(Tentative(g, s, e), e, Some(Carried(p, s, e).(hasMoved := true)))
  }

  /** What move_piece returns and the grid it leaves. */
  datatype MoveEffect = MoveEffect(result: Result<bool, Fault>, grid: Grid)

  /**
   * ChessBoard.move_piece(s, e, c) on grid g: False when s does not hold a
   * piece of colour c or the piece rejects the move; otherwise the attempt.
   */
  ghost function MoveSpec(g: Grid, s: Square, e: Square, c: Color): MoveEffect
    requires OnBoard(e)
  {
    if !HasColor(g, s, c) || !ValidMove(g, s, e) then MoveEffect(Ok(false), g)
    else Attempt(g, s, e)
  }

  /**
   * A valid move attempted: the error of is_king_in_check on the tentative
   * grid, the retraction when the mover is left in check, or the committed
   * move.
   */
  ghost function Attempt(g: Grid, s: Square, e: Square): MoveEffect
    requires OnBoard(s) && OnBoard(e) && GetPiece(g, s).Some?
  {
    match InCheck(Tentative(g, s, e), GetPiece(g, s).value.color)
    case Err(f) => MoveEffect(Err(f), Tentative(g, s, e))
    case Ok(true) =>
      MoveEffect(if IsPawnDiagonal(g, s, e) then Err(DirectionUnbound) else Ok(false), Retracted(g, s, e))
    case Ok(false) => MoveEffect(Ok(true), Committed(g, s, e))
  }

  // ---------------------------------------------------------------------------
  // has_moved is invisible to the check test
  // ---------------------------------------------------------------------------

  /** Grids that differ at most in `has_moved` flags. */
  ghost predicate SameButMarks(g: Grid, h: Grid) {
    forall q :: Unmarked(GetPiece(g, q)) == Unmarked(GetPiece(h, q))
  }

  lemma {:induction false} FirstKingIgnoresHasMoved(g: Grid, h: Grid, c: Color, i: int)
    requires SameButMarks(g, h) && 0 <= i <= 64
    decreases 64 - i
    ensures FirstKing(g, c, i) == FirstKing(h, c, i)
  {
    if i < 64 {
      assert Unmarked(GetPiece(g, SquareAt(i))) == Unmarked(GetPiece(h, SquareAt(i)));
      FirstKingIgnoresHasMoved(g, h, c, i + 1);
    }
  }

  /** Whether the piece on q attacks k does not depend on any hasMoved flag. */
  lemma AttackIgnoresHasMoved(g: Grid, h: Grid, o: Color, q: Square, k: Square)
    requires SameButMarks(g, h)
    ensures (HasColor(g, q, o) && Attacks(g, q, k)) == (HasColor(h, q, o) && Attacks(h, q, k))
  {
    assert Unmarked(GetPiece(g, q)) == Unmarked(GetPiece(h, q));
    assert Unmarked(GetPiece(g, k)) == Unmarked(GetPiece(h, k));
    if GetPiece(g, q).Some? && GetPiece(g, q).value.kind != King {
      SimpleAcceptsIgnoresHasMoved(g, h, GetPiece(g, q).value, q, k);
      assert GetPiece(h, q).value == GetPiece(g, q).value.(hasMoved := GetPiece(h, q).value.hasMoved);
    }
  }

  /** is_king_in_check never reads `has_moved`: the castling branch only runs onto a non-King square. */
  lemma InCheckIgnoresHasMoved(g: Grid, h: Grid, c: Color)
    requires SameButMarks(g, h)
    ensures InCheck(g, c) == InCheck(h, c)
  {
    FirstKingIgnoresHasMoved(g, h, c, 0);
    InCheckReference(g, c);
    InCheckReference(h, c);
    if FirstKing(g, c, 0).Some? {
      var k := FirstKing(g, c, 0).value;
      forall q | OnBoard(q)
        ensures (HasColor(g, q, Opponent(c)) && Attacks(g, q, k)) == (HasColor(h, q, Opponent(c)) && Attacks(h, q, k))
      {
        AttackIgnoresHasMoved(g, h, Opponent(c), q, k);
      }
    }
  }

  // ---------------------------------------------------------------------------
  // Properties of move_piece
  // ---------------------------------------------------------------------------

  /** A valid pawn move that goes sideways changes row, so the victim square is not the destination. */
  lemma ValidPawnDiagonalChangesRow(g: Grid, s: Square, e: Square)
    requires OnBoard(s) && OnBoard(e) && GetPiece(g, s).Some? && ValidMove(g, s, e)
    requires IsPawnDiagonal(g, s, e)
    ensures e.row == s.row + Direction(GetPiece(g, s).value.color)
  {
    PawnAdvancesOnly(g, GetPiece(g, s).value.color, s, e);
  }

  /** A valid castling move has an empty landing square for the rook, holding a Rook in its corner. */
  lemma ValidCastleShape(g: Grid, s: Square, e: Square)
    requires OnBoard(s) && OnBoard(e) && GetPiece(g, s).Some? && ValidMove(g, s, e)
    requires IsCastleMove(g, s, e)
    ensures RookShifts(g, s, e) && s.row == e.row
    ensures OnBoard(RookLanding(s, e)) && IsEmpty(g, RookLanding(s, e)) && RookLanding(s, e) != e
    ensures OnBoard(RookHome(s, e)) && RookHome(s, e) != s
  {
    CastleGateReference(g, s, e);
    assert Between(s.col, RookCol(s, e), RookLanding(s, e).col);
  }

  /** The facts about a valid move that the writes of move_piece rely on. */
  ghost predicate Shaped(g: Grid, s: Square, e: Square)
    requires GetPiece(g, s).Some?
  {
    var p := GetPiece(g, s).value;
    && OnBoard(s) && OnBoard(e)
    && (IsPawnDiagonal(g, s, e) ==> e.row == s.row + Direction(p.color))
    && (IsEnPassantCapture(g, s, e) ==> IsEnPassantVictim(GetPiece(g, VictimSquare(s, e)), p.color))
    && (IsCastleMove(g, s, e) ==>
          && RookShifts(g, s, e) && s.row == e.row && IsUnmovedRook(GetPiece(g, RookHome(s, e)))
          && OnBoard(RookLanding(s, e)) && IsEmpty(g, RookLanding(s, e)) && RookLanding(s, e) != e
          && OnBoard(RookHome(s, e)) && RookHome(s, e) != s)
    && (s == e ==> p.kind != Pawn && p.kind != King)
  }

  lemma ValidMoveShaped(g: Grid, s: Square, e: Square)
    requires OnBoard(s) && OnBoard(e) && GetPiece(g, s).Some? && ValidMove(g, s, e)
    ensures Shaped(g, s, e)
  {
    var p := GetPiece(g, s).value;
    if IsPawnDiagonal(g, s, e) {
      ValidPawnDiagonalChangesRow(g, s, e);
    }
    if IsCastleMove(g, s, e) {
      ValidCastleShape(g, s, e);
      CastleGateReference(g, s, e);
    }
    if s == e && p.kind == Pawn {
      PawnAdvancesOnly(g, p.color, s, e);
    }
    if s == e && p.kind == King {
      KingRejectsNullMove(g, s);
    }
  }

  /** When move_piece returns True the mover is not left in check. */
  lemma CommitLeavesNoCheck(g: Grid, s: Square, e: Square, c: Color)
    requires OnBoard(e)
    requires MoveSpec(g, s, e, c).result == Ok(true)
    ensures InCheck(MoveSpec(g, s, e, c).grid, c) == Ok(false)
  {
    var t := Tentative(g, s, e);
    if s != e {
      var m := Committed(g, s, e);
      forall q ensures Unmarked(GetPiece(t, q)) == Unmarked(GetPiece(m, q)) {
      }
      InCheckIgnoresHasMoved(t, m, c);
    }
  }

  /**
   * When move_piece returns True for s != e: the piece, of the same kind and
   * colour, stands on e marked as moved, its flag set exactly when it is a pawn
   * that advanced two rows; s is empty.
   */
  lemma CommitPlacesPiece(g: Grid, s: Square, e: Square, c: Color)
    requires OnBoard(e) && s != e
    requires MoveSpec(g, s, e, c).result == Ok(true)
    ensures var p := GetPiece(g, s).value;
      var q := GetPiece(MoveSpec(g, s, e, c).grid, e);
      && q.Some? && q.value.kind == p.kind && q.value.color == p.color == c && q.value.hasMoved
      && (p.kind == Pawn ==> (q.value.enPassant <==> Abs(e.row - s.row) == 2))
    ensures IsEmpty(MoveSpec(g, s, e, c).grid, s)
  {
  }

  /**
   * The side effects of a committed move: the en-passant victim is removed, a
   * castled rook moves from its corner to beside the king, every other pawn of
   * the mover's colour has its flag cleared, and every other cell is as before.
   */
  lemma CommitSideEffects(g: Grid, s: Square, e: Square, c: Color)
    requires OnBoard(e)
    requires MoveSpec(g, s, e, c).result == Ok(true)
    ensures var h := MoveSpec(g, s, e, c).grid;
      && (IsEnPassantCapture(g, s, e) ==> IsEmpty(h, VictimSquare(s, e)))
      && (IsCastleMove(g, s, e) ==>
            GetPiece(h, RookLanding(s, e)) == GetPiece(g, RookHome(s, e)) && IsUnmovedRook(GetPiece(g, RookHome(s, e)))
            && (RookHome(s, e) != e ==> IsEmpty(h, RookHome(s, e))))
      && (forall q :: OnBoard(q) && q != e && HasColor(h, q, c) && GetPiece(h, q).value.kind == Pawn
                     ==> !GetPiece(h, q).value.enPassant)
      && forall q :: OnBoard(q) && q != s && q != e
                   && !(IsEnPassantCapture(g, s, e) && q == VictimSquare(s, e))
                   && !(IsCastleMove(g, s, e) && (q == RookHome(s, e) || q == RookLanding(s, e)))
                   ==> GetPiece(h, q) == ClearFlag(GetPiece(g, q), c)
  {
    CommitShape(g, s, e, c);
    CommittedSideEffects(g, s, e);
  }

  /** move_piece returns True only for a valid move of colour c; the grid is then the committed one. */
  lemma CommitShape(g: Grid, s: Square, e: Square, c: Color)
    requires OnBoard(e)
    requires MoveSpec(g, s, e, c).result == Ok(true)
    ensures OnBoard(s) && HasColor(g, s, c) && ValidMove(g, s, e)
    ensures MoveSpec(g, s, e, c).grid == Committed(g, s, e)
  {
  }

  lemma CommittedSideEffects(g: Grid, s: Square, e: Square)
    requires OnBoard(s) && OnBoard(e) && GetPiece(g, s).Some? && ValidMove(g, s, e)
    ensures var h := Committed(g, s, e);
      var c := GetPiece(g, s).value.color;
      && (IsEnPassantCapture(g, s, e) ==> IsEmpty(h, VictimSquare(s, e)))
      && (IsCastleMove(g, s, e) ==>
            GetPiece(h, RookLanding(s, e)) == GetPiece(g, RookHome(s, e)) && IsUnmovedRook(GetPiece(g, RookHome(s, e)))
            && (RookHome(s, e) != e ==> IsEmpty(h, RookHome(s, e))))
      && (forall q :: OnBoard(q) && q != e && HasColor(h, q, c) && GetPiece(h, q).value.kind == Pawn
                     ==> !GetPiece(h, q).value.enPassant)
      && forall q :: OnBoard(q) && q != s && q != e
                   && !(IsEnPassantCapture(g, s, e) && q == VictimSquare(s, e))
                   && !(IsCastleMove(g, s, e) && (q == RookHome(s, e) || q == RookLanding(s, e)))
                   ==> GetPiece(h, q) == ClearFlag(GetPiece(g, q), c)
  {
    if IsEnPassantCapture(g, s, e) {
      CommittedVictim(g, s, e);
    }
    if IsCastleMove(g, s, e) {
      CommittedCastle(g, s, e);
    }
    CommittedFlags(g, s, e);
    CommittedRest(g, s, e);
  }

  /** Away from e, the committed grid is the tentative one. */
  lemma CommittedCell(g: Grid, s: Square, e: Square, q: Square)
    requires OnBoard(e) && GetPiece(g, s).Some? && OnBoard(q) && q != e
    ensures GetPiece(Committed(g, s, e), q) == TentativeCell(g, s, e, q)
  {
  }

  lemma CommittedVictim(g: Grid, s: Square, e: Square)
    requires OnBoard(s) && OnBoard(e) && GetPiece(g, s).Some? && ValidMove(g, s, e)
    requires IsEnPassantCapture(g, s, e)
    ensures IsEmpty(Committed(g, s, e), VictimSquare(s, e))
  {
    ValidPawnDiagonalChangesRow(g, s, e);
    CommittedCell(g, s, e, VictimSquare(s, e));
  }

  lemma CommittedCastle(g: Grid, s: Square, e: Square)
    requires OnBoard(s) && OnBoard(e) && GetPiece(g, s).Some? && ValidMove(g, s, e)
    requires IsCastleMove(g, s, e)
    ensures GetPiece(Committed(g, s, e), RookLanding(s, e)) == GetPiece(g, RookHome(s, e))
    ensures IsUnmovedRook(GetPiece(g, RookHome(s, e)))
    ensures RookHome(s, e) != e ==> IsEmpty(Committed(g, s, e), RookHome(s, e))
  {
    ValidCastleShape(g, s, e);
    CastleGateReference(g, s, e);
    CommittedCell(g, s, e, RookLanding(s, e));
    if RookHome(s, e) != e {
      CommittedCell(g, s, e, RookHome(s, e));
    }
  }

  lemma CommittedFlags(g: Grid, s: Square, e: Square)
    requires OnBoard(s) && OnBoard(e) && GetPiece(g, s).Some? && ValidMove(g, s, e)
    ensures var h := Committed(g, s, e);
      forall q :: OnBoard(q) && q != e && HasColor(h, q, GetPiece(g, s).value.color) && GetPiece(h, q).value.kind == Pawn
                  ==> !GetPiece(h, q).value.enPassant
  {
    forall q | OnBoard(q) && q != e
      ensures GetPiece(Committed(g, s, e), q) == TentativeCell(g, s, e, q)
    {
      CommittedCell(g, s, e, q);
    }
  }

  lemma CommittedRest(g: Grid, s: Square, e: Square)
    requires OnBoard(s) && OnBoard(e) && GetPiece(g, s).Some? && ValidMove(g, s, e)
    ensures forall q :: OnBoard(q) && q != s && q != e
                   && !(IsEnPassantCapture(g, s, e) && q == VictimSquare(s, e))
                   && !(IsCastleMove(g, s, e) && (q == RookHome(s, e) || q == RookLanding(s, e)))
                   ==> GetPiece(Committed(g, s, e), q) == ClearFlag(GetPiece(g, q), GetPiece(g, s).value.color)
  {
    forall q | OnBoard(q) && q != e
      ensures GetPiece(Committed(g, s, e), q) == TentativeCell(g, s, e, q)
    {
      CommittedCell(g, s, e, q);
    }
  }

  /**
   * A null move (s == e, which only a Rook, Bishop or Queen accepts) that
   * returns True removes the piece from the board.
   */
  lemma NullMoveVanishes(g: Grid, s: Square, c: Color)
    requires OnBoard(s)
    requires MoveSpec(g, s, s, c).result == Ok(true)
    ensures GetPiece(g, s).value.kind in {Rook, Bishop, Queen}
    ensures IsEmpty(MoveSpec(g, s, s, c).grid, s)
    ensures forall q :: OnBoard(q) && q != s ==> GetPiece(MoveSpec(g, s, s, c).grid, q) == ClearFlag(GetPiece(g, q), c)
  {
    var p := GetPiece(g, s).value;
    if p.kind == King {
      KingRejectsNullMove(g, s);
    }
  }

  /**
   * A move left in check is taken back: every cell is restored except that the
   * mover's pawns keep their cleared flags, the moved piece keeps the flag it
   * was given, and the en-passant victim stays removed. A diagonal pawn move
   * raises instead of returning False.
   */
  lemma RetractionRestores(g: Grid, s: Square, e: Square, c: Color)
    requires OnBoard(s) && OnBoard(e) && HasColor(g, s, c) && ValidMove(g, s, e)
    requires InCheck(Tentative(g, s, e), c) == Ok(true)
    ensures var p := GetPiece(g, s).value;
      var base := if IsEnPassantCapture(g, s, e) then Set(ClearFlags(g, c), VictimSquare(s, e), None) else ClearFlags(g, c);
      MoveSpec(g, s, e, c).grid == Set(base, s, Some(Carried(p, s, e)))
    ensures MoveSpec(g, s, e, c).result == (if IsPawnDiagonal(g, s, e) then Err(DirectionUnbound) else Ok(false))
  {
    assert MoveSpec(g, s, e, c).grid == Retracted(g, s, e);
    RetractedIsRestore(g, s, e, c);
  }

  lemma RetractedIsRestore(g: Grid, s: Square, e: Square, c: Color)
    requires OnBoard(s) && OnBoard(e) && HasColor(g, s, c) && ValidMove(g, s, e)
    ensures var p := GetPiece(g, s).value;
      var base := if IsEnPassantCapture(g, s, e) then Set(ClearFlags(g, c), VictimSquare(s, e), None) else ClearFlags(g, c);
      Retracted(g, s, e) == Set(base, s, Some(Carried(p, s, e)))
  {
    var p := GetPiece(g, s).value;
    var base := if IsEnPassantCapture(g, s, e) then Set(ClearFlags(g, c), VictimSquare(s, e), None) else ClearFlags(g, c);
    var want := Set(base, s, Some(Carried(p, s, e)));
    var got := Retracted(g, s, e);
    if IsCastleMove(g, s, e) {
      ValidCastleShape(g, s, e);
    }
    if IsEnPassantCapture(g, s, e) {
      ValidPawnDiagonalChangesRow(g, s, e);
    }
    forall q | OnBoard(q)
      ensures GetPiece(got, q) == GetPiece(want, q)
    {
      assert GetPiece(got, q) == RetractedCell(g, s, e, q);
    }
    GridExt(got, want);
  }

  /** In the tentative grid the mover's kings are those of g, the one on s moved to e, the one on e gone. */
  lemma TentativeKings(g: Grid, s: Square, e: Square, c: Color, q: Square)
    requires HasColor(g, s, c) && Shaped(g, s, e) && OnBoard(q)
    ensures IsKingOf(Tentative(g, s, e), q, c) <==>
      if q == e then IsKingAt(g, s) else q != s && IsKingOf(g, q, c)
  {
    assert GetPiece(Tentative(g, s, e), q) == TentativeCell(g, s, e, q);
  }

  /**
   * On a board holding a King of the mover's colour, move_piece raises
   * "No king found" exactly when the move captures the mover's only King;
   * the only other error is the unbound `direction`.
   */
  lemma MoveFaults(g: Grid, s: Square, e: Square, c: Color, k: Square)
    requires OnBoard(e) && OnBoard(k) && IsKingOf(g, k, c)
    ensures MoveSpec(g, s, e, c).result == Err(NoKingFound(c)) <==>
      && HasColor(g, s, c) && ValidMove(g, s, e) && IsKingOf(g, e, c)
      && forall q :: OnBoard(q) && q != e ==> !IsKingOf(g, q, c)
    ensures MoveSpec(g, s, e, c).result.Err? ==>
      MoveSpec(g, s, e, c).result in {Err(NoKingFound(c)), Err(DirectionUnbound)}
  {
    if HasColor(g, s, c) && ValidMove(g, s, e) {
      AttemptFaults(g, s, e, c, k);
    }
  }

  lemma AttemptFaults(g: Grid, s: Square, e: Square, c: Color, k: Square)
    requires OnBoard(s) && OnBoard(e) && HasColor(g, s, c) && ValidMove(g, s, e)
    requires OnBoard(k) && IsKingOf(g, k, c)
    ensures Attempt(g, s, e).result == Err(NoKingFound(c)) <==>
      IsKingOf(g, e, c) && forall q :: OnBoard(q) && q != e ==> !IsKingOf(g, q, c)
    ensures Attempt(g, s, e).result.Err? ==>
      Attempt(g, s, e).result in {Err(NoKingFound(c)), Err(DirectionUnbound)}
  {
    InCheckFaults(Tentative(g, s, e), c);
    TentativeLosesKing(g, s, e, c, k);
  }

  /** The tentative grid holds no King of the mover's colour exactly when the move lands on its only King. */
  lemma TentativeLosesKing(g: Grid, s: Square, e: Square, c: Color, k: Square)
    requires OnBoard(s) && OnBoard(e) && HasColor(g, s, c) && ValidMove(g, s, e)
    requires OnBoard(k) && IsKingOf(g, k, c)
    ensures (forall q :: OnBoard(q) ==> !IsKingOf(Tentative(g, s, e), q, c)) <==>
      IsKingOf(g, e, c) && forall q :: OnBoard(q) && q != e ==> !IsKingOf(g, q, c)
  {
    var t := Tentative(g, s, e);
    ValidMoveShaped(g, s, e);
    if IsKingAt(g, s) {
      // the King is still there, on e; and a King never moves onto its own side's King
      TentativeKings(g, s, e, c, e);
      if IsKingOf(g, e, c) {
        if s == e {
          KingRejectsNullMove(g, s);
        } else if !(Abs(e.row - s.row) <= 1 && Abs(e.col - s.col) <= 1) {
          CastleGateExcludesKingTarget(g, s, e);
        }
      }
    } else {
      forall q | OnBoard(q)
        ensures IsKingOf(t, q, c) <==> q != e && q != s && IsKingOf(g, q, c)
      {
        TentativeKings(g, s, e, c, q);
      }
    }
  }
}
