/**
 * The class ChessBoard of chess.py: the grid `board`, the one-slot snapshot
 * `last_state`, and the methods that read and change them in place. Each
 * method is proved against the specification functions of Rules, Moves and
 * Game.
 */
module Board {
  import opened Wrappers
  import opened Grid
  import opened Pieces
  import opened Rules
  import opened Moves
  import opened Game

  class ChessBoard {
    var board: Grid
    /** `last_state`: the grid saved by the last call of save_state, until undo_move uses it. */
    var lastState: Option<Grid>

    /** A fresh board in the starting position, with no saved state. */
    constructor ()
      ensures board == InitialGrid() && lastState == None
    {
      board := EmptyGrid;
      lastState := None;
      new;
      SetupBoard();
      assert forall q :: OnBoard(q) ==> GetPiece(board, q) == GetPiece(InitialGrid(), q);
      GridExt(board, InitialGrid());
    }

    /** Writes a fresh, unmoved piece onto q (`self.board[x][y] = Kind(color, [x, y])`). */
    method Place(q: Square, kind: Kind, color: Color)
      requires OnBoard(q)
      modifies this`board
      ensures board == Set(old(board), q, Some(Piece(kind, color, false, false)))
    {
      board := Set(board, q, Some(Piece(kind, color, false, false)));
    }

    /** Fills the four home rows; the other rows are left as they are. */
    method SetupBoard()
      modifies this`board
      ensures forall q :: OnBoard(q) ==>
        GetPiece(board, q) == if q.row in {0, 1, 6, 7} then InitialPiece(q) else GetPiece(old(board), q)
    {
      for i := 0 to 8
        invariant forall q :: OnBoard(q) ==>
          GetPiece(board, q) == if q.row in {1, 6} && q.col < i then InitialPiece(q) else GetPiece(old(board), q)
      {
        Place(Square(1, i), Pawn, Black);
        Place(Square(6, i), Pawn, White);
      }
      // the back ranks: Rook, Knight, Bishop, Queen, King, Bishop, Knight, Rook
      for i := 0 to 8
        invariant forall q :: OnBoard(q) ==>
          GetPiece(board, q) ==
            if q.row in {1, 6} || (q.row in {0, 7} && q.col < i) then InitialPiece(q) else GetPiece(old(board), q)
      {
        Place(Square(0, i), BackRank(i), Black);
        Place(Square(7, i), BackRank(i), White);
      }
    }

    /** Keeps a copy of the grid in the snapshot slot. */
    method SaveState()
      modifies this`lastState
      ensures lastState == Some(board)
    {
      lastState := Some(board);
    }

    /** Restores the saved grid and empties the slot; with nothing saved it does nothing. */
    method UndoMove()
      modifies this
      ensures board == if old(lastState).Some? then old(lastState).value else old(board)
      ensures lastState == None
    {
      if lastState.Some? {
        board := lastState.value;
        lastState := None;
      }
    }

    /** The flag loop of move_piece: every pawn of colour c loses its en-passant flag. */
    method ClearEnPassant(c: Color)
      modifies this`board
      ensures board == ClearFlags(old(board), c)
    {
      for r := 0 to 8
        invariant forall q :: OnBoard(q) ==>
          GetPiece(board, q) == if q.row < r then ClearFlag(GetPiece(old(board), q), c) else GetPiece(old(board), q)
      {
        for col := 0 to 8
          invariant forall q :: OnBoard(q) ==>
            GetPiece(board, q) ==
              if q.row < r || (q.row == r && q.col < col) then ClearFlag(GetPiece(old(board), q), c)
              else GetPiece(old(board), q)
        {
          var p := GetPiece(board, Square(r, col));
          if p.Some? && p.value.kind == Pawn && p.value.color == c {
            board := Set(board, Square(r, col), Some(p.value.(enPassant := false)));
          }
        }
      }
      GridExt(board, ClearFlags(old(board), c));
    }

    /** King.is_valid_move for the King on s; the castling probes write to the grid and restore it. */
    method KingIsValidMove(s: Square, e: Square) returns (r: bool)
      requires OnBoard(s) && OnBoard(e) && IsKingAt(board, s)
      modifies this`board
      decreases KingTargetRank(board, e), 1
      ensures board == old(board)
      ensures r == KingAccepts(old(board), s, e)
    {
      var king := GetPiece(board, s).value;
      if Abs(e.row - s.row) <= 1 && Abs(e.col - s.col) <= 1 {
        var target := GetPiece(board, e);
        return target.None? || target.value.color != king.color;
      }
      if !king.hasMoved && s.row == e.row && Abs(e.col - s.col) == 2 {
        var d := CastleDir(s, e);
        var rc := RookCol(s, e);
        var rook := GetPiece(board, Square(s.row, rc));
        if rook.Some? && rook.value.kind == Rook && !rook.value.hasMoved {
          // every square between king and corner must be empty
          var clear := CorridorClear(Square(s.row, s.col + d), d, Abs(rc - s.col) - 1);
          if !clear {
            return false;
          }
          assert CastleGate(board, s, e);
          CastleGateExcludesKingTarget(board, s, e);
          r := CastleProbes(s, e);
          return;
        }
      }
      return false;
    }

    /** The first loop of the castling branch: the n squares from first in direction d are empty. */
    method CorridorClear(first: Square, d: int, n: int) returns (clear: bool)
      requires -1 <= d <= 1
      ensures clear == RayClear(board, first, 0, d, n)
    {
      RayClearIff(board, first, 0, d, n);
      var i := 0;
      while i < n
        invariant 0 <= i
        invariant forall j :: 0 <= j < i ==> IsEmpty(board, Along(first, 0, d, j))
        decreases n - i
      {
        if GetPiece(board, Along(first, 0, d, i)).Some? {
          return false;
        }
        i := i + 1;
      }
      return true;
    }

    /**
     * The second loop of the castling branch: the king, put on start, start + d
     * and start + 2d in turn (the corner column skipped), must not be in check
     * there; each probe is taken back before the next.
     */
    method CastleProbes(s: Square, e: Square) returns (r: bool)
      requires OnBoard(s) && OnBoard(e) && IsKingAt(board, s) && CastleGate(board, s, e)
      modifies this`board
      decreases KingTargetRank(board, e), 0
      ensures board == old(board)
      ensures r == (ProbeSafe(old(board), s, e, 0) && ProbeSafe(old(board), s, e, 1) && ProbeSafe(old(board), s, e, 2))
    {
      CastleGateExcludesKingTarget(board, s, e);
      var king := GetPiece(board, s).value;
      var rc := RookCol(s, e);
      ghost var g := board;
      for k := 0 to 3
        invariant board == g
        invariant ProbesSafeBelow(g, s, e, k)
      {
        var q := ProbeSquare(s, e, k);
        if q.col != rc {
          if k > 0 {
            ProbeSquareEmpty(g, s, e, k);
          }
          board := Set(board, s, None);
          board := Set(board, q, Some(king));
          assert board == Relocated(g, s, q);
          var inCheck := IsKingInCheck(king.color);
          board := Set(board, q, None);
          board := Set(board, s, Some(king));
          ProbeUndone(g, s, q);
          if inCheck == Ok(true) {
            assert !ProbeSafe(g, s, e, k) && (k == 0 || k == 1 || k == 2);
            return false;
          }
        }
        ProbesSafeBelowNext(g, s, e, k);
      }
      ProbesSafeBelowAll(g, s, e);
      return true;
    }

    /** `piece.is_valid_move(e, board)` for the piece on s. */
    method IsValidMove(s: Square, e: Square) returns (r: bool)
      requires OnBoard(s) && OnBoard(e) && GetPiece(board, s).Some?
      modifies this`board
      decreases KingTargetRank(board, e), 2
      ensures board == old(board)
      ensures r == ValidMove(old(board), s, e)
    {
      var p := GetPiece(board, s).value;
      if p.kind == King {
        r := KingIsValidMove(s, e);
      } else {
        r := SimpleAccepts(board, p, s, e);
      }
    }

    /** The king search of is_king_in_check: the first King of colour c in row-major order. */
    method FindKing(c: Color) returns (kingPos: Option<Square>)
      ensures kingPos == FirstKing(board, c, 0)
    {
      kingPos := None;
      var i := 0;
      while i < 64 && kingPos.None?
        invariant 0 <= i <= 64
        invariant kingPos.None? ==> FirstKing(board, c, i) == FirstKing(board, c, 0)
        invariant kingPos.Some? ==> kingPos == FirstKing(board, c, 0)
        decreases 64 - i
      {
        var p := GetPiece(board, SquareAt(i));
        if p.Some? && p.value.kind == King && p.value.color == c {
          kingPos := Some(SquareAt(i));
        }
        i := i + 1;
      }
    }

    /**
     * is_king_in_check: finds the first King of colour c in row-major order
     * (an error when there is none), then asks every piece of the other
     * colour, in the same order, whether it accepts that square.
     */
    method IsKingInCheck(c: Color) returns (r: Result<bool, Fault>)
      modifies this`board
      decreases 1, 3
      ensures board == old(board)
      ensures r == InCheck(old(board), c)
    {
      var kingPos := FindKing(c);
      if kingPos.None? {
        return Err(NoKingFound(c));
      }
      ghost var g := board;
      var k := kingPos.value;
      var attacked := AnyAttacker(k, Opponent(c));
      if attacked {
        ghost var q :| Threatens(g, q, k, Opponent(c));
        assert OnBoard(q) && HasColor(g, q, Opponent(c)) && ValidMove(g, q, k);
      } else {
        forall q | OnBoard(q) && HasColor(g, q, Opponent(c))
          ensures !ValidMove(g, q, k)
        {
          assert !Threatens(g, q, k, Opponent(c));
        }
      }
      return Ok(attacked);
    }

    /** The attacker loop of is_king_in_check: does a piece of colour o accept the King's square k? */
    method AnyAttacker(k: Square, o: Color) returns (found: bool)
      requires OnBoard(k) && IsKingAt(board, k)
      modifies this`board
      decreases 1, 2
      ensures board == old(board)
      ensures found == exists q :: Threatens(old(board), q, k, o)
    {
      ghost var g := board;
      for j := 0 to 64
        invariant board == g
        invariant forall t :: 0 <= t < j ==> !Threatens(g, SquareAt(t), k, o)
      {
        var q := SquareAt(j);
        var p := GetPiece(board, q);
        if p.Some? && p.value.color == o {
          var accepts := IsValidMove(q, k);
          if accepts {
            assert Threatens(g, q, k, o);
            return true;
          }
        }
      }
      forall q | OnBoard(q)
        ensures !Threatens(g, q, k, o)
      {
        IndexInverse(q);
      }
      return false;
    }

    /**
     * move_piece(s, e, c): the outcome MoveSpec describes; the snapshot is
     * taken as soon as s is known to hold a piece of colour c.
     */
    method MovePiece(s: Square, e: Square, c: Color) returns (r: Result<bool, Fault>)
      requires OnBoard(e)
      modifies this
      ensures r == MoveSpec(old(board), s, e, c).result
      ensures board == MoveSpec(old(board), s, e, c).grid
      ensures lastState == if HasColor(old(board), s, c) then Some(old(board)) else old(lastState)
    {
      var piece := GetPiece(board, s);
      if piece.None? || piece.value.color != c {
        return Ok(false);
      }
      SaveState();
      var valid := IsValidMove(s, e);
      if !valid {
        return Ok(false);
      }
      r := AttemptMove(s, e);
    }

    /** The part of move_piece after the piece accepted the move. */
    method AttemptMove(s: Square, e: Square) returns (r: Result<bool, Fault>)
      requires OnBoard(s) && OnBoard(e) && GetPiece(board, s).Some? && ValidMove(board, s, e)
      modifies this`board
      ensures r == Attempt(old(board), s, e).result
      ensures board == Attempt(old(board), s, e).grid
    {
      ghost var g := board;
      ValidMoveShaped(g, s, e);
      var p := GetPiece(board, s).value;
      var mover, rook, original := PlaceTentatively(s, e);
      var inCheck := IsKingInCheck(p.color);
      if inCheck.Err? {
        return Err(inCheck.error);
      }
      if inCheck.value {
        r := TakeBack(g, s, e, mover, rook, original);
        return;
      }
      if s != e {
        board := Set(board, e, Some(mover.(hasMoved := true)));
      }
      return Ok(true);
    }

    /**
     * The undo writes of move_piece, from the tentative grid of g: the piece
     * back on s, the former occupant back on e, then the read of the unbound
     * `direction` for a diagonal pawn move, else the castled rook put back.
     */
    method TakeBack(ghost g: Grid, s: Square, e: Square, mover: Piece, rook: Cell, original: Cell)
      returns (r: Result<bool, Fault>)
      requires GetPiece(g, s).Some? && Shaped(g, s, e)
      requires board == Tentative(g, s, e)
      requires mover == Carried(GetPiece(g, s).value, s, e)
      requires rook == if IsCastleMove(g, s, e) then ClearFlag(GetPiece(g, RookHome(s, e)), GetPiece(g, s).value.color) else None
      requires original == if RookShifts(g, s, e) && e == RookHome(s, e) then None
                           else ClearFlag(GetPiece(g, e), GetPiece(g, s).value.color)
      modifies this`board
      ensures board == Retracted(g, s, e)
      ensures r == if IsPawnDiagonal(g, s, e) then Err(DirectionUnbound) else Ok(false)
    {
      board := Set(board, s, Some(mover));
      board := Set(board, e, original);
      if mover.kind == Pawn && Abs(e.col - s.col) == 1 {
        RetractedReached(g, board, s, e, rook, original);
        return Err(DirectionUnbound);
      }
      if mover.kind == King && Abs(e.col - s.col) == 2 {
        board := Set(board, RookLanding(s, e), None);
        board := Set(board, RookHome(s, e), rook);
      }
      RetractedReached(g, board, s, e, rook, original);
      return Ok(false);
    }

    /**
     * The writes of move_piece before the check test, then the piece moved.
     * Returns the moved piece, the corner's content and the former occupant
     * of e, which the retraction writes back.
     */
    method PlaceTentatively(s: Square, e: Square) returns (mover: Piece, rook: Cell, original: Cell)
      requires GetPiece(board, s).Some? && Shaped(board, s, e)
      modifies this`board
      ensures board == Tentative(old(board), s, e)
      ensures mover == Carried(GetPiece(old(board), s).value, s, e)
      ensures rook == if IsCastleMove(old(board), s, e)
                      then ClearFlag(GetPiece(old(board), RookHome(s, e)), GetPiece(old(board), s).value.color) else None
      ensures original == if RookShifts(old(board), s, e) && e == RookHome(s, e) then None
                          else ClearFlag(GetPiece(old(board), e), GetPiece(old(board), s).value.color)
    {
      ghost var g := board;
      mover, rook := Prepare(s, e);
      original := GetPiece(board, e);
      PreparedCell(g, s, e, e);
      board := Set(board, e, Some(mover));
      board := Set(board, s, None);
      TentativeReached(g, board, s, e);
    }

    /**
     * The en-passant victim removed, the flag loop, the two-row flag, the
     * castled rook.
     */
    method Prepare(s: Square, e: Square) returns (mover: Piece, rook: Cell)
      requires GetPiece(board, s).Some? && Shaped(board, s, e)
      modifies this`board
      ensures board == Prepared(old(board), s, e)
      ensures mover == Carried(GetPiece(old(board), s).value, s, e)
      ensures rook == CastledRook(old(board), s, e)
    {
      ghost var g := board;
      var p := GetPiece(board, s).value;
      // en passant: a pawn moving diagonally onto an empty square removes the pawn beside it
      if p.kind == Pawn && Abs(e.col - s.col) == 1 && GetPiece(board, e).None? {
        board := Set(board, VictimSquare(s, e), None);
      }
      ClearEnPassant(p.color);
      assert board == Cleared(g, s, e);
      mover := if p.kind == Pawn then p.(enPassant := false) else p;
      if p.kind == Pawn && Abs(e.row - s.row) == 2 {
        mover := mover.(enPassant := true);
      }
      rook := None;
      if p.kind == King && Abs(e.col - s.col) == 2 {
        rook := ShiftRook(s, e);
      }
    }

    /** Castling: the corner's content is read, and moved beside the King when it is a Rook. */
    method ShiftRook(s: Square, e: Square) returns (rook: Cell)
      requires OnBoard(RookHome(s, e)) && OnBoard(RookLanding(s, e))
      modifies this`board
      ensures rook == GetPiece(old(board), RookHome(s, e))
      ensures board == if rook.Some? && rook.value.kind == Rook
                       then Set(Set(old(board), RookHome(s, e), None), RookLanding(s, e), rook) else old(board)
    {
      rook := GetPiece(board, RookHome(s, e));
      if rook.Some? && rook.value.kind == Rook {
        board := Set(board, RookHome(s, e), None);
        board := Set(board, RookLanding(s, e), rook);
      }
    }

    /**
     * is_game_over(c): tries every piece of colour c in row-major order. When
     * the check test raises during a trial, the grid is left with that trial's
     * relocation.
     */
    method IsGameOver(c: Color) returns (r: Result<Status, Fault>)
      modifies this`board
      ensures r == GameOver(old(board), c)
      ensures r.Ok? ==> board == old(board)
      ensures r.Err? ==> board == old(board) || exists s, e :: OnBoard(s) && OnBoard(e) && board == Relocated(old(board), s, e)
    {
      ghost var g := board;
      FirstKingFinds(g, c);
      var found := FindEscape(c);
      if found.Err? {
        return Err(found.error);
      }
      if found.value {
        ghost var s, e :| Escapes(g, c, s, e);
        RelocationKeepsKing(g, c, s, e);
        return Ok(Ongoing);
      }
      var inCheck := IsKingInCheck(c);
      if inCheck.Err? {
        return Err(inCheck.error);
      }
      return Ok(if inCheck.value then Checkmate else Stalemate);
    }

    /**
     * The outer loop of is_game_over: every piece of colour c, in row-major
     * order, until one finds a way out.
     */
    method FindEscape(c: Color) returns (r: Result<bool, Fault>)
      modifies this`board
      ensures r.Ok? ==> board == old(board)
      ensures r == Ok(true) ==> exists s, e :: Escapes(old(board), c, s, e)
      ensures r == Ok(false) ==> forall s, e :: !Escapes(old(board), c, s, e)
      ensures r.Err? ==> r.error == NoKingFound(c) && (forall q :: OnBoard(q) ==> !IsKingOf(old(board), q, c))
      ensures r.Err? ==> exists s, e :: OnBoard(s) && OnBoard(e) && board == Relocated(old(board), s, e)
    {
      ghost var g := board;
      for i := 0 to 64
        invariant board == g
        invariant NoEscapeUpTo(g, c, i)
      {
        var s := SquareAt(i);
        var piece := GetPiece(board, s);
        if piece.Some? && piece.value.color == c {
          var found := TryMoves(s, c);
          if found.Err? {
            return Err(found.error);
          }
          if found.value {
            return Ok(true);
          }
        } else {
          NoPieceNoEscape(g, c, s);
        }
        NoEscapeUpToNext(g, c, i);
      }
      NoEscapeUpToAll(g, c);
      return Ok(false);
    }

    /** The body of the innermost loop of is_game_over: the piece on s tried on e. */
    method TryDestination(s: Square, e: Square, c: Color) returns (r: Result<bool, Fault>)
      requires HasColor(board, s, c) && OnBoard(e)
      modifies this`board
      ensures r.Ok? ==> board == old(board)
      ensures r == Ok(true) ==> Escapes(old(board), c, s, e)
      ensures r == Ok(false) ==> !Escapes(old(board), c, s, e)
      ensures r.Err? ==> r.error == NoKingFound(c) && (forall q :: OnBoard(q) ==> !IsKingOf(old(board), q, c))
      ensures r.Err? ==> board == Relocated(old(board), s, e)
    {
      ghost var g := board;
      var valid := IsValidMove(s, e);
      if valid {
        var target := GetPiece(board, e);
        if !(target.Some? && target.value.kind == King) {
          var inCheck := TrialMove(s, e, c);
          if inCheck.Err? {
            TrialFaults(g, c, s, e);
            return Err(inCheck.error);
          }
          return Ok(!inCheck.value);
        }
      }
      return Ok(false);
    }

    /**
     * The inner loops of is_game_over for the piece on s: every destination
     * in row-major order that the piece accepts and that holds no King is
     * tried by relocating the piece, testing for check and putting both cells
     * back. True at the first trial out of check.
     */
    method TryMoves(s: Square, c: Color) returns (r: Result<bool, Fault>)
      requires HasColor(board, s, c)
      modifies this`board
      ensures r.Ok? ==> board == old(board)
      ensures r == Ok(true) ==> exists e :: Escapes(old(board), c, s, e)
      ensures r == Ok(false) ==> NoEscapeFrom(old(board), c, s)
      ensures r.Err? ==> r.error == NoKingFound(c) && (forall q :: OnBoard(q) ==> !IsKingOf(old(board), q, c))
      ensures r.Err? ==> exists e :: OnBoard(e) && board == Relocated(old(board), s, e)
    {
      ghost var g := board;
      for j := 0 to 64
        invariant board == g
        invariant NoEscapeBefore(g, c, s, j)
      {
        r := TryDestination(s, SquareAt(j), c);
        if r != Ok(false) {
          return;
        }
        NoEscapeBeforeNext(g, c, s, j);
      }
      NoEscapeBeforeAll(g, c, s);
      return Ok(false);
    }

    /**
     * One trial of is_game_over: the piece on s relocated to e, the check
     * test, and both cells put back (unless the test raised).
     */
    method TrialMove(s: Square, e: Square, c: Color) returns (r: Result<bool, Fault>)
      requires OnBoard(s) && OnBoard(e)
      modifies this`board
      ensures r == InCheck(Relocated(old(board), s, e), c)
      ensures board == if r.Ok? then old(board) else Relocated(old(board), s, e)
    {
      ghost var g := board;
      var piece := GetPiece(board, s);
      var originalStart := GetPiece(board, s);
      var originalEnd := GetPiece(board, e);
      board := Set(board, s, None);
      board := Set(board, e, piece);
      r := IsKingInCheck(c);
      if r.Err? {
        return;
      }
      board := Set(board, s, originalStart);
      board := Set(board, e, originalEnd);
      RelocationUndone(g, s, e);
    }

    /** A move that passed the colour test is taken back by undo_move, which then does nothing more. */
    method MoveThenUndo(s: Square, e: Square, c: Color) returns (r: Result<bool, Fault>)
      requires OnBoard(e) && HasColor(board, s, c)
      modifies this
      ensures board == old(board) && lastState == None
    {
      r := MovePiece(s, e, c);
      UndoMove();
      ghost var restored := board;
      UndoMove();
      assert board == restored;
    }
  }

  /** The castling probes before the k-th do not find the King in check. */
  ghost predicate ProbesSafeBelow(g: Grid, s: Square, e: Square, k: int)
    requires OnBoard(s) && OnBoard(e) && GetPiece(g, s).Some? && CastleGate(g, s, e) && 0 <= k <= 3
  {
    forall j :: 0 <= j < k ==> ProbeSafe(g, s, e, j)
  }

  lemma ProbesSafeBelowNext(g: Grid, s: Square, e: Square, k: int)
    requires OnBoard(s) && OnBoard(e) && GetPiece(g, s).Some? && CastleGate(g, s, e) && 0 <= k < 3
    requires ProbesSafeBelow(g, s, e, k) && ProbeSafe(g, s, e, k)
    ensures ProbesSafeBelow(g, s, e, k + 1)
  {
  }

  lemma ProbesSafeBelowAll(g: Grid, s: Square, e: Square)
    requires OnBoard(s) && OnBoard(e) && GetPiece(g, s).Some? && CastleGate(g, s, e)
    requires ProbesSafeBelow(g, s, e, 3)
    ensures ProbeSafe(g, s, e, 0) && ProbeSafe(g, s, e, 1) && ProbeSafe(g, s, e, 2)
  {
  }

  /** No piece before the i-th square, in row-major order, has a way out. */
  ghost predicate NoEscapeUpTo(g: Grid, c: Color, i: int) {
    forall t :: 0 <= t < i ==> NoEscapeFrom(g, c, SquareAt(t))
  }

  lemma NoEscapeUpToNext(g: Grid, c: Color, i: int)
    requires NoEscapeUpTo(g, c, i) && NoEscapeFrom(g, c, SquareAt(i))
    ensures NoEscapeUpTo(g, c, i + 1)
  {
  }

  lemma NoEscapeUpToAll(g: Grid, c: Color)
    requires NoEscapeUpTo(g, c, 64)
    ensures forall s, e :: !Escapes(g, c, s, e)
  {
    forall s | OnBoard(s)
      ensures NoEscapeFrom(g, c, s)
    {
      IndexInverse(s);
    }
  }

  /** No destination before the j-th, in row-major order, is a way out for the piece on s. */
  ghost predicate NoEscapeBefore(g: Grid, c: Color, s: Square, j: int) {
    forall u :: 0 <= u < j ==> !Escapes(g, c, s, SquareAt(u))
  }

  lemma NoEscapeBeforeNext(g: Grid, c: Color, s: Square, j: int)
    requires NoEscapeBefore(g, c, s, j) && !Escapes(g, c, s, SquareAt(j))
    ensures NoEscapeBefore(g, c, s, j + 1)
  {
  }

  lemma NoEscapeBeforeAll(g: Grid, c: Color, s: Square)
    requires NoEscapeBefore(g, c, s, 64)
    ensures NoEscapeFrom(g, c, s)
  {
    forall e | OnBoard(e)
      ensures !Escapes(g, c, s, e)
    {
      IndexInverse(e);
    }
  }

  /** The piece on q has colour o and accepts the square k (the attacker test of is_king_in_check). */
  ghost predicate Threatens(g: Grid, q: Square, k: Square, o: Color) {
    OnBoard(q) && OnBoard(k) && HasColor(g, q, o) && ValidMove(g, q, k)
  }

  /** The grid after the victim's removal and the flag loop. */
  function Cleared(g: Grid, s: Square, e: Square): Grid
    requires GetPiece(g, s).Some? && Shaped(g, s, e)
  {
    ClearFlags(if IsEnPassantCapture(g, s, e) then Set(g, VictimSquare(s, e), None) else g, GetPiece(g, s).value.color)
  }

  /** The corner's content when the move is a castling, else nothing. */
  function CastledRook(g: Grid, s: Square, e: Square): Cell
    requires GetPiece(g, s).Some? && Shaped(g, s, e)
  {
    if IsCastleMove(g, s, e) then GetPiece(Cleared(g, s, e), RookHome(s, e)) else None
  }

  /** The grid after the en-passant removal, the flag loop and the rook shift of move_piece. */
  function Prepared(g: Grid, s: Square, e: Square): Grid
    requires GetPiece(g, s).Some? && Shaped(g, s, e)
  {
    var rook := CastledRook(g, s, e);
    if IsCastleMove(g, s, e) && rook.Some? && rook.value.kind == Rook
    then Set(Set(Cleared(g, s, e), RookHome(s, e), None), RookLanding(s, e), rook)
    else Cleared(g, s, e)
  }

  /** The writes of move_piece up to the check test produce the tentative grid. */
  lemma TentativeReached(g: Grid, h: Grid, s: Square, e: Square)
    requires GetPiece(g, s).Some? && Shaped(g, s, e)
    requires h == Set(Set(Prepared(g, s, e), e, Some(Carried(GetPiece(g, s).value, s, e))), s, None)
    ensures h == Tentative(g, s, e)
  {
    forall q | OnBoard(q)
      ensures GetPiece(h, q) == GetPiece(Tentative(g, s, e), q)
    {
      PreparedCell(g, s, e, q);
    }
    GridExt(h, Tentative(g, s, e));
  }

  /** After the preparation, every cell but s and e already holds its tentative content. */
  lemma PreparedCell(g: Grid, s: Square, e: Square, q: Square)
    requires GetPiece(g, s).Some? && Shaped(g, s, e) && OnBoard(q)
    ensures q != s && q != e ==> GetPiece(Prepared(g, s, e), q) == TentativeCell(g, s, e, q)
    ensures var c := GetPiece(g, s).value.color;
      q == e ==> GetPiece(Prepared(g, s, e), q) == if RookShifts(g, s, e) && e == RookHome(s, e) then None else ClearFlag(GetPiece(g, e), c)
    ensures CastledRook(g, s, e) == if IsCastleMove(g, s, e)
      then ClearFlag(GetPiece(g, RookHome(s, e)), GetPiece(g, s).value.color) else None
  {
  }

  /** The undo writes of move_piece produce the retracted grid. */
  lemma RetractedReached(g: Grid, h: Grid, s: Square, e: Square, rook: Cell, original: Cell)
    requires GetPiece(g, s).Some? && Shaped(g, s, e)
    requires rook == if IsCastleMove(g, s, e)
                     then ClearFlag(GetPiece(g, RookHome(s, e)), GetPiece(g, s).value.color) else None
    requires original == if RookShifts(g, s, e) && e == RookHome(s, e) then None
                         else ClearFlag(GetPiece(g, e), GetPiece(g, s).value.color)
    requires IsCastleMove(g, s, e) ==> OnBoard(RookLanding(s, e)) && OnBoard(RookHome(s, e))
    requires var back := Set(Set(Tentative(g, s, e), s, Some(Carried(GetPiece(g, s).value, s, e))), e, original);
      h == if IsCastleMove(g, s, e) then Set(Set(back, RookLanding(s, e), None), RookHome(s, e), rook) else back
    ensures h == Retracted(g, s, e)
  {
    forall q | OnBoard(q)
      ensures GetPiece(h, q) == GetPiece(Retracted(g, s, e), q)
    {
      RetractedReachedCell(g, h, s, e, rook, original, q);
    }
    GridExt(h, Retracted(g, s, e));
  }

  lemma RetractedReachedCell(g: Grid, h: Grid, s: Square, e: Square, rook: Cell, original: Cell, q: Square)
    requires GetPiece(g, s).Some? && Shaped(g, s, e)
    requires rook == if IsCastleMove(g, s, e)
                     then ClearFlag(GetPiece(g, RookHome(s, e)), GetPiece(g, s).value.color) else None
    requires original == if RookShifts(g, s, e) && e == RookHome(s, e) then None
                         else ClearFlag(GetPiece(g, e), GetPiece(g, s).value.color)
    requires IsCastleMove(g, s, e) ==> OnBoard(RookLanding(s, e)) && OnBoard(RookHome(s, e))
    requires var back := Set(Set(Tentative(g, s, e), s, Some(Carried(GetPiece(g, s).value, s, e))), e, original);
      h == if IsCastleMove(g, s, e) then Set(Set(back, RookLanding(s, e), None), RookHome(s, e), rook) else back
    requires OnBoard(q)
    ensures GetPiece(h, q) == RetractedCell(g, s, e, q)
  {
    assert GetPiece(Tentative(g, s, e), q) == TentativeCell(g, s, e, q);
  }
}
