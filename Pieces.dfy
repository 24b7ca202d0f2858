/**
 * The movement predicates of the five pieces whose `is_valid_move` only reads
 * the board (chess.py, classes Pawn, Rook, Knight, Bishop, Queen), with their
 * reference characterisations. The King's predicate writes to the board and
 * lives in module Rules.
 */
module Pieces {
  import opened Wrappers
  import opened Grid

  // ---------------------------------------------------------------------------
  // Rays: the squares a sliding piece passes over
  // ---------------------------------------------------------------------------

  /** The square i unit steps (dr, dc) away from q. */
  function Along(q: Square, dr: int, dc: int, i: int): Square
    requires -1 <= dr <= 1 && -1 <= dc <= 1
  {
    Square(q.row + Scale(i, dr), q.col + Scale(i, dc))
  }

  /**
   * The path loop of Rook and Bishop: n squares, starting at q and stepping by
   * (dr, dc), are all empty; the first occupied one makes the loop return False.
   */
  function RayClear(g: Grid, q: Square, dr: int, dc: int, n: int): bool
    requires -1 <= dr <= 1 && -1 <= dc <= 1
    decreases n
  {
    n <= 0 || (IsEmpty(g, q) && RayClear(g, Square(q.row + dr, q.col + dc), dr, dc, n - 1))
  }

  lemma {:induction false} RayClearIff(g: Grid, q: Square, dr: int, dc: int, n: int)
    requires -1 <= dr <= 1 && -1 <= dc <= 1
    ensures RayClear(g, q, dr, dc, n) <==> forall i :: 0 <= i < n ==> IsEmpty(g, Along(q, dr, dc, i))
    decreases n
  {
    if n > 0 {
      var next := Square(q.row + dr, q.col + dc);
      RayClearIff(g, next, dr, dc, n - 1);
      assert Along(q, dr, dc, 0) == q;
      forall i | 0 <= i < n - 1
        ensures Along(next, dr, dc, i) == Along(q, dr, dc, i + 1)
      {
      }
      if forall i :: 0 <= i < n ==> IsEmpty(g, Along(q, dr, dc, i)) {
        forall i | 0 <= i < n - 1
          ensures IsEmpty(g, Along(next, dr, dc, i))
        {
          assert IsEmpty(g, Along(q, dr, dc, i + 1));
        }
      }
      if RayClear(g, q, dr, dc, n) {
        forall i | 0 <= i < n
          ensures IsEmpty(g, Along(q, dr, dc, i))
        {
          if i > 0 {
            assert Along(q, dr, dc, i) == Along(next, dr, dc, i - 1);
          }
        }
      }
    }
  }

  // ---------------------------------------------------------------------------
  // The squares strictly between two squares on a line
  // ---------------------------------------------------------------------------

  predicate Between(a: int, b: int, x: int) {
    (a < x < b) || (b < x < a)
  }

  /**
   * q lies strictly between s and e on the same row, on the same column, or on
   * the same diagonal.
   */
  predicate Interior(s: Square, e: Square, q: Square) {
    || (q.row == s.row && s.row == e.row && Between(s.col, e.col, q.col))
    || (q.col == s.col && s.col == e.col && Between(s.row, e.row, q.row))
    || (Between(s.row, e.row, q.row) && Between(s.col, e.col, q.col)
        && Abs(q.row - s.row) == Abs(q.col - s.col))
  }

  ghost predicate InteriorClear(g: Grid, s: Square, e: Square) {
    forall q :: Interior(s, e, q) ==> IsEmpty(g, q)
  }

  // ---------------------------------------------------------------------------
  // Rook, Bishop, Queen, Knight
  // ---------------------------------------------------------------------------

  /** Rook.is_valid_move. */
  function RookAccepts(g: Grid, s: Square, e: Square): (r: bool)
    ensures r ==> s.row == e.row || s.col == e.col
  {
    if s.row != e.row && s.col != e.col then false
    else if s.row == e.row then
      var step := if e.col > s.col then 1 else -1;
      RayClear(g, Square(s.row, s.col + step), 0, step, Abs(e.col - s.col) - 1)
    else
      var step := if e.row > s.row then 1 else -1;
      RayClear(g, Square(s.row + step, s.col), step, 0, Abs(e.row - s.row) - 1)
  }

  /** Bishop.is_valid_move. */
  function BishopAccepts(g: Grid, s: Square, e: Square): (r: bool)
    ensures r ==> Abs(e.row - s.row) == Abs(e.col - s.col)
  {
    var dx := e.row - s.row;
    var dy := e.col - s.col;
    if Abs(dx) != Abs(dy) then false
    else
      var stepX := if dx > 0 then 1 else -1;
      var stepY := if dy > 0 then 1 else -1;
      RayClear(g, Square(s.row + stepX, s.col + stepY), stepX, stepY, Abs(dx) - 1)
  }

  /** Queen.is_valid_move: a Rook or a Bishop of the same colour standing on s. */
  function QueenAccepts(g: Grid, s: Square, e: Square): bool {
    RookAccepts(g, s, e) || BishopAccepts(g, s, e)
  }

  /** Knight.is_valid_move: the absolute deltas are (2, 1) or (1, 2). */
  function KnightAccepts(s: Square, e: Square): bool {
    var dx := Abs(e.row - s.row);
    var dy := Abs(e.col - s.col);
    (dx == 2 && dy == 1) || (dx == 1 && dy == 2)
  }

  /** A rook moving along its row accepts exactly when the squares between are empty. */
  lemma RowRay(g: Grid, s: Square, e: Square)
    requires s.row == e.row
    ensures RookAccepts(g, s, e) <==> InteriorClear(g, s, e)
  {
    var step := if e.col > s.col then 1 else -1;
    var start := Square(s.row, s.col + step);
    var n := Abs(e.col - s.col) - 1;
    assert RookAccepts(g, s, e) == RayClear(g, start, 0, step, n);
    RayClearIff(g, start, 0, step, n);
    if InteriorClear(g, s, e) {
      forall i | 0 <= i < n
        ensures IsEmpty(g, Along(start, 0, step, i))
      {
        assert Interior(s, e, Along(start, 0, step, i));
      }
    }
    if RayClear(g, start, 0, step, n) {
      forall q | Interior(s, e, q)
        ensures IsEmpty(g, q)
      {
        var i := Abs(q.col - s.col) - 1;
        assert 0 <= i < n && q == Along(start, 0, step, i);
      }
    }
  }

  /** A rook moving along its column accepts exactly when the squares between are empty. */
  lemma ColumnRay(g: Grid, s: Square, e: Square)
    requires s.row != e.row && s.col == e.col
    ensures RookAccepts(g, s, e) <==> InteriorClear(g, s, e)
  {
    var step := if e.row > s.row then 1 else -1;
    var start := Square(s.row + step, s.col);
    var n := Abs(e.row - s.row) - 1;
    assert RookAccepts(g, s, e) == RayClear(g, start, step, 0, n);
    RayClearIff(g, start, step, 0, n);
    if InteriorClear(g, s, e) {
      forall i | 0 <= i < n
        ensures IsEmpty(g, Along(start, step, 0, i))
      {
        assert Interior(s, e, Along(start, step, 0, i));
      }
    }
    if RayClear(g, start, step, 0, n) {
      forall q | Interior(s, e, q)
        ensures IsEmpty(g, q)
      {
        var i := Abs(q.row - s.row) - 1;
        assert 0 <= i < n && q == Along(start, step, 0, i);
      }
    }
  }

  /** A rook accepts exactly the moves along its row or column over empty squares. */
  lemma RookReference(g: Grid, s: Square, e: Square)
    ensures RookAccepts(g, s, e) <==> (s.row == e.row || s.col == e.col) && InteriorClear(g, s, e)
  {
    if s.row == e.row {
      RowRay(g, s, e);
    } else if s.col == e.col {
      ColumnRay(g, s, e);
    }
  }

  /** A bishop accepts exactly the diagonal moves over empty squares. */
  lemma BishopReference(g: Grid, s: Square, e: Square)
    ensures BishopAccepts(g, s, e) <==> Abs(e.row - s.row) == Abs(e.col - s.col) && InteriorClear(g, s, e)
  {
    var dx := e.row - s.row;
    var dy := e.col - s.col;
    if Abs(dx) == Abs(dy) {
      var stepX := if dx > 0 then 1 else -1;
      var stepY := if dy > 0 then 1 else -1;
      var start := Square(s.row + stepX, s.col + stepY);
      var n := Abs(dx) - 1;
      assert BishopAccepts(g, s, e) == RayClear(g, start, stepX, stepY, n);
      RayClearIff(g, start, stepX, stepY, n);
      if InteriorClear(g, s, e) {
        forall i | 0 <= i < n
          ensures IsEmpty(g, Along(start, stepX, stepY, i))
        {
          DiagonalRayInterior(s, e, stepX, stepY, i);
        }
      }
      if RayClear(g, start, stepX, stepY, n) {
        forall q | Interior(s, e, q)
          ensures IsEmpty(g, q)
        {
          DiagonalInteriorRay(s, e, stepX, stepY, q);
        }
      }
    }
  }

  /** The i-th square of the diagonal ray from s towards e lies strictly between them. */
  lemma DiagonalRayInterior(s: Square, e: Square, stepX: int, stepY: int, i: int)
    requires Abs(e.row - s.row) == Abs(e.col - s.col)
    requires stepX == (if e.row - s.row > 0 then 1 else -1) && stepY == (if e.col - s.col > 0 then 1 else -1)
    requires 0 <= i < Abs(e.row - s.row) - 1
    ensures Interior(s, e, Along(Square(s.row + stepX, s.col + stepY), stepX, stepY, i))
  {
  }

  /** A square strictly between s and e on their diagonal is a square of the ray. */
  lemma DiagonalInteriorRay(s: Square, e: Square, stepX: int, stepY: int, q: Square)
    requires Abs(e.row - s.row) == Abs(e.col - s.col)
    requires stepX == (if e.row - s.row > 0 then 1 else -1) && stepY == (if e.col - s.col > 0 then 1 else -1)
    requires Interior(s, e, q)
    ensures 0 <= Abs(q.row - s.row) - 1 < Abs(e.row - s.row) - 1
    ensures q == Along(Square(s.row + stepX, s.col + stepY), stepX, stepY, Abs(q.row - s.row) - 1)
  {
  }

  /** A queen accepts exactly the row, column and diagonal moves over empty squares. */
  lemma QueenReference(g: Grid, s: Square, e: Square)
    ensures QueenAccepts(g, s, e) <==>
      (s.row == e.row || s.col == e.col || Abs(e.row - s.row) == Abs(e.col - s.col)) && InteriorClear(g, s, e)
  {
    RookReference(g, s, e);
    BishopReference(g, s, e);
  }

  /** The knight's jumps are the displacements of squared length 5. */
  lemma KnightReference(s: Square, e: Square)
    ensures KnightAccepts(s, e) <==> (e.row - s.row) * (e.row - s.row) + (e.col - s.col) * (e.col - s.col) == 5
  {
    var a, b := Abs(e.row - s.row), Abs(e.col - s.col);
    assert (e.row - s.row) * (e.row - s.row) == a * a;
    assert (e.col - s.col) * (e.col - s.col) == b * b;
    if a >= 3 {
      assert a * a >= 3 * a;
    } else if b >= 3 {
      assert b * b >= 3 * b;
    }
  }

  /** Rook, Bishop and Queen accept the "move" that stays on its square. */
  lemma SlidersAcceptNullMove(g: Grid, s: Square)
    ensures RookAccepts(g, s, s) && BishopAccepts(g, s, s) && QueenAccepts(g, s, s)
    ensures !KnightAccepts(s, s)
  {
  }

  /**
   * Rook, Bishop, Queen and Knight never look at the destination square: two
   * grids that differ only there give the same answer.
   */
  lemma SlidersIgnoreDestination(g: Grid, h: Grid, s: Square, e: Square)
    requires forall q :: q != e ==> GetPiece(g, q) == GetPiece(h, q)
    ensures RookAccepts(g, s, e) == RookAccepts(h, s, e)
    ensures BishopAccepts(g, s, e) == BishopAccepts(h, s, e)
    ensures QueenAccepts(g, s, e) == QueenAccepts(h, s, e)
  {
    RookReference(g, s, e);
    RookReference(h, s, e);
    BishopReference(g, s, e);
    BishopReference(h, s, e);
    assert !Interior(s, e, e);
  }

  // ---------------------------------------------------------------------------
  // Pawn
  // ---------------------------------------------------------------------------

  /** White pawns move toward row 0, Black pawns toward row 7. */
  function Direction(c: Color): int {
    if c == White then -1 else 1
  }

  /** The row a pawn of colour c starts on, the only one it may advance two rows from. */
  function StartRow(c: Color): int {
    if c == White then 6 else 1
  }

  predicate IsEnemy(cell: Cell, c: Color) {
    cell.Some? && cell.value.color != c
  }

  /** A pawn of the other colour whose `can_be_captured_en_passant` is set. */
  predicate IsEnPassantVictim(cell: Cell, c: Color) {
    cell.Some? && cell.value.kind == Pawn && cell.value.color != c && cell.value.enPassant
  }

  /** Pawn.is_valid_move for a pawn of colour c standing on s. */
  function PawnAccepts(g: Grid, c: Color, s: Square, e: Square): bool {
    var d := Direction(c);
    // single square forward
    || (e.col == s.col && e.row == s.row + d && IsEmpty(g, e))
    // double square forward
    || (s.row == StartRow(c) && e.col == s.col && e.row == s.row + 2 * d
        && IsEmpty(g, Square(s.row + d, s.col)) && IsEmpty(g, e))
    // diagonal capture, or en passant past the pawn beside it
    || (Abs(e.col - s.col) == 1 && e.row == s.row + d
        && (IsEnemy(GetPiece(g, e), c) || IsEnPassantVictim(GetPiece(g, Square(s.row, e.col)), c)))
  }

  /** A pawn only goes forward: one row, or two rows straight from its start row. */
  lemma PawnAdvancesOnly(g: Grid, c: Color, s: Square, e: Square)
    requires PawnAccepts(g, c, s, e)
    ensures (e.row - s.row == Direction(c) && Abs(e.col - s.col) <= 1)
         || (e.row - s.row == 2 * Direction(c) && e.col == s.col && s.row == StartRow(c))
  {
  }

  /**
   * Onto an occupied square a pawn moves only diagonally, so its forward pushes
   * never threaten a king.
   */
  lemma PawnTakesDiagonally(g: Grid, c: Color, s: Square, e: Square)
    requires !IsEmpty(g, e)
    ensures PawnAccepts(g, c, s, e) <==>
      Abs(e.col - s.col) == 1 && e.row == s.row + Direction(c)
      && (IsEnemy(GetPiece(g, e), c) || IsEnPassantVictim(GetPiece(g, Square(s.row, e.col)), c))
  {
  }

  // ---------------------------------------------------------------------------
  // Dispatch over the five read-only kinds
  // ---------------------------------------------------------------------------

  /** `p.is_valid_move(e, board)` for a piece p on s that is not a King. */
  function SimpleAccepts(g: Grid, p: Piece, s: Square, e: Square): bool
    requires p.kind != King
  {
    if p.kind == Pawn then PawnAccepts(g, p.color, s, e)
    else if p.kind == Rook then RookAccepts(g, s, e)
    else if p.kind == Knight then KnightAccepts(s, e)
    else if p.kind == Bishop then BishopAccepts(g, s, e)
    else QueenAccepts(g, s, e)
  }

  /** The piece with its `has_moved` flag forgotten. */
  function Unmarked(cell: Cell): Cell {
    if cell.Some? then Some(cell.value.(hasMoved := false)) else cell
  }

  /** The five read-only predicates never read any piece's `has_moved`. */
  lemma SimpleAcceptsIgnoresHasMoved(g: Grid, h: Grid, p: Piece, s: Square, e: Square)
    requires p.kind != King
    requires forall q :: Unmarked(GetPiece(g, q)) == Unmarked(GetPiece(h, q))
    ensures SimpleAccepts(g, p, s, e) == SimpleAccepts(h, p, s, e)
  {
    assert forall q :: IsEmpty(g, q) == IsEmpty(h, q) by {
      forall q ensures IsEmpty(g, q) == IsEmpty(h, q) {
        assert Unmarked(GetPiece(g, q)) == Unmarked(GetPiece(h, q));
      }
    }
    RookReference(g, s, e);
    RookReference(h, s, e);
    BishopReference(g, s, e);
    BishopReference(h, s, e);
    assert Unmarked(GetPiece(g, e)) == Unmarked(GetPiece(h, e));
    assert Unmarked(GetPiece(g, Square(s.row, e.col))) == Unmarked(GetPiece(h, Square(s.row, e.col)));
    assert Unmarked(GetPiece(g, Square(s.row + Direction(p.color), s.col)))
        == Unmarked(GetPiece(h, Square(s.row + Direction(p.color), s.col)));
  }
}
