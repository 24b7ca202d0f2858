/**
 * The data model of the chess board (chess.py, classes Piece and ChessBoard):
 * colours, kinds, pieces, squares and the 8x8 grid of optional pieces.
 *
 * Whenever the core reads a piece's `position` field, it equals the index of
 * the cell holding it, so a piece is modelled without a position: its square
 * is its grid index. (During a castling probe the King stands on the probe
 * square with its old position, but only enemy pieces' positions are read.)
 */
module Grid {
  import opened Wrappers

  datatype Color = White | Black

  /** The other colour ('b' if color == 'w' else 'w'). */
  function Opponent(c: Color): (o: Color)
    ensures o != c
  {
    if c == White then Black else White
  }

  datatype Kind = Pawn | Rook | Knight | Bishop | Queen | King

  /**
   * A piece value. `enPassant` is `can_be_captured_en_passant`; only pawns
   * carry it in the source, every other piece keeps it false.
   */
  datatype Piece = Piece(kind: Kind, color: Color, hasMoved: bool, enPassant: bool)

  type Cell = Option<Piece>

  /** `[x, y]` in the source: `row` is x (row 0 is Black's back rank), `col` is y. */
  datatype Square = Square(row: int, col: int)

  predicate OnBoard(q: Square) {
    0 <= q.row < 8 && 0 <= q.col < 8
  }

  type Grid = g: seq<seq<Cell>> | |g| == 8 && forall r | 0 <= r < 8 :: |g[r]| == 8
    witness seq(8, _ => seq(8, _ => None))

  /** The grid with no piece on it (`[[None for _ in range(8)] for _ in range(8)]`). */
  const EmptyGrid: Grid := seq(8, _ => seq(8, _ => None))

  /** ChessBoard.get_piece: the cell's content, or no piece for an off-board square. */
  function GetPiece(g: Grid, q: Square): Cell {
    if OnBoard(q) then g[q.row][q.col] else None
  }

  /** Assignment `board[x][y] = v`: only cell `q` changes. */
  function Set(g: Grid, q: Square, v: Cell): (h: Grid)
    requires OnBoard(q)
    ensures GetPiece(h, q) == v
    ensures forall p :: p != q ==> GetPiece(h, p) == GetPiece(g, p)
  {
    g[q.row := g[q.row][q.col := v]]
  }

  /** The grid whose cell (r, c) is f(r, c). */
  function Tabulate(f: (int, int) -> Cell): (h: Grid)
    ensures forall q :: OnBoard(q) ==> GetPiece(h, q) == f(q.row, q.col)
  {
    seq(8, r => seq(8, c => f(r, c)))
  }

  predicate IsEmpty(g: Grid, q: Square) {
    GetPiece(g, q).None?
  }

  predicate HasColor(g: Grid, q: Square, c: Color) {
    GetPiece(g, q).Some? && GetPiece(g, q).value.color == c
  }

  /** `isinstance(board[q], King)`, whatever its colour. */
  predicate IsKingAt(g: Grid, q: Square) {
    GetPiece(g, q).Some? && GetPiece(g, q).value.kind == King
  }

  predicate IsKingOf(g: Grid, q: Square, c: Color) {
    IsKingAt(g, q) && GetPiece(g, q).value.color == c
  }

  /** Two grids are equal when every on-board cell is. */
  lemma GridExt(g: Grid, h: Grid)
    requires forall q :: OnBoard(q) ==> GetPiece(g, q) == GetPiece(h, q)
    ensures g == h
  {
    forall r | 0 <= r < 8
      ensures g[r] == h[r]
    {
      forall c | 0 <= c < 8
        ensures g[r][c] == h[r][c]
      {
        assert GetPiece(g, Square(r, c)) == GetPiece(h, Square(r, c));
      }
    }
  }

  /** Writing back a cell's own content changes nothing. */
  lemma SetSame(g: Grid, q: Square)
    requires OnBoard(q)
    ensures Set(g, q, GetPiece(g, q)) == g
  {
    GridExt(Set(g, q, GetPiece(g, q)), g);
  }

  /** A second write to the same cell wins. */
  lemma SetSet(g: Grid, q: Square, a: Cell, b: Cell)
    requires OnBoard(q)
    ensures Set(Set(g, q, a), q, b) == Set(g, q, b)
  {
    GridExt(Set(Set(g, q, a), q, b), Set(g, q, b));
  }

  function Abs(x: int): (r: nat)
    ensures r == x || r == -x
  {
    if x < 0 then -x else x
  }

  /** i * d for a unit step d in {-1, 0, 1}, without multiplication. */
  function Scale(i: int, d: int): (r: int)
    requires -1 <= d <= 1
    ensures r == i * d
  {
    if d == 1 then i else if d == -1 then -i else 0
  }
}
