# A verified model of the chess rules engine in chess.py

This project models the rules core of a small pygame chess program:
- the six `is_valid_move` predicates of the piece classes;
- the board class `ChessBoard`, which holds the 8×8 grid and a one-slot snapshot for undo;
- `move_piece`, with its tentative placement, its check test and its take-back when the move fails;
- `is_king_in_check`;
- the checkmate/stalemate scan `is_game_over`.

The model follows the code as written, including where it does unusual things.

**Data.** `Grid.Grid` is an 8×8 `seq<seq<Option<Piece>>>`. A `Piece` records:
- its kind and colour;
- `has_moved`;
- `can_be_captured_en_passant`, which only pawns use.

A square `Square(row, col)` is the source's `[x, y]`. Whenever the core reads a piece's `position` attribute, it equals the square that holds it, so the model keeps no separate position. The one time they differ is a castling probe (chess.py:204-205): the King is put on the probe square without `move`, so its position stays the start square. While that probe runs, the King search uses loop indices (chess.py:361-368) and only enemy pieces' positions are read (chess.py:374-380).

**Errors.** The two exceptions that can escape the core are values of `Rules.Fault`:
- `NoKingFound`: the `ValueError` of `is_king_in_check` when a side has no King.
- `DirectionUnbound`: `move_piece` reads `direction` on its en-passant undo path, but the name is only assigned in the castling branch. So every diagonal pawn move that would leave the mover in check raises instead of returning False.

**The spec–implementation split.**
- Specification functions:
  - `Rules.ValidMove`, `Rules.KingAccepts` and `Rules.InCheck` are mutually recursive. The King's castling probes ask `is_king_in_check`, which asks every enemy piece, the enemy King included.
  - `Moves.MoveSpec` gives the result and final grid of `move_piece`.
  - `Game.GameOver` gives the verdict of `is_game_over`.
- The class `Board.ChessBoard` holds the imperative methods, which write and restore cells in place just as the source does. Each method's `ensures` give its result and its new grid in terms of the specification functions (`Escapes` for the game-over search). The lemmas prove what the rules promise about those functions.
- Loops:
  - The nested `for row / for col` loops of the King search, the attacker scan and the game-over trials become single loops over the 64 squares in row-major order, visiting the squares in the same order. The first King found and the first escaping trial are therefore the same as in the source.
  - The flag loop of `move_piece` keeps its row loop and column loop (`Board.ChessBoard.ClearEnPassant`).

**The code's own behaviour, kept as it is.** Where the code departs from the usual rules of chess, the model follows the code:
- Castling:
  - An unmoved Rook of either colour in the corner enables castling.
  - The castled rook never gets `has_moved` set.
  - Castling probes only the king's start square and the next two squares toward the rook, skipping the rook's own column.
- Slider moves:
  - A Rook, Bishop or Queen accepts any square on a clear line, its own pieces' squares included.
  - It also accepts the null move `s == e`. A null move that passes `move_piece` removes the piece from the board (`Moves.NullMoveVanishes`).
  - While a side is not in check, such a move also counts as an escape in `is_game_over`. So stalemate is never reported while that side has a Rook, Bishop or Queen (`Game.NullMoveBlocksStalemate`).
- Pawns: the en-passant test looks only at the pawn beside the mover, not at the destination. So the two squares one row forward and one column sideways are accepted while an enemy pawn open to en passant stands beside the mover in that column, even when such a square holds the mover's own piece.
- When a move is taken back:
  - the en-passant victim stays removed;
  - flags cleared by the flag loop stay cleared;
  - a pawn that advanced two rows keeps its flag (`Moves.RetractionRestores`).
- A trial in `is_game_over` moves only the piece. It makes no en-passant removal, no rook shift and no flag change.

## Model

| member | source | states |
|---|---|---|
| Grid.GetPiece | chess.py:278-282 | ChessBoard.get_piece: the cell, or no piece for a square off the board |
| Grid.Set | chess.py:323-325 | a cell write `board[x][y] = v`: afterwards the square reads v, and every other square reads what it read before |
| Pieces.PawnAccepts | chess.py:60-89 | Pawn.is_valid_move, branch by branch: single push, double push from the start row, diagonal capture or en passant; what it accepts is stated by PawnAdvancesOnly and PawnTakesDiagonally |
| Pieces.RookAccepts | chess.py:99-117 | Rook.is_valid_move with its path scan; it accepts only along a row or column (RookReference states it exactly) |
| Pieces.KnightAccepts | chess.py:127-132 | Knight.is_valid_move on the absolute deltas (KnightReference states it as a squared distance) |
| Pieces.BishopAccepts | chess.py:142-154 | Bishop.is_valid_move with its diagonal scan; it accepts only where the row and column distances are equal (BishopReference states it exactly) |
| Pieces.QueenAccepts | chess.py:164-168 | Queen.is_valid_move: the Rook answer or the Bishop answer from the same square (QueenReference states it exactly) |
| Pieces.RayClearIff | chess.py:106-116 | the square-by-square path scan passes exactly when every scanned square is empty |
| Pieces.RookReference | chess.py:99-117 | a Rook accepts e exactly when e shares its row or column and every square strictly between is empty; the destination's occupant is never looked at |
| Pieces.BishopReference | chess.py:142-154 | a Bishop accepts e exactly when the row and column distances are equal and every square strictly between is empty |
| Pieces.QueenReference | chess.py:164-168 | a Queen accepts e exactly when e is on a row, column or diagonal of s with a clear interior |
| Pieces.KnightReference | chess.py:127-132 | a Knight accepts e exactly when the squared distance is 5, whatever the occupancy |
| Pieces.SlidersAcceptNullMove | chess.py:99-168 | Rook, Bishop and Queen accept their own square; a Knight does not |
| Pieces.SlidersIgnoreDestination | chess.py:99-168 | Rook, Bishop and Queen answers do not depend on what stands on the destination |
| Pieces.PawnAdvancesOnly | chess.py:60-89 | an accepted pawn move goes one row forward (straight or one column sideways), or two rows straight from the start row |
| Pieces.PawnTakesDiagonally | chess.py:77-87 | onto an occupied square a pawn moves only one row forward and one column sideways, when the target is an enemy or an enemy pawn open to en passant stands beside it |
| Pieces.SimpleAcceptsIgnoresHasMoved | chess.py:60-168 | no piece other than the King reads any `has_moved` flag |
| Rules.KingAccepts | chess.py:178-213 | King.is_valid_move: the one-step rule, else the castling gate and its three probes; stated by CastlingReference, ValidMoveOntoKing and KingRejectsNullMove |
| Rules.ValidMove | chess.py:178-213 | the dispatch of is_valid_move on the kind of the piece standing on s, the King to KingAccepts |
| Rules.InCheck | chess.py:355-380 | is_king_in_check: NoKingFound without a King, else whether an enemy piece accepts the first King's square; stated by InCheckReference |
| Rules.ProbeNeverFaults | chess.py:204-206 | a probe moves the King itself, so its check test never raises, and "not in check" there means the test answered False |
| Rules.FirstKing | chess.py:361-368 | the search returns the first King of the colour in row-major order, or nothing when every square lacks one |
| Rules.FirstKingFinds | chess.py:361-371 | the search finds a King exactly when the board holds a King of that colour |
| Rules.CastleGateReference | chess.py:188-198 | the castling gate holds exactly when the king is unmoved, moves two columns along its row, an unmoved Rook stands in that corner and every square between them is empty |
| Rules.CastleGateExcludesKingTarget | chess.py:188-194 | castling never targets a square that holds a King, so the probes never recurse further |
| Rules.ProbeUndone | chess.py:204-208 | a probe's placement followed by its reset restores the grid |
| Rules.ValidMoveOntoKing | chess.py:178-185 | onto a King's square every piece answers with its plain attack rule; a King answers with its one-step rule |
| Rules.InCheckReference | chess.py:355-380 | raises NoKingFound exactly when the side has no King; otherwise true exactly when an enemy piece attacks the first King found |
| Rules.InCheckFaults | chess.py:370-371 | the check test raises, with NoKingFound of that colour, exactly when the side has no King |
| Rules.KingPresentNoFault | chess.py:370-371 | with a King of its colour on the board, the check test never raises |
| Rules.KingRejectsNullMove | chess.py:182-185 | a King never accepts its own square |
| Rules.CastlingRequiresNotInCheck | chess.py:200-210 | castling is accepted only when the king is not in check where it stands |
| Rules.CastlingReference | chess.py:187-211 | a two-column King move is accepted exactly when the gate's four conditions hold and, on each probe square other than the corner, the king placed there is not in check (such a probe never raises, so this means the test answered False: ProbeNeverFaults) |
| Rules.ProbesReference | chess.py:200-211 | the three probes pass exactly when each probe square is the corner or leaves the king out of check, the test answering False there since a probe never raises (ProbeNeverFaults) |
| Moves.MoveSpec | chess.py:284-353 | move_piece: False for a missing, foreign or rejecting piece, else the tentative move with its error, its take-back or its commit; stated by CommitShape, CommitPlacesPiece, CommitSideEffects, RetractionRestores and MoveFaults |
| Moves.FirstKingIgnoresHasMoved | chess.py:361-368 | the King search gives the same answer on grids that differ only in `has_moved` flags |
| Moves.InCheckIgnoresHasMoved | chess.py:355-380 | the check test gives the same answer on grids that differ only in `has_moved` flags |
| Moves.ValidPawnDiagonalChangesRow | chess.py:295-299 | a valid sideways pawn move advances one row, so the en-passant victim square is never the destination |
| Moves.ValidCastleShape | chess.py:312-320 | a valid castling move has a Rook in its corner and an empty on-board landing square for it, distinct from the king's squares |
| Moves.ValidMoveShaped | chess.py:293-326 | every valid move meets the conditions the writes of move_piece rely on; a Pawn or King never makes the null move |
| Moves.CommitShape | chess.py:284-353 | move_piece returns True only for a valid move of a piece of the mover's colour; the grid is then the committed one |
| Moves.CommitLeavesNoCheck | chess.py:332-351 | when move_piece returns True, the mover is not in check on the new grid |
| Moves.CommitPlacesPiece | chess.py:322-351 | after a successful non-null move, the piece stands on e with its kind and colour and marked as moved; a pawn's flag is set exactly when it advanced two rows; s is empty |
| Moves.CommitSideEffects | chess.py:294-351 | after a successful move, the en-passant victim is gone and a castled rook stands beside the king; every other pawn of the mover has its flag cleared; every other cell keeps its occupant |
| Moves.NullMoveVanishes | chess.py:322-325 | a successful null move is made by a Rook, Bishop or Queen and removes it from the board |
| Moves.RetractionRestores | chess.py:332-348 | a move left in check restores the grid except for cleared flags, the mover's new flag and the removed en-passant victim; it returns False, or raises DirectionUnbound for a diagonal pawn move |
| Moves.TentativeKings | chess.py:322-326 | in the tentative grid the mover's Kings are those it had, the one on s moved to e and the one on e gone |
| Moves.TentativeLosesKing | chess.py:322-332 | the tentative grid has no King of the mover exactly when the move lands on the mover's only King |
| Moves.MoveFaults | chess.py:284-353 | with a King of the mover on the board, move_piece raises NoKingFound exactly when a valid move captures the mover's only King; its only other error is DirectionUnbound |
| Game.GameOver | chess.py:382-420 | is_game_over: NoKingFound without a King, False when some trial escapes, else checkmate or stalemate by the check test; stated by GameOverFaults and GameOverVerdicts |
| Game.RelocationKeepsKing | chess.py:394-405 | a trial that avoids King squares raises exactly when the side has no King |
| Game.TrialFaults | chess.py:397-405 | a trial whose check test raises proves the side has no King and raises NoKingFound |
| Game.RelocationUndone | chess.py:397-415 | putting the two saved cells back after a trial restores the grid |
| Game.GameOverFaults | chess.py:382-420 | is_game_over raises NoKingFound exactly when the side has no King |
| Game.GameOverVerdicts | chess.py:417-420 | "checkmate" exactly when in check with no escaping trial; "stalemate" exactly when not in check with no escaping trial |
| Game.NullMoveBlocksStalemate | chess.py:385-410 | a side not in check that has a Rook, Bishop or Queen is never reported stalemated |
| Game.InitialGrid | chess.py:222-252 | the position setup_board writes; stated by InitialKings, InitialPieces and InitialNotInCheck |
| Game.InitialKings | chess.py:250-252 | the starting position has exactly one King of each colour, White's on (7, 4) and Black's on (0, 4) |
| Game.InitialPieces | chess.py:222-252 | exactly rows 0, 1, 6 and 7 are occupied, by unmoved pieces open to no en-passant capture |
| Game.InitialNotInCheck | chess.py:222-252 | neither side is in check in the starting position |
| Game.FirstKingUnique | chess.py:361-368 | when a side has exactly one King, the search finds it |
| Game.InitialOngoing | chess.py:382-420 | the game is not over for either side in the starting position |
| Board.ChessBoard.constructor | chess.py:217-220 | a new board holds the starting position and no saved state |
| Board.ChessBoard.SetupBoard | chess.py:222-252 | the home rows receive the starting pieces; the other rows are untouched |
| Board.ChessBoard.SaveState | chess.py:269-270 | the snapshot slot holds a copy of the current grid |
| Board.ChessBoard.UndoMove | chess.py:272-275 | a saved grid replaces the board and the slot is emptied; with nothing saved, nothing changes |
| Board.ChessBoard.ClearEnPassant | chess.py:301-305 | every pawn of the colour loses its en-passant flag; nothing else changes |
| Board.ChessBoard.KingIsValidMove | chess.py:178-213 | answers King.is_valid_move, and the probes leave the grid as it was |
| Board.ChessBoard.CorridorClear | chess.py:195-198 | the corridor scan answers whether every corridor square is empty |
| Board.ChessBoard.CastleProbes | chess.py:200-211 | answers whether all three probes pass; the grid is restored after each probe |
| Board.ChessBoard.IsValidMove | chess.py:293 | answers the is_valid_move of whichever piece stands on s, leaving the grid unchanged |
| Board.ChessBoard.FindKing | chess.py:361-368 | returns the first King of the colour in row-major order |
| Board.ChessBoard.IsKingInCheck | chess.py:355-380 | the check test's answer or error; the grid is unchanged |
| Board.ChessBoard.AnyAttacker | chess.py:374-380 | true exactly when some piece of the colour accepts the King's square |
| Board.ChessBoard.MovePiece | chess.py:284-353 | the result and grid of MoveSpec; the snapshot is taken exactly when s holds a piece of the mover's colour |
| Board.ChessBoard.AttemptMove | chess.py:294-351 | the result and grid of a valid move's attempt |
| Board.ChessBoard.PlaceTentatively | chess.py:294-326 | the writes up to the check test produce the tentative grid, plus the saved mover, rook and destination occupant |
| Board.ChessBoard.Prepare | chess.py:294-320 | the en-passant removal, the flag loop and the rook shift, before the piece itself moves |
| Board.ChessBoard.ShiftRook | chess.py:312-320 | the corner is emptied and the rook placed beside the king exactly when the corner holds a Rook |
| Board.ChessBoard.TakeBack | chess.py:334-348 | the undo writes produce the retracted grid and raise DirectionUnbound for a diagonal pawn move |
| Board.ChessBoard.IsGameOver | chess.py:382-420 | the verdict of GameOver; the grid is unchanged unless a trial raised |
| Board.ChessBoard.FindEscape | chess.py:385-416 | finds whether any piece of the colour has an escaping trial; raises only when the side has no King |
| Board.ChessBoard.TryMoves | chess.py:390-415 | finds whether the piece on s has an escaping trial |
| Board.ChessBoard.TryDestination | chess.py:392-415 | one destination: true exactly when it is an escape; the grid is restored unless the check test raised |
| Board.ChessBoard.TrialMove | chess.py:397-415 | the check test on the relocated grid; both cells are put back unless it raised |
| Board.ChessBoard.MoveThenUndo | chess.py:272-292 | move_piece by a piece of the mover's colour, then undo_move, restores the exact grid and empties the slot |

## Left out

- Rendering, image loading, the pygame event loop, `draw_board`, `draw_ui`, the promotion menu, turn switching and scores: these make up the user interface, not the rules.
- `get_image_key`: it only names an image.
- `last_moved_piece` (chess.py:329): it is written but never read by the core.
- `Piece.move` (chess.py:42-43): a piece's position is the index of the cell that holds it, so moving a piece is the cell write itself.
- Piece identity: `copy.deepcopy` in `save_state` is a value copy of the grid, and pieces are values, so aliasing between the saved grid and the live one is not modelled.
- Board.ChessBoard.MovePiece: requires the destination to be on the board, and the game loop can break that. A click at `mouse_y == 900` becomes row 8 (chess.py:538-539), which chess.py:570 passes to `move_piece`. The column is always on the board: the window is 1100 pixels wide (chess.py:8), so `(mouse_x - 300) // CELLSIZE` (chess.py:540) is at most 7. For such a destination the source does one of two things, neither modelled:
  - If the piece rejects it, the source saves the state and returns False (chess.py:292-293, 353). That overwrites `last_state`, so the previous move can no longer be undone.
  - If the piece accepts it, for example a King on row 7 or a Knight on row 6 or 7, chess.py:323 raises IndexError.
- Board.ChessBoard.IsValidMove: requires both squares on the board. Within the core it is only called with on-board squares, under MovePiece's requirement above.
- Board.ChessBoard.IsGameOver: when a trial raises, the contract says only that some piece was left relocated by one trial, not which trial it was.
- Exceptions are values: a raised error ends the operation with the grid as it stood at the raise, and nothing models the Python traceback.
