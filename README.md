# Othello rules engine, board and alpha-beta player, in Dafny

This project models the core of a small Othello game written in Python. It has three parts:

- **The rules engine** (`Controller/Othello.py`). It counts pieces and decides whether a move is valid by scanning the eight rays from the target cell. It plays a move in place, flipping every closed run of opponent pieces. It lists the valid moves in row-major order and tests whether the game is over.
- **The board holder** (`Model/Board.py`). It builds the standard opening position and resets to it.
- **The computer player** (`Controller/AI.py`). It has a three-valued material evaluation and its own copy of move application. It runs a depth-limited minimax search with alpha-beta pruning, in which WHITE maximises and BLACK minimises.

The board is an 8×8 `array2<int>` wherever the source mutates it. Every such method is proved against a specification function on the board's value, a `Grid` (`seq<seq<int>>`), which `Snapshot` reads off the array. Cells hold `EMPTY = 0`, `BLACK = 1` or `WHITE = 2`; which colour is 1 is an assumption (see "## Left out"). Rays step through the eight unit vectors of `DIRS`.

The files are:

- `constants.dfy`: modules `Constants` and `Grids`. They hold the board extent, the cell values, the directions, the `Grid` type and the array-to-grid link.
- `othello.dfy`: module `Othello`. It holds the rules as functions on grids and the engine's methods on arrays, each proved equal to its function.
- `facts.dfy`: module `OthelloFacts`. It covers counting as occurrences, and the enumeration's members and order.
- `moves.dfy`: module `MoveFacts`. It states the rules declaratively (a ray *bracketed* by the mover), proves them equivalent to the scanning code, and proves what a move flips and how the counts change.
- `board.dfy`: module `Model`. It holds the `Board` class with its `board` field, and the opening position.
- `opening.dfy`: module `Opening`. It proves facts about the opening position: its counts, both players' four moves, and that the game is not over.
- `ai.dfy`: module `AI`. It holds the evaluation as a function on grids. It holds `update_board` and the recursive `minimax` as methods over arrays, specified by the function `AlphaBeta` and its two loop functions `MaxLoop` and `MinLoop`.
- `search.dfy`: module `SearchFacts`. It proves what the search returns. It also defines plain minimax without pruning (`FullSearch`), and proves that alpha-beta agrees with it inside the window and exactly at the root call.

## Model

| member | source | states |
|---|---|---|
| OthelloFacts.CountIsOccurrences | Controller/Othello.py:17-19 | the count of a value is its number of occurrences among the 64 cells (the multiset of the flattened board) |
| OthelloFacts.PiecesBound | Controller/Othello.py:17-19 | the BLACK and WHITE counts together never exceed 64 |
| Othello.ValidMove | Controller/Othello.py:21-46 | `valid_move` returns exactly the rule `IsLegal`: the target is EMPTY and some direction scans one or more opponent pieces ending on an in-bounds `player` piece; an occupied target is always rejected |
| Othello.ScanRay | Controller/Othello.py:37-42 | the ray loop collects exactly the run of consecutive opponent cells from the neighbour outward, and stops on the first cell after it |
| MoveFacts.ClosesIff | Controller/Othello.py:37-45 | a scanned ray closes iff, k >= 2 steps out, there is a `player` piece with only opponent pieces in between |
| MoveFacts.IsLegalIff | Controller/Othello.py:32-46 | a move is valid iff the target is EMPTY and some direction is bracketed in that sense |
| Othello.MakeMove | Controller/Othello.py:48-69 | `make_move` leaves the board equal to `AfterMove` of the old board, with the opponent chosen as in the source |
| Othello.Place | Controller/Othello.py:58-69 | placing and then flipping direction by direction, in place, yields `AfterMove`: a later direction's scan is not disturbed by an earlier direction's flips |
| Othello.FlipDirection | Controller/Othello.py:60-69 | one direction of the loop flips its run exactly when the run is closed, taking the board from the first j directions' result to the first j+1 |
| Othello.FlipCells | Controller/Othello.py:68-69 | the flip loop sets exactly the listed cells to `player` and leaves the rest |
| MoveFacts.MakeMoveCells | Controller/Othello.py:58-69 | after a move, the played cell and every outflanked cell hold `player`, and every other cell is unchanged |
| MoveFacts.FlippedIffOutflanked | Controller/Othello.py:60-69 | a cell is flipped by the direction loop iff it lies strictly between the played cell and a bracketing `player` piece on some ray, so the order of the directions does not matter |
| MoveFacts.OutflankedCells | Controller/Othello.py:63-69 | only in-bounds opponent pieces are turned over, never the played cell |
| Grids.RaysDisjoint | Controller/Othello.py:60-66 | two rays from one cell meet only when they are the same ray at the same distance |
| MoveFacts.ValidMoveFlips | Controller/Othello.py:44-45 | a valid move turns over at least one piece |
| MoveFacts.MakeMoveCounts | Controller/Othello.py:58-69 | for a valid move with f flips, the mover's count rises by f + 1, the opponent's falls by f, and the EMPTY count falls by 1 |
| Othello.GetValidMoves | Controller/Othello.py:71-85 | `get_valid_moves` returns exactly `ValidMoves`, the row-major enumeration of valid cells |
| OthelloFacts.ValidMovesMembers | Controller/Othello.py:80-85 | a cell is in the list iff it is on the board and a valid move |
| OthelloFacts.ValidMovesOrdered | Controller/Othello.py:81-84 | the list is strictly increasing in row-major order, so it has no duplicates |
| OthelloFacts.MovesBeforeMember | Controller/Othello.py:81-84 | after scanning up to a cell, the list holds exactly the valid cells before it in row-major order |
| Othello.GameOver | Controller/Othello.py:87-99 | `game_over` is true iff no cell is a valid move for BLACK or for WHITE |
| OthelloFacts.NoMovesIffEmpty | Controller/Othello.py:80-85 | a player has no valid cell iff their move list is empty |
| OthelloFacts.GameOverIffNoMoves | Controller/Othello.py:95-99 | the game is over iff both players' move lists are empty |
| Constants.DirsComplete | Controller/Othello.py:36 | the eight directions are exactly the non-zero vectors with components in {-1, 0, 1} |
| Model.Board.constructor | Model/Board.py:6-13 | a board made for "Othello" holds a fresh 8×8 array in the opening position; for any other game it holds none |
| Model.Board.OthelloBoardInit | Model/Board.py:15-21 | the field becomes a fresh 8×8 array: WHITE on (3,3) and (4,4), BLACK on (3,4) and (4,3), EMPTY elsewhere |
| Model.Board.ResetOthelloBoard | Model/Board.py:23-25 | whatever the board held, it becomes the opening position again, so resetting twice is the same as resetting once |
| Opening.InitialCount | Model/Board.py:19-21 | the opening position has 2 BLACK, 2 WHITE and 60 EMPTY cells, and nothing else |
| Opening.InitialCounts | Model/Board.py:19-21 | `count_pieces` on the opening position is (2, 2) |
| Opening.InitialMember | Model/Board.py:20-21 | in the opening position a cell is a valid move for a colour iff it is one of that colour's four opening moves |
| Opening.InitialValidMoves | Model/Board.py:20-21 | in the opening position BLACK's moves are exactly [(2,3), (3,2), (4,5), (5,4)] and WHITE's exactly [(2,4), (3,5), (4,2), (5,3)], in that order |
| Opening.InitialNotOver | Model/Board.py:20-21 | the opening position is not a game-over position |
| SearchFacts.EvaluateMeaning | Controller/AI.py:19-24 | the evaluation is 1 iff WHITE has more pieces, -1 iff BLACK has more, and 0 iff they are equal; it is always in {-1, 0, 1} |
| AI.UpdateBoard | Controller/AI.py:26-51 | `update_board` plays the move in place against the opponent `2 if player == 1 else 1`, returns the same array, and for BLACK and WHITE leaves exactly the board `make_move` would |
| SearchFacts.ChildIsMakeMove | Controller/AI.py:37-51 | for BLACK and WHITE, the search's move application equals the rules engine's |
| SearchFacts.AiOpponentUnderEitherNumbering | Controller/AI.py:37 | whichever colour is numbered 1, `2 if player == 1 else 1` names the same opponent as `make_move`'s `BLACK if player == WHITE else WHITE` for both colours |
| AI.CopyBoard | Controller/AI.py:73 | the copy is a fresh array with the same cells |
| AI.ChildBoard | Controller/AI.py:73 | each child position is built on a fresh copy, as the move applied to the parent |
| AI.SearchChild | Controller/AI.py:73-74 | one child search returns `minimax` one level down, for the other player, on the child position |
| AI.Minimax | Controller/AI.py:53-94 | `minimax` returns `AlphaBeta` of the board; it has no modifies clause, so the caller's board is left as it was |
| AI.MaxSearch | Controller/AI.py:69-81 | WHITE's loop returns `MaxLoop` from the first move: strict improvement, `alpha = max(alpha, eval)`, stop once `beta <= alpha` |
| AI.MinSearch | Controller/AI.py:82-94 | the other player's loop returns `MinLoop`: strict improvement, `beta = min(beta, eval)`, stop once `beta <= alpha` |
| SearchFacts.AlphaBetaResult | Controller/AI.py:65-94 | the score is always in {-1, 0, 1}; with depth 0 or no valid move the move is empty; otherwise it is a move of `get_valid_moves` |
| SearchFacts.MaxLoopResult | Controller/AI.py:70-81 | the first child always beats the initial best, so the maximising loop ends with a score in [-1, 1] and a move of the list |
| SearchFacts.MinLoopResult | Controller/AI.py:83-94 | the same for the minimising loop |
| SearchFacts.FullSearchRange | Controller/AI.py:53-94 | plain minimax scores lie in [-1, 1] |
| SearchFacts.FullMaxBest | Controller/AI.py:72-77 | without pruning, the maximising loop returns the largest child value with the earliest move reaching it, or what it started with when no child beats that |
| SearchFacts.FullMinBest | Controller/AI.py:85-90 | without pruning, the minimising loop returns the smallest child value with the earliest move reaching it |
| SearchFacts.Window | Controller/AI.py:53-94 | the alpha-beta window property: a true value strictly inside (alpha, beta) is found exactly, score and move; one at most alpha is reported at most alpha; one at least beta is reported at least beta |
| SearchFacts.MaxExact | Controller/AI.py:69-81 | while the true value lies inside the window, the pruned and unpruned maximising loops return the same score and move |
| SearchFacts.MaxLow | Controller/AI.py:69-81 | when the true value is at most alpha, the pruned maximising loop reports at most alpha |
| SearchFacts.MaxHigh | Controller/AI.py:69-81 | when the true value is at least beta, the pruned maximising loop reports at least beta |
| SearchFacts.MinExact | Controller/AI.py:82-94 | the same agreement for the minimising loop |
| SearchFacts.MinLow | Controller/AI.py:82-94 | when the true value is at most alpha, the pruned minimising loop reports at most alpha |
| SearchFacts.MinHigh | Controller/AI.py:82-94 | when the true value is at least beta, the pruned minimising loop reports at least beta |
| SearchFacts.RootSearch | Controller/AI.py:53-94 | called with the window (-inf, +inf), as the game does, alpha-beta returns exactly the score and move of plain minimax |
| SearchFacts.RootMaxMove | Controller/AI.py:72-81 | at the root, WHITE's move has the largest child value of all its moves and is the earliest such move in row-major order |
| SearchFacts.RootMinMove | Controller/AI.py:85-94 | at the root, the other player's move has the smallest child value and is the earliest such move |

## Left out

- The tkinter interface (`View/GameGUI.py`) and the entry point (`main.py`) are not part of this model. This covers windows, drawing, clicks, turn switching and passing, and the result dialog. The model follows the search up to the move it returns.
- The constants file of the original program is not part of this model. `ROWS = COLS = 8` and `EMPTY = 0` follow from how the other files use them. Those files show only that the two colours are 1 and 2 (Controller/AI.py:37), so `BLACK = 1`, `WHITE = 2` and the order of the eight directions are assumptions.
- Nothing proved for BLACK and WHITE depends on those assumptions. SearchFacts.AiOpponentUnderEitherNumbering shows the search's opponent rule agrees with `make_move`'s on both colours under either numbering. MoveFacts.FlippedIffOutflanked describes the flipped cells without reference to the direction order.
- numpy is modelled by plain counting over the grid and by `array2<int>`. `copy.deepcopy` is modelled as a fresh array with the same cells.
- The floating-point infinities that seed the search are replaced by the integers -2 and 2. Both lie outside every evaluation, which is all the search uses them for.
- Every operation requires in-bounds coordinates. The source does not check them, and negative indices would wrap around in Python. Out-of-range input is not modelled.
- Moves are tuples in the source, and the empty move is `()`. The model uses `Option<(int, int)>`, with `None` for the empty move.
- Model.Board.constructor: for a game other than "Othello" the source never creates the `board` attribute. The model sets the field to `null` instead.
- AI.Minimax: that the caller's board is unchanged is guaranteed by the method's empty frame (no modifies clause), not by an `ensures` clause.
- AI.UpdateBoard: for a player value other than 1 and 2, the opponent is kept as written (`1`). Under BLACK = 1, WHITE = 2 this differs from `make_move`'s choice (`WHITE`), so the equality with `make_move` is stated only for BLACK and WHITE. Under the other numbering the two rules agree for every player value.
- `make_move` does not check validity. Its count changes (MoveFacts.MakeMoveCounts) are stated for valid moves by BLACK or WHITE, which are the moves the game plays.
