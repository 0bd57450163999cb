/** The board holder: a class whose `board` field is the 8x8 array, set up
    with the standard opening position and reset to it on demand. */
module Model {
  import opened Constants
  import opened Grids

  /** The standard opening position: WHITE on (3, 3) and (4, 4), BLACK on
      (3, 4) and (4, 3), every other cell EMPTY. */
  function Initial(): Grid {
    seq(ROWS, r requires 0 <= r < ROWS => seq(COLS, c requires 0 <= c < COLS => OpeningCell(r, c)))
  }

  /** The piece on (r, c) in the opening position. */
  function OpeningCell(r: int, c: int): int {
    if (r == 3 && c == 3) || (r == 4 && c == 4) then WHITE
    else if (r == 3 && c == 4) || (r == 4 && c == 3) then BLACK
    else EMPTY
  }

  class Board {
    /** The game's grid; null when the board was made for another game, in
        which case the holder never gets one. */
    var board: array2?<int>

    /** `Board(game)`: only the Othello board is set up. */
    constructor(game: string)
      ensures game == "Othello" ==> board != null && fresh(board) && IsBoard(board) && Snapshot(board) == Initial()
      ensures game != "Othello" ==> board == null
    {
      board := null;
      new;
      if game == "Othello" {
        OthelloBoardInit();
      }
    }

    /** `othello_board_init`: a fresh 8x8 array of EMPTY cells with the four
        centre pieces placed. */
    method OthelloBoardInit()
      modifies this
      ensures board != null && fresh(board) && IsBoard(board)
      ensures Snapshot(board) == Initial()
    {
      var b := new int[ROWS, COLS]((_, _) => EMPTY);
      b[3, 3], b[3, 4] := WHITE, BLACK;
      b[4, 3], b[4, 4] := BLACK, WHITE;
      forall r, c | InBounds(r, c)
        ensures Snapshot(b)[r][c] == Initial()[r][c]
      {
        assert Snapshot(b)[r][c] == b[r, c];
        if !((r == 3 || r == 4) && (c == 3 || c == 4)) {
          assert b[r, c] == EMPTY;
        }
      }
      GridsEqual(Snapshot(b), Initial());
      board := b;
    }

    /** `reset_othello_board`: back to the opening position, whatever the
        board held before. */
    method ResetOthelloBoard()
      modifies this
      ensures board != null && fresh(board) && IsBoard(board)
      ensures Snapshot(board) == Initial()
    {
      OthelloBoardInit();
    }
  }
}
