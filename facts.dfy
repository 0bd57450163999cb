/** Properties of the rules engine: what the counts count, which moves the
    enumeration lists and in which order, and when the game is over. What a
    move changes is in module MoveFacts. */
module OthelloFacts {
  import opened Constants
  import opened Grids
  import opened Othello

  // ---------------------------------------------------------------------
  // Counting

  /** The cells of the given rows, row after row. */
  function Flatten(rows: seq<seq<int>>): seq<int> {
    if |rows| == 0 then [] else Flatten(rows[..|rows| - 1]) + rows[|rows| - 1]
  }

  lemma {:induction false} FlattenLength(rows: seq<seq<int>>)
    requires forall r :: 0 <= r < |rows| ==> |rows[r]| == COLS
    ensures |Flatten(rows)| == |rows| * COLS
  {
    if |rows| > 0 {
      FlattenLength(rows[..|rows| - 1]);
    }
  }

  /** The cells the row-major scan has passed on reaching (row, col). */
  function Passed(g: Grid, row: nat, col: nat): seq<int>
    requires row < ROWS && col <= COLS
  {
    Flatten(g[..row]) + g[row][..col]
  }

  lemma PassedNextColumn(g: Grid, row: nat, col: nat)
    requires row < ROWS && 0 < col <= COLS
    ensures Passed(g, row, col) == Passed(g, row, col - 1) + [g[row][col - 1]]
  {
    assert g[row][..col] == g[row][..col - 1] + [g[row][col - 1]];
  }

  lemma PassedNextRow(g: Grid, row: nat)
    requires 0 < row < ROWS
    ensures Passed(g, row, 0) == Passed(g, row - 1, COLS)
  {
    assert g[..row][..row - 1] == g[..row - 1];
    assert g[row - 1][..COLS] == g[row - 1];
    assert g[row][..0] == [];
  }

  /** The scan up to (row, col) counts the occurrences of v among the cells
      it has passed. */
  lemma {:induction false} CountBeforeIsOccurrences(g: Grid, v: int, row: nat, col: nat)
    requires row < ROWS && col <= COLS
    ensures CountBefore(g, v, row, col) == multiset(Passed(g, row, col))[v]
    decreases row, col
  {
    if col > 0 {
      CountBeforeIsOccurrences(g, v, row, col - 1);
      PassedNextColumn(g, row, col);
    } else if row > 0 {
      CountBeforeIsOccurrences(g, v, row - 1, COLS);
      PassedNextRow(g, row);
    } else {
      assert g[..0] == [] && g[0][..0] == [];
    }
  }

  /** `count_pieces`: each count is the number of cells holding that colour. */
  lemma CountIsOccurrences(g: Grid, v: int)
    ensures |Flatten(g)| == ROWS * COLS
    ensures Count(g, v) == multiset(Flatten(g))[v]
  {
    FlattenLength(g);
    CountBeforeIsOccurrences(g, v, ROWS - 1, COLS);
    assert g[..ROWS - 1] + [g[ROWS - 1]] == g;
    assert g[ROWS - 1][..COLS] == g[ROWS - 1];
    assert Count(g, v) == CountBefore(g, v, ROWS - 1, COLS);
  }

  /** Two different values share the cells the scan has passed. */
  lemma {:induction false} CountBeforeBound(g: Grid, u: int, v: int, row: nat, col: nat)
    requires u != v
    requires row <= ROWS && col <= COLS && (row == ROWS ==> col == 0)
    ensures CountBefore(g, u, row, col) + CountBefore(g, v, row, col) <= row * COLS + col
    decreases row, col
  {
    if col > 0 {
      CountBeforeBound(g, u, v, row, col - 1);
    } else if row > 0 {
      CountBeforeBound(g, u, v, row - 1, COLS);
    }
  }

  /** The BLACK and WHITE counts together never exceed the 64 cells. */
  lemma PiecesBound(g: Grid)
    ensures CountPieces(g).0 + CountPieces(g).1 <= ROWS * COLS
  {
    CountBeforeBound(g, BLACK, WHITE, ROWS, 0);
  }

  // ---------------------------------------------------------------------
  // Enumeration

  /** The enumeration up to (row, col) lists m exactly when m is a legal
      cell before (row, col) in row-major order. */
  lemma {:induction false} MovesBeforeMember(g: Grid, player: int, row: nat, col: nat, m: (int, int))
    requires row <= ROWS && col <= COLS && (row == ROWS ==> col == 0)
    ensures m in MovesBefore(g, player, row, col) <==>
      InBounds(m.0, m.1) && RowMajorBefore(m, (row, col)) && IsLegal(g, m.0, m.1, player)
    decreases row, col
  {
    if col > 0 {
      MovesBeforeMember(g, player, row, col - 1, m);
      var prev := MovesBefore(g, player, row, col - 1);
      if m == (row, col - 1) {
        assert m !in prev;
      } else {
        assert m in MovesBefore(g, player, row, col) <==> m in prev;
      }
    } else if row > 0 {
      MovesBeforeMember(g, player, row - 1, COLS, m);
    }
  }

  /** The enumeration up to (row, col) is strictly increasing in row-major
      order and stays before (row, col). */
  lemma {:induction false} MovesBeforeOrdered(g: Grid, player: int, row: nat, col: nat)
    requires row <= ROWS && col <= COLS && (row == ROWS ==> col == 0)
    ensures forall i :: 0 <= i < |MovesBefore(g, player, row, col)| ==>
      MovesBefore(g, player, row, col)[i].0 < row ||
      (MovesBefore(g, player, row, col)[i].0 == row && MovesBefore(g, player, row, col)[i].1 < col)
    ensures forall i, k :: 0 <= i < k < |MovesBefore(g, player, row, col)| ==>
      RowMajorBefore(MovesBefore(g, player, row, col)[i], MovesBefore(g, player, row, col)[k])
    decreases row, col
  {
    var ms := MovesBefore(g, player, row, col);
    if col > 0 {
      MovesBeforeOrdered(g, player, row, col - 1);
      var prev := MovesBefore(g, player, row, col - 1);
      if ms != prev {
        assert ms == prev + [(row, col - 1)];
        forall i | 0 <= i < |ms|
          ensures ms[i].0 < row || (ms[i].0 == row && ms[i].1 < col)
        {
          if i < |prev| {
            assert ms[i] == prev[i];
          }
        }
        forall i, k | 0 <= i < k < |ms|
          ensures RowMajorBefore(ms[i], ms[k])
        {
          assert ms[i] == prev[i];
        }
      } else {
        forall i | 0 <= i < |ms|
          ensures ms[i].0 < row || (ms[i].0 == row && ms[i].1 < col)
        {
          assert prev[i].0 < row || (prev[i].0 == row && prev[i].1 < col - 1);
        }
      }
    } else if row > 0 {
      MovesBeforeOrdered(g, player, row - 1, COLS);
      var prev := MovesBefore(g, player, row - 1, COLS);
      assert ms == prev;
      forall i | 0 <= i < |ms|
        ensures ms[i].0 < row
      {
        assert prev[i].0 < row - 1 || (prev[i].0 == row - 1 && prev[i].1 < COLS);
      }
    }
  }

  /** `get_valid_moves` lists exactly the valid cells. */
  lemma ValidMovesMembers(g: Grid, player: int, m: (int, int))
    ensures m in ValidMoves(g, player) <==> InBounds(m.0, m.1) && IsLegal(g, m.0, m.1, player)
  {
    MovesBeforeMember(g, player, ROWS, 0, m);
  }

  /** Every cell of s comes strictly before the cells after it, in
      row-major order. */
  predicate StrictlySorted(s: seq<(int, int)>) {
    forall i, k :: 0 <= i < k < |s| ==> RowMajorBefore(s[i], s[k])
  }

  /** ... in strictly increasing row-major order, hence without duplicates. */
  lemma ValidMovesOrdered(g: Grid, player: int)
    ensures StrictlySorted(ValidMoves(g, player))
    ensures forall i, k :: 0 <= i < k < |ValidMoves(g, player)| ==> ValidMoves(g, player)[i] != ValidMoves(g, player)[k]
  {
    MovesBeforeOrdered(g, player, ROWS, 0);
    assert ValidMoves(g, player) == MovesBefore(g, player, ROWS, 0);
  }

  /** A player has no valid move exactly when the move list is empty. */
  lemma NoMovesIffEmpty(g: Grid, player: int)
    ensures NoLegalMove(g, player) <==> ValidMoves(g, player) == []
  {
    if !NoLegalMove(g, player) {
      var r, c :| 0 <= r < ROWS && 0 <= c < COLS && IsLegal(g, r, c, player);
      ValidMovesMembers(g, player, (r, c));
    } else if ValidMoves(g, player) != [] {
      ValidMovesMembers(g, player, ValidMoves(g, player)[0]);
    }
  }

  /** `game_over` holds exactly when both players' move lists are empty. */
  lemma GameOverIffNoMoves(g: Grid)
    ensures IsGameOver(g) <==> ValidMoves(g, BLACK) == [] && ValidMoves(g, WHITE) == []
  {
    NoMovesIffEmpty(g, BLACK);
    NoMovesIffEmpty(g, WHITE);
  }
}
