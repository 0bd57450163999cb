/** What a move does, against a declarative statement of the rules: a
    direction closes when, k >= 2 steps out, there is a `player` piece with
    only opponent pieces in between; a move sets its own cell and exactly the
    cells in between on such rays. */
module MoveFacts {
  import opened Constants
  import opened Grids
  import opened Othello

  /** The cell i steps out from (row, col) in direction d. */
  function Cell(row: int, col: int, d: Dir, i: int): (int, int) {
    (Along(row, d.0, i), Along(col, d.1, i))
  }

  /** Cell m is on the board and holds v. */
  predicate Holds(g: Grid, m: (int, int), v: int) {
    InBounds(m.0, m.1) && g[m.0][m.1] == v
  }

  /** The rule as the game states it: k >= 2 steps out from (row, col) in
      direction d lies a `player` piece, and every cell strictly between
      holds an `opp` piece. */
  predicate Bracketed(g: Grid, row: int, col: int, d: Dir, player: int, opp: int, k: int) {
    && k >= 2
    && Holds(g, Cell(row, col, d, k), player)
    && forall i :: 1 <= i < k ==> Holds(g, Cell(row, col, d, i), opp)
  }

  /** (r, c) lies strictly between (row, col) and a bracketing `player`
      piece in some direction: the cells a move turns over. */
  ghost predicate Outflanked(g: Grid, row: int, col: int, player: int, r: int, c: int) {
    exists j, k, i :: 0 <= j < |DIRS| && 1 <= i < k && Bracketed(g, row, col, DIRS[j], player, Opponent(player), k)
      && (r, c) == Cell(row, col, DIRS[j], i)
  }

  // ---------------------------------------------------------------------
  // The scanned run, cell by cell

  function RunFrom(g: Grid, row: int, col: int, d: Dir, opp: int, s: int): seq<(int, int)> {
    Run(g, Along(row, d.0, s), Along(col, d.1, s), d, opp)
  }

  function EndFrom(g: Grid, row: int, col: int, d: Dir, opp: int, s: int): (int, int) {
    RunEnd(g, Along(row, d.0, s), Along(col, d.1, s), d, opp)
  }

  lemma AlongStep(x: int, d: int, s: int)
    requires -1 <= d <= 1
    ensures Along(x, d, s) + d == Along(x, d, s + 1)
  {
  }

  /** The run from s steps out continues with the run from s + 1. */
  lemma RunFromStep(g: Grid, row: int, col: int, d: Dir, opp: int, s: int)
    requires Holds(g, Cell(row, col, d, s), opp)
    ensures RunFrom(g, row, col, d, opp, s) == [Cell(row, col, d, s)] + RunFrom(g, row, col, d, opp, s + 1)
    ensures EndFrom(g, row, col, d, opp, s) == EndFrom(g, row, col, d, opp, s + 1)
  {
    AlongStep(row, d.0, s);
    AlongStep(col, d.1, s);
  }

  /** The i-th cell of the run from s steps out is s + i steps out. */
  lemma {:induction false} RunAt(g: Grid, row: int, col: int, d: Dir, opp: int, s: int, i: nat)
    requires i < |RunFrom(g, row, col, d, opp, s)|
    ensures RunFrom(g, row, col, d, opp, s)[i] == Cell(row, col, d, s + i)
    decreases i
  {
    assert Holds(g, Cell(row, col, d, s), opp);
    RunFromStep(g, row, col, d, opp, s);
    if i > 0 {
      RunAt(g, row, col, d, opp, s + 1, i - 1);
    }
  }

  /** The run from s steps out stops |run| cells later, at a cell that does
      not hold `opp`. */
  lemma {:induction false} EndAt(g: Grid, row: int, col: int, d: Dir, opp: int, s: int)
    ensures EndFrom(g, row, col, d, opp, s) == Cell(row, col, d, s + |RunFrom(g, row, col, d, opp, s)|)
    ensures !Holds(g, EndFrom(g, row, col, d, opp, s), opp)
    decreases Room(Along(row, d.0, s), d.0, ROWS) + Room(Along(col, d.1, s), d.1, COLS)
  {
    if Holds(g, Cell(row, col, d, s), opp) {
      RunFromStep(g, row, col, d, opp, s);
      EndAt(g, row, col, d, opp, s + 1);
    }
  }

  /** Conversely, n opponent cells from s steps out followed by one that is
      not make a run of length n. */
  lemma {:induction false} RunLengthFromCells(g: Grid, row: int, col: int, d: Dir, opp: int, s: int, n: nat)
    requires forall i :: s <= i < s + n ==> Holds(g, Cell(row, col, d, i), opp)
    requires !Holds(g, Cell(row, col, d, s + n), opp)
    ensures |RunFrom(g, row, col, d, opp, s)| == n
    decreases n
  {
    if n > 0 {
      assert Holds(g, Cell(row, col, d, s), opp);
      RunFromStep(g, row, col, d, opp, s);
      RunLengthFromCells(g, row, col, d, opp, s + 1, n - 1);
    } else {
      assert !Holds(g, Cell(row, col, d, s), opp);
    }
  }

  /** The scan from the neighbour is the run from one step out. */
  lemma NeighbourIsOneStep(g: Grid, row: int, col: int, d: Dir, opp: int)
    ensures Run(g, row + d.0, col + d.1, d, opp) == RunFrom(g, row, col, d, opp, 1)
    ensures RunEnd(g, row + d.0, col + d.1, d, opp) == EndFrom(g, row, col, d, opp, 1)
  {
    assert Along(row, d.0, 1) == row + d.0 && Along(col, d.1, 1) == col + d.1;
  }

  // ---------------------------------------------------------------------
  // The scan agrees with the declarative rule

  /** A closed direction is bracketed at one past the end of the run. */
  lemma ClosesBracketed(g: Grid, row: int, col: int, d: Dir, player: int, opp: int)
    requires Closes(g, row, col, d, player, opp)
    ensures Bracketed(g, row, col, d, player, opp, |Run(g, row + d.0, col + d.1, d, opp)| + 1)
  {
    NeighbourIsOneStep(g, row, col, d, opp);
    EndAt(g, row, col, d, opp, 1);
    var run := RunFrom(g, row, col, d, opp, 1);
    forall i | 1 <= i < |run| + 1
      ensures Holds(g, Cell(row, col, d, i), opp)
    {
      RunAt(g, row, col, d, opp, 1, i - 1);
      RunCells(g, Along(row, d.0, 1), Along(col, d.1, 1), d, opp);
      assert run[i - 1] in run;
    }
  }

  /** A bracketing piece k steps out means the run has k - 1 cells and the
      direction closes. */
  lemma BracketedCloses(g: Grid, row: int, col: int, d: Dir, player: int, opp: int, k: int)
    requires player != opp && Bracketed(g, row, col, d, player, opp, k)
    ensures |Run(g, row + d.0, col + d.1, d, opp)| == k - 1
    ensures Closes(g, row, col, d, player, opp)
  {
    NeighbourIsOneStep(g, row, col, d, opp);
    RunLengthFromCells(g, row, col, d, opp, 1, k - 1);
    EndAt(g, row, col, d, opp, 1);
  }

  /** `valid_move`'s scan of one direction decides exactly the declarative
      rule. */
  lemma ClosesIff(g: Grid, row: int, col: int, d: Dir, player: int, opp: int)
    requires player != opp
    ensures Closes(g, row, col, d, player, opp) <==> exists k :: Bracketed(g, row, col, d, player, opp, k)
  {
    if Closes(g, row, col, d, player, opp) {
      ClosesBracketed(g, row, col, d, player, opp);
    }
    if exists k :: Bracketed(g, row, col, d, player, opp, k) {
      var k :| Bracketed(g, row, col, d, player, opp, k);
      BracketedCloses(g, row, col, d, player, opp, k);
    }
  }

  /** A cell the closed scan collects lies strictly inside the bracket. */
  lemma InRunBracketed(g: Grid, row: int, col: int, d: Dir, player: int, opp: int, r: int, c: int)
    requires InRun(g, row, col, d, player, opp, r, c)
    ensures var k := |Run(g, row + d.0, col + d.1, d, opp)| + 1;
      exists i :: 1 <= i < k && Bracketed(g, row, col, d, player, opp, k) && (r, c) == Cell(row, col, d, i)
  {
    NeighbourIsOneStep(g, row, col, d, opp);
    ClosesBracketed(g, row, col, d, player, opp);
    var run := RunFrom(g, row, col, d, opp, 1);
    var t :| 0 <= t < |run| && run[t] == (r, c);
    RunAt(g, row, col, d, opp, 1, t);
    assert 1 <= t + 1 < |run| + 1 && (r, c) == Cell(row, col, d, t + 1);
  }

  /** A cell strictly inside a bracket is collected by the closed scan. */
  lemma BracketedInRun(g: Grid, row: int, col: int, d: Dir, player: int, opp: int, k: int, i: int)
    requires player != opp && 1 <= i < k && Bracketed(g, row, col, d, player, opp, k)
    ensures InRun(g, row, col, d, player, opp, Cell(row, col, d, i).0, Cell(row, col, d, i).1)
  {
    NeighbourIsOneStep(g, row, col, d, opp);
    BracketedCloses(g, row, col, d, player, opp, k);
    RunAt(g, row, col, d, opp, 1, i - 1);
    assert RunFrom(g, row, col, d, opp, 1)[i - 1] in RunFrom(g, row, col, d, opp, 1);
  }

  /** The cells a closed scan collects are exactly those strictly inside a
      bracket. */
  lemma InRunIff(g: Grid, row: int, col: int, d: Dir, player: int, opp: int, r: int, c: int)
    requires player != opp
    ensures InRun(g, row, col, d, player, opp, r, c) <==>
      exists k, i :: 1 <= i < k && Bracketed(g, row, col, d, player, opp, k) && (r, c) == Cell(row, col, d, i)
  {
    if InRun(g, row, col, d, player, opp, r, c) {
      InRunBracketed(g, row, col, d, player, opp, r, c);
    }
    if exists k, i :: 1 <= i < k && Bracketed(g, row, col, d, player, opp, k) && (r, c) == Cell(row, col, d, i) {
      var k, i :| 1 <= i < k && Bracketed(g, row, col, d, player, opp, k) && (r, c) == Cell(row, col, d, i);
      BracketedInRun(g, row, col, d, player, opp, k, i);
    }
  }

  /** `valid_move` against the declarative rule: the target is EMPTY and
      some direction is bracketed. */
  lemma IsLegalIff(g: Grid, row: int, col: int, player: int)
    requires InBounds(row, col)
    ensures IsLegal(g, row, col, player) <==>
      g[row][col] == EMPTY &&
      exists j, k :: 0 <= j < |DIRS| && Bracketed(g, row, col, DIRS[j], player, Opponent(player), k)
  {
    var opp := Opponent(player);
    if IsLegal(g, row, col, player) {
      var j :| 0 <= j < |DIRS| && Closes(g, row, col, DIRS[j], player, opp);
      ClosesBracketed(g, row, col, DIRS[j], player, opp);
    }
    if exists j, k :: 0 <= j < |DIRS| && Bracketed(g, row, col, DIRS[j], player, opp, k) {
      var j, k :| 0 <= j < |DIRS| && Bracketed(g, row, col, DIRS[j], player, opp, k);
      BracketedCloses(g, row, col, DIRS[j], player, opp, k);
    }
  }

  // ---------------------------------------------------------------------
  // Which cells a move changes

  /** Flipping the first k directions turns over the cells on the closed
      runs of those directions, whatever their order. */
  lemma {:induction false} FlippedByIff(g: Grid, row: int, col: int, player: int, opp: int, k: int, r: int, c: int)
    requires 0 <= k <= |DIRS|
    ensures FlippedBy(g, row, col, player, opp, k, r, c) <==>
      exists j :: 0 <= j < k && InRun(g, row, col, DIRS[j], player, opp, r, c)
  {
    if k > 0 {
      FlippedByIff(g, row, col, player, opp, k - 1, r, c);
      if exists j :: 0 <= j < k && InRun(g, row, col, DIRS[j], player, opp, r, c) {
        var j :| 0 <= j < k && InRun(g, row, col, DIRS[j], player, opp, r, c);
        assert j < k - 1 || j == k - 1;
      }
    }
  }

  /** A cell is turned over exactly when it is outflanked. */
  lemma FlippedIffOutflanked(g: Grid, row: int, col: int, player: int, r: int, c: int)
    ensures FlippedBy(g, row, col, player, Opponent(player), |DIRS|, r, c) <==> Outflanked(g, row, col, player, r, c)
  {
    var opp := Opponent(player);
    FlippedByIff(g, row, col, player, opp, |DIRS|, r, c);
    if FlippedBy(g, row, col, player, opp, |DIRS|, r, c) {
      var j :| 0 <= j < |DIRS| && InRun(g, row, col, DIRS[j], player, opp, r, c);
      InRunIff(g, row, col, DIRS[j], player, opp, r, c);
    }
    if Outflanked(g, row, col, player, r, c) {
      var j, k, i :| 0 <= j < |DIRS| && 1 <= i < k && Bracketed(g, row, col, DIRS[j], player, opp, k)
        && (r, c) == Cell(row, col, DIRS[j], i);
      BracketedInRun(g, row, col, DIRS[j], player, opp, k, i);
    }
  }

  /** `make_move`: the played cell becomes `player`, every outflanked cell
      becomes `player`, and every other cell keeps its value. */
  lemma MakeMoveCells(g: Grid, row: int, col: int, player: int, r: int, c: int)
    requires InBounds(r, c)
    ensures AfterMove(g, row, col, player, Opponent(player))[r][c] ==
      if (r, c) == (row, col) || Outflanked(g, row, col, player, r, c) then player else g[r][c]
  {
    FlippedIffOutflanked(g, row, col, player, r, c);
  }

  /** Only opponent pieces are turned over, and never the played cell. */
  lemma OutflankedCells(g: Grid, row: int, col: int, player: int, r: int, c: int)
    requires Outflanked(g, row, col, player, r, c)
    ensures InBounds(r, c) && g[r][c] == Opponent(player) && (r, c) != (row, col)
  {
    var j, k, i :| 0 <= j < |DIRS| && 1 <= i < k && Bracketed(g, row, col, DIRS[j], player, Opponent(player), k)
      && (r, c) == Cell(row, col, DIRS[j], i);
    assert Holds(g, Cell(row, col, DIRS[j], i), Opponent(player));
    RayLeavesOrigin(row, col, DIRS[j], i);
  }

  // ---------------------------------------------------------------------
  // How the counts move

  /** The number of outflanked cells among those the row-major scan has
      passed on reaching (rr, cc). */
  ghost function FlipsBefore(g: Grid, row: int, col: int, player: int, rr: nat, cc: nat): nat
    requires rr <= ROWS && cc <= COLS && (rr == ROWS ==> cc == 0)
    decreases rr, cc
  {
    if cc > 0 then FlipsBefore(g, row, col, player, rr, cc - 1) + (if Outflanked(g, row, col, player, rr, cc - 1) then 1 else 0)
    else if rr > 0 then FlipsBefore(g, row, col, player, rr - 1, COLS)
    else 0
  }

  /** The number of cells a move turns over. */
  ghost function Flips(g: Grid, row: int, col: int, player: int): nat {
    FlipsBefore(g, row, col, player, ROWS, 0)
  }

  /** The change a move makes to one cell, as a change to the count of v. */
  lemma CellDelta(g: Grid, h: Grid, row: int, col: int, player: int, v: int, r: int, c: int)
    requires InBounds(row, col) && InBounds(r, c) && g[row][col] == EMPTY
    requires player == BLACK || player == WHITE
    requires h == AfterMove(g, row, col, player, Opponent(player))
    ensures var f := if Outflanked(g, row, col, player, r, c) then 1 else 0;
      var o := if (r, c) == (row, col) then 1 else 0;
      (if h[r][c] == v then 1 else 0) ==
        (if g[r][c] == v then 1 else 0) + (if v == player then f + o else 0)
        - (if v == Opponent(player) then f else 0) - (if v == EMPTY then o else 0)
  {
    MakeMoveCells(g, row, col, player, r, c);
    if Outflanked(g, row, col, player, r, c) {
      OutflankedCells(g, row, col, player, r, c);
    }
  }

  /** The count of v after the move, over the cells passed on reaching
      (rr, cc). */
  lemma {:induction false} CountDelta(g: Grid, h: Grid, row: int, col: int, player: int, v: int, rr: nat, cc: nat)
    requires InBounds(row, col) && g[row][col] == EMPTY
    requires player == BLACK || player == WHITE
    requires h == AfterMove(g, row, col, player, Opponent(player))
    requires rr <= ROWS && cc <= COLS && (rr == ROWS ==> cc == 0)
    ensures CountBefore(h, v, rr, cc) ==
      CountBefore(g, v, rr, cc)
      + (if v == player then FlipsBefore(g, row, col, player, rr, cc) + (if RowMajorBefore((row, col), (rr, cc)) then 1 else 0) else 0)
      - (if v == Opponent(player) then FlipsBefore(g, row, col, player, rr, cc) else 0)
      - (if v == EMPTY && RowMajorBefore((row, col), (rr, cc)) then 1 else 0)
    decreases rr, cc
  {
    if cc > 0 {
      CountDelta(g, h, row, col, player, v, rr, cc - 1);
      CellDelta(g, h, row, col, player, v, rr, cc - 1);
      assert RowMajorBefore((row, col), (rr, cc)) <==>
        RowMajorBefore((row, col), (rr, cc - 1)) || (rr, cc - 1) == (row, col);
      assert !(RowMajorBefore((row, col), (rr, cc - 1)) && (rr, cc - 1) == (row, col));
    } else if rr > 0 {
      CountDelta(g, h, row, col, player, v, rr - 1, COLS);
      assert RowMajorBefore((row, col), (rr, cc)) <==> RowMajorBefore((row, col), (rr - 1, COLS));
    }
  }

  /** An outflanked cell the scan has passed is counted. */
  lemma {:induction false} FlipsCounted(g: Grid, row: int, col: int, player: int, rr: nat, cc: nat, m: (int, int))
    requires rr <= ROWS && cc <= COLS && (rr == ROWS ==> cc == 0)
    requires InBounds(m.0, m.1) && RowMajorBefore(m, (rr, cc)) && Outflanked(g, row, col, player, m.0, m.1)
    ensures FlipsBefore(g, row, col, player, rr, cc) >= 1
    decreases rr, cc
  {
    if cc > 0 {
      if m != (rr, cc - 1) {
        FlipsCounted(g, row, col, player, rr, cc - 1, m);
      }
    } else if rr > 0 {
      FlipsCounted(g, row, col, player, rr - 1, COLS, m);
    }
  }

  /** A valid move turns over at least one piece. */
  lemma ValidMoveFlips(g: Grid, row: int, col: int, player: int)
    requires InBounds(row, col) && IsLegal(g, row, col, player)
    ensures Flips(g, row, col, player) >= 1
  {
    var opp := Opponent(player);
    var j :| 0 <= j < |DIRS| && Closes(g, row, col, DIRS[j], player, opp);
    ClosesBracketed(g, row, col, DIRS[j], player, opp);
    var k := |Run(g, row + DIRS[j].0, col + DIRS[j].1, DIRS[j], opp)| + 1;
    var m := Cell(row, col, DIRS[j], 1);
    assert Bracketed(g, row, col, DIRS[j], player, opp, k) && 1 <= 1 < k;
    assert Outflanked(g, row, col, player, m.0, m.1);
    assert Holds(g, m, opp);
    FlipsCounted(g, row, col, player, ROWS, 0, m);
  }

  /** `make_move` on a valid move: the mover gains the turned-over pieces
      and the played one, the opponent loses the turned-over pieces, and one
      EMPTY cell is filled. */
  lemma MakeMoveCounts(g: Grid, row: int, col: int, player: int)
    requires InBounds(row, col) && IsLegal(g, row, col, player)
    requires player == BLACK || player == WHITE
    ensures var h := AfterMove(g, row, col, player, Opponent(player));
      var f := Flips(g, row, col, player);
      && f >= 1
      && Count(h, player) == Count(g, player) + f + 1
      && Count(h, Opponent(player)) == Count(g, Opponent(player)) - f
      && Count(h, EMPTY) == Count(g, EMPTY) - 1
  {
    var h := AfterMove(g, row, col, player, Opponent(player));
    ValidMoveFlips(g, row, col, player);
    assert RowMajorBefore((row, col), (ROWS, 0));
    CountDelta(g, h, row, col, player, player, ROWS, 0);
    CountDelta(g, h, row, col, player, Opponent(player), ROWS, 0);
    CountDelta(g, h, row, col, player, EMPTY, ROWS, 0);
  }
}
