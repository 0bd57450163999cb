/** The rules engine: piece counting, move validity, move application with
    flipping, legal-move enumeration and the game-over test. The board is a
    two-dimensional array that `MakeMove` changes in place; every operation is
    specified by a function on the board's value (`Grid`). */
module Othello {
  import opened Constants
  import opened Grids

  /** The other player, as the rules engine computes it. */
  function Opponent(player: int): (o: int)
    ensures o != player && (o == BLACK || o == WHITE)
  {
    if player == WHITE then BLACK else WHITE
  }

  // ---------------------------------------------------------------------
  // Counting

  /** How many cells hold v among the rows above `row` and the first `col`
      cells of row `row`: the row-major scan up to (row, col). */
  function CountBefore(g: Grid, v: int, row: nat, col: nat): nat
    requires row <= ROWS && col <= COLS && (row == ROWS ==> col == 0)
    decreases row, col
  {
    if col > 0 then CountBefore(g, v, row, col - 1) + (if g[row][col - 1] == v then 1 else 0)
    else if row > 0 then CountBefore(g, v, row - 1, COLS)
    else 0
  }

  /** How many cells of the board hold v. */
  function Count(g: Grid, v: int): nat {
    CountBefore(g, v, ROWS, 0)
  }

  /** The numbers of BLACK and of WHITE pieces on the board. */
  function CountPieces(g: Grid): (int, int) {
    (Count(g, BLACK), Count(g, WHITE))
  }

  // ---------------------------------------------------------------------
  // Rays

  /** The consecutive `opp` cells met when scanning from (r, c) (inclusive)
      in direction d, nearest first, stopping at the edge of the board. */
  function Run(g: Grid, r: int, c: int, d: Dir, opp: int): seq<(int, int)>
    decreases Room(r, d.0, ROWS) + Room(c, d.1, COLS)
  {
    if InBounds(r, c) && g[r][c] == opp then [(r, c)] + Run(g, r + d.0, c + d.1, d, opp) else []
  }

  /** The first cell after that run: off the board or not holding `opp`. */
  function RunEnd(g: Grid, r: int, c: int, d: Dir, opp: int): (int, int)
    decreases Room(r, d.0, ROWS) + Room(c, d.1, COLS)
  {
    if InBounds(r, c) && g[r][c] == opp then RunEnd(g, r + d.0, c + d.1, d, opp) else (r, c)
  }

  /** Scanning outward from (row, col) in direction d passes one or more
      `opp` cells and then stops on an in-bounds cell holding `player`. */
  predicate Closes(g: Grid, row: int, col: int, d: Dir, player: int, opp: int) {
    var e := RunEnd(g, row + d.0, col + d.1, d, opp);
    |Run(g, row + d.0, col + d.1, d, opp)| >= 1 && InBounds(e.0, e.1) && g[e.0][e.1] == player
  }

  /** (r, c) is one of the opponent cells of a closed ray from (row, col) in
      direction d. */
  predicate InRun(g: Grid, row: int, col: int, d: Dir, player: int, opp: int, r: int, c: int) {
    Closes(g, row, col, d, player, opp) && (r, c) in Run(g, row + d.0, col + d.1, d, opp)
  }

  /** (r, c) lies on a closed ray in one of the first k directions of DIRS. */
  predicate FlippedBy(g: Grid, row: int, col: int, player: int, opp: int, k: int, r: int, c: int)
    requires 0 <= k <= |DIRS|
  {
    k > 0 && (FlippedBy(g, row, col, player, opp, k - 1, r, c) || InRun(g, row, col, DIRS[k - 1], player, opp, r, c))
  }

  /** (r, c) holds `player` once the piece is placed and the first k
      directions are flipped. */
  predicate Placed(g: Grid, row: int, col: int, player: int, opp: int, k: int, r: int, c: int)
    requires 0 <= k <= |DIRS|
  {
    (r == row && c == col) || FlippedBy(g, row, col, player, opp, k, r, c)
  }

  /** The board once `player` is placed at (row, col) and the runs of `opp`
      closed in the first k directions are flipped. */
  function PartialMove(g: Grid, row: int, col: int, player: int, opp: int, k: int): Grid
    requires 0 <= k <= |DIRS|
  {
    seq(ROWS, r requires 0 <= r < ROWS =>
      seq(COLS, c requires 0 <= c < COLS =>
        if Placed(g, row, col, player, opp, k, r, c) then player else g[r][c]))
  }

  /** The board after `player` places a piece at (row, col), against `opp`. */
  function AfterMove(g: Grid, row: int, col: int, player: int, opp: int): Grid {
    PartialMove(g, row, col, player, opp, |DIRS|)
  }

  /** The board with every listed cell set to v. */
  function SetCells(g: Grid, cells: seq<(int, int)>, v: int): Grid {
    seq(ROWS, r requires 0 <= r < ROWS =>
      seq(COLS, c requires 0 <= c < COLS => if (r, c) in cells then v else g[r][c]))
  }

  // ---------------------------------------------------------------------
  // Validity and enumeration

  /** The source's rule for a valid move: the target is EMPTY and some
      direction closes a run of the opponent's pieces. */
  predicate IsLegal(g: Grid, row: int, col: int, player: int)
    requires InBounds(row, col)
  {
    g[row][col] == EMPTY && exists j :: 0 <= j < |DIRS| && Closes(g, row, col, DIRS[j], player, Opponent(player))
  }

  /** The valid moves among the rows above `row` and the first `col` cells
      of row `row`, in row-major order. */
  function MovesBefore(g: Grid, player: int, row: nat, col: nat): seq<(int, int)>
    requires row <= ROWS && col <= COLS && (row == ROWS ==> col == 0)
    decreases row, col
  {
    if col > 0 then
      MovesBefore(g, player, row, col - 1) + (if IsLegal(g, row, col - 1, player) then [(row, col - 1)] else [])
    else if row > 0 then MovesBefore(g, player, row - 1, COLS)
    else []
  }

  /** All valid moves of `player`, in row-major order. */
  function ValidMoves(g: Grid, player: int): seq<(int, int)> {
    MovesBefore(g, player, ROWS, 0)
  }

  predicate NoLegalMove(g: Grid, player: int) {
    forall r, c :: 0 <= r < ROWS && 0 <= c < COLS ==> !IsLegal(g, r, c, player)
  }

  /** Neither player has a valid move. */
  predicate IsGameOver(g: Grid) {
    NoLegalMove(g, BLACK) && NoLegalMove(g, WHITE)
  }

  // ---------------------------------------------------------------------
  // Lemmas the methods rely on

  /** Every cell of a run is on the board and holds `opp`. */
  lemma {:induction false} RunCells(g: Grid, r: int, c: int, d: Dir, opp: int)
    ensures forall m :: m in Run(g, r, c, d, opp) ==> InBounds(m.0, m.1) && g[m.0][m.1] == opp
    decreases Room(r, d.0, ROWS) + Room(c, d.1, COLS)
  {
    if InBounds(r, c) && g[r][c] == opp {
      RunCells(g, r + d.0, c + d.1, d, opp);
    }
  }

  /** The part of a scan still to do: `toFlip` followed by the run from
      (r, c) is the run from `start`, and both runs end at the same cell. */
  predicate Scanned(g: Grid, start: (int, int), d: Dir, opp: int, toFlip: seq<(int, int)>, r: int, c: int) {
    && toFlip + Run(g, r, c, d, opp) == Run(g, start.0, start.1, d, opp)
    && RunEnd(g, r, c, d, opp) == RunEnd(g, start.0, start.1, d, opp)
  }

  lemma ScanStep(g: Grid, start: (int, int), d: Dir, opp: int, toFlip: seq<(int, int)>, r: int, c: int)
    requires Scanned(g, start, d, opp, toFlip, r, c)
    requires InBounds(r, c) && g[r][c] == opp
    ensures Scanned(g, start, d, opp, toFlip + [(r, c)], r + d.0, c + d.1)
    ensures |Run(g, r + d.0, c + d.1, d, opp)| < |Run(g, r, c, d, opp)|
  {
    var rest := Run(g, r + d.0, c + d.1, d, opp);
    assert toFlip + [(r, c)] + rest == toFlip + ([(r, c)] + rest);
  }

  lemma ScanDone(g: Grid, start: (int, int), d: Dir, opp: int, toFlip: seq<(int, int)>, r: int, c: int)
    requires Scanned(g, start, d, opp, toFlip, r, c)
    requires !(InBounds(r, c) && g[r][c] == opp)
    ensures toFlip == Run(g, start.0, start.1, d, opp)
    ensures (r, c) == RunEnd(g, start.0, start.1, d, opp)
  {
    assert toFlip + [] == toFlip;
  }

  /** (r, c) is one or more steps from (row, col) along direction d. */
  predicate OnRay(row: int, col: int, d: Dir, r: int, c: int) {
    var i := StepsTo(row, col, d, r, c);
    i >= 1 && r == Along(row, d.0, i) && c == Along(col, d.1, i)
  }

  /** The number of steps from (row, col) to (r, c) along d. */
  function StepsTo(row: int, col: int, d: Dir, r: int, c: int): int {
    if d.0 > 0 then r - row
    else if d.0 < 0 then row - r
    else if d.1 > 0 then c - col
    else col - c
  }

  /** A cell of the run that starts s >= 1 steps out from (row, col) is on
      the ray. */
  lemma {:induction false} RunOnRay(g: Grid, row: int, col: int, d: Dir, opp: int, s: int, m: (int, int))
    requires s >= 1 && m in Run(g, Along(row, d.0, s), Along(col, d.1, s), d, opp)
    ensures OnRay(row, col, d, m.0, m.1)
    decreases Room(Along(row, d.0, s), d.0, ROWS) + Room(Along(col, d.1, s), d.1, COLS)
  {
    var r, c := Along(row, d.0, s), Along(col, d.1, s);
    if m == (r, c) {
      StepOnRay(row, col, d, s);
    } else {
      assert Along(row, d.0, s + 1) == r + d.0 && Along(col, d.1, s + 1) == c + d.1;
      RunOnRay(g, row, col, d, opp, s + 1, m);
    }
  }

  /** The cell ending the run that starts s >= 1 steps out is on the ray. */
  lemma {:induction false} RunEndOnRay(g: Grid, row: int, col: int, d: Dir, opp: int, s: int)
    requires s >= 1
    ensures var e := RunEnd(g, Along(row, d.0, s), Along(col, d.1, s), d, opp); OnRay(row, col, d, e.0, e.1)
    decreases Room(Along(row, d.0, s), d.0, ROWS) + Room(Along(col, d.1, s), d.1, COLS)
  {
    var r, c := Along(row, d.0, s), Along(col, d.1, s);
    if InBounds(r, c) && g[r][c] == opp {
      assert Along(row, d.0, s + 1) == r + d.0 && Along(col, d.1, s + 1) == c + d.1;
      RunEndOnRay(g, row, col, d, opp, s + 1);
    } else {
      StepOnRay(row, col, d, s);
    }
  }

  /** The cell s >= 1 steps out is on the ray. */
  lemma StepOnRay(row: int, col: int, d: Dir, s: int)
    requires s >= 1
    ensures OnRay(row, col, d, Along(row, d.0, s), Along(col, d.1, s))
  {
  }

  /** The run scanned from the neighbour of (row, col), and the cell ending
      it, lie on the ray from (row, col). */
  lemma NeighbourRunOnRay(g: Grid, row: int, col: int, d: Dir, opp: int)
    ensures forall m :: m in Run(g, row + d.0, col + d.1, d, opp) ==> OnRay(row, col, d, m.0, m.1)
    ensures var e := RunEnd(g, row + d.0, col + d.1, d, opp); OnRay(row, col, d, e.0, e.1)
  {
    assert Along(row, d.0, 1) == row + d.0 && Along(col, d.1, 1) == col + d.1;
    forall m | m in Run(g, row + d.0, col + d.1, d, opp)
      ensures OnRay(row, col, d, m.0, m.1)
    {
      RunOnRay(g, row, col, d, opp, 1, m);
    }
    RunEndOnRay(g, row, col, d, opp, 1);
  }

  /** A cell is on the ray of at most one direction from a given origin. */
  lemma OnOneRay(row: int, col: int, d1: Dir, d2: Dir, r: int, c: int)
    ensures OnRay(row, col, d1, r, c) && OnRay(row, col, d2, r, c) ==> d1 == d2
  {
    if OnRay(row, col, d1, r, c) && OnRay(row, col, d2, r, c) {
      RaysDisjoint(row, col, d1, StepsTo(row, col, d1, r, c), d2, StepsTo(row, col, d2, r, c));
    }
  }

  /** The run in direction DIRS[j] and the cell that ends it are untouched by
      placing the piece and flipping the earlier directions. */
  lemma RayUntouched(g: Grid, row: int, col: int, player: int, opp: int, j: int)
    requires 0 <= j < |DIRS|
    ensures var d := DIRS[j]; var e := RunEnd(g, row + d.0, col + d.1, d, opp);
      && (forall m :: m in Run(g, row + d.0, col + d.1, d, opp) ==> !Placed(g, row, col, player, opp, j, m.0, m.1))
      && !Placed(g, row, col, player, opp, j, e.0, e.1)
  {
    var d := DIRS[j];
    NeighbourRunOnRay(g, row, col, d, opp);
    forall m: (int, int) | OnRay(row, col, d, m.0, m.1)
      ensures !Placed(g, row, col, player, opp, j, m.0, m.1)
    {
      RayLeavesOrigin(row, col, d, StepsTo(row, col, d, m.0, m.1));
      NotFlippedEarlier(g, row, col, player, opp, j, j, m.0, m.1);
    }
  }

  /** A cell on the ray of DIRS[j] is on no run of the first k <= j
      directions. */
  lemma {:induction false} NotFlippedEarlier(g: Grid, row: int, col: int, player: int, opp: int, j: int, k: int, r: int, c: int)
    requires 0 <= k <= j < |DIRS| && OnRay(row, col, DIRS[j], r, c)
    ensures !FlippedBy(g, row, col, player, opp, k, r, c)
  {
    if k > 0 {
      NotFlippedEarlier(g, row, col, player, opp, j, k - 1, r, c);
      NeighbourRunOnRay(g, row, col, DIRS[k - 1], opp);
      OnOneRay(row, col, DIRS[j], DIRS[k - 1], r, c);
      DirsDistinct(k - 1, j);
    }
  }

  /** Two boards that agree on a run and on the cell ending it have the same
      run there. */
  lemma {:induction false} RunAgrees(b: Grid, g: Grid, r: int, c: int, d: Dir, opp: int)
    requires forall m :: m in Run(g, r, c, d, opp) + [RunEnd(g, r, c, d, opp)] && InBounds(m.0, m.1) ==>
      b[m.0][m.1] == g[m.0][m.1]
    ensures Run(b, r, c, d, opp) == Run(g, r, c, d, opp)
    ensures RunEnd(b, r, c, d, opp) == RunEnd(g, r, c, d, opp)
    decreases Room(r, d.0, ROWS) + Room(c, d.1, COLS)
  {
    if InBounds(r, c) && g[r][c] == opp {
      var rest := Run(g, r + d.0, c + d.1, d, opp);
      assert Run(g, r, c, d, opp) == [(r, c)] + rest;
      assert b[r][c] == g[r][c];
      forall m | m in rest + [RunEnd(g, r + d.0, c + d.1, d, opp)]
        ensures m in Run(g, r, c, d, opp) + [RunEnd(g, r, c, d, opp)]
      {
      }
      RunAgrees(b, g, r + d.0, c + d.1, d, opp);
    } else if InBounds(r, c) {
      assert (r, c) in Run(g, r, c, d, opp) + [RunEnd(g, r, c, d, opp)];
    }
  }

  /** After the first j directions are handled, the board still has the
      original run in direction DIRS[j], ending at the original cell with the
      original contents. */
  lemma RayIntact(g: Grid, row: int, col: int, player: int, opp: int, j: int)
    requires 0 <= j < |DIRS|
    ensures var d := DIRS[j]; var b := PartialMove(g, row, col, player, opp, j);
      var e := RunEnd(g, row + d.0, col + d.1, d, opp);
      && Run(b, row + d.0, col + d.1, d, opp) == Run(g, row + d.0, col + d.1, d, opp)
      && RunEnd(b, row + d.0, col + d.1, d, opp) == e
      && (InBounds(e.0, e.1) ==> b[e.0][e.1] == g[e.0][e.1])
  {
    var d := DIRS[j];
    var b := PartialMove(g, row, col, player, opp, j);
    var run, e := Run(g, row + d.0, col + d.1, d, opp), RunEnd(g, row + d.0, col + d.1, d, opp);
    RayUntouched(g, row, col, player, opp, j);
    forall m | m in run + [e] && InBounds(m.0, m.1)
      ensures b[m.0][m.1] == g[m.0][m.1]
    {
      assert !Placed(g, row, col, player, opp, j, m.0, m.1);
    }
    RunAgrees(b, g, row + d.0, col + d.1, d, opp);
  }

  /** Handling a closed direction DIRS[j] flips its run: that takes the
      board from the first j directions to the first j + 1. */
  lemma FlipStep(g: Grid, row: int, col: int, player: int, opp: int, j: int)
    requires 0 <= j < |DIRS| && Closes(g, row, col, DIRS[j], player, opp)
    ensures var d := DIRS[j];
      SetCells(PartialMove(g, row, col, player, opp, j), Run(g, row + d.0, col + d.1, d, opp), player)
        == PartialMove(g, row, col, player, opp, j + 1)
  {
    var d := DIRS[j];
    var before, after := PartialMove(g, row, col, player, opp, j), PartialMove(g, row, col, player, opp, j + 1);
    var set' := SetCells(before, Run(g, row + d.0, col + d.1, d, opp), player);
    forall r, c | InBounds(r, c)
      ensures set'[r][c] == after[r][c]
    {
      assert InRun(g, row, col, d, player, opp, r, c) <==> (r, c) in Run(g, row + d.0, col + d.1, d, opp);
    }
    GridsEqual(set', after);
  }

  /** A direction that does not close flips nothing. */
  lemma NoFlipStep(g: Grid, row: int, col: int, player: int, opp: int, j: int)
    requires 0 <= j < |DIRS| && !Closes(g, row, col, DIRS[j], player, opp)
    ensures PartialMove(g, row, col, player, opp, j) == PartialMove(g, row, col, player, opp, j + 1)
  {
    var before, after := PartialMove(g, row, col, player, opp, j), PartialMove(g, row, col, player, opp, j + 1);
    forall r, c | InBounds(r, c)
      ensures before[r][c] == after[r][c]
    {
      assert !InRun(g, row, col, DIRS[j], player, opp, r, c);
    }
    GridsEqual(before, after);
  }

  /** What the scan of direction DIRS[j] decides: when it finds a closed
      run, flipping it takes the board to the next stage; otherwise the board
      already is at the next stage. */
  lemma DirectionStep(g: Grid, b: Grid, row: int, col: int, player: int, opp: int, j: int,
                      toFlip: seq<(int, int)>, end: (int, int), closes: bool)
    requires 0 <= j < |DIRS| && b == PartialMove(g, row, col, player, opp, j)
    requires toFlip == Run(b, row + DIRS[j].0, col + DIRS[j].1, DIRS[j], opp)
    requires end == RunEnd(b, row + DIRS[j].0, col + DIRS[j].1, DIRS[j], opp)
    requires closes == (|toFlip| > 0 && InBounds(end.0, end.1) && b[end.0][end.1] == player)
    ensures closes ==> SetCells(b, toFlip, player) == PartialMove(g, row, col, player, opp, j + 1)
    ensures closes ==> forall m :: m in toFlip ==> InBounds(m.0, m.1)
    ensures !closes ==> b == PartialMove(g, row, col, player, opp, j + 1)
  {
    var d := DIRS[j];
    RayIntact(g, row, col, player, opp, j);
    assert toFlip == Run(g, row + d.0, col + d.1, d, opp);
    assert closes == Closes(g, row, col, d, player, opp);
    if closes {
      FlipStep(g, row, col, player, opp, j);
      RunCells(g, row + d.0, col + d.1, d, opp);
    } else {
      NoFlipStep(g, row, col, player, opp, j);
    }
  }

  /** The scan's outcome decides whether a direction closes. */
  lemma ClosesByScan(g: Grid, row: int, col: int, d: Dir, player: int, opp: int, toFlip: seq<(int, int)>, end: (int, int))
    requires toFlip == Run(g, row + d.0, col + d.1, d, opp) && end == RunEnd(g, row + d.0, col + d.1, d, opp)
    ensures Closes(g, row, col, d, player, opp) <==> |toFlip| > 0 && InBounds(end.0, end.1) && g[end.0][end.1] == player
  {
  }

  lemma NoDirectionCloses(g: Grid, row: int, col: int, player: int)
    requires InBounds(row, col)
    requires forall j :: 0 <= j < |DIRS| ==> !Closes(g, row, col, DIRS[j], player, Opponent(player))
    ensures !IsLegal(g, row, col, player)
  {
  }

  // ---------------------------------------------------------------------
  // Operations on the board array

  /** The scan shared by `valid_move` and `make_move`: from the neighbour
      of (row, col) in direction d, collect the consecutive `opponent`
      cells; (r, c) is where the scan stopped. */
  method ScanRay(board: array2<int>, row: int, col: int, d: Dir, opponent: int)
    returns (toFlip: seq<(int, int)>, r: int, c: int)
    requires IsBoard(board)
    ensures toFlip == Run(Snapshot(board), row + d.0, col + d.1, d, opponent)
    ensures (r, c) == RunEnd(Snapshot(board), row + d.0, col + d.1, d, opponent)
  {
    ghost var g := Snapshot(board);
    var (dr, dc) := d;
    r, c := row + dr, col + dc;
    toFlip := [];
    ghost var start := (r, c);
    while InBounds(r, c) && board[r, c] == opponent
      invariant Scanned(g, start, d, opponent, toFlip, r, c)
      decreases |Run(g, r, c, d, opponent)|
    {
      ScanStep(g, start, d, opponent, toFlip, r, c);
      toFlip := toFlip + [(r, c)];
      r, c := r + dr, c + dc;
    }
    ScanDone(g, start, d, opponent, toFlip, r, c);
  }

  /** `valid_move`: whether `player` may place a piece at (row, col). */
  method ValidMove(board: array2<int>, row: int, col: int, player: int) returns (valid: bool)
    requires IsBoard(board) && InBounds(row, col)
    ensures valid == IsLegal(Snapshot(board), row, col, player)
    ensures board[row, col] != EMPTY ==> !valid
  {
    ghost var g := Snapshot(board);
    if board[row, col] != EMPTY {
      return false;
    }
    var opponent := Opponent(player);
    for j := 0 to |DIRS|
      invariant forall j' :: 0 <= j' < j ==> !Closes(g, row, col, DIRS[j'], player, opponent)
    {
      var toFlip, r, c := ScanRay(board, row, col, DIRS[j], opponent);
      ClosesByScan(g, row, col, DIRS[j], player, opponent, toFlip, (r, c));
      if |toFlip| > 0 && InBounds(r, c) && board[r, c] == player {
        return true;
      }
    }
    NoDirectionCloses(g, row, col, player);
    return false;
  }

  /** The placement shared by `make_move` and the search's `update_board`:
      put `player` at (row, col), then flip every run of `opponent` pieces
      that some direction closes with a `player` piece. */
  method Place(board: array2<int>, row: int, col: int, player: int, opponent: int)
    requires IsBoard(board) && InBounds(row, col)
    modifies board
    ensures Snapshot(board) == AfterMove(old(Snapshot(board)), row, col, player, opponent)
  {
    ghost var g := Snapshot(board);
    board[row, col] := player;
    forall r | 0 <= r < ROWS
      ensures Snapshot(board)[r] == PartialMove(g, row, col, player, opponent, 0)[r]
    {
    }
    for j := 0 to |DIRS|
      invariant Snapshot(board) == PartialMove(g, row, col, player, opponent, j)
    {
      FlipDirection(board, g, row, col, player, opponent, j);
    }
  }

  /** One iteration of the direction loop of `Place`: scan direction
      DIRS[j] and flip its run if it is closed. */
  method FlipDirection(board: array2<int>, ghost g: Grid, row: int, col: int, player: int, opponent: int, j: int)
    requires IsBoard(board) && InBounds(row, col) && 0 <= j < |DIRS|
    requires Snapshot(board) == PartialMove(g, row, col, player, opponent, j)
    modifies board
    ensures Snapshot(board) == PartialMove(g, row, col, player, opponent, j + 1)
  {
    ghost var b := Snapshot(board);
    var toFlip, r, c := ScanRay(board, row, col, DIRS[j], opponent);
    var closes := |toFlip| > 0 && InBounds(r, c) && board[r, c] == player;
    DirectionStep(g, b, row, col, player, opponent, j, toFlip, (r, c), closes);
    if closes {
      FlipCells(board, toFlip, player);
    }
  }

  /** The flipping loop: set every listed cell to `player`. */
  method FlipCells(board: array2<int>, toFlip: seq<(int, int)>, player: int)
    requires IsBoard(board)
    requires forall m :: m in toFlip ==> InBounds(m.0, m.1)
    modifies board
    ensures Snapshot(board) == SetCells(old(Snapshot(board)), toFlip, player)
  {
    ghost var b := Snapshot(board);
    for t := 0 to |toFlip|
      invariant forall r, c :: InBounds(r, c) ==>
        board[r, c] == if (r, c) in toFlip[..t] then player else b[r][c]
    {
      var (r, c) := toFlip[t];
      assert toFlip[..t + 1] == toFlip[..t] + [(r, c)];
      board[r, c] := player;
    }
    assert toFlip[..|toFlip|] == toFlip;
    forall r | 0 <= r < ROWS
      ensures Snapshot(board)[r] == SetCells(b, toFlip, player)[r]
    {
    }
  }

  /** `make_move`: play (row, col) for `player`, flipping in place. */
  method MakeMove(board: array2<int>, row: int, col: int, player: int)
    requires IsBoard(board) && InBounds(row, col)
    modifies board
    ensures Snapshot(board) == AfterMove(old(Snapshot(board)), row, col, player, Opponent(player))
  {
    var opponent := Opponent(player);
    Place(board, row, col, player, opponent);
  }

  /** `get_valid_moves`: every valid move of `player`, scanning rows then
      columns. */
  method GetValidMoves(board: array2<int>, player: int) returns (validMoves: seq<(int, int)>)
    requires IsBoard(board)
    ensures validMoves == ValidMoves(Snapshot(board), player)
  {
    ghost var g := Snapshot(board);
    validMoves := [];
    for row := 0 to ROWS
      invariant validMoves == MovesBefore(g, player, row, 0)
    {
      for col := 0 to COLS
        invariant validMoves == MovesBefore(g, player, row, col)
      {
        var valid := ValidMove(board, row, col, player);
        if valid {
          validMoves := validMoves + [(row, col)];
        }
      }
    }
  }

  /** `game_over`: true exactly when neither player has a valid move. */
  method GameOver(board: array2<int>) returns (over: bool)
    requires IsBoard(board)
    ensures over == IsGameOver(Snapshot(board))
  {
    ghost var g := Snapshot(board);
    for r := 0 to ROWS
      invariant forall r', c' :: 0 <= r' < r && 0 <= c' < COLS ==>
        !IsLegal(g, r', c', BLACK) && !IsLegal(g, r', c', WHITE)
    {
      for c := 0 to COLS
        invariant forall r', c' :: (0 <= r' < r && 0 <= c' < COLS) || (r' == r && 0 <= c' < c) ==>
          !IsLegal(g, r', c', BLACK) && !IsLegal(g, r', c', WHITE)
      {
        var black := ValidMove(board, r, c, BLACK);
        if black {
          return false;
        }
        var white := ValidMove(board, r, c, WHITE);
        if white {
          return false;
        }
      }
    }
    return true;
  }
}
