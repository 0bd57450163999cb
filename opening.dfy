/** The opening position against the rules: its counts, each side's four
    opening moves in row-major order, and that the game is not over. */
module Opening {
  import opened Constants
  import opened Grids
  import opened Othello
  import opened OthelloFacts
  import opened Model
  import opened MoveFacts

  /** Each side's valid moves in the opening position, in row-major order. */
  function OpeningMoves(player: int): seq<(int, int)> {
    if player == BLACK then [(2, 3), (3, 2), (4, 5), (5, 4)] else [(2, 4), (3, 5), (4, 2), (5, 3)]
  }

  function Ind(b: bool): nat {
    if b then 1 else 0
  }

  /** g holds the opening position, cell by cell. */
  predicate IsOpening(g: Grid) {
    forall r, c :: 0 <= r < ROWS && 0 <= c < COLS ==> g[r][c] == OpeningCell(r, c)
  }

  lemma InitialIsOpening()
    ensures IsOpening(Initial())
  {
  }

  // ---------------------------------------------------------------------
  // Counts

  /** One row's contribution to a count, cell by cell. */
  lemma RowExpand(g: Grid, v: int, r: int)
    requires 0 <= r < ROWS
    ensures CountBefore(g, v, r, COLS) == CountBefore(g, v, r, 0) + Ind(g[r][0] == v) + Ind(g[r][1] == v) + Ind(g[r][2] == v) + Ind(g[r][3] == v) + Ind(g[r][4] == v) + Ind(g[r][5] == v) + Ind(g[r][6] == v) + Ind(g[r][7] == v)
  {
    assert CountBefore(g, v, r, 1) == CountBefore(g, v, r, 0) + Ind(g[r][0] == v);
    assert CountBefore(g, v, r, 2) == CountBefore(g, v, r, 1) + Ind(g[r][1] == v);
    assert CountBefore(g, v, r, 3) == CountBefore(g, v, r, 2) + Ind(g[r][2] == v);
    assert CountBefore(g, v, r, 4) == CountBefore(g, v, r, 3) + Ind(g[r][3] == v);
    assert CountBefore(g, v, r, 5) == CountBefore(g, v, r, 4) + Ind(g[r][4] == v);
    assert CountBefore(g, v, r, 6) == CountBefore(g, v, r, 5) + Ind(g[r][5] == v);
    assert CountBefore(g, v, r, 7) == CountBefore(g, v, r, 6) + Ind(g[r][6] == v);
    assert CountBefore(g, v, r, 8) == CountBefore(g, v, r, 7) + Ind(g[r][7] == v);
  }

  /** What row r of the opening position contributes to the count of v. */
  function RowTotal(v: int, r: int): nat {
    if r == 3 || r == 4 then Ind(v == BLACK) + Ind(v == WHITE) + 6 * Ind(v == EMPTY) else 8 * Ind(v == EMPTY)
  }

  /** Row r of the opening position holds two EMPTY cells fewer than COLS
      when it is a centre row, one BLACK and one WHITE among them. */
  lemma OpeningRowCount(g: Grid, v: int, r: int)
    requires IsOpening(g)
    requires 0 <= r < ROWS
    ensures CountBefore(g, v, r, COLS) == CountBefore(g, v, r, 0) + RowTotal(v, r)
  {
    RowExpand(g, v, r);
    assert g[r][0] == g[r][1] == g[r][2] == g[r][5] == g[r][6] == g[r][7] == EMPTY;
    assert g[r][3] == if r == 3 then WHITE else if r == 4 then BLACK else EMPTY;
    assert g[r][4] == if r == 3 then BLACK else if r == 4 then WHITE else EMPTY;
  }

  /** How many of the rows above r are centre rows. */
  function CentreRowsBefore(r: int): nat {
    (if r > 3 then 1 else 0) + (if r > 4 then 1 else 0)
  }

  /** Summing the rows above r of a board whose rows contribute as the
      opening's do. */
  lemma {:induction false} RowsCount(g: Grid, v: int, r: nat)
    requires r <= ROWS
    requires forall rr :: 0 <= rr < ROWS ==> CountBefore(g, v, rr, COLS) == CountBefore(g, v, rr, 0) + RowTotal(v, rr)
    ensures CountBefore(g, v, r, 0) ==
      if v == EMPTY then 8 * r - 2 * CentreRowsBefore(r)
      else if v == BLACK || v == WHITE then CentreRowsBefore(r)
      else 0
  {
    if r > 0 {
      RowsCount(g, v, r - 1);
      assert CountBefore(g, v, r, 0) == CountBefore(g, v, r - 1, COLS);
    }
  }

  /** The opening position holds two pieces of each colour and 60 EMPTY
      cells. */
  lemma InitialCount(v: int)
    ensures Count(Initial(), v) == if v == BLACK || v == WHITE then 2 else if v == EMPTY then 60 else 0
  {
    InitialIsOpening();
    forall rr | 0 <= rr < ROWS
      ensures CountBefore(Initial(), v, rr, COLS) == CountBefore(Initial(), v, rr, 0) + RowTotal(v, rr)
    {
      OpeningRowCount(Initial(), v, rr);
    }
    RowsCount(Initial(), v, ROWS);
  }

  lemma InitialCounts()
    ensures CountPieces(Initial()) == (2, 2)
    ensures Count(Initial(), EMPTY) == 60
  {
    InitialCount(BLACK);
    InitialCount(WHITE);
    InitialCount(EMPTY);
  }

  // ---------------------------------------------------------------------
  // Valid moves

  /** `valid_move` spelled out over the eight directions. */
  lemma IsLegalExpanded(g: Grid, row: int, col: int, player: int)
    requires InBounds(row, col)
    ensures IsLegal(g, row, col, player) <==> (g[row][col] == EMPTY && (
        Closes(g, row, col, DIRS[0], player, Opponent(player)) ||
        Closes(g, row, col, DIRS[1], player, Opponent(player)) ||
        Closes(g, row, col, DIRS[2], player, Opponent(player)) ||
        Closes(g, row, col, DIRS[3], player, Opponent(player)) ||
        Closes(g, row, col, DIRS[4], player, Opponent(player)) ||
        Closes(g, row, col, DIRS[5], player, Opponent(player)) ||
        Closes(g, row, col, DIRS[6], player, Opponent(player)) ||
        Closes(g, row, col, DIRS[7], player, Opponent(player))))
  {
    if IsLegal(g, row, col, player) {
      var j :| 0 <= j < |DIRS| && Closes(g, row, col, DIRS[j], player, Opponent(player));
      assert j == 0 || j == 1 || j == 2 || j == 3 || j == 4 || j == 5 || j == 6 || j == 7;
    }
  }

  /** The ray from (row, col) along d is closed within its first three
      cells: one or two opponent pieces, then one of the mover's. */
  predicate ShortCloses(g: Grid, row: int, col: int, d: Dir, player: int, opp: int) {
    Holds(g, (row + d.0, col + d.1), opp) &&
    (Holds(g, (row + 2 * d.0, col + 2 * d.1), player) ||
     (Holds(g, (row + 2 * d.0, col + 2 * d.1), opp) && Holds(g, (row + 3 * d.0, col + 3 * d.1), player)))
  }

  /** No run of three opponent pieces starts next to (row, col) along d. */
  predicate NoTripleRun(g: Grid, row: int, col: int, d: Dir, opp: int) {
    !(Holds(g, (row + d.0, col + d.1), opp) && Holds(g, (row + 2 * d.0, col + 2 * d.1), opp) &&
      Holds(g, (row + 3 * d.0, col + 3 * d.1), opp))
  }

  /** Where runs are short, closing a ray is decided by its first three
      cells. */
  lemma ClosesShortRun(g: Grid, row: int, col: int, d: Dir, player: int, opp: int)
    requires player != opp
    requires NoTripleRun(g, row, col, d, opp)
    ensures Closes(g, row, col, d, player, opp) <==> ShortCloses(g, row, col, d, player, opp)
  {
    var n1 := (row + d.0, col + d.1);
    var n2 := (n1.0 + d.0, n1.1 + d.1);
    var n3 := (n2.0 + d.0, n2.1 + d.1);
    if Holds(g, n1, opp) {
      assert Run(g, n1.0, n1.1, d, opp) == [n1] + Run(g, n2.0, n2.1, d, opp);
      assert RunEnd(g, n1.0, n1.1, d, opp) == RunEnd(g, n2.0, n2.1, d, opp);
      if Holds(g, n2, opp) {
        assert Run(g, n2.0, n2.1, d, opp) == [n2] + Run(g, n3.0, n3.1, d, opp);
        assert RunEnd(g, n2.0, n2.1, d, opp) == RunEnd(g, n3.0, n3.1, d, opp);
        assert RunEnd(g, n3.0, n3.1, d, opp) == n3;
      } else {
        assert RunEnd(g, n2.0, n2.1, d, opp) == n2;
      }
    }
  }

  /** Every ray from (row, col) has a short opponent run. */
  predicate ShortRuns(g: Grid, row: int, col: int, opp: int) {
    NoTripleRun(g, row, col, (-1, -1), opp) && NoTripleRun(g, row, col, (-1, 0), opp) &&
    NoTripleRun(g, row, col, (-1, 1), opp) && NoTripleRun(g, row, col, (0, -1), opp) &&
    NoTripleRun(g, row, col, (0, 1), opp) && NoTripleRun(g, row, col, (1, -1), opp) &&
    NoTripleRun(g, row, col, (1, 0), opp) && NoTripleRun(g, row, col, (1, 1), opp)
  }

  /** Validity read off the cells at most three steps away. */
  predicate ShortLegalAt(g: Grid, row: int, col: int, player: int)
    requires InBounds(row, col)
  {
    g[row][col] == EMPTY && (
      ShortCloses(g, row, col, (-1, -1), player, Opponent(player)) ||
      ShortCloses(g, row, col, (-1, 0), player, Opponent(player)) ||
      ShortCloses(g, row, col, (-1, 1), player, Opponent(player)) ||
      ShortCloses(g, row, col, (0, -1), player, Opponent(player)) ||
      ShortCloses(g, row, col, (0, 1), player, Opponent(player)) ||
      ShortCloses(g, row, col, (1, -1), player, Opponent(player)) ||
      ShortCloses(g, row, col, (1, 0), player, Opponent(player)) ||
      ShortCloses(g, row, col, (1, 1), player, Opponent(player)))
  }

  /** Where every run from (row, col) is short, validity is decided by the
      cells at most three steps away. */
  lemma ShortLegal(g: Grid, row: int, col: int, player: int)
    requires InBounds(row, col)
    requires player == BLACK || player == WHITE
    requires ShortRuns(g, row, col, Opponent(player))
    ensures IsLegal(g, row, col, player) <==> ShortLegalAt(g, row, col, player)
  {
    IsLegalExpanded(g, row, col, player);
    ClosesShortRun(g, row, col, DIRS[0], player, Opponent(player));
    ClosesShortRun(g, row, col, DIRS[1], player, Opponent(player));
    ClosesShortRun(g, row, col, DIRS[2], player, Opponent(player));
    ClosesShortRun(g, row, col, DIRS[3], player, Opponent(player));
    ClosesShortRun(g, row, col, DIRS[4], player, Opponent(player));
    ClosesShortRun(g, row, col, DIRS[5], player, Opponent(player));
    ClosesShortRun(g, row, col, DIRS[6], player, Opponent(player));
    ClosesShortRun(g, row, col, DIRS[7], player, Opponent(player));
  }

  /** A cell with no opponent piece next to it is not a valid move. */
  lemma NoOpponentNeighbour(g: Grid, row: int, col: int, player: int)
    requires InBounds(row, col)
    requires forall j :: 0 <= j < |DIRS| ==>
      !(InBounds(row + DIRS[j].0, col + DIRS[j].1) && g[row + DIRS[j].0][col + DIRS[j].1] == Opponent(player))
    ensures !IsLegal(g, row, col, player)
  {
  }

  /** The valid moves of the opening position, cell by cell. */
  lemma OpeningLegal(g: Grid, player: int, r: int, c: int)
    requires IsOpening(g)
    requires player == BLACK || player == WHITE
    requires InBounds(r, c)
    ensures IsLegal(g, r, c, player) <==> (r, c) in OpeningMoves(player)
  {
    if !(2 <= r <= 5 && 2 <= c <= 5) {
      NoOpponentNeighbour(g, r, c, player);
    } else {
      OpeningBlockLegal(g, player, r, c);
    }
  }

  /** The sixteen cells around the centre, where the opening's pieces are. */
  lemma OpeningBlockLegal(g: Grid, player: int, r: int, c: int)
    requires IsOpening(g)
    requires player == BLACK || player == WHITE
    requires 2 <= r <= 5 && 2 <= c <= 5
    ensures IsLegal(g, r, c, player) <==> (r, c) in OpeningMoves(player)
  {
    if r == 2 && c == 2 {
      OpeningAt22(g, player);
      ShortLegal(g, 2, 2, player);
    } else if r == 2 && c == 3 {
      OpeningAt23(g, player);
      ShortLegal(g, 2, 3, player);
    } else if r == 2 && c == 4 {
      OpeningAt24(g, player);
      ShortLegal(g, 2, 4, player);
    } else if r == 2 && c == 5 {
      OpeningAt25(g, player);
      ShortLegal(g, 2, 5, player);
    } else if r == 3 && c == 2 {
      OpeningAt32(g, player);
      ShortLegal(g, 3, 2, player);
    } else if r == 3 && c == 5 {
      OpeningAt35(g, player);
      ShortLegal(g, 3, 5, player);
    } else if r == 4 && c == 2 {
      OpeningAt42(g, player);
      ShortLegal(g, 4, 2, player);
    } else if r == 4 && c == 5 {
      OpeningAt45(g, player);
      ShortLegal(g, 4, 5, player);
    } else if r == 5 && c == 2 {
      OpeningAt52(g, player);
      ShortLegal(g, 5, 2, player);
    } else if r == 5 && c == 3 {
      OpeningAt53(g, player);
      ShortLegal(g, 5, 3, player);
    } else if r == 5 && c == 4 {
      OpeningAt54(g, player);
      ShortLegal(g, 5, 4, player);
    } else if r == 5 && c == 5 {
      OpeningAt55(g, player);
      ShortLegal(g, 5, 5, player);
    }
  }

  lemma OpeningAt22(g: Grid, player: int)
    requires IsOpening(g)
    requires player == BLACK || player == WHITE
    ensures ShortRuns(g, 2, 2, Opponent(player))
    ensures ShortLegalAt(g, 2, 2, player) <==> (2, 2) in OpeningMoves(player)
  {
  }

  lemma OpeningAt23(g: Grid, player: int)
    requires IsOpening(g)
    requires player == BLACK || player == WHITE
    ensures ShortRuns(g, 2, 3, Opponent(player))
    ensures ShortLegalAt(g, 2, 3, player) <==> (2, 3) in OpeningMoves(player)
  {
  }

  lemma OpeningAt24(g: Grid, player: int)
    requires IsOpening(g)
    requires player == BLACK || player == WHITE
    ensures ShortRuns(g, 2, 4, Opponent(player))
    ensures ShortLegalAt(g, 2, 4, player) <==> (2, 4) in OpeningMoves(player)
  {
  }

  lemma OpeningAt25(g: Grid, player: int)
    requires IsOpening(g)
    requires player == BLACK || player == WHITE
    ensures ShortRuns(g, 2, 5, Opponent(player))
    ensures ShortLegalAt(g, 2, 5, player) <==> (2, 5) in OpeningMoves(player)
  {
  }

  lemma OpeningAt32(g: Grid, player: int)
    requires IsOpening(g)
    requires player == BLACK || player == WHITE
    ensures ShortRuns(g, 3, 2, Opponent(player))
    ensures ShortLegalAt(g, 3, 2, player) <==> (3, 2) in OpeningMoves(player)
  {
  }

  lemma OpeningAt35(g: Grid, player: int)
    requires IsOpening(g)
    requires player == BLACK || player == WHITE
    ensures ShortRuns(g, 3, 5, Opponent(player))
    ensures ShortLegalAt(g, 3, 5, player) <==> (3, 5) in OpeningMoves(player)
  {
  }

  lemma OpeningAt42(g: Grid, player: int)
    requires IsOpening(g)
    requires player == BLACK || player == WHITE
    ensures ShortRuns(g, 4, 2, Opponent(player))
    ensures ShortLegalAt(g, 4, 2, player) <==> (4, 2) in OpeningMoves(player)
  {
  }

  lemma OpeningAt45(g: Grid, player: int)
    requires IsOpening(g)
    requires player == BLACK || player == WHITE
    ensures ShortRuns(g, 4, 5, Opponent(player))
    ensures ShortLegalAt(g, 4, 5, player) <==> (4, 5) in OpeningMoves(player)
  {
  }

  lemma OpeningAt52(g: Grid, player: int)
    requires IsOpening(g)
    requires player == BLACK || player == WHITE
    ensures ShortRuns(g, 5, 2, Opponent(player))
    ensures ShortLegalAt(g, 5, 2, player) <==> (5, 2) in OpeningMoves(player)
  {
  }

  lemma OpeningAt53(g: Grid, player: int)
    requires IsOpening(g)
    requires player == BLACK || player == WHITE
    ensures ShortRuns(g, 5, 3, Opponent(player))
    ensures ShortLegalAt(g, 5, 3, player) <==> (5, 3) in OpeningMoves(player)
  {
  }

  lemma OpeningAt54(g: Grid, player: int)
    requires IsOpening(g)
    requires player == BLACK || player == WHITE
    ensures ShortRuns(g, 5, 4, Opponent(player))
    ensures ShortLegalAt(g, 5, 4, player) <==> (5, 4) in OpeningMoves(player)
  {
  }

  lemma OpeningAt55(g: Grid, player: int)
    requires IsOpening(g)
    requires player == BLACK || player == WHITE
    ensures ShortRuns(g, 5, 5, Opponent(player))
    ensures ShortLegalAt(g, 5, 5, player) <==> (5, 5) in OpeningMoves(player)
  {
  }

  /** Lists with the same members are empty together. */
  lemma EmptyTogether(a: seq<(int, int)>, b: seq<(int, int)>)
    requires forall m :: m in a <==> m in b
    ensures |a| == 0 <==> |b| == 0
  {
    if |a| > 0 {
      assert a[0] in b;
    }
    if |b| > 0 {
      assert b[0] in a;
    }
  }

  /** Strictly sorted lists with the same members start alike. */
  lemma SameFirst(a: seq<(int, int)>, b: seq<(int, int)>)
    requires StrictlySorted(a) && StrictlySorted(b)
    requires forall m :: m in a <==> m in b
    requires |a| > 0 && |b| > 0
    ensures a[0] == b[0]
  {
    assert a[0] in b;
    assert b[0] in a;
  }

  /** Two strictly row-major-sorted lists with the same members are equal. */
  lemma {:induction false} SortedSameElements(a: seq<(int, int)>, b: seq<(int, int)>)
    requires StrictlySorted(a) && StrictlySorted(b)
    requires forall m :: m in a <==> m in b
    ensures a == b
    decreases |a|
  {
    EmptyTogether(a, b);
    if |a| > 0 {
      SameFirst(a, b);
      forall m
        ensures m in a[1..] <==> m in b[1..]
      {
        if m in a[1..] {
          var t :| 1 <= t < |a| && a[t] == m;
          assert RowMajorBefore(a[0], m);
          assert m in a;
          var u :| 0 <= u < |b| && b[u] == m;
          assert u != 0 && b[1..][u - 1] == m;
        }
        if m in b[1..] {
          var t :| 1 <= t < |b| && b[t] == m;
          assert RowMajorBefore(b[0], m);
          assert m in b;
          var u :| 0 <= u < |a| && a[u] == m;
          assert u != 0 && a[1..][u - 1] == m;
        }
      }
      SortedSameElements(a[1..], b[1..]);
      assert a == [a[0]] + a[1..] && b == [b[0]] + b[1..];
    }
  }

  /** A list holding exactly the valid cells has the enumeration's members. */
  lemma SameMembers(g: Grid, player: int, ms: seq<(int, int)>, m: (int, int))
    requires InBounds(m.0, m.1) ==> (IsLegal(g, m.0, m.1, player) <==> m in ms)
    requires !InBounds(m.0, m.1) ==> m !in ms
    ensures m in ValidMoves(g, player) <==> m in ms
  {
    ValidMovesMembers(g, player, m);
  }

  /** The opening position's move lists, member by member. */
  lemma InitialMember(player: int, m: (int, int))
    requires player == BLACK || player == WHITE
    ensures m in ValidMoves(Initial(), player) <==> m in OpeningMoves(player)
  {
    InitialIsOpening();
    if InBounds(m.0, m.1) {
      OpeningLegal(Initial(), player, m.0, m.1);
    }
    SameMembers(Initial(), player, OpeningMoves(player), m);
  }

  /** In the opening position each side has exactly its four opening
      moves, listed in row-major order. */
  lemma InitialValidMoves(player: int)
    requires player == BLACK || player == WHITE
    ensures ValidMoves(Initial(), player) == OpeningMoves(player)
  {
    ValidMovesOrdered(Initial(), player);
    forall m
      ensures m in ValidMoves(Initial(), player) <==> m in OpeningMoves(player)
    {
      InitialMember(player, m);
    }
    assert StrictlySorted(OpeningMoves(player));
    SortedSameElements(ValidMoves(Initial(), player), OpeningMoves(player));
  }

  /** The opening position is not a finished game. */
  lemma InitialNotOver()
    ensures !IsGameOver(Initial())
  {
    InitialIsOpening();
    OpeningLegal(Initial(), BLACK, 2, 3);
  }
}
