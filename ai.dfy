/** The computer player: a three-valued material evaluation, its own copy of
    move application, and a depth-limited minimax search with alpha-beta
    pruning in which WHITE maximises and BLACK minimises. The search is a
    recursive method over board arrays, specified by the function
    `AlphaBeta` on the board's value. */
module AI {
  import opened Constants
  import opened Grids
  import opened Othello
  import opened OthelloFacts

  datatype Option<T> = None | Some(value: T)

  /** Integer stand-ins for the infinite window bounds and initial best
      values: both lie outside every evaluation. */
  const NEG_INF: int := -2
  const POS_INF: int := 2

  /** The opponent as `update_board` computes it, from the literal colour
      codes rather than the named constants. */
  function AiOpponent(player: int): int {
    if player == 1 then 2 else 1
  }

  /** `evaluate_game_state`: 1 when WHITE has more pieces, -1 when BLACK
      has more, 0 on a tie. */
  function Evaluate(g: Grid): int {
    var (black, white) := CountPieces(g);
    if white > black then 1 else if white < black then -1 else 0
  }

  function Max(a: int, b: int): int {
    if a >= b then a else b
  }

  function Min(a: int, b: int): int {
    if a <= b then a else b
  }

  /** The board a search child is evaluated on: `update_board` applied to
      a copy of g. */
  function Child(g: Grid, m: (int, int), player: int): Grid {
    AfterMove(g, m.0, m.1, player, AiOpponent(player))
  }

  /** `minimax(board, depth, alpha, beta, player)`: the score and the best
      move (None for the empty move). */
  function AlphaBeta(g: Grid, depth: nat, alpha: int, beta: int, player: int): (int, Option<(int, int)>)
    decreases depth, 1, 0
  {
    var moves := ValidMoves(g, player);
    if depth == 0 || moves == [] then (Evaluate(g), None)
    else if player == WHITE then MaxLoop(g, depth, alpha, beta, moves, 0, NEG_INF, None)
    else MinLoop(g, depth, alpha, beta, player, moves, 0, POS_INF, None)
  }

  /** The maximising loop from the i-th move on, with the running `alpha`,
      best score and best move. */
  function MaxLoop(g: Grid, depth: nat, alpha: int, beta: int, moves: seq<(int, int)>, i: nat,
                   best: int, move: Option<(int, int)>): (int, Option<(int, int)>)
    requires 0 < depth && i <= |moves|
    decreases depth, 0, |moves| - i
  {
    if i == |moves| then (best, move)
    else
      var eval := AlphaBeta(Child(g, moves[i], WHITE), depth - 1, alpha, beta, Opponent(WHITE)).0;
      var best' := if best < eval then eval else best;
      var move' := if best < eval then Some(moves[i]) else move;
      var alpha' := Max(alpha, eval);
      if beta <= alpha' then (best', move')
      else MaxLoop(g, depth, alpha', beta, moves, i + 1, best', move')
  }

  /** The minimising loop, for any player other than WHITE. */
  function MinLoop(g: Grid, depth: nat, alpha: int, beta: int, player: int, moves: seq<(int, int)>, i: nat,
                   best: int, move: Option<(int, int)>): (int, Option<(int, int)>)
    requires 0 < depth && i <= |moves|
    decreases depth, 0, |moves| - i
  {
    if i == |moves| then (best, move)
    else
      var eval := AlphaBeta(Child(g, moves[i], player), depth - 1, alpha, beta, Opponent(player)).0;
      var best' := if best > eval then eval else best;
      var move' := if best > eval then Some(moves[i]) else move;
      var beta' := Min(beta, eval);
      if beta' <= alpha then (best', move')
      else MinLoop(g, depth, alpha, beta', player, moves, i + 1, best', move')
  }

  /** One iteration of the maximising loop, unfolded. */
  lemma MaxLoopStep(g: Grid, depth: nat, alpha: int, beta: int, moves: seq<(int, int)>, i: nat,
                    best: int, move: Option<(int, int)>, eval: int)
    requires 0 < depth && i < |moves|
    requires eval == AlphaBeta(Child(g, moves[i], WHITE), depth - 1, alpha, beta, Opponent(WHITE)).0
    ensures beta <= Max(alpha, eval) ==> (MaxLoop(g, depth, alpha, beta, moves, i, best, move) ==
      (if best < eval then eval else best, if best < eval then Some(moves[i]) else move))
    ensures beta > Max(alpha, eval) ==> (MaxLoop(g, depth, alpha, beta, moves, i, best, move) ==
      MaxLoop(g, depth, Max(alpha, eval), beta, moves, i + 1,
        if best < eval then eval else best, if best < eval then Some(moves[i]) else move))
  {
  }

  /** One iteration of the minimising loop, unfolded. */
  lemma MinLoopStep(g: Grid, depth: nat, alpha: int, beta: int, player: int, moves: seq<(int, int)>, i: nat,
                    best: int, move: Option<(int, int)>, eval: int)
    requires 0 < depth && i < |moves|
    requires eval == AlphaBeta(Child(g, moves[i], player), depth - 1, alpha, beta, Opponent(player)).0
    ensures Min(beta, eval) <= alpha ==> (MinLoop(g, depth, alpha, beta, player, moves, i, best, move) ==
      (if best > eval then eval else best, if best > eval then Some(moves[i]) else move))
    ensures Min(beta, eval) > alpha ==> (MinLoop(g, depth, alpha, beta, player, moves, i, best, move) ==
      MinLoop(g, depth, alpha, Min(beta, eval), player, moves, i + 1,
        if best > eval then eval else best, if best > eval then Some(moves[i]) else move))
  {
  }

  // ---------------------------------------------------------------------
  // Operations on the board array

  /** `copy.deepcopy(board)`: a fresh array with the same cells. */
  method CopyBoard(board: array2<int>) returns (copy: array2<int>)
    requires IsBoard(board)
    ensures fresh(copy) && IsBoard(copy)
    ensures Snapshot(copy) == Snapshot(board)
  {
    copy := new int[ROWS, COLS]((r, c) reads board => if InBounds(r, c) then board[r, c] else EMPTY);
    GridsEqual(Snapshot(copy), Snapshot(board));
  }

  /** `update_board`: place `player` at (row, col) and flip, in place,
      against the opponent `AiOpponent(player)`; returns the same array. */
  method UpdateBoard(board: array2<int>, row: int, col: int, player: int) returns (updated: array2<int>)
    requires IsBoard(board) && InBounds(row, col)
    modifies board
    ensures updated == board
    ensures Snapshot(board) == AfterMove(old(Snapshot(board)), row, col, player, AiOpponent(player))
    ensures player == BLACK || player == WHITE ==>
      Snapshot(board) == AfterMove(old(Snapshot(board)), row, col, player, Opponent(player))
  {
    var opponent := if player == 1 then 2 else 1;
    Place(board, row, col, player, opponent);
    updated := board;
  }

  /** `update_board(copy.deepcopy(board), r, c, player)`: the child
      position on a fresh array. */
  method ChildBoard(board: array2<int>, ghost g: Grid, r: int, c: int, player: int) returns (newBoard: array2<int>)
    requires IsBoard(board) && Snapshot(board) == g && InBounds(r, c)
    ensures fresh(newBoard) && IsBoard(newBoard)
    ensures Snapshot(newBoard) == Child(g, (r, c), player)
  {
    var copy := CopyBoard(board);
    newBoard := UpdateBoard(copy, r, c, player);
  }

  /** One child of the search: the child position, then `minimax` one
      level down for the other player. */
  method SearchChild(board: array2<int>, ghost g: Grid, r: int, c: int, depth: nat, alpha: int, beta: int, player: int)
    returns (eval: int, childMove: Option<(int, int)>)
    requires IsBoard(board) && Snapshot(board) == g && InBounds(r, c) && depth > 0
    ensures (eval, childMove) == AlphaBeta(Child(g, (r, c), player), depth - 1, alpha, beta, Opponent(player))
    decreases depth, 0
  {
    var newBoard := ChildBoard(board, g, r, c, player);
    eval, childMove := Minimax(newBoard, depth - 1, alpha, beta, Opponent(player));
  }

  /** `minimax`: every child is searched on its own copy, so the caller's
      board is left as it was (the method may modify nothing it did not
      allocate). */
  method Minimax(board: array2<int>, depth: nat, alpha: int, beta: int, player: int)
    returns (score: int, move: Option<(int, int)>)
    requires IsBoard(board)
    ensures (score, move) == AlphaBeta(Snapshot(board), depth, alpha, beta, player)
    decreases depth, 2
  {
    var possibleMoves := GetValidMoves(board, player);
    if depth == 0 || possibleMoves == [] {
      return Evaluate(Snapshot(board)), None;
    }
    if player == WHITE {
      score, move := MaxSearch(board, depth, alpha, beta, possibleMoves);
    } else {
      score, move := MinSearch(board, depth, alpha, beta, player, possibleMoves);
    }
  }

  /** The maximising branch of `minimax`, for WHITE. */
  method MaxSearch(board: array2<int>, depth: nat, alpha: int, beta: int, possibleMoves: seq<(int, int)>)
    returns (score: int, move: Option<(int, int)>)
    requires IsBoard(board) && depth > 0
    requires possibleMoves == ValidMoves(Snapshot(board), WHITE)
    ensures (score, move) == MaxLoop(Snapshot(board), depth, alpha, beta, possibleMoves, 0, NEG_INF, None)
    decreases depth, 1
  {
    ghost var g := Snapshot(board);
    var maxEval, bestMove, a := NEG_INF, None, alpha;
    var i := 0;
    while i < |possibleMoves|
      invariant i <= |possibleMoves|
      invariant MaxLoop(g, depth, alpha, beta, possibleMoves, 0, NEG_INF, None) ==
        MaxLoop(g, depth, a, beta, possibleMoves, i, maxEval, bestMove)
    {
      var (r, c) := possibleMoves[i];
      ValidMovesMembers(g, WHITE, (r, c));
      var eval, _ := SearchChild(board, g, r, c, depth, a, beta, WHITE);
      MaxLoopStep(g, depth, a, beta, possibleMoves, i, maxEval, bestMove, eval);
      if maxEval < eval {
        maxEval := eval;
        bestMove := Some((r, c));
      }
      a := Max(a, eval);
      if beta <= a {
        break;
      }
      i := i + 1;
    }
    return maxEval, bestMove;
  }

  /** The minimising branch of `minimax`, for every other player. */
  method MinSearch(board: array2<int>, depth: nat, alpha: int, beta: int, player: int, possibleMoves: seq<(int, int)>)
    returns (score: int, move: Option<(int, int)>)
    requires IsBoard(board) && depth > 0
    requires possibleMoves == ValidMoves(Snapshot(board), player)
    ensures (score, move) == MinLoop(Snapshot(board), depth, alpha, beta, player, possibleMoves, 0, POS_INF, None)
    decreases depth, 1
  {
    ghost var g := Snapshot(board);
    var minEval, bestMove, b := POS_INF, None, beta;
    var i := 0;
    while i < |possibleMoves|
      invariant i <= |possibleMoves|
      invariant MinLoop(g, depth, alpha, beta, player, possibleMoves, 0, POS_INF, None) ==
        MinLoop(g, depth, alpha, b, player, possibleMoves, i, minEval, bestMove)
    {
      var (r, c) := possibleMoves[i];
      ValidMovesMembers(g, player, (r, c));
      var eval, _ := SearchChild(board, g, r, c, depth, alpha, b, player);
      MinLoopStep(g, depth, alpha, b, player, possibleMoves, i, minEval, bestMove, eval);
      if minEval > eval {
        minEval := eval;
        bestMove := Some((r, c));
      }
      b := Min(b, eval);
      if b <= alpha {
        break;
      }
      i := i + 1;
    }
    return minEval, bestMove;
  }
}
