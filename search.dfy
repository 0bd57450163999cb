/** What the alpha-beta search computes: the range of its score, the move
    it returns, and its agreement with plain minimax (the same search
    without pruning) whenever the true value lies inside the window,
    in particular at the root call with the window (-inf, +inf). */
module SearchFacts {
  import opened Constants
  import opened Grids
  import opened Othello
  import opened OthelloFacts
  import opened AI

  // ---------------------------------------------------------------------
  // The evaluation

  /** The evaluation compares the numbers of WHITE and BLACK pieces on
      the board, and is one of -1, 0 and 1. */
  lemma EvaluateMeaning(g: Grid)
    ensures -1 <= Evaluate(g) <= 1
    ensures Evaluate(g) == 1 <==> multiset(Flatten(g))[WHITE] > multiset(Flatten(g))[BLACK]
    ensures Evaluate(g) == -1 <==> multiset(Flatten(g))[WHITE] < multiset(Flatten(g))[BLACK]
    ensures Evaluate(g) == 0 <==> multiset(Flatten(g))[WHITE] == multiset(Flatten(g))[BLACK]
  {
    CountIsOccurrences(g, BLACK);
    CountIsOccurrences(g, WHITE);
  }

  /** For the two colours, the search's own move application agrees with
      the rules engine's `make_move`. */
  lemma ChildIsMakeMove(g: Grid, m: (int, int), player: int)
    requires player == BLACK || player == WHITE
    ensures Child(g, m, player) == AfterMove(g, m.0, m.1, player, Opponent(player))
  {
  }

  /** Whichever colour is numbered 1, the search's opponent rule agrees
      with the rules engine's on both colours. */
  lemma AiOpponentUnderEitherNumbering(black: int, white: int, player: int)
    requires (black == 1 && white == 2) || (black == 2 && white == 1)
    requires player == black || player == white
    ensures AiOpponent(player) == if player == white then black else white
  {
  }

  // ---------------------------------------------------------------------
  // Range of the score and the move returned

  /** Every score lies in [-1, 1]; a search with depth left and a move to
      make returns one of the valid moves, and otherwise the empty move. */
  lemma {:induction false} AlphaBetaResult(g: Grid, depth: nat, alpha: int, beta: int, player: int)
    ensures -1 <= AlphaBeta(g, depth, alpha, beta, player).0 <= 1
    ensures depth == 0 || ValidMoves(g, player) == [] ==> AlphaBeta(g, depth, alpha, beta, player).1 == None
    ensures depth > 0 && ValidMoves(g, player) != [] ==> (
      AlphaBeta(g, depth, alpha, beta, player).1.Some? &&
      AlphaBeta(g, depth, alpha, beta, player).1.value in ValidMoves(g, player))
    decreases depth, 1, 0
  {
    var moves := ValidMoves(g, player);
    if depth == 0 || moves == [] {
      EvaluateMeaning(g);
    } else if player == WHITE {
      MaxLoopResult(g, depth, alpha, beta, moves, 0, NEG_INF, None);
    } else {
      MinLoopResult(g, depth, alpha, beta, player, moves, 0, POS_INF, None);
    }
  }

  /** The maximising loop, started before its first move or after some
      move became the best one, ends with a score in [-1, 1] and a move
      of the list. */
  lemma {:induction false} MaxLoopResult(g: Grid, depth: nat, alpha: int, beta: int, moves: seq<(int, int)>, i: nat,
                                         best: int, move: Option<(int, int)>)
    requires 0 < depth && i <= |moves|
    requires (best == NEG_INF && i < |moves|) || (-1 <= best <= 1 && move.Some? && move.value in moves)
    ensures -1 <= MaxLoop(g, depth, alpha, beta, moves, i, best, move).0 <= 1
    ensures MaxLoop(g, depth, alpha, beta, moves, i, best, move).1.Some?
    ensures MaxLoop(g, depth, alpha, beta, moves, i, best, move).1.value in moves
    decreases depth, 0, |moves| - i
  {
    if i < |moves| {
      var eval := AlphaBeta(Child(g, moves[i], WHITE), depth - 1, alpha, beta, Opponent(WHITE)).0;
      AlphaBetaResult(Child(g, moves[i], WHITE), depth - 1, alpha, beta, Opponent(WHITE));
      var best' := if best < eval then eval else best;
      var move' := if best < eval then Some(moves[i]) else move;
      if beta > Max(alpha, eval) {
        MaxLoopResult(g, depth, Max(alpha, eval), beta, moves, i + 1, best', move');
      }
    }
  }

  /** The minimising loop, likewise. */
  lemma {:induction false} MinLoopResult(g: Grid, depth: nat, alpha: int, beta: int, player: int,
                                         moves: seq<(int, int)>, i: nat, best: int, move: Option<(int, int)>)
    requires 0 < depth && i <= |moves|
    requires (best == POS_INF && i < |moves|) || (-1 <= best <= 1 && move.Some? && move.value in moves)
    ensures -1 <= MinLoop(g, depth, alpha, beta, player, moves, i, best, move).0 <= 1
    ensures MinLoop(g, depth, alpha, beta, player, moves, i, best, move).1.Some?
    ensures MinLoop(g, depth, alpha, beta, player, moves, i, best, move).1.value in moves
    decreases depth, 0, |moves| - i
  {
    if i < |moves| {
      var eval := AlphaBeta(Child(g, moves[i], player), depth - 1, alpha, beta, Opponent(player)).0;
      AlphaBetaResult(Child(g, moves[i], player), depth - 1, alpha, beta, Opponent(player));
      var best' := if best > eval then eval else best;
      var move' := if best > eval then Some(moves[i]) else move;
      if Min(beta, eval) > alpha {
        MinLoopResult(g, depth, alpha, Min(beta, eval), player, moves, i + 1, best', move');
      }
    }
  }

  // ---------------------------------------------------------------------
  // Plain minimax, the reference the pruned search is measured against

  /** The same search with no window and no cutoff: every valid move is
      searched, with the same strict comparisons (so the earliest of
      several equally good moves is kept). */
  function FullSearch(g: Grid, depth: nat, player: int): (int, Option<(int, int)>)
    decreases depth, 1, 0
  {
    var moves := ValidMoves(g, player);
    if depth == 0 || moves == [] then (Evaluate(g), None)
    else if player == WHITE then FullMax(g, depth, moves, 0, NEG_INF, None)
    else FullMin(g, depth, player, moves, 0, POS_INF, None)
  }

  /** The value plain minimax gives the child reached by the k-th move. */
  function ChildValue(g: Grid, depth: nat, player: int, moves: seq<(int, int)>, k: nat): int
    requires 0 < depth && k < |moves|
    decreases depth, 0, 0
  {
    FullSearch(Child(g, moves[k], player), depth - 1, Opponent(player)).0
  }

  function FullMax(g: Grid, depth: nat, moves: seq<(int, int)>, i: nat,
                   best: int, move: Option<(int, int)>): (int, Option<(int, int)>)
    requires 0 < depth && i <= |moves|
    decreases depth, 0, |moves| - i
  {
    if i == |moves| then (best, move)
    else
      var eval := ChildValue(g, depth, WHITE, moves, i);
      FullMax(g, depth, moves, i + 1, if best < eval then eval else best,
              if best < eval then Some(moves[i]) else move)
  }

  function FullMin(g: Grid, depth: nat, player: int, moves: seq<(int, int)>, i: nat,
                   best: int, move: Option<(int, int)>): (int, Option<(int, int)>)
    requires 0 < depth && i <= |moves|
    decreases depth, 0, |moves| - i
  {
    if i == |moves| then (best, move)
    else
      var eval := ChildValue(g, depth, player, moves, i);
      FullMin(g, depth, player, moves, i + 1, if best > eval then eval else best,
              if best > eval then Some(moves[i]) else move)
  }

  /** Plain minimax scores lie in [-1, 1]. */
  lemma {:induction false} FullSearchRange(g: Grid, depth: nat, player: int)
    ensures -1 <= FullSearch(g, depth, player).0 <= 1
    decreases depth, 1, 0
  {
    var moves := ValidMoves(g, player);
    if depth == 0 || moves == [] {
      EvaluateMeaning(g);
    } else if player == WHITE {
      FullMaxRange(g, depth, moves, 0, NEG_INF, None);
    } else {
      FullMinRange(g, depth, player, moves, 0, POS_INF, None);
    }
  }

  lemma {:induction false} FullMaxRange(g: Grid, depth: nat, moves: seq<(int, int)>, i: nat,
                                        best: int, move: Option<(int, int)>)
    requires 0 < depth && i <= |moves|
    requires (best == NEG_INF && i < |moves|) || -1 <= best <= 1
    ensures -1 <= FullMax(g, depth, moves, i, best, move).0 <= 1
    decreases depth, 0, |moves| - i
  {
    if i < |moves| {
      var eval := ChildValue(g, depth, WHITE, moves, i);
      FullSearchRange(Child(g, moves[i], WHITE), depth - 1, Opponent(WHITE));
      FullMaxRange(g, depth, moves, i + 1, if best < eval then eval else best,
                   if best < eval then Some(moves[i]) else move);
    }
  }

  lemma {:induction false} FullMinRange(g: Grid, depth: nat, player: int, moves: seq<(int, int)>, i: nat,
                                        best: int, move: Option<(int, int)>)
    requires 0 < depth && i <= |moves|
    requires (best == POS_INF && i < |moves|) || -1 <= best <= 1
    ensures -1 <= FullMin(g, depth, player, moves, i, best, move).0 <= 1
    decreases depth, 0, |moves| - i
  {
    if i < |moves| {
      var eval := ChildValue(g, depth, player, moves, i);
      FullSearchRange(Child(g, moves[i], player), depth - 1, Opponent(player));
      FullMinRange(g, depth, player, moves, i + 1, if best > eval then eval else best,
                   if best > eval then Some(moves[i]) else move);
    }
  }

  /** No move before the k-th (from the i-th on) has a child value as
      large as the k-th's. */
  predicate EarliestMax(g: Grid, depth: nat, moves: seq<(int, int)>, i: nat, k: nat)
    requires 0 < depth && k < |moves|
  {
    forall j :: i <= j < k ==> ChildValue(g, depth, WHITE, moves, j) < ChildValue(g, depth, WHITE, moves, k)
  }

  /** No move before the k-th (from the i-th on) has a child value as
      small as the k-th's. */
  predicate EarliestMin(g: Grid, depth: nat, player: int, moves: seq<(int, int)>, i: nat, k: nat)
    requires 0 < depth && k < |moves|
  {
    forall j :: i <= j < k ==> ChildValue(g, depth, player, moves, j) > ChildValue(g, depth, player, moves, k)
  }

  /** The maximising loop of plain minimax finds the largest child value,
      and the earliest move reaching it; it keeps the value and move it
      started with when no child beats them. */
  lemma {:induction false} FullMaxBest(g: Grid, depth: nat, moves: seq<(int, int)>, i: nat,
                                       best: int, move: Option<(int, int)>)
    requires 0 < depth && i <= |moves|
    ensures FullMax(g, depth, moves, i, best, move).0 >= best
    ensures forall k :: i <= k < |moves| ==>
      ChildValue(g, depth, WHITE, moves, k) <= FullMax(g, depth, moves, i, best, move).0
    ensures (forall k :: i <= k < |moves| ==> ChildValue(g, depth, WHITE, moves, k) <= best) ==>
      FullMax(g, depth, moves, i, best, move) == (best, move)
    ensures (exists k :: i <= k < |moves| && ChildValue(g, depth, WHITE, moves, k) > best) ==>
      exists k :: i <= k < |moves| &&
        FullMax(g, depth, moves, i, best, move) == (ChildValue(g, depth, WHITE, moves, k), Some(moves[k])) &&
        EarliestMax(g, depth, moves, i, k)
    decreases |moves| - i
  {
    if i < |moves| {
      var eval := ChildValue(g, depth, WHITE, moves, i);
      var best' := if best < eval then eval else best;
      var move' := if best < eval then Some(moves[i]) else move;
      var r := FullMax(g, depth, moves, i, best, move);
      assert r == FullMax(g, depth, moves, i + 1, best', move');
      FullMaxBest(g, depth, moves, i + 1, best', move');
      if exists k :: i <= k < |moves| && ChildValue(g, depth, WHITE, moves, k) > best {
        if exists k :: i + 1 <= k < |moves| && ChildValue(g, depth, WHITE, moves, k) > best' {
          var r' := FullMax(g, depth, moves, i + 1, best', move');
          var k :| i + 1 <= k < |moves| && r' == (ChildValue(g, depth, WHITE, moves, k), Some(moves[k])) &&
            EarliestMax(g, depth, moves, i + 1, k);
          var k' :| i + 1 <= k' < |moves| && ChildValue(g, depth, WHITE, moves, k') > best';
          assert eval < r.0;
          assert EarliestMax(g, depth, moves, i, k);
        } else {
          assert r == (eval, Some(moves[i])) && EarliestMax(g, depth, moves, i, i);
        }
      }
    }
  }

  /** The minimising loop of plain minimax finds the smallest child value
      and the earliest move reaching it. */
  lemma {:induction false} FullMinBest(g: Grid, depth: nat, player: int, moves: seq<(int, int)>, i: nat,
                                       best: int, move: Option<(int, int)>)
    requires 0 < depth && i <= |moves|
    ensures FullMin(g, depth, player, moves, i, best, move).0 <= best
    ensures forall k :: i <= k < |moves| ==>
      ChildValue(g, depth, player, moves, k) >= FullMin(g, depth, player, moves, i, best, move).0
    ensures (forall k :: i <= k < |moves| ==> ChildValue(g, depth, player, moves, k) >= best) ==>
      FullMin(g, depth, player, moves, i, best, move) == (best, move)
    ensures (exists k :: i <= k < |moves| && ChildValue(g, depth, player, moves, k) < best) ==>
      exists k :: i <= k < |moves| &&
        FullMin(g, depth, player, moves, i, best, move) == (ChildValue(g, depth, player, moves, k), Some(moves[k])) &&
        EarliestMin(g, depth, player, moves, i, k)
    decreases |moves| - i
  {
    if i < |moves| {
      var eval := ChildValue(g, depth, player, moves, i);
      var best' := if best > eval then eval else best;
      var move' := if best > eval then Some(moves[i]) else move;
      var r := FullMin(g, depth, player, moves, i, best, move);
      assert r == FullMin(g, depth, player, moves, i + 1, best', move');
      FullMinBest(g, depth, player, moves, i + 1, best', move');
      if exists k :: i <= k < |moves| && ChildValue(g, depth, player, moves, k) < best {
        if exists k :: i + 1 <= k < |moves| && ChildValue(g, depth, player, moves, k) < best' {
          var r' := FullMin(g, depth, player, moves, i + 1, best', move');
          var k :| i + 1 <= k < |moves| && r' == (ChildValue(g, depth, player, moves, k), Some(moves[k])) &&
            EarliestMin(g, depth, player, moves, i + 1, k);
          var k' :| i + 1 <= k' < |moves| && ChildValue(g, depth, player, moves, k') < best';
          assert eval > r.0;
          assert EarliestMin(g, depth, player, moves, i, k);
        } else {
          assert r == (eval, Some(moves[i])) && EarliestMin(g, depth, player, moves, i, i);
        }
      }
    }
  }

  // ---------------------------------------------------------------------
  // Pruning does not change the answer

  /** The window property of alpha-beta: with alpha < beta, a true value
      strictly inside the window is found exactly (score and move), one at
      or below alpha is reported at or below alpha, and one at or above
      beta is reported at or above beta. */
  lemma {:induction false} Window(g: Grid, depth: nat, alpha: int, beta: int, player: int)
    requires NEG_INF <= alpha < beta <= POS_INF
    ensures alpha < FullSearch(g, depth, player).0 < beta ==>
      AlphaBeta(g, depth, alpha, beta, player) == FullSearch(g, depth, player)
    ensures FullSearch(g, depth, player).0 <= alpha ==> AlphaBeta(g, depth, alpha, beta, player).0 <= alpha
    ensures FullSearch(g, depth, player).0 >= beta ==> AlphaBeta(g, depth, alpha, beta, player).0 >= beta
    decreases depth, 1, 0
  {
    var moves := ValidMoves(g, player);
    if depth == 0 || moves == [] {
    } else if player == WHITE {
      var v := FullMax(g, depth, moves, 0, NEG_INF, None).0;
      if alpha < v < beta {
        MaxExact(g, depth, alpha, alpha, beta, moves, 0, NEG_INF, None, NEG_INF, None);
      } else if v <= alpha {
        MaxLow(g, depth, alpha, beta, moves, 0, NEG_INF, None, NEG_INF, None);
      } else {
        MaxHigh(g, depth, alpha, beta, moves, 0, NEG_INF, None, NEG_INF, None);
      }
    } else {
      var v := FullMin(g, depth, player, moves, 0, POS_INF, None).0;
      if alpha < v < beta {
        MinExact(g, depth, beta, alpha, beta, player, moves, 0, POS_INF, None, POS_INF, None);
      } else if v <= alpha {
        MinLow(g, depth, alpha, beta, player, moves, 0, POS_INF, None, POS_INF, None);
      } else {
        MinHigh(g, depth, alpha, beta, player, moves, 0, POS_INF, None, POS_INF, None);
      }
    }
  }

  /** One iteration of plain minimax's maximising loop, unfolded. */
  lemma FullMaxStep(g: Grid, depth: nat, moves: seq<(int, int)>, i: nat, best: int, move: Option<(int, int)>)
    requires 0 < depth && i < |moves|
    ensures FullMax(g, depth, moves, i, best, move) ==
      FullMax(g, depth, moves, i + 1,
        if best < ChildValue(g, depth, WHITE, moves, i) then ChildValue(g, depth, WHITE, moves, i) else best,
        if best < ChildValue(g, depth, WHITE, moves, i) then Some(moves[i]) else move)
  {
  }

  /** One iteration of plain minimax's minimising loop, unfolded. */
  lemma FullMinStep(g: Grid, depth: nat, player: int, moves: seq<(int, int)>, i: nat, best: int, move: Option<(int, int)>)
    requires 0 < depth && i < |moves|
    ensures FullMin(g, depth, player, moves, i, best, move) ==
      FullMin(g, depth, player, moves, i + 1,
        if best > ChildValue(g, depth, player, moves, i) then ChildValue(g, depth, player, moves, i) else best,
        if best > ChildValue(g, depth, player, moves, i) then Some(moves[i]) else move)
  {
  }

  /** The maximising loops of both searches agree while the final value
      lies strictly inside the original window (alpha0, beta): either both
      carry the same best, above alpha0, or neither best exceeds alpha0. */
  lemma {:induction false} MaxExact(g: Grid, depth: nat, alpha0: int, alpha: int, beta: int, moves: seq<(int, int)>,
                                    i: nat, best: int, move: Option<(int, int)>, bestF: int, moveF: Option<(int, int)>)
    requires 0 < depth && i <= |moves|
    requires NEG_INF <= alpha0 < beta <= POS_INF
    requires alpha == Max(alpha0, best)
    requires (best == bestF && move == moveF && alpha0 < best) || (bestF <= alpha0 && best <= alpha0)
    requires alpha0 < FullMax(g, depth, moves, i, bestF, moveF).0 < beta
    ensures MaxLoop(g, depth, alpha, beta, moves, i, best, move) == FullMax(g, depth, moves, i, bestF, moveF)
    decreases depth, 0, |moves| - i
  {
    if i < |moves| {
      var child := Child(g, moves[i], WHITE);
      var v := ChildValue(g, depth, WHITE, moves, i);
      var bestF' := if bestF < v then v else bestF;
      var moveF' := if bestF < v then Some(moves[i]) else moveF;
      FullMaxStep(g, depth, moves, i, bestF, moveF);
      FullMaxBest(g, depth, moves, i + 1, bestF', moveF');
      var value := FullMax(g, depth, moves, i + 1, bestF', moveF').0;
      MaxExactWindow(alpha0, alpha, beta, best, bestF, v, bestF', value);
      Window(child, depth - 1, alpha, beta, Opponent(WHITE));
      var eval := AlphaBeta(child, depth - 1, alpha, beta, Opponent(WHITE)).0;
      MaxLoopStep(g, depth, alpha, beta, moves, i, best, move, eval);
      var best' := if best < eval then eval else best;
      var move' := if best < eval then Some(moves[i]) else move;
      MaxExactStep(alpha0, alpha, beta, best, move, bestF, moveF, v, eval, moves[i], best', move', bestF', moveF');
      MaxExact(g, depth, alpha0, Max(alpha, eval), beta, moves, i + 1, best', move', bestF', moveF');
    }
  }

  /** Before a step of MaxExact: the window is not empty and the child's
      true value lies below beta. */
  lemma MaxExactWindow(alpha0: int, alpha: int, beta: int, best: int, bestF: int, v: int, bestF': int, value: int)
    requires alpha == Max(alpha0, best)
    requires (best == bestF && alpha0 < best) || best <= alpha0
    requires alpha0 < beta && value < beta
    requires bestF' == (if bestF < v then v else bestF) && value >= bestF'
    ensures alpha < beta && v < beta
  {
  }

  /** The arithmetic of a step of MaxExact: no cutoff, and the relation
      between the two loops' states carries over to the next move. */
  lemma MaxExactStep(alpha0: int, alpha: int, beta: int, best: int, move: Option<(int, int)>,
                     bestF: int, moveF: Option<(int, int)>, v: int, eval: int, m: (int, int),
                     best': int, move': Option<(int, int)>, bestF': int, moveF': Option<(int, int)>)
    requires alpha == Max(alpha0, best)
    requires (best == bestF && move == moveF && alpha0 < best) || (bestF <= alpha0 && best <= alpha0)
    requires alpha < beta && v < beta
    requires alpha < v < beta ==> eval == v
    requires v <= alpha ==> eval <= alpha
    requires best' == (if best < eval then eval else best) && move' == (if best < eval then Some(m) else move)
    requires bestF' == (if bestF < v then v else bestF) && moveF' == (if bestF < v then Some(m) else moveF)
    ensures Max(alpha, eval) < beta
    ensures Max(alpha, eval) == Max(alpha0, best')
    ensures (best' == bestF' && move' == moveF' && alpha0 < best') || (bestF' <= alpha0 && best' <= alpha0)
  {
  }

  /** The maximising loop, when the true value is at most alpha. */
  lemma {:induction false} MaxLow(g: Grid, depth: nat, alpha: int, beta: int, moves: seq<(int, int)>,
                                  i: nat, best: int, move: Option<(int, int)>, bestF: int, moveF: Option<(int, int)>)
    requires 0 < depth && i <= |moves|
    requires NEG_INF <= alpha < beta <= POS_INF
    requires best <= alpha
    requires FullMax(g, depth, moves, i, bestF, moveF).0 <= alpha
    ensures MaxLoop(g, depth, alpha, beta, moves, i, best, move).0 <= alpha
    decreases depth, 0, |moves| - i
  {
    if i < |moves| {
      var child := Child(g, moves[i], WHITE);
      var v := ChildValue(g, depth, WHITE, moves, i);
      var bestF' := if bestF < v then v else bestF;
      var moveF' := if bestF < v then Some(moves[i]) else moveF;
      FullMaxStep(g, depth, moves, i, bestF, moveF);
      FullMaxBest(g, depth, moves, i + 1, bestF', moveF');
      Window(child, depth - 1, alpha, beta, Opponent(WHITE));
      var eval := AlphaBeta(child, depth - 1, alpha, beta, Opponent(WHITE)).0;
      MaxLoopStep(g, depth, alpha, beta, moves, i, best, move, eval);
      var best' := if best < eval then eval else best;
      MaxLowStep(alpha, beta, best, bestF, v, eval, best', bestF', FullMax(g, depth, moves, i + 1, bestF', moveF').0);
      MaxLow(g, depth, Max(alpha, eval), beta, moves, i + 1, best', if best < eval then Some(moves[i]) else move,
             bestF', moveF');
    }
  }

  /** The arithmetic of a step of MaxLow: alpha stays put, with no cutoff. */
  lemma MaxLowStep(alpha: int, beta: int, best: int, bestF: int, v: int, eval: int, best': int, bestF': int, value: int)
    requires alpha < beta && best <= alpha && value <= alpha
    requires bestF' == (if bestF < v then v else bestF) && value >= bestF'
    requires v <= alpha ==> eval <= alpha
    requires best' == (if best < eval then eval else best)
    ensures Max(alpha, eval) == alpha && best' <= alpha
  {
  }

  /** The maximising loop, when the true value is at least beta. */
  lemma {:induction false} MaxHigh(g: Grid, depth: nat, alpha: int, beta: int, moves: seq<(int, int)>,
                                   i: nat, best: int, move: Option<(int, int)>, bestF: int, moveF: Option<(int, int)>)
    requires 0 < depth && i <= |moves|
    requires NEG_INF <= alpha < beta <= POS_INF
    requires best <= alpha && bestF < beta
    requires FullMax(g, depth, moves, i, bestF, moveF).0 >= beta
    ensures MaxLoop(g, depth, alpha, beta, moves, i, best, move).0 >= beta
    decreases depth, 0, |moves| - i
  {
    if i < |moves| {
      var child := Child(g, moves[i], WHITE);
      var v := ChildValue(g, depth, WHITE, moves, i);
      var bestF' := if bestF < v then v else bestF;
      var moveF' := if bestF < v then Some(moves[i]) else moveF;
      FullMaxStep(g, depth, moves, i, bestF, moveF);
      Window(child, depth - 1, alpha, beta, Opponent(WHITE));
      var eval := AlphaBeta(child, depth - 1, alpha, beta, Opponent(WHITE)).0;
      MaxLoopStep(g, depth, alpha, beta, moves, i, best, move, eval);
      var best' := if best < eval then eval else best;
      MaxHighStep(alpha, beta, best, bestF, v, eval, best', bestF');
      if Max(alpha, eval) < beta {
        MaxHigh(g, depth, Max(alpha, eval), beta, moves, i + 1, best', if best < eval then Some(moves[i]) else move,
                bestF', moveF');
      }
    }
  }

  /** The arithmetic of a step of MaxHigh: either the cutoff fires with a
      best of at least beta, or the relation carries over. */
  lemma MaxHighStep(alpha: int, beta: int, best: int, bestF: int, v: int, eval: int, best': int, bestF': int)
    requires alpha < beta && best <= alpha && bestF < beta
    requires v >= beta ==> eval >= beta
    requires alpha < v < beta ==> eval == v
    requires v <= alpha ==> eval <= alpha
    requires best' == (if best < eval then eval else best)
    requires bestF' == (if bestF < v then v else bestF)
    ensures beta <= Max(alpha, eval) ==> best' >= beta
    ensures Max(alpha, eval) < beta ==> bestF' < beta && best' <= Max(alpha, eval)
  {
  }

  /** The minimising loops of both searches agree while the final value
      lies strictly inside the original window (alpha, beta0). */
  lemma {:induction false} MinExact(g: Grid, depth: nat, beta0: int, alpha: int, beta: int, player: int,
                                    moves: seq<(int, int)>, i: nat, best: int, move: Option<(int, int)>,
                                    bestF: int, moveF: Option<(int, int)>)
    requires 0 < depth && i <= |moves|
    requires NEG_INF <= alpha < beta0 <= POS_INF
    requires beta == Min(beta0, best)
    requires (best == bestF && move == moveF && best < beta0) || (bestF >= beta0 && best >= beta0)
    requires alpha < FullMin(g, depth, player, moves, i, bestF, moveF).0 < beta0
    ensures MinLoop(g, depth, alpha, beta, player, moves, i, best, move) == FullMin(g, depth, player, moves, i, bestF, moveF)
    decreases depth, 0, |moves| - i
  {
    if i < |moves| {
      var child := Child(g, moves[i], player);
      var v := ChildValue(g, depth, player, moves, i);
      var bestF' := if bestF > v then v else bestF;
      var moveF' := if bestF > v then Some(moves[i]) else moveF;
      FullMinStep(g, depth, player, moves, i, bestF, moveF);
      FullMinBest(g, depth, player, moves, i + 1, bestF', moveF');
      var value := FullMin(g, depth, player, moves, i + 1, bestF', moveF').0;
      MinExactWindow(beta0, alpha, beta, best, bestF, v, bestF', value);
      Window(child, depth - 1, alpha, beta, Opponent(player));
      var eval := AlphaBeta(child, depth - 1, alpha, beta, Opponent(player)).0;
      MinLoopStep(g, depth, alpha, beta, player, moves, i, best, move, eval);
      var best' := if best > eval then eval else best;
      var move' := if best > eval then Some(moves[i]) else move;
      MinExactStep(beta0, alpha, beta, best, move, bestF, moveF, v, eval, moves[i], best', move', bestF', moveF');
      MinExact(g, depth, beta0, alpha, Min(beta, eval), player, moves, i + 1, best', move', bestF', moveF');
    }
  }

  /** Before a step of MinExact: the window is not empty and the child's
      true value lies above alpha. */
  lemma MinExactWindow(beta0: int, alpha: int, beta: int, best: int, bestF: int, v: int, bestF': int, value: int)
    requires beta == Min(beta0, best)
    requires (best == bestF && best < beta0) || best >= beta0
    requires alpha < beta0 && alpha < value
    requires bestF' == (if bestF > v then v else bestF) && value <= bestF'
    ensures alpha < beta && alpha < v
  {
  }

  /** The arithmetic of a step of MinExact. */
  lemma MinExactStep(beta0: int, alpha: int, beta: int, best: int, move: Option<(int, int)>,
                     bestF: int, moveF: Option<(int, int)>, v: int, eval: int, m: (int, int),
                     best': int, move': Option<(int, int)>, bestF': int, moveF': Option<(int, int)>)
    requires beta == Min(beta0, best)
    requires (best == bestF && move == moveF && best < beta0) || (bestF >= beta0 && best >= beta0)
    requires alpha < beta && alpha < v
    requires alpha < v < beta ==> eval == v
    requires v >= beta ==> eval >= beta
    requires best' == (if best > eval then eval else best) && move' == (if best > eval then Some(m) else move)
    requires bestF' == (if bestF > v then v else bestF) && moveF' == (if bestF > v then Some(m) else moveF)
    ensures Min(beta, eval) > alpha
    ensures Min(beta, eval) == Min(beta0, best')
    ensures (best' == bestF' && move' == moveF' && best' < beta0) || (bestF' >= beta0 && best' >= beta0)
  {
  }

  /** The minimising loop, when the true value is at least beta. */
  lemma {:induction false} MinHigh(g: Grid, depth: nat, alpha: int, beta: int, player: int, moves: seq<(int, int)>,
                                   i: nat, best: int, move: Option<(int, int)>, bestF: int, moveF: Option<(int, int)>)
    requires 0 < depth && i <= |moves|
    requires NEG_INF <= alpha < beta <= POS_INF
    requires best >= beta
    requires FullMin(g, depth, player, moves, i, bestF, moveF).0 >= beta
    ensures MinLoop(g, depth, alpha, beta, player, moves, i, best, move).0 >= beta
    decreases depth, 0, |moves| - i
  {
    if i < |moves| {
      var child := Child(g, moves[i], player);
      var v := ChildValue(g, depth, player, moves, i);
      var bestF' := if bestF > v then v else bestF;
      var moveF' := if bestF > v then Some(moves[i]) else moveF;
      FullMinStep(g, depth, player, moves, i, bestF, moveF);
      FullMinBest(g, depth, player, moves, i + 1, bestF', moveF');
      Window(child, depth - 1, alpha, beta, Opponent(player));
      var eval := AlphaBeta(child, depth - 1, alpha, beta, Opponent(player)).0;
      MinLoopStep(g, depth, alpha, beta, player, moves, i, best, move, eval);
      var best' := if best > eval then eval else best;
      MinHighStep(alpha, beta, best, bestF, v, eval, best', bestF', FullMin(g, depth, player, moves, i + 1, bestF', moveF').0);
      MinHigh(g, depth, alpha, Min(beta, eval), player, moves, i + 1, best', if best > eval then Some(moves[i]) else move,
              bestF', moveF');
    }
  }

  /** The arithmetic of a step of MinHigh: beta stays put, with no cutoff. */
  lemma MinHighStep(alpha: int, beta: int, best: int, bestF: int, v: int, eval: int, best': int, bestF': int, value: int)
    requires alpha < beta && best >= beta && value >= beta
    requires bestF' == (if bestF > v then v else bestF) && value <= bestF'
    requires v >= beta ==> eval >= beta
    requires best' == (if best > eval then eval else best)
    ensures Min(beta, eval) == beta && best' >= beta
  {
  }

  /** The minimising loop, when the true value is at most alpha. */
  lemma {:induction false} MinLow(g: Grid, depth: nat, alpha: int, beta: int, player: int, moves: seq<(int, int)>,
                                  i: nat, best: int, move: Option<(int, int)>, bestF: int, moveF: Option<(int, int)>)
    requires 0 < depth && i <= |moves|
    requires NEG_INF <= alpha < beta <= POS_INF
    requires best >= beta && bestF > alpha
    requires FullMin(g, depth, player, moves, i, bestF, moveF).0 <= alpha
    ensures MinLoop(g, depth, alpha, beta, player, moves, i, best, move).0 <= alpha
    decreases depth, 0, |moves| - i
  {
    if i < |moves| {
      var child := Child(g, moves[i], player);
      var v := ChildValue(g, depth, player, moves, i);
      var bestF' := if bestF > v then v else bestF;
      var moveF' := if bestF > v then Some(moves[i]) else moveF;
      FullMinStep(g, depth, player, moves, i, bestF, moveF);
      Window(child, depth - 1, alpha, beta, Opponent(player));
      var eval := AlphaBeta(child, depth - 1, alpha, beta, Opponent(player)).0;
      MinLoopStep(g, depth, alpha, beta, player, moves, i, best, move, eval);
      var best' := if best > eval then eval else best;
      MinLowStep(alpha, beta, best, bestF, v, eval, best', bestF');
      if Min(beta, eval) > alpha {
        MinLow(g, depth, alpha, Min(beta, eval), player, moves, i + 1, best', if best > eval then Some(moves[i]) else move,
               bestF', moveF');
      }
    }
  }

  /** The arithmetic of a step of MinLow: either the cutoff fires with a
      best of at most alpha, or the relation carries over. */
  lemma MinLowStep(alpha: int, beta: int, best: int, bestF: int, v: int, eval: int, best': int, bestF': int)
    requires alpha < beta && best >= beta && bestF > alpha
    requires v <= alpha ==> eval <= alpha
    requires alpha < v < beta ==> eval == v
    requires v >= beta ==> eval >= beta
    requires best' == (if best > eval then eval else best)
    requires bestF' == (if bestF > v then v else bestF)
    ensures Min(beta, eval) <= alpha ==> best' <= alpha
    ensures Min(beta, eval) > alpha ==> bestF' > alpha && best' >= Min(beta, eval)
  {
  }

  /** The call the game makes, with the window (-inf, +inf), returns
      exactly what plain minimax returns. */
  lemma RootSearch(g: Grid, depth: nat, player: int)
    ensures AlphaBeta(g, depth, NEG_INF, POS_INF, player) == FullSearch(g, depth, player)
  {
    FullSearchRange(g, depth, player);
    Window(g, depth, NEG_INF, POS_INF, player);
  }

  /** At the root, WHITE is given the move with the largest child value,
      the earliest in row-major order among equals. */
  lemma RootMaxMove(g: Grid, depth: nat)
    requires depth > 0 && ValidMoves(g, WHITE) != []
    ensures exists k :: (0 <= k < |ValidMoves(g, WHITE)| &&
      AlphaBeta(g, depth, NEG_INF, POS_INF, WHITE) ==
        (ChildValue(g, depth, WHITE, ValidMoves(g, WHITE), k), Some(ValidMoves(g, WHITE)[k])) &&
      EarliestMax(g, depth, ValidMoves(g, WHITE), 0, k) &&
      forall j :: 0 <= j < |ValidMoves(g, WHITE)| ==>
        ChildValue(g, depth, WHITE, ValidMoves(g, WHITE), j) <= ChildValue(g, depth, WHITE, ValidMoves(g, WHITE), k))
  {
    var moves := ValidMoves(g, WHITE);
    RootSearch(g, depth, WHITE);
    FullSearchRange(Child(g, moves[0], WHITE), depth - 1, Opponent(WHITE));
    assert ChildValue(g, depth, WHITE, moves, 0) > NEG_INF;
    FullMaxBest(g, depth, moves, 0, NEG_INF, None);
  }

  /** At the root, any other player is given the move with the smallest
      child value, the earliest in row-major order among equals. */
  lemma RootMinMove(g: Grid, depth: nat, player: int)
    requires depth > 0 && ValidMoves(g, player) != [] && player != WHITE
    ensures exists k :: (0 <= k < |ValidMoves(g, player)| &&
      AlphaBeta(g, depth, NEG_INF, POS_INF, player) ==
        (ChildValue(g, depth, player, ValidMoves(g, player), k), Some(ValidMoves(g, player)[k])) &&
      EarliestMin(g, depth, player, ValidMoves(g, player), 0, k) &&
      forall j :: 0 <= j < |ValidMoves(g, player)| ==>
        ChildValue(g, depth, player, ValidMoves(g, player), j) >= ChildValue(g, depth, player, ValidMoves(g, player), k))
  {
    var moves := ValidMoves(g, player);
    RootSearch(g, depth, player);
    FullSearchRange(Child(g, moves[0], player), depth - 1, Opponent(player));
    assert ChildValue(g, depth, player, moves, 0) < POS_INF;
    FullMinBest(g, depth, player, moves, 0, POS_INF, None);
  }
}
