/** Depth-limited fail-soft alpha-beta over the shared board, its functional
    specification, the plain minimax it must agree with, and the proof that it does. */
module Search {

  import opened ChessRules
  import opened ExtInt
  import opened Evaluator

  // ---------------------------------------------------------------------------------
  // Plain minimax: the reference the pruning search is measured against

  /** The minimax value of a move's successor, one ply down with the roles swapped. */
  function ChildMinimax(rules: Rules, p: Position, m: Move, depth: nat, maximizing: bool): int
    requires depth >= 1
    decreases depth, 0
  {
    Minimax(rules, rules.push(p, m), depth - 1, !maximizing)
  }

  /** Minimax without pruning over the same depth-limited tree, with the same leaves:
      depth 0, game over, or no legal moves are scored by the evaluator. */
  function Minimax(rules: Rules, p: Position, depth: nat, maximizing: bool): int
    decreases depth, 2
  {
    if depth == 0 || rules.isGameOver(p) || |rules.legalMoves(p)| == 0 then
      Evaluation(rules, p)
    else
      BestChild(rules, p, rules.legalMoves(p), depth, maximizing).n
  }

  /** The best child value over `moves`: their maximum at a maximizing node, their
      minimum at a minimizing one; infinite when there are no moves. */
  function BestChild(rules: Rules, p: Position, moves: seq<Move>, depth: nat, maximizing: bool): (r: ExtInt)
    requires depth >= 1
    ensures moves == [] ==> r == if maximizing then NegInf else PosInf
    ensures moves != [] ==> r.Fin?
    ensures moves != [] ==>
      exists i :: 0 <= i < |moves| && r.n == ChildMinimax(rules, p, moves[i], depth, maximizing)
    ensures forall i :: 0 <= i < |moves| ==>
      if maximizing then ChildMinimax(rules, p, moves[i], depth, maximizing) <= r.n
      else r.n <= ChildMinimax(rules, p, moves[i], depth, maximizing)
    decreases depth, 1, |moves|
  {
    if moves == [] then
      (if maximizing then NegInf else PosInf)
    else
      var v := Fin(ChildMinimax(rules, p, moves[0], depth, maximizing));
      var rest := BestChild(rules, p, moves[1..], depth, maximizing);
      assert forall i :: 1 <= i < |moves| ==> moves[i] == moves[1..][i - 1];
      if maximizing then Max(v, rest) else Min(v, rest)
  }

  // ---------------------------------------------------------------------------------
  // The pruning search as a value

  /** `alpha_beta(board, depth, alpha, beta, maximizing_player)` as a function of the
      position: leaves are evaluated; otherwise the moves are tried in order. */
  function AlphaBetaValue(rules: Rules, p: Position, depth: nat, alpha: ExtInt, beta: ExtInt,
                          maximizing: bool): (r: ExtInt)
    ensures r.Fin?
    decreases depth, 1
  {
    if depth == 0 || rules.isGameOver(p) then
      Fin(Evaluation(rules, p))
    else
      var moves := rules.legalMoves(p);
      if |moves| == 0 then Fin(Evaluation(rules, p))
      else if maximizing then MaxLoop(rules, p, moves, depth, alpha, beta, NegInf)
      else MinLoop(rules, p, moves, depth, alpha, beta, PosInf)
  }

  /** The rest of the maximizing loop, with the current `alpha` and `max_eval`: search
      the next move with the current window, raise `max_eval` and `alpha`, and stop as
      soon as `beta <= alpha`. */
  function MaxLoop(rules: Rules, p: Position, moves: seq<Move>, depth: nat,
                   alpha: ExtInt, beta: ExtInt, maxEval: ExtInt): (r: ExtInt)
    requires depth >= 1 && maxEval != PosInf
    ensures moves != [] || maxEval.Fin? ==> r.Fin?
    decreases depth, 0, |moves|
  {
    if moves == [] then maxEval
    else
      var score := AlphaBetaValue(rules, rules.push(p, moves[0]), depth - 1, alpha, beta, false);
      var maxEval' := Max(maxEval, score);
      var alpha' := Max(alpha, score);
      if Le(beta, alpha') then maxEval'
      else MaxLoop(rules, p, moves[1..], depth, alpha', beta, maxEval')
  }

  /** The rest of the minimizing loop, symmetric: lower `min_eval` and `beta`. */
  function MinLoop(rules: Rules, p: Position, moves: seq<Move>, depth: nat,
                   alpha: ExtInt, beta: ExtInt, minEval: ExtInt): (r: ExtInt)
    requires depth >= 1 && minEval != NegInf
    ensures moves != [] || minEval.Fin? ==> r.Fin?
    decreases depth, 0, |moves|
  {
    if moves == [] then minEval
    else
      var score := AlphaBetaValue(rules, rules.push(p, moves[0]), depth - 1, alpha, beta, true);
      var minEval' := Min(minEval, score);
      var beta' := Min(beta, score);
      if Le(beta', alpha) then minEval'
      else MinLoop(rules, p, moves[1..], depth, alpha, beta', minEval')
  }

  /** At depth 0, at a game-over position, or with no legal moves, both searches return
      the evaluator's score of the position itself. */
  lemma SearchLeaves(rules: Rules, p: Position, depth: nat, alpha: ExtInt, beta: ExtInt, maximizing: bool)
    requires depth == 0 || rules.isGameOver(p) || rules.legalMoves(p) == []
    ensures AlphaBetaValue(rules, p, depth, alpha, beta, maximizing) == Fin(Evaluation(rules, p))
    ensures Minimax(rules, p, depth, maximizing) == Evaluation(rules, p)
  {
  }

  // ---------------------------------------------------------------------------------
  // The search on the shared board

  /** `alpha_beta`: searches by pushing each move on the caller's board and popping it
      again, so the board is back in its original state on every return, including the
      cut-off. */
  method AlphaBeta(board: Board, depth: nat, alpha: ExtInt, beta: ExtInt, maximizing: bool)
    returns (r: ExtInt)
    modifies board
    ensures r == AlphaBetaValue(board.rules, old(board.pos), depth, alpha, beta, maximizing)
    ensures board.pos == old(board.pos) && board.stack == old(board.stack)
    decreases depth, 1
  {
    var rules, p := board.rules, board.pos;
    if depth == 0 || rules.isGameOver(p) {
      var e := Evaluate(board);
      return Fin(e);
    }
    var legalMoves := rules.legalMoves(p);
    if |legalMoves| == 0 {
      var e := Evaluate(board);
      return Fin(e);
    }
    if maximizing {
      r := MaxSearch(board, legalMoves, depth, alpha, beta);
    } else {
      r := MinSearch(board, legalMoves, depth, alpha, beta);
    }
  }

  /** The maximizing loop of `alpha_beta` over the legal moves: each move is pushed, the
      position after it searched with the current window, and popped; `max_eval` and
      `alpha` rise, and the loop stops as soon as `beta <= alpha`. */
  method MaxSearch(board: Board, legalMoves: seq<Move>, depth: nat, alpha: ExtInt, beta: ExtInt)
    returns (maxEval: ExtInt)
    requires depth >= 1
    modifies board
    ensures maxEval == MaxLoop(board.rules, old(board.pos), legalMoves, depth, alpha, beta, NegInf)
    ensures board.pos == old(board.pos) && board.stack == old(board.stack)
    decreases depth, 0
  {
    var rules, p := board.rules, board.pos;
    ghost var target := MaxLoop(rules, p, legalMoves, depth, alpha, beta, NegInf);
    var a := alpha;
    maxEval := NegInf;
    var i := 0;
    while i < |legalMoves|
      invariant i <= |legalMoves|
      invariant board.pos == p && board.stack == old(board.stack)
      invariant maxEval != PosInf
      invariant MaxLoop(rules, p, legalMoves[i..], depth, a, beta, maxEval) == target
    {
      assert legalMoves[i..][1..] == legalMoves[i + 1..];
      board.Push(legalMoves[i]);
      var evalScore := AlphaBeta(board, depth - 1, a, beta, false);
      board.Pop();
      maxEval := Max(maxEval, evalScore);
      a := Max(a, evalScore);
      if Le(beta, a) {
        break;
      }
      i := i + 1;
    }
  }

  /** The minimizing loop, symmetric: `min_eval` and `beta` fall. */
  method MinSearch(board: Board, legalMoves: seq<Move>, depth: nat, alpha: ExtInt, beta: ExtInt)
    returns (minEval: ExtInt)
    requires depth >= 1
    modifies board
    ensures minEval == MinLoop(board.rules, old(board.pos), legalMoves, depth, alpha, beta, PosInf)
    ensures board.pos == old(board.pos) && board.stack == old(board.stack)
    decreases depth, 0
  {
    var rules, p := board.rules, board.pos;
    ghost var target := MinLoop(rules, p, legalMoves, depth, alpha, beta, PosInf);
    var b := beta;
    minEval := PosInf;
    var i := 0;
    while i < |legalMoves|
      invariant i <= |legalMoves|
      invariant board.pos == p && board.stack == old(board.stack)
      invariant minEval != NegInf
      invariant MinLoop(rules, p, legalMoves[i..], depth, alpha, b, minEval) == target
    {
      assert legalMoves[i..][1..] == legalMoves[i + 1..];
      board.Push(legalMoves[i]);
      var evalScore := AlphaBeta(board, depth - 1, alpha, b, true);
      board.Pop();
      minEval := Min(minEval, evalScore);
      b := Min(b, evalScore);
      if Le(b, alpha) {
        break;
      }
      i := i + 1;
    }
  }

  // ---------------------------------------------------------------------------------
  // Pruning changes nothing under the full window

  /** The fail-soft guarantee of a search result r for the window (alpha, beta) against
      the true value v: a result at or below alpha bounds v from above, one at or above
      beta bounds it from below, and one strictly inside the window is exact. */
  predicate FailSoft(r: ExtInt, v: ExtInt, alpha: ExtInt, beta: ExtInt) {
    && (Le(r, alpha) ==> Le(v, r))
    && (Le(beta, r) ==> Le(r, v))
    && (Lt(alpha, r) && Lt(r, beta) ==> v == r)
  }

  /** Alpha-beta is fail-soft with respect to minimax for every non-empty window. */
  lemma {:induction false} AlphaBetaFailSoft(rules: Rules, p: Position, depth: nat,
                                             alpha: ExtInt, beta: ExtInt, maximizing: bool)
    requires Lt(alpha, beta)
    ensures FailSoft(AlphaBetaValue(rules, p, depth, alpha, beta, maximizing),
                     Fin(Minimax(rules, p, depth, maximizing)), alpha, beta)
    decreases depth, 1
  {
    if depth == 0 || rules.isGameOver(p) || |rules.legalMoves(p)| == 0 {
    } else if maximizing {
      MaxLoopFailSoft(rules, p, rules.legalMoves(p), depth, alpha, alpha, beta, NegInf, NegInf);
    } else {
      MinLoopFailSoft(rules, p, rules.legalMoves(p), depth, beta, alpha, beta, PosInf, PosInf);
    }
  }

  /** One step of the maximizing loop on values alone: given the child's fail-soft score,
      either the loop cuts off with a result that is still fail-soft, or the raised
      `max_eval` and `alpha` meet the loop lemma's requirements again. */
  lemma MaxStep(a0: ExtInt, alpha: ExtInt, beta: ExtInt, maxEval: ExtInt, searched: ExtInt,
                score: ExtInt, c: ExtInt, rest: ExtInt)
    requires maxEval != PosInf
    requires alpha == Max(a0, maxEval) && Lt(alpha, beta)
    requires Le(searched, maxEval) && (Lt(a0, maxEval) ==> searched == maxEval)
    requires FailSoft(score, c, alpha, beta)
    ensures Le(beta, Max(alpha, score)) ==>
      FailSoft(Max(maxEval, score), Max(searched, Max(c, rest)), a0, beta)
    ensures !Le(beta, Max(alpha, score)) ==>
      && Max(maxEval, score) != PosInf
      && Max(alpha, score) == Max(a0, Max(maxEval, score))
      && Le(Max(searched, c), Max(maxEval, score))
      && (Lt(a0, Max(maxEval, score)) ==> Max(searched, c) == Max(maxEval, score))
      && Max(searched, Max(c, rest)) == Max(Max(searched, c), rest)
  {
  }

  /** One step of the minimizing loop on values alone, symmetric. */
  lemma MinStep(b0: ExtInt, alpha: ExtInt, beta: ExtInt, minEval: ExtInt, searched: ExtInt,
                score: ExtInt, c: ExtInt, rest: ExtInt)
    requires minEval != NegInf
    requires beta == Min(b0, minEval) && Lt(alpha, beta)
    requires Le(minEval, searched) && (Lt(minEval, b0) ==> searched == minEval)
    requires FailSoft(score, c, alpha, beta)
    ensures Le(Min(beta, score), alpha) ==>
      FailSoft(Min(minEval, score), Min(searched, Min(c, rest)), alpha, b0)
    ensures !Le(Min(beta, score), alpha) ==>
      && Min(minEval, score) != NegInf
      && Min(beta, score) == Min(b0, Min(minEval, score))
      && Le(Min(minEval, score), Min(searched, c))
      && (Lt(Min(minEval, score), b0) ==> Min(searched, c) == Min(minEval, score))
      && Min(searched, Min(c, rest)) == Min(Min(searched, c), rest)
  {
  }

  /** The maximizing loop, entered with `alpha` raised from the node's a0 by the scores
      so far, is fail-soft for (a0, beta) against the maximum of the minimax values: those
      of the moves already searched (at most `maxEval`, and equal to it once it exceeds
      a0) and those of the remaining moves. */
  lemma {:induction false} MaxLoopFailSoft(rules: Rules, p: Position, moves: seq<Move>, depth: nat,
                                           a0: ExtInt, alpha: ExtInt, beta: ExtInt,
                                           maxEval: ExtInt, searched: ExtInt)
    requires depth >= 1 && maxEval != PosInf
    requires alpha == Max(a0, maxEval) && Lt(alpha, beta)
    requires Le(searched, maxEval) && (Lt(a0, maxEval) ==> searched == maxEval)
    ensures FailSoft(MaxLoop(rules, p, moves, depth, alpha, beta, maxEval),
                     Max(searched, BestChild(rules, p, moves, depth, true)), a0, beta)
    decreases depth, 0, |moves|
  {
    if moves != [] {
      var child := rules.push(p, moves[0]);
      var score := AlphaBetaValue(rules, child, depth - 1, alpha, beta, false);
      AlphaBetaFailSoft(rules, child, depth - 1, alpha, beta, false);
      var c := Fin(ChildMinimax(rules, p, moves[0], depth, true));
      var maxEval', alpha' := Max(maxEval, score), Max(alpha, score);
      var rest := BestChild(rules, p, moves[1..], depth, true);
      assert BestChild(rules, p, moves, depth, true) == Max(c, rest);
      MaxStep(a0, alpha, beta, maxEval, searched, score, c, rest);
      if !Le(beta, alpha') {
        MaxLoopFailSoft(rules, p, moves[1..], depth, a0, alpha', beta, maxEval', Max(searched, c));
      }
    }
  }

  /** The minimizing loop, symmetric: `beta` lowered from the node's b0. */
  lemma {:induction false} MinLoopFailSoft(rules: Rules, p: Position, moves: seq<Move>, depth: nat,
                                           b0: ExtInt, alpha: ExtInt, beta: ExtInt,
                                           minEval: ExtInt, searched: ExtInt)
    requires depth >= 1 && minEval != NegInf
    requires beta == Min(b0, minEval) && Lt(alpha, beta)
    requires Le(minEval, searched) && (Lt(minEval, b0) ==> searched == minEval)
    ensures FailSoft(MinLoop(rules, p, moves, depth, alpha, beta, minEval),
                     Min(searched, BestChild(rules, p, moves, depth, false)), alpha, b0)
    decreases depth, 0, |moves|
  {
    if moves != [] {
      var child := rules.push(p, moves[0]);
      var score := AlphaBetaValue(rules, child, depth - 1, alpha, beta, true);
      AlphaBetaFailSoft(rules, child, depth - 1, alpha, beta, true);
      var c := Fin(ChildMinimax(rules, p, moves[0], depth, false));
      var minEval', beta' := Min(minEval, score), Min(beta, score);
      var rest := BestChild(rules, p, moves[1..], depth, false);
      assert BestChild(rules, p, moves, depth, false) == Min(c, rest);
      MinStep(b0, alpha, beta, minEval, searched, score, c, rest);
      if !Le(beta', alpha) {
        MinLoopFailSoft(rules, p, moves[1..], depth, b0, alpha, beta', minEval', Min(searched, c));
      }
    }
  }

  /** With the full window (-inf, +inf) alpha-beta returns exactly the minimax value. */
  lemma FullWindowIsMinimax(rules: Rules, p: Position, depth: nat, maximizing: bool)
    ensures AlphaBetaValue(rules, p, depth, NegInf, PosInf, maximizing)
         == Fin(Minimax(rules, p, depth, maximizing))
  {
    AlphaBetaFailSoft(rules, p, depth, NegInf, PosInf, maximizing);
  }
}
