/** The protocol engine's root move selector: it searches the caller's live board and
    keeps the first strictly best score seen, starting from the worst infinity for the
    side to move, so it answers "no move" when no root move was searched in time. */
module EngineUci {

  import opened Wrappers
  import opened ChessRules
  import opened ExtInt
  import opened Search
  import opened RootSelection

  /** `find_best_move(board, depth, time_limit)` on the live board. */
  method FindBestMove(board: Board, depth: nat, timeLimit: real, clock: nat -> real)
    returns (best: Option<Move>)
    requires depth >= 1
    modifies board
    ensures board.pos == old(board.pos) && board.stack == old(board.stack)
    ensures best.Some? ==> best.value in board.rules.legalMoves(board.pos)
    ensures var moves := board.rules.legalMoves(board.pos);
            var k := EvaluatedCount(clock, timeLimit, |moves|);
            best == if k == 0 then None
                    else Some(moves[FirstBest(RootScores(board.rules, board.pos, moves[..k], depth),
                                              board.rules.turn(board.pos) == White)])
  {
    ghost var p := board.pos;
    var white := board.rules.turn(board.pos) == White;
    var bestMove: Option<Move> := None;
    var bestScore := if white then NegInf else PosInf;
    var legalMoves := board.rules.legalMoves(board.pos);
    if |legalMoves| == 0 {
      return None;
    }
    ghost var scores: seq<int> := [];
    ghost var bestIdx: nat := 0;
    var i := 0;
    while i < |legalMoves|
      invariant i <= |legalMoves|
      invariant board.pos == p && board.stack == old(board.stack)
      invariant forall j :: 0 <= j < i ==> !TimeUp(clock, timeLimit, j)
      invariant scores == RootScores(board.rules, p, legalMoves[..i], depth)
      invariant i == 0 ==> bestMove == None && bestScore == if white then NegInf else PosInf
      invariant i > 0 ==> IsFirstBest(scores, bestIdx, white)
      invariant i > 0 ==> bestMove == Some(legalMoves[bestIdx]) && bestScore == Fin(scores[bestIdx])
    {
      if TimeUp(clock, timeLimit, i) {
        break;
      }
      var score := ProbeRootMove(board, legalMoves[i], depth);
      RootScoresAppend(board.rules, p, legalMoves[..i], legalMoves[i], depth);
      assert legalMoves[..i] + [legalMoves[i]] == legalMoves[..i + 1];
      SeededFirstBestAppend(scores, bestIdx, bestScore, score, white);
      scores := scores + [score];
      if board.rules.turn(board.pos) == White {
        if Lt(bestScore, Fin(score)) {
          bestScore := Fin(score);
          bestMove := Some(legalMoves[i]);
          bestIdx := i;
        }
      } else {
        if Lt(Fin(score), bestScore) {
          bestScore := Fin(score);
          bestMove := Some(legalMoves[i]);
          bestIdx := i;
        }
      }
      i := i + 1;
    }
    EvaluatedCountIs(clock, timeLimit, |legalMoves|, i);
    if i > 0 {
      FirstBestUnique(scores, bestIdx, FirstBest(scores, white), white);
    }
    return bestMove;
  }
}
