/** The console engine's root move selector: it searches a copy of the caller's board,
    falls back to the first legal move when the time budget is gone before any move is
    searched, and checks the chosen move against the caller's board before returning it. */
module EngineV3 {

  import opened Wrappers
  import opened ChessRules
  import opened ExtInt
  import opened Search
  import opened RootSelection

  /** `find_best_move(board, depth, time_limit)`. The caller's board is only read (the
      method has no modifies clause); the search runs on a fresh copy. */
  method FindBestMove(board: Board, depth: nat, timeLimit: real, clock: nat -> real)
    returns (best: Option<Move>)
    requires depth >= 1
    ensures best.None? <==> board.rules.legalMoves(board.pos) == []
    ensures best.Some? ==> best.value in board.rules.legalMoves(board.pos)
    ensures var moves := board.rules.legalMoves(board.pos);
            var k := EvaluatedCount(clock, timeLimit, |moves|);
            moves != [] && k == 0 ==> best == Some(moves[0])
    ensures var moves := board.rules.legalMoves(board.pos);
            var k := EvaluatedCount(clock, timeLimit, |moves|);
            k > 0 ==> best == Some(moves[FirstBest(RootScores(board.rules, board.pos, moves[..k], depth),
                                                   board.rules.turn(board.pos) == White)])
  {
    var searchBoard := board.Copy();
    var legalMoves := searchBoard.rules.legalMoves(searchBoard.pos);
    assert legalMoves == board.rules.legalMoves(board.pos);
    if |legalMoves| == 0 {
      return None;
    }
    var fallback := if |legalMoves| > 0 then Some(legalMoves[0]) else None;
    // the scores of `move_scores`; the moves are legalMoves[..|moveScores|]
    var moveScores: seq<int> := [];
    var i := 0;
    while i < |legalMoves|
      invariant i <= |legalMoves|
      invariant searchBoard.rules == board.rules
      invariant searchBoard.pos == board.pos && searchBoard.stack == board.stack
      invariant forall j :: 0 <= j < i ==> !TimeUp(clock, timeLimit, j)
      invariant moveScores == RootScores(board.rules, board.pos, legalMoves[..i], depth)
    {
      if TimeUp(clock, timeLimit, i) {
        break;
      }
      var score := ProbeRootMove(searchBoard, legalMoves[i], depth);
      moveScores := moveScores + [score];
      i := i + 1;
    }
    EvaluatedCountIs(clock, timeLimit, |legalMoves|, i);
    if |moveScores| == 0 {
      return fallback;
    }
    var bestIdx := FirstBest(moveScores, board.rules.turn(board.pos) == White);
    var bestMove := legalMoves[bestIdx];
    if bestMove !in board.rules.legalMoves(board.pos) {
      return fallback;
    }
    return Some(bestMove);
  }
}
