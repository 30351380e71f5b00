/** What the two root move selectors share: the time budget checked before each root
    move, the score a root move receives, and the choice of the first best score. */
module RootSelection {

  import opened ChessRules
  import opened ExtInt
  import opened Search

  /** The wall clock as a sequence of readings: reading 0 is `start_time`, reading i + 1
      is the one taken by the time check before root move i. */
  predicate TimeUp(clock: nat -> real, timeLimit: real, i: nat) {
    clock(i + 1) - clock(0) > timeLimit
  }

  /** How many of n root moves get searched: those before the first failed time check. */
  function EvaluatedCount(clock: nat -> real, timeLimit: real, n: nat): (k: nat)
    ensures k <= n
    ensures forall i :: 0 <= i < k ==> !TimeUp(clock, timeLimit, i)
    ensures k < n ==> TimeUp(clock, timeLimit, k)
  {
    if n == 0 then 0
    else
      var k := EvaluatedCount(clock, timeLimit, n - 1);
      if k < n - 1 then k
      else if TimeUp(clock, timeLimit, n - 1) then n - 1
      else n
  }

  /** The loop stopped at i exactly when i is the evaluated count. */
  lemma EvaluatedCountIs(clock: nat -> real, timeLimit: real, n: nat, i: nat)
    requires i <= n
    requires forall j :: 0 <= j < i ==> !TimeUp(clock, timeLimit, j)
    requires i < n ==> TimeUp(clock, timeLimit, i)
    ensures EvaluatedCount(clock, timeLimit, n) == i
  {
  }

  /** The score of a root move: a full-window search of the position after it, one ply
      shallower, maximizing exactly when Black is to move after the move. */
  function RootScore(rules: Rules, p: Position, m: Move, depth: nat): int
    requires depth >= 1
  {
    var child := rules.push(p, m);
    AlphaBetaValue(rules, child, depth - 1, NegInf, PosInf, rules.turn(child) == Black).n
  }

  /** One probe of the root loop: push the move, search the position after it with the
      full window, pop the move again. */
  method ProbeRootMove(board: Board, m: Move, depth: nat) returns (score: int)
    requires depth >= 1
    modifies board
    ensures score == RootScore(board.rules, old(board.pos), m, depth)
    ensures board.pos == old(board.pos) && board.stack == old(board.stack)
  {
    board.Push(m);
    var r := AlphaBeta(board, depth - 1, NegInf, PosInf, board.rules.turn(board.pos) == Black);
    board.Pop();
    score := r.n;
  }

  /** The root score is the plain minimax value of the position after the move. */
  lemma RootScoreIsMinimax(rules: Rules, p: Position, m: Move, depth: nat)
    requires depth >= 1
    ensures RootScore(rules, p, m, depth)
         == Minimax(rules, rules.push(p, m), depth - 1, rules.turn(rules.push(p, m)) == Black)
  {
    var child := rules.push(p, m);
    FullWindowIsMinimax(rules, child, depth - 1, rules.turn(child) == Black);
  }

  function RootScores(rules: Rules, p: Position, moves: seq<Move>, depth: nat): (s: seq<int>)
    requires depth >= 1
    ensures |s| == |moves|
    ensures forall i :: 0 <= i < |moves| ==> s[i] == RootScore(rules, p, moves[i], depth)
  {
    seq(|moves|, i requires 0 <= i < |moves| => RootScore(rules, p, moves[i], depth))
  }

  lemma RootScoresAppend(rules: Rules, p: Position, moves: seq<Move>, m: Move, depth: nat)
    requires depth >= 1
    ensures RootScores(rules, p, moves + [m], depth) == RootScores(rules, p, moves, depth) + [RootScore(rules, p, m, depth)]
  {
  }

  /** x is strictly better than y for the side to move at the root: higher for White,
      lower for Black. */
  predicate Beats(white: bool, x: int, y: int) {
    if white then x > y else x < y
  }

  /** i is the first best score: nothing beats it and it beats everything before it. */
  predicate IsFirstBest(scores: seq<int>, i: nat, white: bool) {
    && i < |scores|
    && (forall j :: 0 <= j < |scores| ==> !Beats(white, scores[j], scores[i]))
    && (forall j :: 0 <= j < i ==> Beats(white, scores[i], scores[j]))
  }

  /** `max(move_scores, key=...)` for White and `min(...)` for Black, both of which keep
      the first of equal scores, as an index. */
  function FirstBest(scores: seq<int>, white: bool): (i: nat)
    requires |scores| > 0
    ensures IsFirstBest(scores, i, white)
  {
    if |scores| == 1 then 0
    else
      var j := FirstBest(scores[..|scores| - 1], white);
      if Beats(white, scores[|scores| - 1], scores[j]) then |scores| - 1 else j
  }

  /** The first best index is determined by the scores alone. */
  lemma FirstBestUnique(scores: seq<int>, i: nat, j: nat, white: bool)
    requires IsFirstBest(scores, i, white) && IsFirstBest(scores, j, white)
    ensures i == j
  {
    var si, sj := scores[i], scores[j];
  }

  /** Appending one score keeps the first best where it is unless the new score beats it,
      in which case the new score is the first best: the update `find_best_move` makes
      after each probe. */
  lemma FirstBestAppend(scores: seq<int>, b: nat, x: int, white: bool)
    requires IsFirstBest(scores, b, white)
    ensures IsFirstBest(scores + [x], if Beats(white, x, scores[b]) then |scores| else b, white)
  {
  }

  /** The running best of the protocol selector: starting from the worst infinity for the
      side to move, replacing it only on a strictly better score keeps the first best. */
  lemma SeededFirstBestAppend(scores: seq<int>, b: nat, best: ExtInt, x: int, white: bool)
    requires |scores| == 0 ==> best == (if white then NegInf else PosInf)
    requires |scores| > 0 ==> IsFirstBest(scores, b, white) && best == Fin(scores[b])
    ensures var better := if white then Lt(best, Fin(x)) else Lt(Fin(x), best);
            IsFirstBest(scores + [x], if better then |scores| else b, white)
  {
    if |scores| > 0 {
      FirstBestAppend(scores, b, x, white);
    }
  }
}
