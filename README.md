# Chess engine search core in Dafny

A model of the move-picking core of a small chess engine with two front ends. The first is a
console game (`chess_engine_v3.py`). The second speaks the UCI engine protocol
(`chessEngine_uci.py`). Both carry the same three parts:

- **Static evaluator** (`evaluate_position`). It scans the 64 squares. Each piece adds its
  material value plus a piece-square bonus, positive for White and negative for Black. Black
  pieces read the White-oriented tables at the mirrored square. The sum is then negated when
  Black is to move. Checkmate returns -99999 with White to move and +99999 with Black to move.
  Stalemate and insufficient material return 0.
- **Alpha-beta search** (`alpha_beta`). A depth-bounded, fail-soft minimax with alpha-beta
  cut-offs. It pushes and pops moves on the caller's board.
- **Root move selector** (`find_best_move`). It searches the root moves in order until a time
  check fails, then picks the first move with the best score. The console variant searches a
  copy of the board. When no move got searched it falls back to the first legal move, and it
  re-checks the chosen move against the caller's board. The protocol variant searches the live
  board, keeps the first strictly better score starting from an infinite seed, and answers
  "no move" when nothing got searched.

The protocol variant's handling of the `position` command's tokens is modelled as well.

The chess rules come from an external library and are abstract here. `ChessRules` declares
opaque `Position` and `Move` types and a `Rules` value of arbitrary functions: legal moves,
the position after a move, the side to move, the placement of the pieces, checkmate,
stalemate, insufficient material and game over. Everything proved holds for every `Rules`.
The library's mutable board is the class `ChessRules.Board`. It holds the current position
and a stack of earlier positions, so that restoration after `push`/`pop` can be stated as
equality of positions.

Files and modules:

- `chess_rules.dfy` (`ChessRules`): pieces, squares, placements, the abstract rules and the board class.
- `ext_int.dfy` (`ExtInt`): integers with -inf and +inf, standing in for `float('±inf')`.
- `evaluation.dfy` (`Evaluator`): the tables, `Evaluation` (the evaluator as a function),
  the `Evaluate` method with the 64-square loop, and the colour-symmetry lemmas.
- `search.dfy` (`Search`): `Minimax` (the unpruned reference), `AlphaBetaValue` (the pruning
  search as a function), the `AlphaBeta` method on the board with its two loops
  (`MaxSearch` and `MinSearch`), and the fail-soft proof.
- `root_selection.dfy` (`RootSelection`): what both root selectors share, namely the time
  checks, the push/search/pop probe of one root move and its score, and the first-best choice.
- `engine_v3.dfy` (`EngineV3`) and `engine_uci.dfy` (`EngineUci`): the selectors of
  `chess_engine_v3.py` and `chessEngine_uci.py`.
- `uci_position.dfy` (`UciPosition`): token slicing of `position`, as written and repaired.
- `wrappers.dfy` (`Wrappers`): `Option` and `Result`.

Lines 60-119 of `chessEngine_uci.py` (evaluator and search) behave identically to lines
60-118 of `chess_engine_v3.py`; the only difference is that the checkmate branch is an
`if`/`else` with two returns there. They are modelled once and cited by the latter.

Two places where the code does not agree with itself are reproduced exactly as written:

- The evaluator's own documentation (chess_engine_v3.py:61) reads scores as positive when
  White is better. The checkmate sentinel at line 63 follows that reading: a mated Black side
  to move scores +99999. The return at line 86 does not, because it negates the total
  whenever Black is to move.
- When the time budget runs out before the first root move, the console selector falls back
  to the first legal move (chess_engine_v3.py:142-144). The protocol selector returns
  `best_move` (chessEngine_uci.py:145), which is still `None` at that point.

## Model

| member | source | states |
|---|---|---|
| `Evaluator.PieceValue` | chess_engine_v3.py:5-12 | every piece kind is worth between 100 (pawn) and 20000 (king) centipawns |
| `Evaluator.Table` | chess_engine_v3.py:37-39 | each piece-square table has 64 entries; bishops, rooks and queens use the knight table |
| `Evaluator.Mirror` | chess_engine_v3.py:76 | the mirrored square lies on the opposite rank (7 - rank) in the same file |
| `Evaluator.MirrorIsXor56` | chess_engine_v3.py:76 | for every 6-bit square index, the mirror equals the index XOR 0x38, the library's `square_mirror` |
| `Evaluator.MirrorInvolution` | chess_engine_v3.py:76 | mirroring twice gives back the square |
| `Evaluator.PstIndex` | chess_engine_v3.py:76-77 | a White piece reads the table at its own square, a Black piece at the mirrored square |
| `Evaluator.EvaluationCases` | chess_engine_v3.py:62-86 | checkmate scores -99999 with White to move and +99999 with Black to move; otherwise stalemate or insufficient material scores 0; otherwise the score is the White total with White to move and its negation with Black to move |
| `Evaluator.AddPiece` | chess_engine_v3.py:74-83 | an occupied square adds its piece's value and its table entry (own square for White, mirrored for Black) to the two accumulators for White and subtracts them for Black |
| `Evaluator.ScanPlacement` | chess_engine_v3.py:67-83 | the 64-square loop with its `material` and `piece_square_score` accumulators ends with the material sum and the piece-square sum of the whole placement |
| `Evaluator.Evaluate` | chess_engine_v3.py:60-86 | the method returns exactly `Evaluation` of the board's position: the sentinels first, then the scan's total seen from the side to move |
| `Evaluator.FlipSquare` | chess_engine_v3.py:74-83 | on the colour-swapped, mirrored board each square contributes the negation of its mirror square's material and bonus |
| `Evaluator.FlipRank` | chess_engine_v3.py:70-83 | the partial sums along one rank of the flipped board negate those along the mirrored rank |
| `Evaluator.FlipNegatesTotal` | chess_engine_v3.py:70-85 | swapping every piece's colour and mirroring the board negates the White total |
| `Evaluator.FlipNegatesEvaluation` | chess_engine_v3.py:85-86 | two non-terminal positions with the same side to move and flipped placements evaluate to opposite scores |
| `Evaluator.SymmetricPlacementBalanced` | chess_engine_v3.py:70-85 | a placement that is its own flip has White total 0 |
| `Evaluator.StartPlacementBalanced` | chess_engine_v3.py:70-85 | the standard initial placement (White king on e1, Black queen on d8, by `StartPlacementSquares`) has White total 0 |
| `ExtInt.Max` | chess_engine_v3.py:103-104 | `max` returns one of its arguments and bounds both from above, infinities included |
| `ExtInt.Min` | chess_engine_v3.py:114-115 | `min` returns one of its arguments and bounds both from below, infinities included |
| `ChessRules.Board.Push` | chess_engine_v3.py:100 | pushing plays the move on the position and stacks the position before it |
| `ChessRules.Board.Pop` | chess_engine_v3.py:102 | popping restores the most recently stacked position and unstacks it |
| `ChessRules.Board.Copy` | chess_engine_v3.py:123 | the copy is a new board in the same state |
| `Search.BestChild` | chess_engine_v3.py:97-118 | the unpruned reference: the value of a non-leaf is the maximum (or minimum) of the children's minimax values, attained by some child and bounding all of them; infinite with no moves |
| `Search.AlphaBetaValue` | chess_engine_v3.py:88-118 | the search result is always a finite integer, never an infinity |
| `Search.MaxLoop` | chess_engine_v3.py:97-107 | the maximizing loop returns a finite score once a move is searched |
| `Search.MinLoop` | chess_engine_v3.py:108-118 | the minimizing loop returns a finite score once a move is searched |
| `Search.SearchLeaves` | chess_engine_v3.py:90-95 | at depth 0, at game over or with no legal moves, both searches return the evaluation of the position |
| `Search.AlphaBeta` | chess_engine_v3.py:88-118 | the method on the shared board returns `AlphaBetaValue` of the position it was called on, and leaves the board's position and stack exactly as it found them on every exit; it terminates because depth decreases |
| `Search.MaxSearch` | chess_engine_v3.py:97-107 | the maximizing loop, with push, search and pop per move and the `beta <= alpha` break, returns `MaxLoop` from -inf and restores the board, the cut-off included |
| `Search.MinSearch` | chess_engine_v3.py:108-118 | the minimizing loop returns `MinLoop` from +inf and restores the board, the cut-off included |
| `Search.AlphaBetaFailSoft` | chess_engine_v3.py:88-118 | for any window alpha < beta the result is fail-soft against minimax: at or below alpha it bounds the true value from above, at or above beta from below, strictly inside it is exact |
| `Search.MaxLoopFailSoft` | chess_engine_v3.py:97-107 | the maximizing loop, with alpha raised by the scores seen so far, stays fail-soft against the maximum of all children's minimax values |
| `Search.MinLoopFailSoft` | chess_engine_v3.py:108-118 | the minimizing loop, with beta lowered, stays fail-soft against the minimum of all children's values |
| `Search.FullWindowIsMinimax` | chess_engine_v3.py:88-118 | with the window (-inf, +inf), alpha-beta returns exactly the minimax value |
| `RootSelection.EvaluatedCount` | chess_engine_v3.py:132-135 | the searched root moves are a prefix: exactly those before the first failed time check |
| `RootSelection.EvaluatedCountIs` | chess_engine_v3.py:132-135 | a loop that stopped at the first failed check, or at the end, stopped at the evaluated count |
| `RootSelection.ProbeRootMove` | chess_engine_v3.py:136-138 | pushing a root move, searching with the full window and popping gives the move's root score and leaves the board's position and stack as they were |
| `RootSelection.RootScoreIsMinimax` | chessEngine_uci.py:133-135 | a root move scores the minimax value of the position after it, one ply shallower, maximizing exactly when Black is to move after the move |
| `RootSelection.FirstBest` | chess_engine_v3.py:146-149 | `max`/`min` by score picks a best score for the side to move that beats every earlier score, so ties keep the first-seen move |
| `RootSelection.FirstBestUnique` | chess_engine_v3.py:146-149 | the first best index is determined by the scores |
| `RootSelection.FirstBestAppend` | chessEngine_uci.py:136-143 | a newly searched move becomes the first best exactly when its score strictly beats the current best |
| `RootSelection.SeededFirstBestAppend` | chessEngine_uci.py:124-143 | starting from -inf for White or +inf for Black and replacing the best only on a strictly better score, the first searched move becomes the best and afterwards the first best is kept |
| `EngineV3.FindBestMove` | chess_engine_v3.py:120-157 | no move exactly when there are no legal moves; any move returned is one of the caller's legal moves; the first legal move when no root move was searched in time; otherwise the first best-scoring move among the searched prefix; the caller's board is not modified |
| `EngineUci.FindBestMove` | chessEngine_uci.py:121-145 | the live board's position and stack are restored; no move when there are no legal moves or none was searched in time; otherwise the first best-scoring move among the searched prefix, always one of the legal moves |
| `UciPosition.SliceBound` | chessEngine_uci.py:169 | a Python slice bound lands in [0, n] and counts a negative bound from the end |
| `UciPosition.Slice` | chessEngine_uci.py:169 | Python's `parts[start:stop]` for in-range and negative stops, and empty when the bounds cross (as `parts[2:-1]` on a two-token list) |
| `UciPosition.IndexOf` | chessEngine_uci.py:169-172 | `"moves" in parts` and `parts.index("moves")`: absent exactly when not in the list, otherwise the first occurrence |
| `UciPosition.ParsePosition` | chessEngine_uci.py:160-174 | the branch as written fails with an index error exactly when there are fewer than two tokens or a `startpos` has fewer than three, and leaves the board unchanged exactly when the second token is neither `startpos` nor `fen` |
| `UciPosition.ParsePositionFixed` | chessEngine_uci.py:160-174 | the repaired branch fails only with fewer than two tokens, reads a bare `position startpos` as the start position without moves, and leaves the board unchanged for any other second token |
| `UciPosition.IndexOfAfter` | chessEngine_uci.py:169-172 | the first `moves` after a prefix without one is found right after that prefix |
| `UciPosition.StartposMovesReplayed` | chessEngine_uci.py:162-167 | `position startpos moves m1 ... mk` replays exactly m1 ... mk |
| `UciPosition.FenBetweenFenAndMoves` | chessEngine_uci.py:168-174 | with `moves`, the FEN is the tokens strictly between `fen` and `moves` and the replayed moves are the tokens after `moves` |
| `UciPosition.FenWithoutMovesDropsLast` | chessEngine_uci.py:169 | without `moves`, the slice ends at -1 and the last token is left out of the FEN |
| `UciPosition.BareStartposFails` | chessEngine_uci.py:164 | a bare `position startpos` fails with an index error |
| `UciPosition.FenOnlyRoundTrip` | chessEngine_uci.py:168-170 | with the repair, `position fen f1 ... fn` without `moves` gives the whole FEN back |
| `UciPosition.FenMovesRoundTrip` | chessEngine_uci.py:168-174 | with the repair, `position fen ... moves ...` gives the FEN and the moves back |
| `UciPosition.ParseFormatRoundTrip` | chessEngine_uci.py:160-174 | with the two repairs, parsing the command formatted for any describable setup gives the setup back |

## Left out

- The rules library: legal-move generation, the checkmate, stalemate, insufficient-material
  and game-over tests, `push`/`pop`/`copy` internals, `parse_san`, `push_uci`, `uci()`,
  `san()` and FEN parsing. These are calls into code outside the engine. They are abstract
  functions of `ChessRules.Rules`, and the board's stack holds positions, not moves.
- `time.time()`: it becomes the `clock` parameter of the selectors, a sequence of readings.
  Only the consequence that a prefix of the root moves is searched is stated.
- `play_game` (chess_engine_v3.py:159-200) and the input/output of `uci_loop`
  (chessEngine_uci.py:147-182): prompts, printing, identification lines and `bestmove`
  output. This is console and protocol plumbing. Only the token slicing of `position` is kept.
- `line.split()`: the `position` model starts from the list of tokens.
- Building the board from the FEN and replaying the move tokens are library calls (`chess.Board(fen)`,
  `push_uci`); malformed FENs or moves, which raise there, are outside the model.
- The diagnostic `print` calls inside `find_best_move`.
- Floating point: `float('±inf')` is only a sentinel and becomes `ExtInt`.
- EngineV3.FindBestMove: requires depth >= 1. Both callers pass 3 or 5. With depth 0 the
  source would search at depth -1, which never reaches the depth-0 leaf test.
- EngineUci.FindBestMove: requires depth >= 1, for the same reason.
- ChessRules.Board.Pop: requires a non-empty stack. The library raises on an empty stack, and
  the engine only pops what it pushed.

## Findings

| source | as written | input that shows it | evidently intended | confidence | as-written member | corrected member |
|---|---|---|---|---|---|---|
| chessEngine_uci.py:164 | `parts[2]` is read before checking that a third token exists | `position startpos`, the usual command for the initial position without moves | the start position with no moves to replay | not executed; high | `UciPosition.BareStartposFails` | `UciPosition.ParseFormatRoundTrip` |
| chessEngine_uci.py:169 | without `moves` the FEN slice ends at index -1 | `position fen 4k3/8/8/8/8/8/8/4K3 w - - 0 40` gives a FEN without its full-move number `40` | the FEN runs to the last token | not executed; medium | `UciPosition.FenWithoutMovesDropsLast` | `UciPosition.ParseFormatRoundTrip` |

`UciPosition.ParsePositionFixed` is the repaired definition. The round-trip lemma is proved
for it, and it is the version a caller of the model should use.
