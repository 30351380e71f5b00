/** The static evaluator: material plus piece-square bonuses summed over the 64 squares
    with White counted positive and Black negative, then re-expressed for the side to move;
    checkmate, stalemate and insufficient material are scored by fixed sentinels first. */
module Evaluator {

  import opened Wrappers
  import opened ChessRules

  /** PIECE_VALUES, in centipawns. */
  function PieceValue(k: Kind): (v: int)
    ensures 100 <= v <= 20000
  {
    match k
    case Pawn => 100
    case Knight => 320
    case Bishop => 330
    case Rook => 500
    case Queen => 900
    case King => 20000
  }

  const PawnTable: seq<int> := [
     0,  0,  0,  0,  0,  0,  0,  0,
    50, 50, 50, 50, 50, 50, 50, 50,
    10, 10, 20, 30, 30, 20, 10, 10,
     5,  5, 10, 25, 25, 10,  5,  5,
     0,  0,  0, 20, 20,  0,  0,  0,
     5, -5,-10,  0,  0,-10, -5,  5,
     5, 10, 10,-20,-20, 10, 10,  5,
     0,  0,  0,  0,  0,  0,  0,  0
  ]

  const KnightTable: seq<int> := [
    -50,-40,-30,-30,-30,-30,-40,-50,
    -40,-20,  0,  0,  0,  0,-20,-40,
    -30,  0, 10, 15, 15, 10,  0,-30,
    -30,  5, 15, 20, 20, 15,  5,-30,
    -30,  0, 15, 20, 20, 15,  0,-30,
    -30,  5, 10, 15, 15, 10,  5,-30,
    -40,-20,  0,  5,  5,  0,-20,-40,
    -50,-40,-30,-30,-30,-30,-40,-50
  ]

  const KingTable: seq<int> := [
    -30,-40,-40,-50,-50,-40,-40,-30,
    -30,-40,-40,-50,-50,-40,-40,-30,
    -30,-40,-40,-50,-50,-40,-40,-30,
    -30,-40,-40,-50,-50,-40,-40,-30,
    -20,-30,-30,-40,-40,-30,-30,-20,
    -10,-20,-20,-20,-20,-20,-20,-10,
     20, 20,  0,  0,  0,  0, 20, 20,
     20, 30, 10,  0,  0, 10, 30, 20
  ]

  /** PST_TABLES: the White-oriented piece-square table of each kind. Bishops, rooks and
      queens have no table of their own and share the knight's. */
  function Table(k: Kind): (t: seq<int>)
    ensures |t| == 64
    ensures k in {Bishop, Rook, Queen} ==> t == KnightTable
  {
    match k
    case Pawn => PawnTable
    case King => KingTable
    case _ => KnightTable
  }

  /** The library's `square_mirror`: the same file on the opposite rank. */
  function Mirror(sq: Square): (m: Square)
    ensures m / 8 == 7 - sq / 8 && m % 8 == sq % 8
  {
    (7 - sq / 8) * 8 + sq % 8
  }

  /** The library computes the mirror as the square's 6-bit index XOR 0x38. */
  lemma MirrorIsXor56(x: bv6)
    ensures Mirror(x as int) == (x ^ 56) as int
  {
  }

  lemma MirrorInvolution(sq: Square)
    ensures Mirror(Mirror(sq)) == sq
  {
  }

  /** The table index a piece on `sq` looks up: the square itself for White, the mirrored
      square for Black, so both colours read the White-oriented tables from their own side. */
  function PstIndex(pc: Piece, sq: Square): (i: Square)
    ensures pc.color == White ==> i == sq
    ensures pc.color == Black ==> i / 8 == 7 - sq / 8 && i % 8 == sq % 8
  {
    if pc.color == White then sq else Mirror(sq)
  }

  /** A contribution counted with White's sign convention. */
  function Signed(c: Color, x: int): int {
    if c == White then x else -x
  }

  function MaterialAt(b: Placement, sq: Square): int {
    match b[sq]
    case None => 0
    case Some(pc) => Signed(pc.color, PieceValue(pc.kind))
  }

  function PositionalAt(b: Placement, sq: Square): int {
    match b[sq]
    case None => 0
    case Some(pc) => Signed(pc.color, Table(pc.kind)[PstIndex(pc, sq)])
  }

  /** `material` after the scan has visited squares 0 .. n-1. */
  function MaterialSum(b: Placement, n: nat): int
    requires n <= 64
  {
    if n == 0 then 0 else MaterialSum(b, n - 1) + MaterialAt(b, n - 1)
  }

  /** `piece_square_score` after the scan has visited squares 0 .. n-1. */
  function PositionalSum(b: Placement, n: nat): int
    requires n <= 64
  {
    if n == 0 then 0 else PositionalSum(b, n - 1) + PositionalAt(b, n - 1)
  }

  function PartialTotal(b: Placement, n: nat): int
    requires n <= 64
  {
    MaterialSum(b, n) + PositionalSum(b, n)
  }

  /** `total_score`: the White-positive sum over the whole board. */
  function WhiteTotal(b: Placement): int {
    PartialTotal(b, 64)
  }

  /** `evaluate_position`, as a value: the White-centric checkmate sentinel, 0 for stalemate
      or insufficient material, otherwise the total seen from the side to move. */
  function Evaluation(rules: Rules, p: Position): int {
    if rules.isCheckmate(p) then
      (if rules.turn(p) == White then -99999 else 99999)
    else if rules.isStalemate(p) || rules.isInsufficientMaterial(p) then
      0
    else
      Signed(rules.turn(p), WhiteTotal(rules.placement(p)))
  }

  /** The sentinels and the side-relative sign, stated case by case. */
  lemma EvaluationCases(rules: Rules, p: Position)
    ensures rules.isCheckmate(p) && rules.turn(p) == White ==> Evaluation(rules, p) == -99999
    ensures rules.isCheckmate(p) && rules.turn(p) == Black ==> Evaluation(rules, p) == 99999
    ensures !rules.isCheckmate(p) && (rules.isStalemate(p) || rules.isInsufficientMaterial(p)) ==>
      Evaluation(rules, p) == 0
    ensures !rules.isCheckmate(p) && !rules.isStalemate(p) && !rules.isInsufficientMaterial(p) ==>
      Evaluation(rules, p) ==
        (if rules.turn(p) == White then WhiteTotal(rules.placement(p)) else -WhiteTotal(rules.placement(p)))
  {
  }

  /** What one square adds to the two accumulators: nothing when it is empty. */
  lemma ScanStep(b: Placement, sq: Square)
    ensures MaterialSum(b, sq + 1) == MaterialSum(b, sq) + MaterialAt(b, sq)
    ensures PositionalSum(b, sq + 1) == PositionalSum(b, sq) + PositionalAt(b, sq)
    ensures b[sq].None? ==> MaterialAt(b, sq) == 0 && PositionalAt(b, sq) == 0
    ensures b[sq].Some? ==>
      && MaterialAt(b, sq) == Signed(b[sq].value.color, PieceValue(b[sq].value.kind))
      && PositionalAt(b, sq) == Signed(b[sq].value.color, Table(b[sq].value.kind)[PstIndex(b[sq].value, sq)])
  {
  }

  /** The body of the scan for an occupied square: look up the piece's value and its
      table entry (at the mirrored square for Black), then add both for White or subtract
      both for Black. */
  method AddPiece(piece: Piece, sq: Square, material: int, pieceSquareScore: int)
    returns (material': int, pieceSquareScore': int)
    ensures material' == material + Signed(piece.color, PieceValue(piece.kind))
    ensures pieceSquareScore' == pieceSquareScore + Signed(piece.color, Table(piece.kind)[PstIndex(piece, sq)])
  {
    var value := PieceValue(piece.kind);
    var pst := Table(piece.kind);
    var squareIdx := if piece.color == White then sq else Mirror(sq);
    var pstValue := pst[squareIdx];
    if piece.color == White {
      material' := material + value;
      pieceSquareScore' := pieceSquareScore + pstValue;
    } else {
      material' := material - value;
      pieceSquareScore' := pieceSquareScore - pstValue;
    }
  }

  /** The scan of `evaluate_position(board)`: two accumulators over the 64 squares, the
      material and the piece-square bonuses, each positive for White and negative for Black. */
  method ScanPlacement(b: Placement) returns (material: int, pieceSquareScore: int)
    ensures material == MaterialSum(b, 64)
    ensures pieceSquareScore == PositionalSum(b, 64)
  {
    material, pieceSquareScore := 0, 0;
    for sq := 0 to 64
      invariant material == MaterialSum(b, sq)
      invariant pieceSquareScore == PositionalSum(b, sq)
    {
      ScanStep(b, sq);
      if b[sq].None? {
        continue;
      }
      material, pieceSquareScore := AddPiece(b[sq].value, sq, material, pieceSquareScore);
    }
  }

  /** `evaluate_position(board)`: the terminal cases first, then the scan's total seen from
      the side to move. */
  method Evaluate(board: Board) returns (score: int)
    ensures score == Evaluation(board.rules, board.pos)
  {
    var rules, p := board.rules, board.pos;
    if rules.isCheckmate(p) {
      return if rules.turn(p) == White then -99999 else 99999;
    }
    if rules.isStalemate(p) || rules.isInsufficientMaterial(p) {
      return 0;
    }
    var material, pieceSquareScore := ScanPlacement(rules.placement(p));
    var totalScore := material + pieceSquareScore;
    return if rules.turn(p) == White then totalScore else -totalScore;
  }

  // ---------------------------------------------------------------------------------
  // Colour symmetry

  function SwapColor(sq: Option<Piece>): Option<Piece> {
    match sq
    case None => None
    case Some(pc) => Some(Piece(pc.kind, if pc.color == White then Black else White))
  }

  /** The board turned upside down with every piece changing colour. */
  function Flip(b: Placement): (f: Placement)
    ensures forall sq: Square :: f[sq] == SwapColor(b[Mirror(sq)])
  {
    seq(64, (sq: int) requires 0 <= sq < 64 => SwapColor(b[Mirror(sq)]))
  }

  /** One square of the flipped board contributes the negation of its mirror square. */
  lemma FlipSquare(b: Placement, sq: Square)
    ensures MaterialAt(Flip(b), sq) == -MaterialAt(b, Mirror(sq))
    ensures PositionalAt(Flip(b), sq) == -PositionalAt(b, Mirror(sq))
  {
    MirrorInvolution(sq);
  }

  /** The square on file f of rank r mirrors to file f of rank 7 - r. */
  lemma MirrorOnRank(r: nat, f: nat, sq: Square, m: Square)
    requires r < 8 && f < 8 && sq == 8 * r + f && m == 8 * (7 - r) + f
    ensures Mirror(sq) == m
  {
  }

  /** The square on file f of rank r of the flipped board contributes the negation of the
      square on file f of rank 7 - r. */
  lemma FlipOnRank(b: Placement, r: nat, f: nat, sq: Square, m: Square)
    requires r < 8 && f < 8 && sq == 8 * r + f && m == 8 * (7 - r) + f
    ensures MaterialAt(Flip(b), sq) + PositionalAt(Flip(b), sq)
         == -(MaterialAt(b, m) + PositionalAt(b, m))
  {
    MirrorOnRank(r, f, sq, m);
    FlipSquare(b, sq);
  }

  /** Scanning one more square adds its material and its bonus. */
  lemma PartialTotalStep(b: Placement, n: nat, next: nat)
    requires n < 64 && next == n + 1
    ensures PartialTotal(b, next) == PartialTotal(b, n) + MaterialAt(b, n) + PositionalAt(b, n)
  {
  }

  /** The squares lo .. lo+f-1 of the flipped board sum to the negation of the squares
      hi .. hi+f-1 of the original, where hi is the start of the rank mirroring lo's. */
  lemma {:induction false} FlipRank(b: Placement, r: nat, lo: nat, hi: nat, f: nat)
    requires r < 8 && lo == 8 * r && hi == 8 * (7 - r) && f <= 8
    ensures PartialTotal(Flip(b), lo + f) - PartialTotal(Flip(b), lo)
         == -(PartialTotal(b, hi + f) - PartialTotal(b, hi))
  {
    if f > 0 {
      FlipRank(b, r, lo, hi, f - 1);
      FlipOnRank(b, r, f - 1, lo + (f - 1), hi + (f - 1));
      PartialTotalStep(Flip(b), lo + (f - 1), lo + f);
      PartialTotalStep(b, hi + (f - 1), hi + f);
    }
  }

  /** Swapping every piece's colour and mirroring the board negates the White total. */
  lemma FlipNegatesTotal(b: Placement)
    ensures WhiteTotal(Flip(b)) == -WhiteTotal(b)
  {
    FlipRank(b, 0, 0, 56, 8); FlipRank(b, 1, 8, 48, 8); FlipRank(b, 2, 16, 40, 8);
    FlipRank(b, 3, 24, 32, 8); FlipRank(b, 4, 32, 24, 8); FlipRank(b, 5, 40, 16, 8);
    FlipRank(b, 6, 48, 8, 8); FlipRank(b, 7, 56, 0, 8);
  }

  /** Hence, for two non-terminal positions with the same side to move whose placements
      are each other's flips, the evaluator returns opposite scores. */
  lemma FlipNegatesEvaluation(rules: Rules, p: Position, q: Position)
    requires !rules.isCheckmate(p) && !rules.isStalemate(p) && !rules.isInsufficientMaterial(p)
    requires !rules.isCheckmate(q) && !rules.isStalemate(q) && !rules.isInsufficientMaterial(q)
    requires rules.turn(q) == rules.turn(p)
    requires rules.placement(q) == Flip(rules.placement(p))
    ensures Evaluation(rules, q) == -Evaluation(rules, p)
  {
    FlipNegatesTotal(rules.placement(p));
  }

  /** A placement that is its own flip is balanced. */
  lemma SymmetricPlacementBalanced(b: Placement)
    requires Flip(b) == b
    ensures WhiteTotal(b) == 0
  {
    FlipNegatesTotal(b);
  }

  function BackRankKind(file: int): Kind {
    if file == 0 || file == 7 then Rook
    else if file == 1 || file == 6 then Knight
    else if file == 2 || file == 5 then Bishop
    else if file == 3 then Queen
    else King
  }

  function StartSquare(sq: Square): Option<Piece> {
    var rank, file := sq / 8, sq % 8;
    if rank == 0 then Some(Piece(BackRankKind(file), White))
    else if rank == 1 then Some(Piece(Pawn, White))
    else if rank == 6 then Some(Piece(Pawn, Black))
    else if rank == 7 then Some(Piece(BackRankKind(file), Black))
    else None
  }

  /** The standard initial placement. */
  const StartPlacement: Placement := seq(64, (sq: int) requires 0 <= sq < 64 => StartSquare(sq))

  /** Each square of the initial placement holds its mirror square's piece in the other colour. */
  lemma StartSquareFlipped(sq: Square)
    ensures Flip(StartPlacement)[sq] == StartPlacement[sq]
  {
    var m := Mirror(sq);
    assert StartPlacement[m] == StartSquare(m);
    assert StartPlacement[sq] == StartSquare(sq);
  }

  /** The initial placement is its own flip. */
  lemma StartPlacementSymmetric()
    ensures Flip(StartPlacement) == StartPlacement
  {
    forall sq: Square ensures Flip(StartPlacement)[sq] == StartPlacement[sq] {
      StartSquareFlipped(sq);
    }
  }

  /** The placement is the standard one: the White king starts on e1, the Black queen on d8. */
  lemma StartPlacementSquares()
    ensures StartPlacement[4] == Some(Piece(King, White)) && StartPlacement[59] == Some(Piece(Queen, Black))
  {
  }

  /** The initial placement scores 0: each side's material and bonuses cancel. */
  lemma StartPlacementBalanced()
    ensures WhiteTotal(StartPlacement) == 0
  {
    StartPlacementSymmetric();
    SymmetricPlacementBalanced(StartPlacement);
  }
}
