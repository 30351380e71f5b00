/** The part of the chess rules library the engine uses, kept abstract: positions and moves
    are opaque, and what the engine asks of a position (its legal moves, the position after
    a move, whose turn it is, which piece stands on each square, whether it is checkmate,
    stalemate, insufficient material or otherwise game over) is a `Rules` value whose
    functions are arbitrary. Every result proved about the engine holds for every such
    `Rules`, so nothing depends on how move generation works. */
module ChessRules {

  import opened Wrappers

  datatype Color = White | Black

  datatype Kind = Pawn | Knight | Bishop | Rook | Queen | King

  datatype Piece = Piece(kind: Kind, color: Color)

  /** Squares are numbered a1 = 0, b1 = 1, ..., h8 = 63: file + 8 * rank. */
  type Square = s: int | 0 <= s < 64

  /** What stands on each of the 64 squares. */
  type Placement = b: seq<Option<Piece>> | |b| == 64 witness seq(64, _ => None)

  /** A position of the rules library (pieces, side to move, castling and en-passant
      rights, clocks, repetition history). */
  type Position

  /** A move of the rules library; moves can be compared for equality. */
  type Move(==)

  datatype Rules = Rules(
    legalMoves: Position -> seq<Move>,
    push: (Position, Move) -> Position,
    turn: Position -> Color,
    placement: Position -> Placement,
    isCheckmate: Position -> bool,
    isStalemate: Position -> bool,
    isInsufficientMaterial: Position -> bool,
    isGameOver: Position -> bool)

  /** The library's mutable board: the current position plus the stack of positions
      that `Pop` returns to, one per pushed move. */
  class Board {
    const rules: Rules
    var pos: Position
    var stack: seq<Position>

    constructor (rules: Rules, pos: Position, stack: seq<Position>)
      ensures this.rules == rules && this.pos == pos && this.stack == stack
    {
      this.rules := rules;
      this.pos := pos;
      this.stack := stack;
    }

    /** `board.push(move)`: play the move, remembering the position before it. */
    method Push(m: Move)
      modifies this
      ensures pos == rules.push(old(pos), m)
      ensures stack == old(stack) + [old(pos)]
    {
      stack := stack + [pos];
      pos := rules.push(pos, m);
    }

    /** `board.pop()`: take back the most recent move. */
    method Pop()
      requires |stack| > 0
      modifies this
      ensures pos == old(stack)[|old(stack)| - 1]
      ensures stack == old(stack)[..|old(stack)| - 1]
    {
      pos := stack[|stack| - 1];
      stack := stack[..|stack| - 1];
    }

    /** `board.copy()`: a new board in the same state; this one is not touched. */
    method Copy() returns (c: Board)
      ensures fresh(c)
      ensures c.rules == rules && c.pos == pos && c.stack == stack
    {
      c := new Board(rules, pos, stack);
    }
  }
}
