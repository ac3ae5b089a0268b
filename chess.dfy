/** The part of the rules engine's vocabulary that the core inspects:
    pieces, colours, squares, moves and the piece placement of a board. */
module Chess {

  datatype Option<T> = None | Some(value: T)

  datatype Piece = Pawn | Knight | Bishop | Rook | Queen | King

  datatype Color = White | Black

  function Opponent(c: Color): (r: Color)
    ensures r != c
  {
    if c == White then Black else White
  }

  /** A square by its index 0..63; index = rank * 8 + file, a1 = 0, h8 = 63. */
  type Square = i: int | 0 <= i < 64

  function Rank(sq: Square): (r: int)
    ensures 0 <= r < 8
  {
    sq / 8
  }

  function File(sq: Square): (f: int)
    ensures 0 <= f < 8
  {
    sq % 8
  }

  /** A legal move as the rules engine produces it. */
  datatype ChessMove = ChessMove(source: Square, dest: Square, promotion: Option<Piece>)

  datatype ColoredPiece = ColoredPiece(piece: Piece, color: Color)

  /** Piece placement: what stands on each of the 64 squares. */
  type Board = s: seq<Option<ColoredPiece>> | |s| == 64 witness seq(64, _ => None)
}
