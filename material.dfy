/** The material and piece-square evaluation of
    src/evaluations/material_evaluations.rs. Values are integer hundredths of
    a pawn; every decimal constant of the source, as written, is a multiple of
    0.05 pawn, so the scaling of the written constants is exact. Their f32
    representation and rounding are not modelled. */
module Material {
  import opened Chess

  /** `base_piece_value_in_pawns`, in hundredths. */
  function PieceValue(piece: Piece): (v: int)
    ensures 0 <= v <= 900
    ensures v == 0 <==> piece == King
  {
    match piece
    case Pawn => 100
    case Knight => 300
    case Bishop => 320
    case Rook => 500
    case Queen => 900
    case King => 0
  }

  /** An 8x8 bonus table indexed by rank index, then file index, with every
      entry between 0 and 1.5 pawns. */
  predicate WellFormedTable(t: seq<seq<int>>) {
    && |t| == 8
    && forall r :: 0 <= r < 8 ==> |t[r]| == 8 && forall f :: 0 <= f < 8 ==> 0 <= t[r][f] <= 150
  }

  const PawnMap: seq<seq<int>> := [
    [50, 50, 50, 50, 50, 50, 50, 50],
    [0, 0, 0, 0, 0, 0, 0, 0],
    [0, 50, 0, 0, 0, 0, 50, 0],
    [0, 0, 10, 20, 20, 0, 0, 0],
    [0, 0, 0, 20, 20, 10, 0, 0],
    [0, 50, 0, 0, 0, 0, 50, 0],
    [0, 0, 0, 0, 0, 0, 0, 0],
    [50, 50, 50, 50, 50, 50, 50, 50]
  ]

  const KnightMap: seq<seq<int>> := [
    [0, 0, 0, 0, 0, 0, 0, 0],
    [0, 0, 0, 0, 0, 0, 0, 0],
    [0, 0, 0, 25, 0, 25, 0, 0],
    [0, 0, 0, 0, 0, 0, 0, 0],
    [0, 0, 25, 0, 25, 0, 25, 0],
    [0, 0, 0, 0, 0, 0, 0, 0],
    [0, 0, 0, 0, 0, 0, 0, 0],
    [0, 0, 0, 0, 0, 0, 0, 0]
  ]

  const BishopMap: seq<seq<int>> := [
    [0, 0, 0, 0, 0, 0, 0, 0],
    [0, 50, 0, 0, 0, 0, 50, 0],
    [0, 0, 0, 0, 0, 0, 0, 0],
    [0, 0, 50, 0, 0, 50, 0, 0],
    [0, 0, 50, 0, 0, 50, 0, 0],
    [0, 0, 0, 0, 0, 0, 0, 0],
    [0, 50, 0, 0, 0, 0, 50, 0],
    [0, 0, 0, 0, 0, 0, 0, 0]
  ]

  const KingMap: seq<seq<int>> := [
    [0, 100, 100, 0, 0, 0, 150, 0],
    [0, 0, 0, 0, 0, 0, 0, 0],
    [0, 0, 0, 0, 0, 0, 0, 0],
    [0, 0, 0, 0, 0, 0, 0, 0],
    [0, 0, 0, 0, 0, 0, 0, 0],
    [0, 0, 0, 0, 0, 0, 0, 0],
    [0, 0, 0, 0, 0, 0, 0, 0],
    [0, 100, 100, 0, 0, 0, 150, 0]
  ]

  /** The four bonus tables are 8x8 with entries in [0, 150]. */
  lemma TablesWellFormed()
    ensures WellFormedTable(PawnMap) && WellFormedTable(KnightMap)
    ensures WellFormedTable(BishopMap) && WellFormedTable(KingMap)
  {
  }

  /** `get_map_bonus`: the table entry at the square's own rank and file,
      whatever the colour of the piece; rooks and queens have no table. */
  function MapBonus(piece: Piece, sq: Square): (b: int)
    ensures 0 <= b <= 150
    ensures piece == Rook || piece == Queen ==> b == 0
  {
    match piece
    case Pawn => PawnMap[Rank(sq)][File(sq)]
    case Knight => KnightMap[Rank(sq)][File(sq)]
    case Bishop => BishopMap[Rank(sq)][File(sq)]
    case King => KingMap[Rank(sq)][File(sq)]
    case _ => 0
  }

  /** What one piece on `sq` is worth to its side. */
  function PieceScore(piece: Piece, sq: Square): (v: int)
    ensures 0 <= v <= 1050
  {
    PieceValue(piece) + MapBonus(piece, sq)
  }

  /** What the piece on one square adds to `color`'s total. */
  function Share(cell: Option<ColoredPiece>, color: Color, sq: Square): (v: int)
    ensures v >= 0
    ensures v > 0 ==> cell.Some? && cell.value.color == color
  {
    match cell
    case Some(cp) => if cp.color == color then PieceScore(cp.piece, sq) else 0
    case None => 0
  }

  /** The total of `color`'s pieces on the squares below `n`. */
  function SideMaterial(board: Board, color: Color, n: nat): (total: int)
    requires n <= 64
    ensures total >= 0
  {
    if n == 0 then 0 else SideMaterial(board, color, n - 1) + Share(board[n - 1], color, n - 1)
  }

  /** One square's signed share of the advantage: plus the piece's score for
      White, minus it for Black, nothing for an empty square. */
  function Contribution(cell: Option<ColoredPiece>, sq: Square): (c: int)
    ensures cell == None ==> c == 0
    ensures cell.Some? && cell.value.color == White ==> 0 <= c
    ensures cell.Some? && cell.value.color == Black ==> c <= 0
    ensures cell.Some? ==> (if c < 0 then -c else c) == PieceScore(cell.value.piece, sq)
  {
    match cell
    case None => 0
    case Some(cp) => if cp.color == White then PieceScore(cp.piece, sq) else -PieceScore(cp.piece, sq)
  }

  /** The reference sum of the signed contributions of the squares below `n`. */
  function SignedSum(board: Board, n: nat): int
    requires n <= 64
  {
    if n == 0 then 0 else SignedSum(board, n - 1) + Contribution(board[n - 1], n - 1)
  }

  /** `get_board_material_for_color`: one pass over the 64 squares adding
      each piece's score to its own side's total. */
  method BoardMaterial(board: Board) returns (white: int, black: int)
    ensures white == SideMaterial(board, White, 64)
    ensures black == SideMaterial(board, Black, 64)
  {
    white, black := 0, 0;
    for sq := 0 to 64
      invariant white == SideMaterial(board, White, sq)
      invariant black == SideMaterial(board, Black, sq)
    {
      match board[sq] {
        case Some(cp) =>
          if cp.color == White {
            white := white + PieceScore(cp.piece, sq);
          } else {
            black := black + PieceScore(cp.piece, sq);
          }
        case None =>
      }
    }
  }

  /** `get_color_material_advantage`: White's total minus Black's, which is
      the sum of the signed contributions of all 64 squares. */
  method MaterialAdvantage(board: Board) returns (adv: int)
    ensures adv == SignedSum(board, 64)
  {
    var white, black := BoardMaterial(board);
    adv := white - black;
    SignedSumSplits(board, 64);
  }

  /** One square's signed share is its White share minus its Black share. */
  lemma ShareSplit(cell: Option<ColoredPiece>, sq: Square)
    ensures Contribution(cell, sq) == Share(cell, White, sq) - Share(cell, Black, sq)
  {
  }

  /** The signed sum is White's material minus Black's. */
  lemma {:induction false} SignedSumSplits(board: Board, n: nat)
    requires n <= 64
    ensures SignedSum(board, n) == SideMaterial(board, White, n) - SideMaterial(board, Black, n)
  {
    if n > 0 {
      SignedSumSplits(board, n - 1);
      ShareSplit(board[n - 1], n - 1);
    }
  }

  /** The same square with its piece handed to the other side. */
  function SwapCell(cell: Option<ColoredPiece>): (swapped: Option<ColoredPiece>)
    ensures swapped == None <==> cell == None
    ensures cell.Some? ==> swapped.value.piece == cell.value.piece && swapped.value.color != cell.value.color
  {
    match cell
    case Some(cp) => Some(ColoredPiece(cp.piece, Opponent(cp.color)))
    case None => None
  }

  /** The board with every piece handed to the other side, squares unchanged. */
  function SwapColors(board: Board): (swapped: Board)
    ensures forall sq :: 0 <= sq < 64 ==> swapped[sq] == SwapCell(board[sq])
  {
    seq(64, i requires 0 <= i < 64 => SwapCell(board[i]))
  }

  /** Swapping colours exchanges the two sides' totals. */
  lemma {:induction false} SideMaterialSwap(board: Board, color: Color, n: nat)
    requires n <= 64
    ensures SideMaterial(SwapColors(board), color, n) == SideMaterial(board, Opponent(color), n)
  {
    if n > 0 {
      SideMaterialSwap(board, color, n - 1);
      ShareSwap(board[n - 1], color, n - 1);
    }
  }

  lemma ShareSwap(cell: Option<ColoredPiece>, color: Color, sq: Square)
    ensures Share(SwapCell(cell), color, sq) == Share(cell, Opponent(color), sq)
  {
  }

  /** The advantage is antisymmetric: swapping the colours of all pieces
      negates it. */
  lemma AdvantageAntisymmetric(board: Board)
    ensures SignedSum(SwapColors(board), 64) == -SignedSum(board, 64)
  {
    SignedSumSplits(board, 64);
    SignedSumSplits(SwapColors(board), 64);
    SideMaterialSwap(board, White, 64);
    SideMaterialSwap(board, Black, 64);
  }

  /** Each square is counted once: changing what stands on one square changes
      the advantage by exactly that square's change in contribution. */
  lemma {:induction false} SignedSumUpdate(board: Board, sq: Square, cell: Option<ColoredPiece>, n: nat)
    requires n <= 64
    ensures SignedSum(board[sq := cell], n) ==
      SignedSum(board, n) + (if sq < n then Contribution(cell, sq) - Contribution(board[sq], sq) else 0)
  {
    if n > 0 {
      SignedSumUpdate(board, sq, cell, n - 1);
      var updated := board[sq := cell];
      assert SignedSum(updated, n) == SignedSum(updated, n - 1) + Contribution(updated[n - 1], n - 1);
      assert SignedSum(board, n) == SignedSum(board, n - 1) + Contribution(board[n - 1], n - 1);
      if n - 1 == sq {
        assert updated[n - 1] == cell;
      } else {
        assert updated[n - 1] == board[n - 1];
      }
    }
  }

  /** The bonus does not depend on colour and the table is not mirrored for
      Black: a White knight on d3 earns a bonus, a Black knight on d6 (the
      same square seen from Black's side) earns none, and a Black knight on
      d3 earns the same bonus as the White one. */
  lemma NoMirroring()
    ensures Contribution(Some(ColoredPiece(Knight, White)), 19) == 325
    ensures Contribution(Some(ColoredPiece(Knight, Black)), 43) == -300
    ensures Contribution(Some(ColoredPiece(Knight, Black)), 19) == -325
  {
  }

  /** The piece that starts on file `f` of a back rank. */
  function BackRankPiece(f: int): Piece
  {
    if f == 0 || f == 7 then Rook
    else if f == 1 || f == 6 then Knight
    else if f == 2 || f == 5 then Bishop
    else if f == 3 then Queen
    else King
  }

  /** What stands on `sq` in the standard starting position. */
  function StartCell(sq: Square): Option<ColoredPiece>
  {
    var r := Rank(sq);
    if r == 0 then Some(ColoredPiece(BackRankPiece(File(sq)), White))
    else if r == 1 then Some(ColoredPiece(Pawn, White))
    else if r == 6 then Some(ColoredPiece(Pawn, Black))
    else if r == 7 then Some(ColoredPiece(BackRankPiece(File(sq)), Black))
    else None
  }

  /** The standard starting position. */
  function StartBoard(): Board
  {
    seq(64, sq requires 0 <= sq < 64 => StartCell(sq))
  }

  /** The material of the first `k` pieces of a back rank, from the a-file. */
  function BackRankValue(k: nat): (v: int)
    requires k <= 8
    ensures k == 8 ==> v == 3140
  {
    if k == 0 then 0 else BackRankValue(k - 1) + PieceValue(BackRankPiece(k - 1))
  }

  /** No back-rank piece earns a bonus on its home square, for either side. */
  lemma BackRankNoBonus(f: int)
    requires 0 <= f < 8
    ensures MapBonus(BackRankPiece(f), f) == 0 && MapBonus(BackRankPiece(f), 56 + f) == 0
  {
  }

  /** Each back-rank square of the starting position contributes exactly its
      piece's material: plus for White on rank 1, minus for Black on rank 8. */
  lemma BackSquares(f: int)
    requires 0 <= f < 8
    ensures Contribution(StartBoard()[f], f) == PieceValue(BackRankPiece(f))
    ensures Contribution(StartBoard()[56 + f], 56 + f) == -PieceValue(BackRankPiece(f))
  {
    BackRankNoBonus(f);
    assert Rank(f) == 0 && File(f) == f;
    assert Rank(56 + f) == 7 && File(56 + f) == f;
    assert StartBoard()[f] == StartCell(f);
    assert StartBoard()[56 + f] == StartCell(56 + f);
  }

  /** Each pawn of the starting position is worth exactly a pawn: its home
      square carries no bonus. */
  lemma PawnSquares(f: int)
    requires 0 <= f < 8
    ensures Contribution(StartBoard()[8 + f], 8 + f) == 100
    ensures Contribution(StartBoard()[48 + f], 48 + f) == -100
  {
    assert Rank(8 + f) == 1 && Rank(48 + f) == 6;
    assert StartBoard()[8 + f] == StartCell(8 + f);
    assert StartBoard()[48 + f] == StartCell(48 + f);
  }

  /** White's back rank adds its pieces' material and no bonus. */
  lemma {:induction false} StartWhiteBackRank(n: nat)
    requires n <= 8
    ensures SignedSum(StartBoard(), n) == BackRankValue(n)
  {
    if n > 0 {
      StartWhiteBackRank(n - 1);
      BackSquares(n - 1);
    }
  }

  /** White's pawns on rank 2 add a pawn each and no bonus. */
  lemma {:induction false} StartWhitePawns(n: nat)
    requires 8 <= n <= 16
    ensures SignedSum(StartBoard(), n) == 3140 + 100 * (n - 8)
  {
    if n == 8 {
      StartWhiteBackRank(8);
    } else {
      StartWhitePawns(n - 1);
      PawnSquares(n - 9);
    }
  }

  /** Ranks 3 to 6 are empty and add nothing. */
  lemma {:induction false} StartMiddle(n: nat)
    requires 16 <= n <= 48
    ensures SignedSum(StartBoard(), n) == 3940
  {
    if n == 16 {
      StartWhitePawns(16);
    } else {
      StartMiddle(n - 1);
      assert 2 <= Rank(n - 1) < 6;
    }
  }

  /** Black's pawns on rank 7 take a pawn each away again. */
  lemma {:induction false} StartBlackPawns(n: nat)
    requires 48 <= n <= 56
    ensures SignedSum(StartBoard(), n) == 3940 - 100 * (n - 48)
  {
    if n == 48 {
      StartMiddle(48);
    } else {
      StartBlackPawns(n - 1);
      PawnSquares(n - 49);
    }
  }

  /** Black's back rank takes its pieces' material away again. */
  lemma {:induction false} StartBlackBackRank(n: nat)
    requires 56 <= n <= 64
    ensures SignedSum(StartBoard(), n) == 3140 - BackRankValue(n - 56)
  {
    if n == 56 {
      StartBlackPawns(56);
    } else {
      StartBlackBackRank(n - 1);
      BackSquares(n - 57);
    }
  }

  /** The starting position is level: both sides have the same material and
      every home square's bonus is 0. */
  lemma StartingPositionLevel()
    ensures SignedSum(StartBoard(), 64) == 0
  {
    StartBlackBackRank(64);
  }
}
