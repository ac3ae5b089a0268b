# rust-chess search core in Dafny

This project models the adversarial-search core of the rust-chess self-play engine and proves properties of the model. The core has four parts:

- **Negamax with fail-soft alpha-beta pruning** (`Evaluator::negamax` in `src/evaluate.rs`).
  - The rules engine is a finite game tree (`GameTree.Position`): each position has a status and, in generation order, its legal moves with the positions they lead to.
  - Scores are extended integers (`Scores.Score`: −∞, finite, +∞) in hundredths of a pawn.
  - `GameTree.Value` is plain negamax without pruning, the reference.
  - `GameTree.AlphaBeta` is the pruned search written as a function. Its `examined` field records the negated child scores the search looked at, each tied to its child's search by `NegamaxSpec.AlphaBetaExamined`.
  - `Evaluator.Negamax` is the imperative search: a method with the source's loop, `break` and recursion. It is proved equal to `AlphaBeta`, and hence fail-soft with respect to `Value`.
- **MVV-LVA move ordering** (`order_moves` in `src/evaluations/search.rs`), in module `Ordering`.
  - The method `Ordering.OrderMoves` pushes each legal move onto one of three buckets in one loop: captures, non-capturing checks, quiet moves.
  - It then sorts the captures and concatenates the buckets.
  - The lemmas are about the function `Ordering.Ordered` that the method is proved to compute.
- **Material and piece-square evaluation** (`src/evaluations/material_evaluations.rs`), in module `Material`.
  - Piece values and the four bonus tables are scaled to hundredths, so pawn = 100, bishop = 320, and the largest bonus is 150.
  - The method `Material.BoardMaterial` is the per-colour accumulation loop over the 64 squares.
  - `Material.MaterialAdvantage` is White's total minus Black's.
- **PGN transcript** (`src/pgn.rs`), in module `Pgn`.
  - It covers the result marker, the seven-tag header, and the movetext loop (`Pgn.PgnBody`).
  - Moves are opaque strings. The printed text is the value of `Pgn.Transcript`.

The source keeps the components apart, and so does the model:
- `negamax` walks the legal moves in generation order and calls neither move-ordering function.
- The stub `heuristic` does not call the material evaluation.
- `Evaluator::order_moves` in `src/evaluate.rs` is the identity on the legal moves (`Evaluator.OrderMoves`).

Two behaviours of the search follow directly from the code:
- A position with exactly one legal move need not return it. The test `score > best_score` at `src/evaluate.rs:63` is strict, and the best score starts at −∞. A single move whose negated score is −∞ (the opponent mates at once) never beats it, so the search returns −∞ and no move. `NegamaxSpec.ForcedLossYieldsNoMove` exhibits this.
- There is no leaf counter. The caller at `src/main.rs:76-83` passes `negamax` an extra argument and reads back a third result, a leaf counter. The function at `src/evaluate.rs:28-35` takes neither and returns a pair. The model follows `src/evaluate.rs`.

The piece-square tables are looked up by the square's own rank and file for both colours, with no mirroring for Black. This is kept as observed behaviour, and `Material.NoMirroring` pins it down.

## Model

| member | source | states |
|---|---|---|
| Scores.Neg | src/evaluate.rs:61 | negation swaps −∞ and +∞ and negates finite scores |
| Scores.Max | src/evaluate.rs:68 | `alpha.max(score)` is an upper bound of both arguments and equal to one of them |
| Scores.SeqMaxIsMaximum | src/evaluate.rs:63-66 | the running best score bounds every score examined |
| Scores.FailSoftNegated | src/evaluate.rs:60-61 | a fail-soft child result for window (−β, −α), once negated, is fail-soft for (α, β) from the parent's side |
| Scores.SandwichFailSoft | src/evaluate.rs:51-74 | a score between the exact value and the exact value raised to alpha is fail-soft for any non-empty window |
| GameTree.Heuristic | src/evaluate.rs:12-18 | the stub scores every position 0; with it every negamax value is −∞, 0 or +∞ (`NegamaxSpec.ValueIsMateOrZero`) |
| GameTree.LeafScore | src/evaluate.rs:44-48 | the depth-0 score is finite: the heuristic for White and its negation for Black |
| GameTree.AlphaBeta | src/evaluate.rs:28-75 | the search as a function, which `Evaluator.Negamax` is proved to equal; its lemmas state the fail-soft bounds against plain negamax, exactness for the full window (`NegamaxSpec.AlphaBetaFailSoft`), the terminal cases (`NegamaxSpec.AlphaBetaUnexpanded`) and the prefix, maximum and first-best-move facts (`NegamaxSpec.AlphaBetaExpanded`) |
| GameTree.Scan | src/evaluate.rs:51-74 | the move loop as a function, which the method's loop invariant ties to `AlphaBeta`; from a state meeting the loop invariants it ends fail-soft with the first best move (`NegamaxSpec.ScanWindow`) and with the prefix and maximum facts (`NegamaxSpec.ScanPrefix`) |
| Evaluator.OrderMoves | src/evaluate.rs:20-24 | `Evaluator::order_moves` returns the legal moves unchanged, in generation order |
| Evaluator.Negamax | src/evaluate.rs:28-75 | the method's score and move are those of the pruned search `AlphaBeta`; for α < β the score is fail-soft against plain negamax, and with the full window it equals plain negamax |
| NegamaxSpec.AlphaBetaFailSoft | src/evaluate.rs:28-75 | fail-soft bounds: result ≤ α when the exact value is ≤ α, ≥ β when it is ≥ β, exact in between; the full window gives exactly plain negamax |
| NegamaxSpec.AlphaBetaExpanded | src/evaluate.rs:51-74 | on expansion: the window property and the first strictly best move; the examined children form a prefix of the legal moves cut short only just after alpha reaches beta; the score is the maximum examined; no move exactly when the score is −∞; a returned move is the first examined child reaching the score |
| NegamaxSpec.AlphaBetaExamined | src/evaluate.rs:57-72 | the examined scores belong to a prefix of the legal moves, and the k-th is the negated result of searching the k-th move's position one ply deeper with the opposite colour and the window (−β, −max(α, best of the scores before it)); with `AlphaBetaExpanded`, a returned move's score is its child's negated score |
| NegamaxSpec.AlphaBetaNoMove | src/evaluate.rs:53-66 | a search that returns no move saw every examined child's search score +∞ |
| NegamaxSpec.ScanExamined | src/evaluate.rs:57-72 | from a state whose running alpha is alpha raised to the scores so far, the rest of the scan keeps each examined score tied to its child's search |
| NegamaxSpec.AlphaBetaUnexpanded | src/evaluate.rs:36-49 | an unexpanded node returns no move and examines nothing; checkmate gives −∞ and stalemate 0 at every depth (status is checked before depth); an ongoing node at depth 0 gives the colour-oriented heuristic |
| NegamaxSpec.ValueIsMateOrZero | src/evaluate.rs:12-18 | with the stub heuristic every negamax value is −∞, 0 or +∞ |
| NegamaxSpec.BestOfIsMaximum | src/evaluate.rs:63-66 | plain negamax at an expanded node is the maximum of the negated child values, reached by some child, −∞ with no children |
| NegamaxSpec.ForcedLossYieldsNoMove | src/evaluate.rs:51-66 | a node whose only move is answered by mate returns −∞ and no move |
| NegamaxSpec.DepthOneTakesFirstMove | src/evaluate.rs:44-66 | at depth 1 with all replies ongoing, the full-window search scores 0 and returns the first legal move |
| NegamaxSpec.ScanWindow | src/evaluate.rs:57-72 | a scan of the remaining moves, started in a state meeting the loop invariants, ends with a fail-soft score and the first best move |
| NegamaxSpec.ScanPrefix | src/evaluate.rs:57-72 | a scan started in a state meeting the bookkeeping invariant ends with the prefix, maximum and first-best-move facts |
| NegamaxSpec.LoopStep | src/evaluate.rs:58-71 | one iteration (child search, strict update of the best move, alpha raise, cutoff test) preserves the loop invariants or, on cutoff, establishes the result |
| Material.PieceValue | src/evaluations/material_evaluations.rs:4-13 | base values in hundredths lie in [0, 900], and only the king is worth 0 |
| Material.TablesWellFormed | src/evaluations/material_evaluations.rs:37-79 | each of the four bonus tables is 8×8 with entries in [0, 150] |
| Material.MapBonus | src/evaluations/material_evaluations.rs:81-92 | a bonus lies in [0, 150], and rooks and queens get 0 |
| Material.PieceScore | src/evaluations/material_evaluations.rs:22-24 | value plus bonus lies in [0, 1050] |
| Material.Share | src/evaluations/material_evaluations.rs:20-26 | a square adds to a side's total only when it holds a piece of that side |
| Material.Contribution | src/evaluations/material_evaluations.rs:20-26 | an empty square contributes 0; White pieces contribute +(value + bonus) and Black pieces −(value + bonus) |
| Material.BoardMaterial | src/evaluations/material_evaluations.rs:15-30 | the loop's two totals are the sums of each side's piece scores over all 64 squares |
| Material.MaterialAdvantage | src/evaluations/material_evaluations.rs:32-35 | the advantage is the sum over the 64 squares of each square's signed contribution |
| Material.SignedSumSplits | src/evaluations/material_evaluations.rs:32-35 | the sum of signed contributions is White's total minus Black's |
| Material.SideMaterialSwap | src/evaluations/material_evaluations.rs:15-30 | after swapping every piece's colour, a side's total is the other side's former total |
| Material.AdvantageAntisymmetric | src/evaluations/material_evaluations.rs:15-35 | swapping the colours of all pieces, squares unchanged, negates the advantage |
| Material.SignedSumUpdate | src/evaluations/material_evaluations.rs:19-28 | each square is counted once: changing one square changes the advantage by exactly that square's change in contribution |
| Material.NoMirroring | src/evaluations/material_evaluations.rs:81-92 | the bonus is looked up by the square's own rank and file for both colours: a Black knight on d3 earns the White d3 bonus and one on d6 earns none |
| Material.BackRankNoBonus | src/evaluations/material_evaluations.rs:37-79 | no back-rank piece has a bonus on its home square, on either side |
| Material.StartBoard | src/util.rs:1 | the placement of the standard starting position; each back-rank square contributes exactly its piece's value, plus for White and minus for Black, and each pawn exactly a pawn, so the signed sum is 0 (`Material.StartingPositionLevel`) |
| Material.StartingPositionLevel | src/util.rs:1 | the standard starting position has advantage exactly 0 |
| Ordering.MvvLva | src/evaluations/search.rs:15-18 | the capture score is ten times the victim's value minus the attacker's, in [−900, 9000] |
| Ordering.IsCapture | src/evaluations/search.rs:12 | a move is a capture exactly when its destination holds a piece; the capture bucket holds exactly those moves (`Ordering.CaptureBucket`, `Ordering.CaptureBucketComplete`) and the other two buckets none of them (`Ordering.NonCaptures`) |
| Ordering.CaptureBucket | src/evaluations/search.rs:12-19 | every bucket entry is a capture (destination occupied) carrying its own MVV-LVA score |
| Ordering.NonCaptures | src/evaluations/search.rs:20-27 | every entry of the checks bucket is a non-capture that gives check, and every entry of the quiet bucket a non-capture that does not |
| Ordering.OrderMoves | src/evaluations/search.rs:6-37 | the method computes `Ordered` and returns a permutation of the legal moves |
| Ordering.BucketsPartition | src/evaluations/search.rs:11-28 | every legal move lands in exactly one of the three buckets |
| Ordering.CaptureBucketComplete | src/evaluations/search.rs:12-19 | every capture among the legal moves is in the capture bucket with its score |
| Ordering.SortByScore | src/evaluations/search.rs:30 | the sort keeps the length; it is a permutation (`Ordering.SortPermutation`), in non-increasing score order (`Ordering.SortDescending`) and stable (`Ordering.SortStable`) |
| Ordering.SortPermutation | src/evaluations/search.rs:30 | the sort of the captures is a permutation |
| Ordering.SortDescending | src/evaluations/search.rs:30 | the sorted captures are in non-increasing score order |
| Ordering.SortStable | src/evaluations/search.rs:30 | the sort is stable: captures of equal score keep their relative order |
| Ordering.Ordered | src/evaluations/search.rs:6-37 | the sorted captures, then the checks, then the quiet moves; `Ordering.OrderMoves` is proved to compute it, and its lemmas state the permutation, layout, order and stability facts below |
| Ordering.OrderedIsPermutation | src/evaluations/search.rs:11-36 | the result has each legal move exactly as often as the input, and the same length |
| Ordering.OrderedLayout | src/evaluations/search.rs:30-34 | all captures come first, in non-increasing MVV-LVA order, and no capture comes after them |
| Ordering.OrderedTail | src/evaluations/search.rs:21-34 | after the captures come the checks and then the quiet moves, each exactly in generation order |
| Ordering.CapturesStable | src/evaluations/search.rs:30 | among the returned captures, those of equal score appear in generation order |
| Ordering.FirstIsBestCapture | src/evaluations/search.rs:30-31 | if any capture exists, the first move returned is a capture whose score is maximal among all captures |
| Pgn.ResultTag | src/pgn.rs:5-11 | "1-0" exactly for a White checkmate, "0-1" exactly for a Black checkmate, "1/2-1/2" for every other result and for no result |
| Pgn.Header | src/pgn.rs:13-19 | the seven tag lines and an empty line; `Pgn.HeaderIsSevenTagRoster` states the tag names, their order and the result tag |
| Pgn.HeaderIsSevenTagRoster | src/pgn.rs:13-19 | the header holds the tags Event, Site, Date, Round, White, Black, Result in that order; the last carries the result marker and is followed by an empty line |
| Pgn.NatToString | src/pgn.rs:24-25 | the move number is written as decimal digits without a leading zero |
| Pgn.NatToStringRoundTrip | src/pgn.rs:24-25 | reading the written move number back gives the number |
| Pgn.Entry | src/pgn.rs:22-33 | what one iteration appends; `Pgn.PgnBody` proves the loop's three appends add exactly it |
| Pgn.MoveText | src/pgn.rs:21-33 | the text after the loop; `Pgn.MoveTextPrefix` states it only grows, `Pgn.MoveNumberCount`, `Pgn.SpaceCount` and `Pgn.PairNewlineCount` count its markers, spaces and newlines |
| Pgn.Body | src/pgn.rs:21-39 | the body that `Pgn.PgnBody` builds; it starts with "1. " (`Pgn.BodyStartsWithFirstMove`), ends with the result marker (`Pgn.BodyEndsWithTag`) and has ⌈n/2⌉ newlines besides the marker's (`Pgn.BodyNewlines`) |
| Pgn.PgnBody | src/pgn.rs:21-39 | the loop builds `Body`, and for no moves the body is the result marker alone |
| Pgn.MoveNumberCount | src/pgn.rs:22-26 | n moves get ⌈n/2⌉ move-number markers |
| Pgn.SpaceCount | src/pgn.rs:28 | every move is preceded by exactly one space |
| Pgn.PairNewlineCount | src/pgn.rs:30-32 | a newline follows each completed pair of moves |
| Pgn.BodyNewlines | src/pgn.rs:30-37 | with the extra newline after an odd move count, the body has ⌈n/2⌉ newlines besides any in the marker |
| Pgn.BodyEndsWithTag | src/pgn.rs:35-39 | the body ends with the result marker, on a line of its own when there are moves; an empty game's body is just the marker |
| Pgn.BodyStartsWithFirstMove | src/pgn.rs:22-28 | a non-empty body begins with "1. " |
| Pgn.MoveTextPrefix | src/pgn.rs:21-33 | the loop only appends: the text for the first i moves is a prefix of the text for all of them |
| Pgn.Transcript | src/pgn.rs:3-41 | everything `print_pgn` prints; `Pgn.TranscriptShape` states that it starts with the header and ends with the marker and a newline |
| Pgn.TranscriptShape | src/pgn.rs:13-41 | the printed transcript starts with the header and ends with the header's result marker and a newline |

## Left out

- f32 arithmetic. Scores and material are integers in hundredths of a pawn. The decimal constants as written are multiples of 0.05, so scaling them is exact. Their f32 representations are not: 0.1, 0.2 and 3.2, for example, are not representable exactly. Neither those representations nor the f32 rounding of the sums are modelled. NaN cannot arise, and `partial_cmp(..).unwrap()` cannot panic on finite scores.
- The `chess` crate, a foreign library. The model replaces it as follows:
  - A position's status and legal moves: the game-tree datatype.
  - `make_move_new`: a successor.
  - `piece_on`/`color_on`: a 64-square placement (`Chess.Board`).
  - "the move gives check" (`make_move_new` plus `checkers`): the parameter `givesCheck`.
  - Move generation itself is not modelled.
- `Ordering.OrderMoves`: requires that every capture's source square holds a piece (`Ordering.SourcesOccupied`). The capture branch at `src/evaluations/search.rs:12-13` unwraps the attacker and would panic otherwise; non-captures never look at their source. The rules engine only generates moves of a piece that is on the board.
- `Ordering.SortByScore`: the standard library's in-place stable sort is modelled by its result, as a stable insertion sort on a sequence. Its algorithm and in-place update are not modelled.
- `Evaluator.Negamax`: `depth` is an unbounded natural number, where the source uses `usize`. The terminal-case results (checkmate, stalemate, depth 0) are proved about the function the method equals, in `NegamaxSpec.AlphaBetaUnexpanded`.
- `Evaluator::new` and the unit struct `Evaluator` carry no state. The heuristic stub is `GameTree.Heuristic`, which returns 0.
- `println!` in `src/pgn.rs`. The printed lines are returned as one string. `ChessMove`'s `Display` text is an opaque string.
- Pgn count lemmas: they assume that a move's text has no dot, space or newline (`Pgn.PlainMove`), which holds for the square-name notation.
- `src/main.rs` and `src/util.rs` are not part of this model: CLI parsing, the self-play loop, draw declaration and terminal output. The only exception is the standard starting position (`src/util.rs:1`), written out as `Material.StartBoard`.
