/** The search engine of src/evaluate.rs (`Evaluator`): negamax with
    fail-soft alpha-beta pruning over the game tree `GameTree.Position`. */
module Evaluator {
  import opened Chess
  import opened Scores
  import opened GameTree
  import opened NegamaxSpec

  /** `Evaluator::order_moves`: the legal moves in generation order. */
  function OrderMoves(p: Position): (ms: seq<ChessMove>)
    ensures |ms| == |p.successors|
    ensures forall i :: 0 <= i < |ms| ==> ms[i] == p.successors[i].mv
  {
    seq(|p.successors|, i requires 0 <= i < |p.successors| => p.successors[i].mv)
  }

  /** `Evaluator::negamax`: the fail-soft score of `p` from the point of
      view of `color` and the move that reached it, computed by the search
      that AlphaBeta describes. */
  method Negamax(p: Position, depth: nat, alpha: Score, beta: Score, color: Color)
    returns (score: Score, bestMove: Option<ChessMove>)
    decreases depth
    ensures score == AlphaBeta(p, depth, alpha, beta, color).score
    ensures bestMove == AlphaBeta(p, depth, alpha, beta, color).bestMove
    // Pruning never changes what the window can tell apart.
    ensures Lt(alpha, beta) ==> FailSoft(Value(p, depth, color), alpha, beta, score)
    ensures alpha == NegInf && beta == PosInf ==> score == Value(p, depth, color)
  {
    if p.status == Ongoing && depth > 0 {
      var ss := p.successors;
      var a := alpha;
      score, bestMove := NegInf, None;
      ghost var examined: seq<Score> := [];
      var i := 0;
      while i < |ss|
        invariant i <= |ss|
        invariant Scan(ss, depth, color, beta, i, a, score, bestMove, examined) == AlphaBeta(p, depth, alpha, beta, color)
      {
        var mv := ss[i].mv;
        var childScore, _ := Negamax(ss[i].next, depth - 1, Neg(beta), Neg(a), Opponent(color));
        var s := Neg(childScore);
        if Lt(score, s) {
          score := s;
          bestMove := Some(mv);
        }
        examined := examined + [s];
        a := Max(a, s);
        if Le(beta, a) {
          break;
        }
        i := i + 1;
      }
    } else if p.status == Stalemate {
      score, bestMove := Fin(0), None;
    } else if p.status == Checkmate {
      score, bestMove := NegInf, None;
    } else {
      score, bestMove := LeafScore(p, color), None;
    }
    AlphaBetaFailSoft(p, depth, alpha, beta, color);
  }
}
