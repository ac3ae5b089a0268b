/** The rules engine as a finite game tree, the leaf heuristic, plain
    negamax without pruning, and the fail-soft alpha-beta search of
    src/evaluate.rs written as functions. */
module GameTree {
  import opened Chess
  import opened Scores

  datatype BoardStatus = Ongoing | Stalemate | Checkmate

  /** The rules engine's view of a position as a finite game tree: its status
      and, in move-generation order, each legal move together with the
      position that applying it produces. */
  datatype Position = Position(status: BoardStatus, successors: seq<Successor>)

  datatype Successor = Successor(mv: ChessMove, next: Position)

  /** `Evaluator::heuristic`, currently a stub scoring every position 0. */
  function Heuristic(p: Position): int
  {
    0
  }

  /** The depth-0 score: the White-relative heuristic, negated for Black. */
  function LeafScore(p: Position, color: Color): (s: Score)
    ensures s.Fin?
    ensures color == White ==> s.v == Heuristic(p)
    ensures color == Black ==> s.v == -Heuristic(p)
  {
    var h := Heuristic(p);
    if color == White then Fin(h) else Fin(-h)
  }

  /** Whether the search expands a node instead of scoring it directly. */
  predicate Expands(p: Position, depth: nat) {
    p.status == Ongoing && depth > 0
  }

  /** Plain negamax without pruning: the reference the search is proved
      against. Terminal statuses are decided before the depth is looked at. */
  function Value(p: Position, depth: nat, color: Color): Score
    decreases depth, 1, 0
  {
    match p.status
    case Checkmate => NegInf
    case Stalemate => Fin(0)
    case Ongoing =>
      if depth == 0 then LeafScore(p, color) else BestOf(p.successors, depth, color)
  }

  /** The parent's view of one successor: its negated value one ply deeper. */
  function ChildScore(s: Successor, depth: nat, color: Color): Score
    requires depth > 0
    decreases depth, 0, 0
  {
    Neg(Value(s.next, depth - 1, Opponent(color)))
  }

  /** The maximum of the child scores; negative infinity when there are none. */
  function BestOf(ss: seq<Successor>, depth: nat, color: Color): Score
    requires depth > 0
    decreases depth, 0, |ss|
  {
    if ss == [] then NegInf
    else Max(BestOf(ss[..|ss| - 1], depth, color), ChildScore(ss[|ss| - 1], depth, color))
  }

  /** Index `i` is the first successor whose child score is the maximum. */
  predicate IsFirstBest(ss: seq<Successor>, depth: nat, color: Color, i: int)
    requires depth > 0
  {
    && 0 <= i < |ss|
    && ChildScore(ss[i], depth, color) == BestOf(ss, depth, color)
    && forall j :: 0 <= j < i ==> Lt(ChildScore(ss[j], depth, color), BestOf(ss, depth, color))
  }

  /** The outcome of a search: the fail-soft score, the move that reached it,
      and the negated scores of the children examined, in order. */
  datatype SearchResult = SearchResult(score: Score, bestMove: Option<ChessMove>, examined: seq<Score>)

  /** The fail-soft alpha-beta search as a function: terminal statuses first,
      the heuristic at depth 0, otherwise a scan of the successors. */
  function AlphaBeta(p: Position, depth: nat, alpha: Score, beta: Score, color: Color): SearchResult
    decreases depth, 1, 0
  {
    if p.status == Ongoing && depth > 0 then Scan(p.successors, depth, color, beta, 0, alpha, NegInf, None, [])
    else if p.status == Stalemate then SearchResult(Fin(0), None, [])
    else if p.status == Checkmate then SearchResult(NegInf, None, [])
    else SearchResult(LeafScore(p, color), None, [])
  }

  /** The scan of successors `i..` with running alpha `a`, best score and
      move so far `best`/`bestMove` and the scores examined so far: each child
      is searched with the window (-beta, -a), a strictly better score
      replaces the best, and the scan stops once alpha reaches beta. */
  function Scan(ss: seq<Successor>, depth: nat, color: Color, beta: Score, i: nat,
                a: Score, best: Score, bestMove: Option<ChessMove>, examined: seq<Score>): SearchResult
    requires depth > 0 && i <= |ss|
    decreases depth, 0, |ss| - i
  {
    if i == |ss| then SearchResult(best, bestMove, examined)
    else
      var s := Neg(AlphaBeta(ss[i].next, depth - 1, Neg(beta), Neg(a), Opponent(color)).score);
      var best' := if Lt(best, s) then s else best;
      var bestMove' := if Lt(best, s) then Some(ss[i].mv) else bestMove;
      var a' := Max(a, s);
      if Le(beta, a') then SearchResult(best', bestMove', examined + [s])
      else Scan(ss, depth, color, beta, i + 1, a', best', bestMove', examined + [s])
  }
}
