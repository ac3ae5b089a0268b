/** MVV-LVA move ordering of src/evaluations/search.rs: captures first, best
    victim for the cheapest attacker first, then the non-capturing checks,
    then the quiet moves, each group otherwise in generation order. */
module Ordering {
  import opened Chess
  import opened Material

  /** A move is a capture exactly when its destination square is occupied
      (so an en-passant capture, whose destination is empty, is not one). */
  predicate IsCapture(board: Board, mv: ChessMove) {
    board[mv.dest].Some?
  }

  /** Every capture moves a piece that is on the board: the attacker that
      the capture branch looks up must exist. The rules engine only
      generates moves of a piece that is on the board. */
  predicate SourcesOccupied(board: Board, moves: seq<ChessMove>) {
    forall i :: 0 <= i < |moves| ==> IsCapture(board, moves[i]) ==> board[moves[i].source].Some?
  }

  /** Most valuable victim, least valuable attacker: ten times the victim's
      value minus the attacker's, in hundredths of a pawn. The second clause
      records a consequence of the king's base value 0: a capture by the
      king is ranked by its victim alone, ahead of every capture of the same
      victim by another piece. No proof relies on it. */
  function MvvLva(board: Board, mv: ChessMove): (score: int)
    requires board[mv.source].Some? && IsCapture(board, mv)
    ensures -900 <= score <= 9000
    ensures board[mv.source].value.piece == King ==> score == 10 * PieceValue(board[mv.dest].value.piece)
  {
    10 * PieceValue(board[mv.dest].value.piece) - PieceValue(board[mv.source].value.piece)
  }

  /** An entry of the capture bucket: a move and its MVV-LVA score. */
  datatype ScoredMove = ScoredMove(mv: ChessMove, score: int)

  function MovesOf(xs: seq<ScoredMove>): (ms: seq<ChessMove>)
    ensures |ms| == |xs|
    ensures forall i :: 0 <= i < |xs| ==> ms[i] == xs[i].mv
  {
    seq(|xs|, i requires 0 <= i < |xs| => xs[i].mv)
  }

  /** Every entry of `xs` is a capture carrying its own MVV-LVA score. */
  predicate Scored(board: Board, xs: seq<ScoredMove>) {
    forall i :: 0 <= i < |xs| ==>
      board[xs[i].mv.source].Some? && IsCapture(board, xs[i].mv) && xs[i].score == MvvLva(board, xs[i].mv)
  }

  /** The capture bucket after the loop has seen `moves`, in generation order. */
  function CaptureBucket(board: Board, moves: seq<ChessMove>): (c: seq<ScoredMove>)
    requires SourcesOccupied(board, moves)
    ensures |c| <= |moves|
    ensures Scored(board, c)
  {
    if moves == [] then []
    else
      var mv := moves[|moves| - 1];
      CaptureBucket(board, moves[..|moves| - 1])
        + (if IsCapture(board, mv) then [ScoredMove(mv, MvvLva(board, mv))] else [])
  }

  /** The non-capturing moves the loop has seen whose resulting position
      gives check (`checks`), or does not (`quiet`), in generation order. */
  function NonCaptures(board: Board, moves: seq<ChessMove>, givesCheck: ChessMove -> bool, checks: bool): (ms: seq<ChessMove>)
    ensures |ms| <= |moves|
    ensures forall i :: 0 <= i < |ms| ==> !IsCapture(board, ms[i]) && givesCheck(ms[i]) == checks
  {
    if moves == [] then []
    else
      var mv := moves[|moves| - 1];
      NonCaptures(board, moves[..|moves| - 1], givesCheck, checks)
        + (if !IsCapture(board, mv) && givesCheck(mv) == checks then [mv] else [])
  }

  /** Scores never increase along `xs`. */
  predicate Descending(xs: seq<ScoredMove>) {
    forall i, j :: 0 <= i < j < |xs| ==> xs[i].score >= xs[j].score
  }

  /** Inserts `x` into a descending sequence after every entry whose score
      is at least `x`'s, so that it follows the equal entries already there. */
  function Insert(xs: seq<ScoredMove>, x: ScoredMove): (r: seq<ScoredMove>)
    ensures |r| == |xs| + 1
  {
    if xs == [] || xs[|xs| - 1].score >= x.score then xs + [x]
    else Insert(xs[..|xs| - 1], x) + [xs[|xs| - 1]]
  }

  /** `sort_by` on descending score: a stable sort, written as an insertion
      sort over the bucket in generation order. */
  function SortByScore(xs: seq<ScoredMove>): (r: seq<ScoredMove>)
    ensures |r| == |xs|
  {
    if xs == [] then [] else Insert(SortByScore(xs[..|xs| - 1]), xs[|xs| - 1])
  }

  /** The result of `order_moves`: sorted captures, then checks, then quiet moves. */
  function Ordered(board: Board, moves: seq<ChessMove>, givesCheck: ChessMove -> bool): (out: seq<ChessMove>)
    requires SourcesOccupied(board, moves)
  {
    MovesOf(SortByScore(CaptureBucket(board, moves)))
      + NonCaptures(board, moves, givesCheck, true)
      + NonCaptures(board, moves, givesCheck, false)
  }

  /** `order_moves`: one pass over the legal moves pushing each onto its
      bucket, a stable sort of the captures, and the concatenation. The
      rules engine's "does this move give check" is the parameter
      `givesCheck`. */
  method OrderMoves(board: Board, moves: seq<ChessMove>, givesCheck: ChessMove -> bool) returns (ordered: seq<ChessMove>)
    requires SourcesOccupied(board, moves)
    ensures ordered == Ordered(board, moves, givesCheck)
    ensures multiset(ordered) == multiset(moves)
  {
    var captures: seq<ScoredMove> := [];
    var checks: seq<ChessMove> := [];
    var nonCaps: seq<ChessMove> := [];
    for i := 0 to |moves|
      invariant captures == CaptureBucket(board, moves[..i])
      invariant checks == NonCaptures(board, moves[..i], givesCheck, true)
      invariant nonCaps == NonCaptures(board, moves[..i], givesCheck, false)
    {
      var mv := moves[i];
      assert moves[..i + 1][..i] == moves[..i];
      match board[mv.dest]
      case Some(victim) =>
        var attacker := board[mv.source].value;
        var score := 10 * PieceValue(victim.piece) - PieceValue(attacker.piece);
        captures := captures + [ScoredMove(mv, score)];
      case None =>
        if givesCheck(mv) {
          checks := checks + [mv];
        } else {
          nonCaps := nonCaps + [mv];
        }
    }
    assert moves[..|moves|] == moves;
    captures := SortByScore(captures);
    ordered := MovesOf(captures) + checks + nonCaps;
    OrderedIsPermutation(board, moves, givesCheck);
  }

  // ---------------------------------------------------------------------
  // The sort

  lemma MovesOfAppend(xs: seq<ScoredMove>, ys: seq<ScoredMove>)
    ensures MovesOf(xs + ys) == MovesOf(xs) + MovesOf(ys)
  {
  }

  /** Insertion adds exactly one entry and keeps the rest. */
  lemma {:induction false} InsertPermutation(xs: seq<ScoredMove>, x: ScoredMove)
    ensures multiset(Insert(xs, x)) == multiset(xs) + multiset{x}
  {
    if xs == [] || xs[|xs| - 1].score >= x.score {
      assert Insert(xs, x) == xs + [x];
    } else {
      var init, last := xs[..|xs| - 1], xs[|xs| - 1];
      InsertPermutation(init, x);
      assert Insert(xs, x) == Insert(init, x) + [last];
      assert xs == init + [last];
      assert multiset(xs) == multiset(init) + multiset{last};
      assert multiset(Insert(xs, x)) == multiset(Insert(init, x)) + multiset{last};
    }
  }

  lemma MovesOfSnoc(xs: seq<ScoredMove>, x: ScoredMove)
    ensures multiset(MovesOf(xs + [x])) == multiset(MovesOf(xs)) + multiset{x.mv}
  {
    MovesOfAppend(xs, [x]);
    assert MovesOf([x]) == [x.mv];
  }

  /** The same, for the moves alone. */
  lemma {:induction false} InsertMovesPermutation(xs: seq<ScoredMove>, x: ScoredMove)
    ensures multiset(MovesOf(Insert(xs, x))) == multiset(MovesOf(xs)) + multiset{x.mv}
  {
    if xs == [] || xs[|xs| - 1].score >= x.score {
      MovesOfSnoc(xs, x);
    } else {
      var init, last := xs[..|xs| - 1], xs[|xs| - 1];
      InsertMovesPermutation(init, x);
      assert xs == init + [last];
      MovesOfSnoc(Insert(init, x), last);
      MovesOfSnoc(init, last);
    }
  }

  /** The sort neither loses nor duplicates a capture. */
  lemma {:induction false} SortPermutation(xs: seq<ScoredMove>)
    ensures multiset(SortByScore(xs)) == multiset(xs)
    ensures multiset(MovesOf(SortByScore(xs))) == multiset(MovesOf(xs))
  {
    if xs != [] {
      var init, last := xs[..|xs| - 1], xs[|xs| - 1];
      SortPermutation(init);
      assert SortByScore(xs) == Insert(SortByScore(init), last);
      InsertPermutation(SortByScore(init), last);
      InsertMovesPermutation(SortByScore(init), last);
      assert xs == init + [last];
      assert multiset(xs) == multiset(init) + multiset{last};
      MovesOfSnoc(init, last);
    }
  }

  /** Insertion keeps a sequence descending. */
  lemma {:induction false} InsertDescending(xs: seq<ScoredMove>, x: ScoredMove)
    requires Descending(xs)
    ensures Descending(Insert(xs, x))
    ensures Insert(xs, x)[0].score >= x.score
    ensures xs != [] ==> Insert(xs, x)[0].score >= xs[0].score
  {
    if xs == [] || xs[|xs| - 1].score >= x.score {
    } else {
      var init, last := xs[..|xs| - 1], xs[|xs| - 1];
      InsertDescending(init, x);
      var r := Insert(init, x);
      InsertPermutation(init, x);
      forall k | 0 <= k < |r| ensures r[k].score >= last.score {
        assert r[k] in multiset(init) + multiset{x};
        if r[k] != x {
          assert r[k] in init;
        }
      }
    }
  }

  /** The sorted bucket is in non-increasing order of MVV-LVA score. */
  lemma {:induction false} SortDescending(xs: seq<ScoredMove>)
    ensures Descending(SortByScore(xs))
  {
    if xs != [] {
      SortDescending(xs[..|xs| - 1]);
      InsertDescending(SortByScore(xs[..|xs| - 1]), xs[|xs| - 1]);
    }
  }

  /** The entries of `xs` with score `v`, in their order in `xs`. */
  function WithScore(xs: seq<ScoredMove>, v: int): (r: seq<ScoredMove>)
    ensures |r| <= |xs|
    ensures forall i :: 0 <= i < |r| ==> r[i].score == v
  {
    if xs == [] then []
    else WithScore(xs[..|xs| - 1], v) + (if xs[|xs| - 1].score == v then [xs[|xs| - 1]] else [])
  }

  lemma {:induction false} WithScoreAppend(xs: seq<ScoredMove>, ys: seq<ScoredMove>, v: int)
    ensures WithScore(xs + ys, v) == WithScore(xs, v) + WithScore(ys, v)
  {
    if ys != [] {
      var init := ys[..|ys| - 1];
      assert (xs + ys)[..|xs + ys| - 1] == xs + init;
      WithScoreAppend(xs, init, v);
    } else {
      assert xs + ys == xs;
    }
  }

  /** Inserting `x` puts it after every entry of the same score. */
  lemma {:induction false} InsertStable(xs: seq<ScoredMove>, x: ScoredMove, v: int)
    ensures WithScore(Insert(xs, x), v) == WithScore(xs, v) + (if x.score == v then [x] else [])
  {
    if xs == [] || xs[|xs| - 1].score >= x.score {
      WithScoreAppend(xs, [x], v);
    } else {
      var init, last := xs[..|xs| - 1], xs[|xs| - 1];
      InsertStable(init, x, v);
      WithScoreAppend(Insert(init, x), [last], v);
      assert xs == init + [last];
      WithScoreAppend(init, [last], v);
    }
  }

  /** `sort_by` is stable: captures of equal score keep generation order. */
  lemma {:induction false} SortStable(xs: seq<ScoredMove>, v: int)
    ensures WithScore(SortByScore(xs), v) == WithScore(xs, v)
  {
    if xs != [] {
      SortStable(xs[..|xs| - 1], v);
      InsertStable(SortByScore(xs[..|xs| - 1]), xs[|xs| - 1], v);
    }
  }

  // ---------------------------------------------------------------------
  // The buckets

  /** One more move adds itself to the capture bucket's moves when it is a
      capture, and nothing otherwise. */
  lemma CaptureBucketStep(board: Board, moves: seq<ChessMove>)
    requires SourcesOccupied(board, moves) && moves != []
    ensures var mv := moves[|moves| - 1];
      multiset(MovesOf(CaptureBucket(board, moves)))
        == multiset(MovesOf(CaptureBucket(board, moves[..|moves| - 1])))
          + (if IsCapture(board, mv) then multiset{mv} else multiset{})
  {
    var init, mv := moves[..|moves| - 1], moves[|moves| - 1];
    var c := CaptureBucket(board, init);
    if IsCapture(board, mv) {
      var x := ScoredMove(mv, MvvLva(board, mv));
      assert CaptureBucket(board, moves) == c + [x];
      MovesOfAppend(c, [x]);
    } else {
      assert CaptureBucket(board, moves) == c;
    }
  }

  /** One more move adds itself to the bucket it belongs to. */
  lemma NonCapturesStep(board: Board, moves: seq<ChessMove>, givesCheck: ChessMove -> bool, checks: bool)
    requires moves != []
    ensures var mv := moves[|moves| - 1];
      multiset(NonCaptures(board, moves, givesCheck, checks))
        == multiset(NonCaptures(board, moves[..|moves| - 1], givesCheck, checks))
          + (if !IsCapture(board, mv) && givesCheck(mv) == checks then multiset{mv} else multiset{})
  {
  }

  /** Adding one element to exactly one of three parts adds it to their sum. */
  lemma AddToOnePart(c0: multiset<ChessMove>, k0: multiset<ChessMove>, q0: multiset<ChessMove>,
                     dc: multiset<ChessMove>, dk: multiset<ChessMove>, dq: multiset<ChessMove>, mv: ChessMove)
    requires dc + dk + dq == multiset{mv}
    ensures (c0 + dc) + (k0 + dk) + (q0 + dq) == c0 + k0 + q0 + multiset{mv}
  {
  }

  lemma MultisetSnoc(moves: seq<ChessMove>)
    requires moves != []
    ensures multiset(moves) == multiset(moves[..|moves| - 1]) + multiset{moves[|moves| - 1]}
  {
    assert moves == moves[..|moves| - 1] + [moves[|moves| - 1]];
  }

  /** Every legal move lands in exactly one bucket. */
  lemma {:induction false} BucketsPartition(board: Board, moves: seq<ChessMove>, givesCheck: ChessMove -> bool)
    requires SourcesOccupied(board, moves)
    ensures multiset(MovesOf(CaptureBucket(board, moves)))
      + multiset(NonCaptures(board, moves, givesCheck, true))
      + multiset(NonCaptures(board, moves, givesCheck, false)) == multiset(moves)
  {
    if moves != [] {
      var init, mv := moves[..|moves| - 1], moves[|moves| - 1];
      BucketsPartition(board, init, givesCheck);
      CaptureBucketStep(board, moves);
      NonCapturesStep(board, moves, givesCheck, true);
      NonCapturesStep(board, moves, givesCheck, false);
      var dc: multiset<ChessMove> := if IsCapture(board, mv) then multiset{mv} else multiset{};
      var dk: multiset<ChessMove> := if !IsCapture(board, mv) && givesCheck(mv) then multiset{mv} else multiset{};
      var dq: multiset<ChessMove> := if !IsCapture(board, mv) && !givesCheck(mv) then multiset{mv} else multiset{};
      AddToOnePart(multiset(MovesOf(CaptureBucket(board, init))), multiset(NonCaptures(board, init, givesCheck, true)),
        multiset(NonCaptures(board, init, givesCheck, false)), dc, dk, dq, mv);
      MultisetSnoc(moves);
    } else {
      assert CaptureBucket(board, moves) == [];
      assert NonCaptures(board, moves, givesCheck, true) == [];
      assert NonCaptures(board, moves, givesCheck, false) == [];
    }
  }

  /** Every capture among the legal moves is in the capture bucket. */
  lemma {:induction false} CaptureBucketComplete(board: Board, moves: seq<ChessMove>, k: int)
    requires SourcesOccupied(board, moves)
    requires 0 <= k < |moves| && IsCapture(board, moves[k])
    ensures ScoredMove(moves[k], MvvLva(board, moves[k])) in CaptureBucket(board, moves)
  {
    if k < |moves| - 1 {
      var init := moves[..|moves| - 1];
      assert init[k] == moves[k];
      CaptureBucketComplete(board, init, k);
    }
  }

  /** `order_moves` returns each legal move exactly once. */
  lemma OrderedIsPermutation(board: Board, moves: seq<ChessMove>, givesCheck: ChessMove -> bool)
    requires SourcesOccupied(board, moves)
    ensures |Ordered(board, moves, givesCheck)| == |moves|
    ensures multiset(Ordered(board, moves, givesCheck)) == multiset(moves)
  {
    SortPermutation(CaptureBucket(board, moves));
    BucketsPartition(board, moves, givesCheck);
    assert |multiset(Ordered(board, moves, givesCheck))| == |multiset(moves)|;
  }

  /** The number of captures among `moves`. */
  function CaptureCount(board: Board, moves: seq<ChessMove>): (n: nat)
    requires SourcesOccupied(board, moves)
  {
    |CaptureBucket(board, moves)|
  }

  /** The sort keeps every capture with its own score. */
  lemma SortKeepsScored(board: Board, xs: seq<ScoredMove>)
    requires Scored(board, xs)
    ensures Scored(board, SortByScore(xs))
  {
    var sorted := SortByScore(xs);
    SortPermutation(xs);
    forall k | 0 <= k < |sorted|
      ensures board[sorted[k].mv.source].Some? && IsCapture(board, sorted[k].mv)
      ensures sorted[k].score == MvvLva(board, sorted[k].mv)
    {
      assert sorted[k] in multiset(xs);
    }
  }

  /** All captures come first, then all non-capturing checks, then all quiet
      moves; the capture prefix is in non-increasing MVV-LVA order. */
  lemma OrderedLayout(board: Board, moves: seq<ChessMove>, givesCheck: ChessMove -> bool)
    requires SourcesOccupied(board, moves)
    ensures CaptureCount(board, moves) <= |Ordered(board, moves, givesCheck)|
    ensures forall i :: 0 <= i < CaptureCount(board, moves) ==>
      board[Ordered(board, moves, givesCheck)[i].source].Some? && IsCapture(board, Ordered(board, moves, givesCheck)[i])
    ensures forall i :: CaptureCount(board, moves) <= i < |Ordered(board, moves, givesCheck)| ==>
      !IsCapture(board, Ordered(board, moves, givesCheck)[i])
    ensures forall i, j :: 0 <= i < j < CaptureCount(board, moves) ==>
      MvvLva(board, Ordered(board, moves, givesCheck)[i]) >= MvvLva(board, Ordered(board, moves, givesCheck)[j])
  {
    var c := CaptureBucket(board, moves);
    var sorted := SortByScore(c);
    var checks := NonCaptures(board, moves, givesCheck, true);
    var quiet := NonCaptures(board, moves, givesCheck, false);
    var out := Ordered(board, moves, givesCheck);
    SortKeepsScored(board, c);
    SortDescending(c);
    assert out == MovesOf(sorted) + checks + quiet;
    forall i | 0 <= i < |sorted| ensures out[i] == sorted[i].mv {
    }
    forall i | |sorted| <= i < |out| ensures !IsCapture(board, out[i]) {
      if i < |sorted| + |checks| {
        assert out[i] == checks[i - |sorted|];
      } else {
        assert out[i] == quiet[i - |sorted| - |checks|];
      }
    }
  }

  /** The checks, and then the quiet moves, follow the captures in the
      order the rules engine generated them. */
  lemma OrderedTail(board: Board, moves: seq<ChessMove>, givesCheck: ChessMove -> bool)
    requires SourcesOccupied(board, moves)
    ensures var out, nc := Ordered(board, moves, givesCheck), CaptureCount(board, moves);
      var checks := NonCaptures(board, moves, givesCheck, true);
      && nc + |checks| <= |out|
      && out[nc..nc + |checks|] == checks
      && out[nc + |checks|..] == NonCaptures(board, moves, givesCheck, false)
  {
    SortPermutation(CaptureBucket(board, moves));
  }

  /** Captures with the same MVV-LVA score appear in `order_moves`' result
      in generation order. */
  lemma CapturesStable(board: Board, moves: seq<ChessMove>, v: int)
    requires SourcesOccupied(board, moves)
    ensures WithScore(SortByScore(CaptureBucket(board, moves)), v) == WithScore(CaptureBucket(board, moves), v)
  {
    SortStable(CaptureBucket(board, moves), v);
  }

  /** When some legal move is a capture, the first move returned is a capture
      whose MVV-LVA score is the largest of all captures. */
  lemma FirstIsBestCapture(board: Board, moves: seq<ChessMove>, givesCheck: ChessMove -> bool, k: int)
    requires SourcesOccupied(board, moves)
    requires 0 <= k < |moves| && IsCapture(board, moves[k])
    ensures var out := Ordered(board, moves, givesCheck);
      && |out| > 0 && board[out[0].source].Some? && IsCapture(board, out[0])
      && MvvLva(board, out[0]) >= MvvLva(board, moves[k])
  {
    var c := CaptureBucket(board, moves);
    var sorted := SortByScore(c);
    CaptureBucketComplete(board, moves, k);
    SortPermutation(c);
    SortDescending(c);
    var x := ScoredMove(moves[k], MvvLva(board, moves[k]));
    assert x in multiset(sorted);
    var j :| 0 <= j < |sorted| && sorted[j] == x;
    assert sorted[0] in multiset(c);
    assert sorted[0].score >= x.score;
  }
}
