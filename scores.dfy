/** Search scores: the engine's f32 values restricted to what actually occurs
    (negative infinity, finite values, positive infinity), with finite values
    scaled to integer hundredths of a pawn. */
module Scores {

  datatype Score = NegInf | Fin(v: int) | PosInf

  /** Unary minus on extended integers. */
  function Neg(s: Score): (r: Score)
    ensures s.NegInf? <==> r.PosInf?
    ensures s.PosInf? <==> r.NegInf?
    ensures s.Fin? ==> r == Fin(-s.v)
  {
    match s
    case NegInf => PosInf
    case Fin(x) => Fin(-x)
    case PosInf => NegInf
  }

  /** The total order of the extended integers. */
  predicate Le(a: Score, b: Score) {
    match (a, b)
    case (NegInf, _) => true
    case (_, PosInf) => true
    case (Fin(x), Fin(y)) => x <= y
    case _ => false
  }

  predicate Lt(a: Score, b: Score) {
    !Le(b, a)
  }

  /** `f32::max` on values that are never NaN. */
  function Max(a: Score, b: Score): (r: Score)
    ensures Le(a, r) && Le(b, r)
    ensures r == a || r == b
  {
    if Le(a, b) then b else a
  }

  /** The largest of a sequence of scores; negative infinity when empty. */
  function SeqMax(xs: seq<Score>): (r: Score)
  {
    if xs == [] then NegInf else Max(SeqMax(xs[..|xs| - 1]), xs[|xs| - 1])
  }

  /** SeqMax is an upper bound of every element. */
  lemma {:induction false} SeqMaxIsMaximum(xs: seq<Score>)
    ensures forall k :: 0 <= k < |xs| ==> Le(xs[k], SeqMax(xs))
  {
    if xs != [] {
      var init := xs[..|xs| - 1];
      SeqMaxIsMaximum(init);
      forall k | 0 <= k < |xs| - 1 ensures Le(xs[k], SeqMax(xs)) {
        assert xs[k] == init[k];
        LeTrans(xs[k], SeqMax(init), SeqMax(xs));
      }
    }
  }

  /** What a fail-soft alpha-beta search promises about its result `r` for a
      position whose exact value is `v`, searched with window (alpha, beta):
      a result at or below alpha is an upper bound on `v`, a result at or
      above beta is a lower bound, and inside the window it is exact. */
  predicate FailSoft(v: Score, alpha: Score, beta: Score, r: Score) {
    && (Le(v, alpha) ==> Le(v, r) && Le(r, alpha))
    && (Le(beta, v) ==> Le(beta, r) && Le(r, v))
    && (Lt(alpha, v) && Lt(v, beta) ==> r == v)
  }

  lemma NegInvolutive(s: Score)
    ensures Neg(Neg(s)) == s
  {
  }

  /** Negation reverses the order. */
  lemma NegAntitone(a: Score, b: Score)
    ensures Le(a, b) <==> Le(Neg(b), Neg(a))
  {
  }

  lemma LeTotal(a: Score, b: Score)
    ensures Le(a, b) || Le(b, a)
  {
  }

  lemma LeTrans(a: Score, b: Score, c: Score)
    requires Le(a, b) && Le(b, c)
    ensures Le(a, c)
  {
  }

  lemma LeAntisym(a: Score, b: Score)
    requires Le(a, b) && Le(b, a)
    ensures a == b
  {
  }

  /** Seen from the other side, a fail-soft result for window (lo, hi) is a
      fail-soft result for the negated window (-hi, -lo). */
  lemma {:induction false} FailSoftNegated(v: Score, lo: Score, hi: Score, r: Score)
    requires FailSoft(v, lo, hi, r)
    ensures FailSoft(Neg(v), Neg(hi), Neg(lo), Neg(r))
  {
    match v
    case NegInf =>
    case PosInf =>
    case Fin(_) =>
  }

  /** An upper and lower sandwich around the exact value implies the
      fail-soft property for any non-empty window. */
  lemma SandwichFailSoft(v: Score, alpha: Score, beta: Score, r: Score)
    requires Lt(alpha, beta)
    requires Le(v, r) && Le(r, Max(alpha, v))
    ensures FailSoft(v, alpha, beta, r)
  {
  }
}
