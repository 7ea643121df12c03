/** Scores and logits as extended reals. The source works on `f64` tensors
    in which masked entries hold negative infinity and `BeamHypotheses`
    starts from positive infinity; rounding and NaN are not modelled. */
module Scores {

  datatype Score = NegInf | Fin(v: real) | PosInf

  /** A strictly positive real: the value of `powf` on a positive base, a
      temperature above one, or a repetition penalty. */
  type PosReal = r: real | r > 0.0 witness 1.0

  /** The total order of the extended reals (`OrderedFloat` without NaN). */
  predicate Le(a: Score, b: Score) {
    match a
    case NegInf => true
    case PosInf => b.PosInf?
    case Fin(x) => b.PosInf? || (b.Fin? && x <= b.v)
  }

  predicate Lt(a: Score, b: Score) {
    !Le(b, a)
  }

  /** Addition; negative infinity absorbs (the engine never adds the two infinities). */
  function Plus(a: Score, b: Score): Score {
    if a.NegInf? || b.NegInf? then NegInf
    else if a.PosInf? || b.PosInf? then PosInf
    else Fin(a.v + b.v)
  }

  function DivBy(a: Score, d: PosReal): Score {
    if a.Fin? then Fin(a.v / d) else a
  }

  function MulBy(a: Score, m: PosReal): Score {
    if a.Fin? then Fin(a.v * m) else a
  }

  function Larger(a: Score, b: Score): Score {
    if Le(a, b) then b else a
  }

  /** The largest entry of a non-empty row (`Tensor::max`). */
  function MaxOf(s: seq<Score>): (r: Score)
    requires |s| > 0
    ensures r in s
    ensures forall i :: 0 <= i < |s| ==> Le(s[i], r)
  {
    if |s| == 1 then s[0] else Larger(s[0], MaxOf(s[1..]))
  }

  lemma LeTotal(a: Score, b: Score)
    ensures Le(a, b) || Le(b, a)
  {
  }

  lemma LeTransitive(a: Score, b: Score, c: Score)
    requires Le(a, b) && Le(b, c)
    ensures Le(a, c)
  {
  }
}
