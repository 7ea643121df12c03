/** `BeamHypotheses`: the bounded set of finished hypotheses kept for one
    input item during beam search (src/pipelines/generation.rs:943-1009). */
module Hypotheses {

  import opened Basics
  import opened Scores

  /** A finished hypothesis: its length-normalised score and its tokens. */
  datatype Hyp = Hyp(score: Score, tokens: seq<int>)

  datatype BeamHypotheses = BeamHypotheses(
    maxLength: int,
    lengthPenalty: real,
    earlyStopping: bool,
    numBeams: nat,
    beams: seq<Hyp>,
    worstScore: Score)

  /** `f64::powf` on a positive base, left uninterpreted: a positive base
      raised to any real power is positive. */
  type Pow = (real, real) -> PosReal

  /** `w` is the score of a retained entry and no retained entry scores lower. */
  ghost predicate IsMinimum(beams: seq<Hyp>, w: Score) {
    && (exists i :: 0 <= i < |beams| && beams[i].score == w)
    && (forall i :: 0 <= i < |beams| ==> Le(w, beams[i].score))
  }

  /** The invariant `add` maintains: at most `numBeams` entries, and
      `worstScore` is their minimum (positive infinity while empty). */
  ghost predicate Valid(h: BeamHypotheses) {
    && |h.beams| <= h.numBeams
    && (|h.beams| == 0 ==> h.worstScore == PosInf)
    && (|h.beams| > 0 ==> IsMinimum(h.beams, h.worstScore))
  }

  /** `BeamHypotheses::new`. */
  function New(numBeams: nat, maxLength: int, lengthPenalty: real, earlyStopping: bool): (h: BeamHypotheses)
    ensures Valid(h) && |h.beams| == 0
    ensures h.maxLength == maxLength - 1
    ensures h.numBeams == numBeams && h.lengthPenalty == lengthPenalty && h.earlyStopping == earlyStopping
  {
    BeamHypotheses(maxLength - 1, lengthPenalty, earlyStopping, numBeams, [], PosInf)
  }

  /** The minimum score of a non-empty list (`min_by_key(..).unwrap().0`). */
  function MinScore(beams: seq<Hyp>): (w: Score)
    requires |beams| > 0
    ensures IsMinimum(beams, w)
  {
    if |beams| == 1 then beams[0].score
    else
      var rest := MinScore(beams[1..]);
      assert forall i :: 1 <= i < |beams| ==> beams[i] == beams[1..][i - 1];
      if Le(beams[0].score, rest) then beams[0].score else rest
  }

  /** The position `min_by_key` reports: the first entry of minimum score. */
  function FirstMinIndex(beams: seq<Hyp>): (k: nat)
    requires |beams| > 0
    ensures k < |beams|
    ensures forall i :: 0 <= i < |beams| ==> Le(beams[k].score, beams[i].score)
    ensures forall i :: 0 <= i < k ==> Lt(beams[k].score, beams[i].score)
  {
    if |beams| == 1 then 0
    else
      var k' := FirstMinIndex(beams[1..]);
      assert forall i :: 1 <= i < |beams| ==> beams[i] == beams[1..][i - 1];
      if Le(beams[0].score, beams[1..][k'].score) then 0 else k' + 1
  }

  function RemoveAt<T>(s: seq<T>, k: nat): (r: seq<T>)
    requires k < |s|
    ensures |r| == |s| - 1
  {
    s[..k] + s[k + 1..]
  }

  /** The score `add` stores: the summed log-probability divided by the
      hypothesis length raised to the length penalty. */
  function Normalised(h: BeamHypotheses, tokens: seq<int>, sumLogProbs: Score, pow: Pow): (r: Score)
    ensures r.Fin? <==> sumLogProbs.Fin?
    ensures !sumLogProbs.Fin? ==> r == sumLogProbs
    ensures r.Fin? ==> (r.v < 0.0 <==> sumLogProbs.v < 0.0)
  {
    DivBy(sumLogProbs, pow(|tokens| as real, h.lengthPenalty))
  }

  /** Normalising is undone by scaling back with `length ^ length_penalty`. */
  lemma NormalisedScalesBack(h: BeamHypotheses, tokens: seq<int>, sumLogProbs: Score, pow: Pow)
    ensures var r := Normalised(h, tokens, sumLogProbs, pow);
      r.Fin? ==> r.v * pow(|tokens| as real, h.lengthPenalty) == sumLogProbs.v
  {
  }

  /** Whether `add` takes a candidate of normalised score `score`. */
  predicate Accepts(h: BeamHypotheses, score: Score) {
    |h.beams| < h.numBeams || Lt(h.worstScore, score)
  }

  /** `BeamHypotheses::add`. */
  function Add(h: BeamHypotheses, tokens: seq<int>, sumLogProbs: Score, pow: Pow): (r: BeamHypotheses)
    requires Valid(h)
    ensures Valid(r)
    ensures r.(beams := h.beams, worstScore := h.worstScore) == h
    ensures var e := Hyp(Normalised(h, tokens, sumLogProbs, pow), tokens);
      && (!Accepts(h, e.score) ==> r == h)
      && (Accepts(h, e.score) ==> e in r.beams)
      && (Accepts(h, e.score) && |h.beams| < h.numBeams ==> r.beams == h.beams + [e])
      && (Accepts(h, e.score) && |h.beams| == h.numBeams ==>
            exists k :: 0 <= k < |h.beams|
              && h.beams[k].score == h.worstScore
              && (forall i :: 0 <= i < k ==> Lt(h.worstScore, h.beams[i].score))
              && r.beams == RemoveAt(h.beams, k) + [e])
  {
    var e := Hyp(Normalised(h, tokens, sumLogProbs, pow), tokens);
    if Accepts(h, e.score) then
      var grown := h.beams + [e];
      var kept :=
        if |grown| > h.numBeams then
          var k := FirstMinIndex(grown);
          EvictionIsOld(h, e, k);
          assert RemoveAt(grown, k) == RemoveAt(h.beams, k) + [e];
          RemoveAt(grown, k)
        else grown;
      assert e in kept;
      h.(beams := kept, worstScore := MinScore(kept))
    else h
  }

  /** When a full set accepts `e`, the first minimum of the grown list is an
      old entry scoring exactly `worstScore`. */
  lemma EvictionIsOld(h: BeamHypotheses, e: Hyp, k: nat)
    requires Valid(h) && |h.beams| == h.numBeams && Lt(h.worstScore, e.score)
    requires k < |h.beams| + 1
    requires forall i :: 0 <= i < |h.beams| + 1 ==> Le((h.beams + [e])[k].score, (h.beams + [e])[i].score)
    requires forall i :: 0 <= i < k ==> Lt((h.beams + [e])[k].score, (h.beams + [e])[i].score)
    ensures k < |h.beams| && h.beams[k].score == h.worstScore
    ensures forall i :: 0 <= i < k ==> Lt(h.worstScore, h.beams[i].score)
  {
    var grown := h.beams + [e];
    var j :| 0 <= j < |h.beams| && h.beams[j].score == h.worstScore;
    assert grown[j] == h.beams[j];
    assert Le(grown[k].score, h.worstScore);
    if k == |h.beams| {
      assert false;
    }
    assert grown[k] == h.beams[k];
    assert forall i :: 0 <= i < k ==> grown[i] == h.beams[i];
  }

  /** `BeamHypotheses::is_done`: never before the set is full; then at once
      under early stopping, and otherwise exactly when the best running score,
      normalised at the current length, cannot beat the worst kept entry. */
  function IsDone(h: BeamHypotheses, bestSumLogProbs: Score, currentLength: nat, pow: Pow): (done: bool)
    ensures |h.beams| < h.numBeams ==> !done
    ensures |h.beams| >= h.numBeams && h.earlyStopping ==> done
    ensures |h.beams| >= h.numBeams && !h.earlyStopping ==>
      (done <==> Le(DivBy(bestSumLogProbs, pow(currentLength as real, h.lengthPenalty)), h.worstScore))
  {
    if |h.beams| < h.numBeams then false
    else if h.earlyStopping then true
    else Le(DivBy(bestSumLogProbs, pow(currentLength as real, h.lengthPenalty)), h.worstScore)
  }

  /** `add` brings in no hypothesis but the one it is offered. */
  lemma AddOffersOnly(h: BeamHypotheses, tokens: seq<int>, sumLogProbs: Score, pow: Pow)
    requires Valid(h)
    ensures forall x :: x in Add(h, tokens, sumLogProbs, pow).beams ==> x in h.beams || x.tokens == tokens
  {
    var e := Hyp(Normalised(h, tokens, sumLogProbs, pow), tokens);
    var r := Add(h, tokens, sumLogProbs, pow);
    if Accepts(h, e.score) && |h.beams| == h.numBeams {
      var k :| 0 <= k < |h.beams| && r.beams == RemoveAt(h.beams, k) + [e];
      forall x | x in RemoveAt(h.beams, k)
        ensures x in h.beams
      {
        assert x in h.beams[..k] || x in h.beams[k + 1..];
      }
    }
  }

  /** Adding a list of entries brings in no hypothesis but theirs. */
  lemma {:induction false} AddAllOffersOnly(h: BeamHypotheses, entries: seq<(seq<int>, Score)>, pow: Pow)
    requires Valid(h)
    ensures forall x :: x in AddAll(h, entries, pow).beams ==>
      x in h.beams || exists i :: 0 <= i < |entries| && x.tokens == entries[i].0
    decreases |entries|
  {
    if |entries| > 0 {
      var h' := Add(h, entries[0].0, entries[0].1, pow);
      AddOffersOnly(h, entries[0].0, entries[0].1, pow);
      AddAllOffersOnly(h', entries[1..], pow);
      forall x | x in AddAll(h, entries, pow).beams
        ensures x in h.beams || exists i :: 0 <= i < |entries| && x.tokens == entries[i].0
      {
        if x !in h'.beams {
          var i :| 0 <= i < |entries[1..]| && x.tokens == entries[1..][i].0;
          assert x.tokens == entries[i + 1].0;
        } else if x !in h.beams {
          assert x.tokens == entries[0].0;
        }
      }
    }
  }

  /** Once full, a set stays full under `add` and its worst score never drops. */
  lemma AddKeepsFullAndRaisesWorst(h: BeamHypotheses, tokens: seq<int>, sumLogProbs: Score, pow: Pow)
    requires Valid(h) && |h.beams| == h.numBeams
    ensures |Add(h, tokens, sumLogProbs, pow).beams| == h.numBeams
    ensures Le(h.worstScore, Add(h, tokens, sumLogProbs, pow).worstScore)
  {
    var r := Add(h, tokens, sumLogProbs, pow);
    var e := Hyp(Normalised(h, tokens, sumLogProbs, pow), tokens);
    if Accepts(h, e.score) {
      var k :| 0 <= k < |h.beams|
        && h.beams[k].score == h.worstScore
        && r.beams == RemoveAt(h.beams, k) + [e];
      assert h.numBeams > 0;
      var rest := RemoveAt(h.beams, k);
      forall j | 0 <= j < |r.beams|
        ensures Le(h.worstScore, r.beams[j].score)
      {
        if j < k {
          assert rest[j] == h.beams[j];
        } else if j < |h.beams| - 1 {
          assert rest[j] == h.beams[j + 1];
        } else {
          assert r.beams[j] == e;
        }
      }
    }
  }

  /** The stopping test is stable under `add`: a finished item stays finished
      for the same best running score and length. */
  lemma DoneStaysDone(h: BeamHypotheses, tokens: seq<int>, sumLogProbs: Score, pow: Pow,
                      best: Score, currentLength: nat)
    requires Valid(h) && IsDone(h, best, currentLength, pow)
    ensures IsDone(Add(h, tokens, sumLogProbs, pow), best, currentLength, pow)
  {
    AddKeepsFullAndRaisesWorst(h, tokens, sumLogProbs, pow);
  }

  /** `add` grows a set that is not full and keeps a full one full. */
  lemma AddSize(h: BeamHypotheses, tokens: seq<int>, sumLogProbs: Score, pow: Pow)
    requires Valid(h)
    ensures |Add(h, tokens, sumLogProbs, pow).beams| == Min(h.numBeams, |h.beams| + 1)
  {
    if |h.beams| == h.numBeams {
      AddKeepsFullAndRaisesWorst(h, tokens, sumLogProbs, pow);
    }
  }

  /** Adds each `(tokens, summed log-probability)` pair in turn. */
  function AddAll(h: BeamHypotheses, entries: seq<(seq<int>, Score)>, pow: Pow): (r: BeamHypotheses)
    requires Valid(h)
    ensures Valid(r)
    ensures r.(beams := h.beams, worstScore := h.worstScore) == h
    ensures |r.beams| == Min(h.numBeams, |h.beams| + |entries|)
    decreases |entries|
  {
    if |entries| == 0 then h
    else
      AddSize(h, entries[0].0, entries[0].1, pow);
      AddAll(Add(h, entries[0].0, entries[0].1, pow), entries[1..], pow)
  }
}
