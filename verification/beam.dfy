/** The bookkeeping of `generate_beam_search`
    (src/pipelines/generation.rs:566-787): beam-score seeding, candidate
    decoding, the per-item walk over candidates, row and cache reindexing,
    finalisation, selection of the best hypotheses and output padding. */
module Beam {

  import opened Basics
  import opened Scores
  import opened Filters
  import opened Kernels
  import opened Hypotheses
  import opened Selection

  // ---------------------------------------------------------------------
  // Flat indices

  /** `beam_scores` before the first step: zero for every beam when
      sampling, otherwise zero for the first beam of each item and negative
      infinity for the rest, so that the first step does not pick the same
      token from identical beams. */
  function InitialBeamScores(batchSize: nat, numBeams: nat, doSample: bool): (r: seq<Score>)
    ensures |r| == batchSize * numBeams
    ensures forall b, j :: 0 <= b < batchSize && 0 <= j < numBeams ==>
      Flat(b, j, numBeams) < |r| && r[Flat(b, j, numBeams)] == (if doSample || j == 0 then Fin(0.0) else NegInf)
  {
    var r := seq(batchSize * numBeams, i requires 0 <= i < batchSize * numBeams =>
      if doSample || i % numBeams == 0 then Fin(0.0) else NegInf);
    forall b, j | 0 <= b < batchSize && 0 <= j < numBeams
      ensures Flat(b, j, numBeams) < |r| && r[Flat(b, j, numBeams)] == (if doSample || j == 0 then Fin(0.0) else NegInf)
    {
      FlatIndex(b, j, numBeams, batchSize);
    }
    r
  }

  /** The scores of item `b` viewed as one row of `num_beams * vocab`
      entries (`view((batch_size, num_beams * vocab_size))`). */
  function ItemRow(scores: seq<seq<Score>>, b: nat, numBeams: nat, vocab: nat): (r: seq<Score>)
    requires vocab > 0 && (b + 1) * numBeams <= |scores| && Rectangular(scores, vocab)
    ensures |r| == numBeams * vocab
    ensures forall beam, t :: 0 <= beam < numBeams && 0 <= t < vocab ==>
      Flat(beam, t, vocab) < |r| && r[Flat(beam, t, vocab)] == scores[b * numBeams + beam][t]
  {
    var r := seq(numBeams * vocab, f requires 0 <= f < numBeams * vocab =>
      ItemRowEntry(scores, b, numBeams, vocab, f));
    forall beam, t | 0 <= beam < numBeams && 0 <= t < vocab
      ensures Flat(beam, t, vocab) < |r| && r[Flat(beam, t, vocab)] == scores[b * numBeams + beam][t]
    {
      FlatIndex(beam, t, vocab, numBeams);
    }
    r
  }

  /** Entry `f` of the flattened item row: row `f / vocab` of the item,
      column `f % vocab`. */
  function ItemRowEntry(scores: seq<seq<Score>>, b: nat, numBeams: nat, vocab: nat, f: nat): Score
    requires vocab > 0 && (b + 1) * numBeams <= |scores| && Rectangular(scores, vocab)
    requires f < numBeams * vocab
  {
    var beam := f / vocab;
    assert beam < numBeams by {
      if beam >= numBeams {
        MulAtLeast(beam - numBeams + 1, vocab);
      }
    }
    FlatIndex(b, beam, numBeams, |scores|);
    scores[b * numBeams + beam][f % vocab]
  }

  /** A flat candidate index of item `item` names beam `flat / vocab`, token
      `flat % vocab`, and the row `item * num_beams + beam` it extends. */
  function DecodeCandidate(flat: nat, vocab: nat, item: nat, numBeams: nat): (r: (nat, nat, nat))
    requires vocab > 0
    ensures r.0 * vocab + r.1 == flat && r.1 < vocab
    ensures r.2 == item * numBeams + r.0
    ensures flat < numBeams * vocab ==> r.0 < numBeams && r.2 < (item + 1) * numBeams
  {
    (flat / vocab, flat % vocab, item * numBeams + flat / vocab)
  }

  /** Decoding inverts the flattening of a (beam, token) pair. */
  lemma DecodeFlattened(beam: nat, token: nat, vocab: nat, item: nat, numBeams: nat)
    requires beam < numBeams && token < vocab
    ensures DecodeCandidate(Flat(beam, token, vocab), vocab, item, numBeams) == (beam, token, item * numBeams + beam)
  {
    FlatIndex(beam, token, vocab, numBeams);
  }

  // ---------------------------------------------------------------------
  // The walk over one item's candidates

  /** A `(score, token, source row)` triple of `next_batch_beam`. */
  datatype Entry = Entry(score: Score, token: int, row: int)

  /** What the walk over item `item` reads: the rows so far, the beam
      width, the vocabulary size, the end-of-sequence ids, `powf`, the
      candidates in rank order and the item's flattened scores. */
  datatype ItemContext = ItemContext(
    ids: seq<seq<int>>,
    item: nat,
    numBeams: nat,
    vocab: nat,
    eos: Option<seq<int>>,
    pow: Pow,
    cands: seq<nat>,
    scores: seq<Score>)

  ghost predicate ContextOk(c: ItemContext) {
    && c.vocab > 0 && c.numBeams > 0 && |c.cands| > 0
    && |c.scores| == c.numBeams * c.vocab
    && (c.item + 1) * c.numBeams <= |c.ids|
    && (forall j :: 0 <= j < |c.cands| ==> c.cands[j] < |c.scores|)
  }

  /** The candidate at `rank` is an end-of-sequence token. */
  predicate IsEosAt(c: ItemContext, rank: nat)
    requires ContextOk(c) && rank < |c.cands|
  {
    c.eos.Some? && DecodeCandidate(c.cands[rank], c.vocab, c.item, c.numBeams).1 in c.eos.value
  }

  /** The entry the candidate at `rank` becomes. */
  function EntryAt(c: ItemContext, rank: nat): (e: Entry)
    requires ContextOk(c) && rank < |c.cands|
    ensures 0 <= e.row < |c.ids| && 0 <= e.token < c.vocab
    ensures InBlock(e.row, c.item, c.numBeams)
  {
    var (beam, token, row) := DecodeCandidate(c.cands[rank], c.vocab, c.item, c.numBeams);
    assert beam < c.numBeams && row == Flat(c.item, beam, c.numBeams);
    Entry(c.scores[c.cands[rank]], token, row)
  }

  /** `row` is one of the `n` rows of item `b`. */
  ghost predicate InBlock(row: int, b: nat, n: nat) {
    exists t :: 0 <= t < n && row == Flat(b, t, n)
  }

  /** The state of the `loop` over ranks: the rank, `next_sentence_beam`,
      and the item's hypotheses. */
  datatype WalkState = WalkState(rank: nat, next: seq<Entry>, hyp: BeamHypotheses)

  datatype Outcome = Continue(state: WalkState) | Break(state: WalkState)

  /** The hypotheses' settings are those of `h`. */
  ghost predicate SameSettings(a: BeamHypotheses, h: BeamHypotheses) {
    a.(beams := h.beams, worstScore := h.worstScore) == h
  }

  /** One pass of the loop body as written. An end-of-sequence candidate
      ranked above `num_beams` hits a `continue` that does not advance the
      rank, so the next pass sees the same state. */
  function WalkBody(w: WalkState, c: ItemContext): (r: Outcome)
    requires ContextOk(c) && w.rank < |c.cands| && Valid(w.hyp)
    ensures Valid(r.state.hyp) && SameSettings(r.state.hyp, w.hyp)
    ensures |w.hyp.beams| == w.hyp.numBeams ==> |r.state.hyp.beams| == w.hyp.numBeams
    ensures r.Continue? ==> r.state.rank < |c.cands| && (r.state == w || r.state.rank == w.rank + 1)
  {
    var e := EntryAt(c, w.rank);
    if IsEosAt(c, w.rank) && w.rank > c.numBeams then Continue(w)
    else
      var w' :=
        if IsEosAt(c, w.rank) then
          AddSize(w.hyp, c.ids[e.row], e.score, c.pow);
          w.(hyp := Add(w.hyp, c.ids[e.row], e.score, c.pow))
        else w.(next := w.next + [e]);
      if |w'.next| == c.numBeams || w.rank == |c.cands| - 1 then Break(w')
      else Continue(w'.(rank := w.rank + 1))
  }

  /** The loop as written, run for at most `fuel` passes: `None` when the
      budget runs out. */
  function WalkAsWritten(w: WalkState, c: ItemContext, fuel: nat): (r: Option<WalkState>)
    requires ContextOk(c) && w.rank < |c.cands| && Valid(w.hyp)
    ensures r.Some? ==> Valid(r.value.hyp) && SameSettings(r.value.hyp, w.hyp)
    ensures r.Some? && |w.hyp.beams| == w.hyp.numBeams ==> |r.value.hyp.beams| == w.hyp.numBeams
    decreases fuel
  {
    if fuel == 0 then None
    else
      match WalkBody(w, c)
      case Break(w') => Some(w')
      case Continue(w') => WalkAsWritten(w', c, fuel - 1)
  }

  /** A state the loop body maps to itself is never left. */
  lemma {:induction false} StuckWalkNeverEnds(w: WalkState, c: ItemContext, fuel: nat)
    requires ContextOk(c) && w.rank < |c.cands| && Valid(w.hyp)
    requires WalkBody(w, c) == Continue(w)
    ensures WalkAsWritten(w, c, fuel) == None
    decreases fuel
  {
    if fuel > 0 {
      StuckWalkNeverEnds(w, c, fuel - 1);
    }
  }

  /** A budget of one pass per remaining rank is as good as any: with it
      the walk either ends, with the result any such budget gives, or is
      stuck for good. */
  lemma {:induction false} BudgetOfCandidates(w: WalkState, c: ItemContext, fuel: nat, other: nat)
    requires ContextOk(c) && w.rank < |c.cands| && Valid(w.hyp)
    requires fuel >= |c.cands| - w.rank
    ensures WalkAsWritten(w, c, fuel) == None ==> WalkAsWritten(w, c, other) == None
    ensures other >= |c.cands| - w.rank ==> WalkAsWritten(w, c, other) == WalkAsWritten(w, c, fuel)
    decreases fuel
  {
    match WalkBody(w, c)
    case Break(_) =>
    case Continue(w') =>
      if w' == w {
        StuckWalkNeverEnds(w, c, fuel);
        StuckWalkNeverEnds(w, c, other);
      } else if other > 0 {
        BudgetOfCandidates(w', c, fuel - 1, other - 1);
      }
  }

  /** The walk over the candidates of the example below. */
  function SpinContext(pow: Pow): (c: ItemContext)
    ensures ContextOk(c)
  {
    ItemContext([[1], [2], [3]], 0, 3, 10, Some([9]), pow, [9, 19, 1, 2, 29, 3], Repeat(Fin(-1.0), 30))
  }

  /** A pass that neither fills `next_sentence_beam` nor reaches the last
      rank moves on to the next rank, `w'`, handing it the rest of the
      budget. */
  lemma WalkBodyAdvances(w: WalkState, c: ItemContext, fuel: nat) returns (w': WalkState)
    requires ContextOk(c) && w.rank < |c.cands| - 1 && Valid(w.hyp)
    requires !(IsEosAt(c, w.rank) && w.rank > c.numBeams)
    requires |w.next| + 1 < c.numBeams
    ensures WalkBody(w, c) == Continue(w') && w'.rank == w.rank + 1 && Valid(w'.hyp)
    ensures |w'.next| == |w.next| + (if IsEosAt(c, w.rank) then 0 else 1)
    ensures WalkAsWritten(w, c, fuel) == if fuel == 0 then None else WalkAsWritten(w', c, fuel - 1)
  {
    w' := WalkBody(w, c).state;
  }

  /** A pass that continues hands the rest of the budget to the next state. */
  lemma ContinueSpendsFuel(w: WalkState, c: ItemContext, fuel: nat)
    requires ContextOk(c) && w.rank < |c.cands| && Valid(w.hyp)
    requires WalkBody(w, c).Continue? && fuel > 0
    ensures WalkAsWritten(w, c, fuel) == WalkAsWritten(WalkBody(w, c).state, c, fuel - 1)
  {
  }

  /** A pass that breaks ends the loop with the state it leaves. */
  lemma BreakSpendsFuel(w: WalkState, c: ItemContext, fuel: nat)
    requires ContextOk(c) && w.rank < |c.cands| && Valid(w.hyp)
    requires WalkBody(w, c).Break? && fuel > 0
    ensures WalkAsWritten(w, c, fuel) == Some(WalkBody(w, c).state)
  {
  }

  /** The ranks of the example's end-of-sequence candidates. */
  lemma SpinCandidates(pow: Pow)
    ensures var c := SpinContext(pow);
      IsEosAt(c, 0) && IsEosAt(c, 1) && !IsEosAt(c, 2) && !IsEosAt(c, 3) && IsEosAt(c, 4)
  {
    var c := SpinContext(pow);
    assert c.cands == [9, 19, 1, 2, 29, 3] && c.eos == Some([9]);
    assert 9 % 10 == 9 && 19 % 10 == 9 && 1 % 10 == 1 && 2 % 10 == 2 && 29 % 10 == 9;
  }

  /** The shape of the example below: three beams, six candidates, end
      tokens at ranks 0, 1 and 4. */
  ghost predicate SpinShaped(c: ItemContext)
  {
    ContextOk(c) && |c.cands| == 6 && c.numBeams == 3 &&
    IsEosAt(c, 0) && IsEosAt(c, 1) && !IsEosAt(c, 2) && !IsEosAt(c, 3) && IsEosAt(c, 4)
  }

  /** From rank 2 with nothing pushed yet, candidates 2 and 3 are pushed
      and the walk reaches rank 4, where it stays. */
  lemma {:induction false} SpinFromRankTwo(w: WalkState, c: ItemContext, fuel: nat)
    requires SpinShaped(c)
    requires w.rank == 2 && |w.next| == 0 && Valid(w.hyp)
    ensures WalkAsWritten(w, c, fuel) == None
  {
    var w3 := WalkBodyAdvances(w, c, fuel);
    if fuel > 0 {
      var w4 := WalkBodyAdvances(w3, c, fuel - 1);
      if fuel > 1 {
        assert WalkBody(w4, c) == Continue(w4);
        StuckWalkNeverEnds(w4, c, fuel - 2);
      }
    }
  }

  /** From rank 1 with nothing pushed, the second end token is added as a
      hypothesis and the walk reaches rank 2. */
  lemma {:induction false} SpinFromRankOne(w: WalkState, c: ItemContext, fuel: nat)
    requires SpinShaped(c)
    requires w.rank == 1 && |w.next| == 0 && Valid(w.hyp)
    ensures WalkAsWritten(w, c, fuel) == None
  {
    var w2 := WalkBodyAdvances(w, c, fuel);
    if fuel > 0 {
      SpinFromRankTwo(w2, c, fuel - 1);
    }
  }

  /** From rank 0, the two end tokens are added as hypotheses and the walk
      reaches rank 2 with nothing pushed. */
  lemma {:induction false} SpinFromStart(w: WalkState, c: ItemContext, fuel: nat)
    requires SpinShaped(c)
    requires w.rank == 0 && |w.next| == 0 && Valid(w.hyp)
    ensures WalkAsWritten(w, c, fuel) == None
  {
    var w1 := WalkBodyAdvances(w, c, fuel);
    if fuel > 0 {
      SpinFromRankOne(w1, c, fuel - 1);
    }
  }

  /** Three beams over ten tokens with end id 9: candidates 9 and 19 end
      beams 0 and 1, candidates 1 and 2 continue beam 0, and candidate 29
      ends beam 2 at rank 4 > 3. The walk then never ends, whatever the
      budget. */
  lemma WalkAsWrittenSpins(pow: Pow, fuel: nat)
    ensures WalkAsWritten(WalkState(0, [], New(3, 20, 1.0, false)), SpinContext(pow), fuel) == None
  {
    SpinCandidates(pow);
    SpinFromStart(WalkState(0, [], New(3, 20, 1.0, false)), SpinContext(pow), fuel);
  }

  /** Reference for the corrected walk: the entries of the candidates of
      rank below `n` that are not end-of-sequence tokens, in rank order. */
  function Pushed(c: ItemContext, n: nat): (r: seq<Entry>)
    requires ContextOk(c) && n <= |c.cands|
    ensures |r| <= n
    ensures forall e :: e in r ==> 0 <= e.row < |c.ids| && 0 <= e.token < c.vocab
  {
    if n == 0 then []
    else Pushed(c, n - 1) + (if IsEosAt(c, n - 1) then [] else [EntryAt(c, n - 1)])
  }

  /** Every pushed entry extends a row of the item's own block. */
  lemma {:induction false} PushedInBlock(c: ItemContext, n: nat)
    requires ContextOk(c) && n <= |c.cands|
    ensures forall e :: e in Pushed(c, n) ==> InBlock(e.row, c.item, c.numBeams)
  {
    if n > 0 {
      PushedInBlock(c, n - 1);
      if !IsEosAt(c, n - 1) {
        var e := EntryAt(c, n - 1);
        assert InBlock(e.row, c.item, c.numBeams);
      }
    }
  }

  lemma {:induction false} PushedGrows(c: ItemContext, n: nat, m: nat)
    requires ContextOk(c) && n <= m <= |c.cands|
    ensures Pushed(c, n) <= Pushed(c, m)
    decreases m - n
  {
    if n < m {
      PushedGrows(c, n, m - 1);
    }
  }

  /** A pass of the loop body that does not hit the faulty `continue`
      keeps `next_sentence_beam` equal to the reference, and a pass that
      breaks leaves the first `num_beams` reference entries. */
  lemma BodyFollowsPushed(w: WalkState, c: ItemContext)
    requires ContextOk(c) && w.rank < |c.cands| && Valid(w.hyp)
    requires w.next == Pushed(c, w.rank) && |w.next| < c.numBeams
    requires !(IsEosAt(c, w.rank) && w.rank > c.numBeams)
    ensures WalkBody(w, c).state.next == Pushed(c, w.rank + 1)
    ensures WalkBody(w, c).Continue? ==>
      WalkBody(w, c).state.rank == w.rank + 1 && |WalkBody(w, c).state.next| < c.numBeams
    ensures WalkBody(w, c).Break? ==>
      var all := Pushed(c, |c.cands|); WalkBody(w, c).state.next == all[..Min(c.numBeams, |all|)]
  {
    var all := Pushed(c, |c.cands|);
    var n := Pushed(c, w.rank + 1);
    BodyPushes(w, c);
    PushedGrows(c, w.rank + 1, |c.cands|);
    if WalkBody(w, c).Break? {
      if |n| == c.numBeams {
        assert all[..c.numBeams] == n;
      } else {
        assert all == n;
      }
    }
  }

  /** The pass itself: the candidate is pushed unless it ends a sequence,
      and the walk breaks once `num_beams` entries are pushed or the ranks
      run out. */
  lemma BodyPushes(w: WalkState, c: ItemContext)
    requires ContextOk(c) && w.rank < |c.cands| && Valid(w.hyp)
    requires w.next == Pushed(c, w.rank)
    requires !(IsEosAt(c, w.rank) && w.rank > c.numBeams)
    ensures WalkBody(w, c).state.next == Pushed(c, w.rank + 1)
    ensures WalkBody(w, c).Break? <==> |Pushed(c, w.rank + 1)| == c.numBeams || w.rank == |c.cands| - 1
    ensures WalkBody(w, c).Continue? ==> WalkBody(w, c).state.rank == w.rank + 1
  {
  }

  /** A skipped end-of-sequence candidate leaves the reference unchanged. */
  lemma SkipFollowsPushed(c: ItemContext, rank: nat)
    requires ContextOk(c) && rank < |c.cands| && IsEosAt(c, rank)
    ensures Pushed(c, rank + 1) == Pushed(c, rank)
  {
  }

  /** The walk as intended: an end-of-sequence candidate ranked above
      `num_beams` is skipped, and the walk ends after the last rank. */
  function Walk(w: WalkState, c: ItemContext): (r: WalkState)
    requires ContextOk(c) && w.rank < |c.cands| && Valid(w.hyp)
    requires w.next == Pushed(c, w.rank) && |w.next| < c.numBeams
    ensures Valid(r.hyp) && SameSettings(r.hyp, w.hyp)
    ensures var all := Pushed(c, |c.cands|); r.next == all[..Min(c.numBeams, |all|)]
    decreases |c.cands| - w.rank
  {
    if IsEosAt(c, w.rank) && w.rank > c.numBeams then
      SkipFollowsPushed(c, w.rank);
      if w.rank == |c.cands| - 1 then w
      else Walk(w.(rank := w.rank + 1), c)
    else
      BodyFollowsPushed(w, c);
      match WalkBody(w, c)
      case Break(w') => w'
      case Continue(w') => Walk(w', c)
  }

  /** Whenever the walk as written ends, it ends where the corrected walk
      does: the two differ only in the pass that never ends. */
  lemma {:induction false} WalkAsWrittenAgrees(w: WalkState, c: ItemContext, fuel: nat)
    requires ContextOk(c) && w.rank < |c.cands| && Valid(w.hyp)
    requires w.next == Pushed(c, w.rank) && |w.next| < c.numBeams
    ensures WalkAsWritten(w, c, fuel).Some? ==> WalkAsWritten(w, c, fuel).value == Walk(w, c)
    decreases fuel, 1
  {
    if fuel > 0 {
      if IsEosAt(c, w.rank) && w.rank > c.numBeams {
        StuckWalkNeverEnds(w, c, fuel);
      } else {
        PassAgrees(w, c, fuel);
      }
    }
  }

  /** The same, for a pass outside the faulty `continue`. */
  lemma {:induction false} PassAgrees(w: WalkState, c: ItemContext, fuel: nat)
    requires ContextOk(c) && w.rank < |c.cands| && Valid(w.hyp)
    requires w.next == Pushed(c, w.rank) && |w.next| < c.numBeams
    requires !(IsEosAt(c, w.rank) && w.rank > c.numBeams) && fuel > 0
    ensures WalkAsWritten(w, c, fuel).Some? ==> WalkAsWritten(w, c, fuel).value == Walk(w, c)
    decreases fuel, 0
  {
    WalkFollowsBody(w, c);
    var o := WalkBody(w, c);
    if o.Continue? {
      ContinueSpendsFuel(w, c, fuel);
      WalkAsWrittenAgrees(o.state, c, fuel - 1);
    } else {
      BreakSpendsFuel(w, c, fuel);
    }
  }

  /** The corrected walk steps over an end-of-sequence candidate ranked
      above `num_beams`: it ends there at the last rank and otherwise goes
      on from the next rank, `w'`. */
  lemma WalkSkips(w: WalkState, c: ItemContext) returns (w': WalkState)
    requires ContextOk(c) && w.rank < |c.cands| && Valid(w.hyp)
    requires w.next == Pushed(c, w.rank) && |w.next| < c.numBeams
    requires IsEosAt(c, w.rank) && w.rank > c.numBeams
    ensures w' == w.(rank := w.rank + 1) && w'.hyp == w.hyp && Valid(w'.hyp)
    ensures w.rank == |c.cands| - 1 ==> Walk(w, c) == w
    ensures w.rank < |c.cands| - 1 ==>
      && w'.rank < |c.cands| && w'.next == Pushed(c, w'.rank) && |w'.next| < c.numBeams
      && Walk(w, c) == Walk(w', c)
  {
    SkipFollowsPushed(c, w.rank);
    w' := w.(rank := w.rank + 1);
  }

  /** Outside the faulty `continue`, the corrected walk takes the pass of
      the loop body and goes on from where it leaves off. */
  lemma WalkFollowsBody(w: WalkState, c: ItemContext)
    requires ContextOk(c) && w.rank < |c.cands| && Valid(w.hyp)
    requires w.next == Pushed(c, w.rank) && |w.next| < c.numBeams
    requires !(IsEosAt(c, w.rank) && w.rank > c.numBeams)
    ensures WalkBody(w, c).Continue? ==>
      var w' := WalkBody(w, c).state; w'.next == Pushed(c, w'.rank) && |w'.next| < c.numBeams
    ensures Walk(w, c) == if WalkBody(w, c).Break? then WalkBody(w, c).state else Walk(WalkBody(w, c).state, c)
  {
    BodyFollowsPushed(w, c);
  }

  // ---------------------------------------------------------------------
  // One item of a step

  /** What one item contributes to a step: its entries of
      `next_batch_beam`, its hypotheses and its `done` flag. */
  datatype ItemResult = ItemResult(entries: seq<Entry>, hyp: BeamHypotheses, done: bool)

  /** The best running score among the item's candidates
      (`next_scores.get(batch_index).max()`). */
  function BestCandidate(c: ItemContext): (r: Score)
    requires ContextOk(c)
    ensures exists j :: 0 <= j < |c.cands| && r == c.scores[c.cands[j]]
    ensures forall j :: 0 <= j < |c.cands| ==> Le(c.scores[c.cands[j]], r)
  {
    var s := seq(|c.cands|, j requires 0 <= j < |c.cands| => c.scores[c.cands[j]]);
    var r := MaxOf(s);
    assert forall j :: 0 <= j < |c.cands| ==> s[j] == c.scores[c.cands[j]];
    r
  }

  /** The `num_beams` dummy entries of a finished item: score zero, the
      padding token, source row zero. */
  function Placeholders(numBeams: nat, pad: int): (r: seq<Entry>)
    ensures |r| == numBeams && forall e :: e in r ==> e == Entry(Fin(0.0), pad, 0)
  {
    Repeat(Entry(Fin(0.0), pad, 0), numBeams)
  }

  /** The two assertions guarding a finished item, then its placeholders. */
  function FinishedItem(hyp: BeamHypotheses, c: ItemContext, pad: Option<int>): (r: Result<seq<Entry>>)
    ensures r.Err? <==> |hyp.beams| < c.numBeams || c.eos.None? || pad.None?
    ensures r.Err? ==> r.failure == (if |hyp.beams| < c.numBeams then TooFewHypotheses else MissingPadOrEos)
    ensures r.Ok? ==> r.value == Placeholders(c.numBeams, pad.value)
  {
    if |hyp.beams| < c.numBeams then Err(TooFewHypotheses)
    else if c.eos.None? || pad.None? then Err(MissingPadOrEos)
    else Ok(Placeholders(c.numBeams, pad.value))
  }

  /** The item body as written, with the walk given `fuel` passes: a
      finished item appends its placeholders and then still runs the walk
      and appends its entries too, so it contributes twice `num_beams`
      entries. A walk that runs out of budget is the loop that never ends. */
  function ProcessItemAsWritten(done: bool, hyp: BeamHypotheses, c: ItemContext, pad: Option<int>,
                                curLen: nat, fuel: nat): (r: Result<ItemResult>)
    requires ContextOk(c) && Valid(hyp) && hyp.numBeams == c.numBeams
    ensures done && FinishedItem(hyp, c, pad).Err? ==> r == Err(FinishedItem(hyp, c, pad).failure)
    ensures r.Err? ==> r.failure == Spins || StepFailure(r.failure)
    ensures r.Ok? ==> |r.value.entries| == (if done then 2 else 1) * c.numBeams
    ensures r.Ok? && done ==> r.value.entries[..c.numBeams] == Placeholders(c.numBeams, pad.value)
    ensures r.Ok? ==> forall e :: e in r.value.entries ==> 0 <= e.row < |c.ids|
    ensures r.Ok? ==> Valid(r.value.hyp) && SameSettings(r.value.hyp, hyp)
    ensures r.Ok? ==> (done ==> r.value.done) && (r.value.done ==> |r.value.hyp.beams| == c.numBeams)
  {
    var prefix := if done then FinishedItem(hyp, c, pad) else Ok([]);
    if prefix.Err? then Err(prefix.failure)
    else
      match WalkAsWritten(WalkState(0, [], hyp), c, fuel)
      case None => Err(Spins)
      case Some(w) =>
        if |w.next| != c.numBeams then Err(BeamIncomplete)
        else
          assert forall e :: e in w.next ==> e in Pushed(c, |c.cands|) by {
            WalkAsWrittenAgrees(WalkState(0, [], hyp), c, fuel);
          }
          Ok(ItemResult(prefix.value + w.next, w.hyp, done || IsDone(w.hyp, BestCandidate(c), curLen, c.pow)))
  }

  /** A finished item that gets through contributes twice `num_beams`
      entries, so `next_batch_beam` no longer lines up with the rows. */
  lemma FinishedItemAppendsTwice(hyp: BeamHypotheses, c: ItemContext, pad: Option<int>, curLen: nat, fuel: nat)
    requires ContextOk(c) && Valid(hyp) && hyp.numBeams == c.numBeams
    requires ProcessItemAsWritten(true, hyp, c, pad, curLen, fuel).Ok?
    ensures |ProcessItemAsWritten(true, hyp, c, pad, curLen, fuel).value.entries| == 2 * c.numBeams
  {
  }

  /** The ways a step of the loop fails: a read past a row, the two
      assertions on a done item, an incomplete beam. */
  predicate StepFailure(f: Failure) {
    f == IndexOutOfRange || f == TooFewHypotheses || f == MissingPadOrEos || f == BeamIncomplete
  }

  /** The ways a pass fails under a reading: as written, also the loops
      that never end and the `view` that finds more rows than
      `batch_size * num_beams`. */
  predicate PassFailure(f: Failure, v: Variant) {
    StepFailure(f) || (v == AsWritten && (f == Spins || f == ViewMismatch))
  }

  /** The item body as intended: a finished item contributes its
      placeholders only and keeps its hypotheses; any other item runs the
      corrected walk, which must yield `num_beams` entries. */
  function ProcessItem(done: bool, hyp: BeamHypotheses, c: ItemContext, pad: Option<int>, curLen: nat): (r: Result<ItemResult>)
    requires ContextOk(c) && Valid(hyp) && hyp.numBeams == c.numBeams
    ensures r.Ok? ==> |r.value.entries| == c.numBeams
    ensures r.Ok? ==> forall e :: e in r.value.entries ==> 0 <= e.row < |c.ids|
    ensures r.Ok? ==> Valid(r.value.hyp) && SameSettings(r.value.hyp, hyp)
    ensures r.Ok? ==> (done ==> r.value.done) && (r.value.done ==> |r.value.hyp.beams| == c.numBeams)
    ensures done ==> r == (match FinishedItem(hyp, c, pad)
                           case Ok(p) => Ok(ItemResult(p, hyp, true))
                           case Err(f) => Err(f))
    ensures !done ==> (r.Ok? <==> |Pushed(c, |c.cands|)| >= c.numBeams)
    ensures !done && r.Err? ==> r.failure == BeamIncomplete
    ensures !done && r.Ok? ==> r.value.entries == Pushed(c, |c.cands|)[..c.numBeams]
    ensures r.Err? ==> StepFailure(r.failure)
  {
    if done then
      match FinishedItem(hyp, c, pad)
      case Ok(p) => Ok(ItemResult(p, hyp, true))
      case Err(f) => Err(f)
    else
      var w := Walk(WalkState(0, [], hyp), c);
      if |w.next| != c.numBeams then Err(BeamIncomplete)
      else Ok(ItemResult(w.next, w.hyp, IsDone(w.hyp, BestCandidate(c), curLen, c.pow)))
  }

  /** For an item still decoding the two bodies agree whenever the one as
      written returns; it fails where the corrected one fails, or spins. */
  lemma ProcessItemAsWrittenAgrees(hyp: BeamHypotheses, c: ItemContext, pad: Option<int>, curLen: nat, fuel: nat)
    requires ContextOk(c) && Valid(hyp) && hyp.numBeams == c.numBeams
    ensures var a := ProcessItemAsWritten(false, hyp, c, pad, curLen, fuel);
      a == ProcessItem(false, hyp, c, pad, curLen) || a == Err(Spins)
  {
    var w0 := WalkState(0, [], hyp);
    assert w0.next == Pushed(c, 0);
    WalkAsWrittenAgrees(w0, c, fuel);
    match WalkAsWritten(w0, c, fuel)
    case None =>
    case Some(w) =>
      assert w == Walk(w0, c);
      var done' := IsDone(w.hyp, BestCandidate(c), curLen, c.pow);
      assert ProcessItem(false, hyp, c, pad, curLen) ==
        (if |w.next| != c.numBeams then Err(BeamIncomplete) else Ok(ItemResult(w.next, w.hyp, done')));
      assert ProcessItemAsWritten(false, hyp, c, pad, curLen, fuel) ==
        (if |w.next| != c.numBeams then Err(BeamIncomplete) else Ok(ItemResult([] + w.next, w.hyp, false || done')));
      assert [] + w.next == w.next;
  }

  // ---------------------------------------------------------------------
  // Parameters and the scores of one step

  /** The arguments of `generate_beam_search` that stay fixed across steps;
      `batchSize` is the effective batch size (prompts times returned
      sequences when sampling). */
  datatype BeamParams = BeamParams(
    minLength: nat,
    maxLength: nat,
    doSample: bool,
    earlyStopping: bool,
    temperature: real,
    topK: nat,
    topP: real,
    repetitionPenalty: real,
    noRepeatNgramSize: nat,
    pad: Option<int>,
    eos: Option<seq<int>>,
    batchSize: nat,
    numReturnSequences: nat,
    lengthPenalty: real,
    numBeams: nat,
    vocab: nat,
    reading: Variant)

  /** What the caller guarantees: sound kernels, at least one item, at
      least one beam and, from a validated configuration, at least one
      returned sequence. */
  ghost predicate ParamsOk(p: BeamParams, k: Kernels) {
    Sound(k, p.vocab) && p.batchSize >= 1 && p.numBeams >= 1 && p.numReturnSequences >= 1
  }

  /** The logits a beam step starts from: the model's, with the repetition
      penalty on the first `penalised` rows when it exceeds one, then the
      temperature. The penalty reads the logit of every history token of
      those rows, so an id outside the vocabulary there is the
      out-of-range failure. */
  function BeamLogits(ids: seq<seq<int>>, p: BeamParams, k: Kernels, penalised: nat): (r: Result<seq<seq<Score>>>)
    requires Sound(k, p.vocab) && penalised <= |ids|
    ensures r.Err? <==> p.repetitionPenalty > 1.0 && !TokensBelow(ids[..penalised], p.vocab)
    ensures r.Err? ==> r.failure == IndexOutOfRange
    ensures r.Ok? ==> |r.value| == |ids| && Rectangular(r.value, p.vocab)
    ensures r.Ok? ==> forall i, t :: 0 <= i < |ids| && 0 <= t < p.vocab ==>
      var l := k.forward(ids)[i][t];
      var pen := if p.repetitionPenalty > 1.0 && i < penalised then PenalisedTimes(l, Count(ids[i], t), p.repetitionPenalty) else l;
      r.value[i][t] == (if p.temperature > 1.0 && pen.Fin? then Fin(pen.v / p.temperature) else pen)
  {
    if p.repetitionPenalty > 1.0 && !InVocab(ids[..penalised], p.vocab) then Err(IndexOutOfRange)
    else
      var logits := k.forward(ids);
      var penalisedLogits :=
        if p.repetitionPenalty > 1.0 then
          var penalty: PosReal := p.repetitionPenalty;
          assert forall i :: 0 <= i < penalised ==> ids[..penalised][i] == ids[i];
          EnforceRepetitionPenalty(logits, penalised, ids, penalty)
        else logits;
      Ok(Temper(penalisedLogits, p.temperature))
  }

  /** The penalty as written covers `batch_size` rows out of
      `batch_size * num_beams`: every later row keeps its logits however
      often its own history repeats a token. */
  lemma PenaltySkipsLaterBeams(ids: seq<seq<int>>, p: BeamParams, k: Kernels)
    requires Sound(k, p.vocab) && p.batchSize <= |ids|
    requires BeamLogits(ids, p, k, p.batchSize).Ok?
    ensures forall i :: p.batchSize <= i < |ids| ==>
      BeamLogits(ids, p, k, p.batchSize).value[i] == BeamLogits(ids, p, k, 0).value[i]
  {
    var a := BeamLogits(ids, p, k, p.batchSize).value;
    assert ids[..0] == [];
    var b := BeamLogits(ids, p, k, 0).value;
    forall i | p.batchSize <= i < |ids|
      ensures a[i] == b[i]
    {
      assert forall t :: 0 <= t < p.vocab ==> a[i][t] == b[i][t];
    }
  }

  /** The penalty as intended covers every hypothesis row: each row's logits
      are penalised for the tokens of its own history. */
  function StepLogits(ids: seq<seq<int>>, p: BeamParams, k: Kernels): (r: Result<seq<seq<Score>>>)
    requires Sound(k, p.vocab)
    ensures r.Err? <==> p.repetitionPenalty > 1.0 && !TokensBelow(ids, p.vocab)
    ensures r.Ok? ==> |r.value| == |ids| && Rectangular(r.value, p.vocab)
    ensures r.Ok? && p.repetitionPenalty > 1.0 && p.temperature <= 1.0 ==> forall i, t :: 0 <= i < |ids| && 0 <= t < p.vocab ==>
      r.value[i][t] == PenalisedTimes(k.forward(ids)[i][t], Count(ids[i], t), p.repetitionPenalty)
  {
    assert ids[..|ids|] == ids;
    BeamLogits(ids, p, k, |ids|)
  }

  /** The rows the repetition penalty covers: as written `batch_size` of
      them, since the call passes one beam per item; as corrected, every
      hypothesis row. */
  function PenalisedRows(p: BeamParams, rows: nat): nat {
    if p.reading == AsWritten then Min(p.batchSize, rows) else rows
  }

  /** The logits of a pass under the decoder's reading. */
  function PassLogits(ids: seq<seq<int>>, p: BeamParams, k: Kernels): (r: Result<seq<seq<Score>>>)
    requires Sound(k, p.vocab)
    ensures r == BeamLogits(ids, p, k, PenalisedRows(p, |ids|))
  {
    match p.reading
    case AsWritten => BeamLogits(ids, p, k, Min(p.batchSize, |ids|))
    case Corrected => StepLogits(ids, p, k)
  }

  /** The running scores of a step over `batch_size * num_beams` rows: the
      log-probabilities of the penalised, tempered logits, the
      end-of-sequence mask before `min_length`, the n-gram bans, plus each
      row's beam score; when sampling, top-k and top-p filtering keeping at
      least two tokens. `topk(2 * num_beams)` over `num_beams * vocab`
      entries needs at least two tokens, and the top-p mask with two kept
      tokens needs at least three. Blocked tokens and rows whose beam score
      is negative infinity end at negative infinity; any other entry is its
      log-probability plus the row's beam score, which sampling may only
      remove. */
  function StepScores(ids: seq<seq<int>>, beamScores: seq<Score>, curLen: nat, p: BeamParams, k: Kernels): (r: Result<seq<seq<Score>>>)
    requires Sound(k, p.vocab) && |ids| > 0 && |beamScores| == |ids|
    ensures r.Err? <==>
      || (p.repetitionPenalty > 1.0 && !TokensBelow(ids[..PenalisedRows(p, |ids|)], p.vocab))
      || p.vocab < 2
      || (p.doSample && p.topP < 1.0 && p.vocab <= 2)
    ensures r.Err? ==> r.failure == IndexOutOfRange
    ensures r.Ok? ==> |r.value| == |ids| && Rectangular(r.value, p.vocab)
    ensures r.Ok? ==> forall i, t :: 0 <= i < |ids| && 0 <= t < p.vocab ==>
      var sum := Plus(k.logSoftmax(BeamLogits(ids, p, k, PenalisedRows(p, |ids|)).value[i])[t], beamScores[i]);
      if Blocked(p.reading, ids, curLen, p.noRepeatNgramSize, p.minLength, p.eos, i, t) || beamScores[i] == NegInf
      then r.value[i][t] == NegInf
      else if p.doSample then r.value[i][t] == sum || r.value[i][t] == NegInf
      else r.value[i][t] == sum
  {
    match PassLogits(ids, p, k)
    case Err(f) => Err(f)
    case Ok(logits) =>
      if p.vocab < 2 || (p.doSample && p.topP < 1.0 && p.vocab <= 2) then Err(IndexOutOfRange)
      else
        var logProbs := seq(|ids|, i requires 0 <= i < |ids| => k.logSoftmax(logits[i]));
        var summed := AddBeamScores(BlockScores(logProbs, ids, curLen, p), beamScores, p.vocab);
        Ok(if p.doSample then Filter(summed, p.topK, p.topP, 2, p.vocab, k) else summed)
  }

  /** The end-of-sequence mask before `min_length`, then the n-gram bans of
      the decoder's reading: blocked tokens go to negative infinity, the rest
      are kept. */
  function BlockScores(scores: seq<seq<Score>>, ids: seq<seq<int>>, curLen: nat, p: BeamParams): (r: seq<seq<Score>>)
    requires |scores| == |ids| > 0 && Rectangular(scores, p.vocab)
    ensures |r| == |ids| && Rectangular(r, p.vocab)
    ensures forall i, t :: 0 <= i < |ids| && 0 <= t < p.vocab ==>
      r[i][t] == (if Blocked(p.reading, ids, curLen, p.noRepeatNgramSize, p.minLength, p.eos, i, t) then NegInf else scores[i][t])
  {
    var masked := if p.eos.Some? && curLen < p.minLength then MaskEos(scores, p.eos.value) else scores;
    ApplyBans(masked, BannedTokens(p.reading, ids, p.noRepeatNgramSize, curLen))
  }

  /** `scores + beam_scores.unsqueeze(-1)`: each row plus its running score. */
  function AddBeamScores(scores: seq<seq<Score>>, beamScores: seq<Score>, vocab: nat): (r: seq<seq<Score>>)
    requires |beamScores| == |scores| && Rectangular(scores, vocab)
    ensures |r| == |scores| && Rectangular(r, vocab)
    ensures forall i, t :: 0 <= i < |scores| && 0 <= t < vocab ==>
      r[i][t] == Plus(scores[i][t], beamScores[i])
  {
    seq(|scores|, i requires 0 <= i < |scores| =>
      seq(vocab, t requires 0 <= t < vocab => Plus(scores[i][t], beamScores[i])))
  }


  // ---------------------------------------------------------------------
  // The decoder state and one step

  /** The loop state: the hypothesis rows, their running scores, the
      finished hypotheses and `done` flag of each item, the current length,
      and whether the loop has broken out because every item is done. */
  datatype BeamState = BeamState(
    ids: seq<seq<int>>,
    beamScores: seq<Score>,
    hyps: seq<BeamHypotheses>,
    done: seq<bool>,
    curLen: nat,
    stopped: bool)

  /** `h` is a valid hypothesis list created with this decoder's settings. */
  ghost predicate Settled(h: BeamHypotheses, p: BeamParams) {
    && Valid(h)
    && h.numBeams == p.numBeams && h.maxLength == p.maxLength - 1
    && h.lengthPenalty == p.lengthPenalty && h.earlyStopping == p.earlyStopping
  }

  /** One hypothesis list and one flag per item, and a done item holds
      `num_beams` finished hypotheses. */
  ghost predicate Bookkeeping(hyps: seq<BeamHypotheses>, done: seq<bool>, p: BeamParams) {
    && |hyps| == p.batchSize && |done| == p.batchSize
    && forall b :: 0 <= b < p.batchSize ==> Settled(hyps[b], p) && (done[b] ==> |hyps[b].beams| == p.numBeams)
  }

  /** `num_beams` rows of `cur_len` tokens per item, one running score per
      row, and consistent bookkeeping; the loop stops only when every item
      is done. */
  ghost predicate BeamShaped(s: BeamState, p: BeamParams) {
    && |s.ids| == p.batchSize * p.numBeams && |s.beamScores| == |s.ids|
    && Rectangular(s.ids, s.curLen)
    && Bookkeeping(s.hyps, s.done, p)
    && (s.stopped ==> forall b :: 0 <= b < p.batchSize ==> s.done[b])
  }

  /** Item `b`'s block of `n` rows ends inside the `count` blocks; kept
      apart so that the product stays out of the callers' proofs. */
  lemma BlockEnd(b: nat, n: nat, count: nat)
    requires b < count
    ensures (b + 1) * n <= count * n
  {
    assert count * n == (b + 1) * n + (count - b - 1) * n;
  }

  /** `2 * num_beams` candidates fit in `num_beams * vocab` entries once
      the vocabulary has two tokens. */
  lemma TwoPerBeam(numBeams: nat, vocab: nat)
    requires vocab >= 2
    ensures 2 * numBeams <= numBeams * vocab
  {
    assert numBeams * vocab == 2 * numBeams + numBeams * (vocab - 2);
  }

  /** What the walk over item `b` reads in a step whose running scores are
      `next`: the item's flattened row and its `2 * num_beams` candidates. */
  function ItemContextAt(ids: seq<seq<int>>, next: seq<seq<Score>>, b: nat, p: BeamParams, k: Kernels, pow: Pow): (c: ItemContext)
    requires ParamsOk(p, k) && p.vocab >= 2 && b < p.batchSize
    requires |ids| == p.batchSize * p.numBeams && |next| == |ids| && Rectangular(next, p.vocab)
    ensures ContextOk(c) && c.ids == ids && c.item == b && c.numBeams == p.numBeams && c.eos == p.eos
  {
    BlockEnd(b, p.numBeams, p.batchSize);
    TwoPerBeam(p.numBeams, p.vocab);
    var row := ItemRow(next, b, p.numBeams, p.vocab);
    ItemContext(ids, b, p.numBeams, p.vocab, p.eos, pow, k.candidates(row, 2 * p.numBeams, p.doSample), row)
  }

  /** `next_batch_beam` and the bookkeeping after the items before the current one. */
  datatype Sweep = Sweep(entries: seq<Entry>, hyps: seq<BeamHypotheses>, done: seq<bool>)

  /** Item `b` of the loop: its entries are appended and its hypotheses
      and flag replaced. */
  function ItemStep(ids: seq<seq<int>>, next: seq<seq<Score>>, curLen: nat, p: BeamParams, k: Kernels, pow: Pow,
                    b: nat, acc: Sweep): (r: Result<Sweep>)
    requires ParamsOk(p, k) && p.vocab >= 2 && b < p.batchSize
    requires |ids| == p.batchSize * p.numBeams && |next| == |ids| && Rectangular(next, p.vocab)
    requires Bookkeeping(acc.hyps, acc.done, p) && |acc.entries| == b * p.numBeams
    requires forall e :: e in acc.entries ==> 0 <= e.row < |ids|
    ensures r.Ok? ==> Bookkeeping(r.value.hyps, r.value.done, p)
    ensures r.Ok? ==> |r.value.entries| == (b + 1) * p.numBeams && acc.entries <= r.value.entries
    ensures r.Ok? ==> forall e :: e in r.value.entries ==> 0 <= e.row < |ids|
    ensures r.Ok? ==> forall j :: 0 <= j < p.batchSize && j != b ==> r.value.hyps[j] == acc.hyps[j] && r.value.done[j] == acc.done[j]
    ensures r.Ok? ==> (acc.done[b] ==> r.value.done[b])
    ensures r.Err? ==> PassFailure(r.failure, p.reading)
  {
    var c := ItemContextAt(ids, next, b, p, k, pow);
    SettledAt(acc.hyps, acc.done, p, b);
    match ItemOutcome(acc.done[b], acc.hyps[b], c, p.pad, curLen, p.reading)
    case Err(f) => Err(f)
    case Ok(item) =>
      Ok(Absorb(acc, item, b, p, |ids|))
  }

  /** The bookkeeping of one item. */
  lemma SettledAt(hyps: seq<BeamHypotheses>, done: seq<bool>, p: BeamParams, b: nat)
    requires Bookkeeping(hyps, done, p) && b < p.batchSize
    ensures Settled(hyps[b], p) && (done[b] ==> |hyps[b].beams| == p.numBeams)
  {
  }

  /** The item body of the decoder's reading, seen only through the facts
      the sweep needs. As written the walk gets one pass per candidate,
      which is as good as any budget, and of a finished item's doubled
      entries the first `num_beams` stand in its place; a pass with a
      finished item fails anyway once its items are processed. */
  function ItemOutcome(done: bool, hyp: BeamHypotheses, c: ItemContext, pad: Option<int>, curLen: nat, v: Variant)
    : (r: Result<ItemResult>)
    requires ContextOk(c) && Valid(hyp) && hyp.numBeams == c.numBeams
    ensures r.Ok? ==> |r.value.entries| == c.numBeams
    ensures r.Ok? ==> forall e :: e in r.value.entries ==> 0 <= e.row < |c.ids|
    ensures r.Ok? ==> Valid(r.value.hyp) && SameSettings(r.value.hyp, hyp)
    ensures r.Ok? ==> (done ==> r.value.done) && (r.value.done ==> |r.value.hyp.beams| == c.numBeams)
    ensures r.Err? ==> PassFailure(r.failure, v)
  {
    match v
    case Corrected => ProcessItem(done, hyp, c, pad, curLen)
    case AsWritten => AsWrittenOutcome(done, hyp, c, pad, curLen)
  }

  /** The item body as written, with one pass per candidate; of a
      finished item's doubled entries the first `num_beams` are kept. */
  function AsWrittenOutcome(done: bool, hyp: BeamHypotheses, c: ItemContext, pad: Option<int>, curLen: nat)
    : (r: Result<ItemResult>)
    requires ContextOk(c) && Valid(hyp) && hyp.numBeams == c.numBeams
    ensures r.Ok? ==> |r.value.entries| == c.numBeams
    ensures r.Ok? ==> forall e :: e in r.value.entries ==> 0 <= e.row < |c.ids|
    ensures r.Ok? ==> Valid(r.value.hyp) && SameSettings(r.value.hyp, hyp)
    ensures r.Ok? ==> (done ==> r.value.done) && (r.value.done ==> |r.value.hyp.beams| == c.numBeams)
    ensures r.Err? ==> PassFailure(r.failure, AsWritten)
  {
    match ProcessItemAsWritten(done, hyp, c, pad, curLen, |c.cands|)
    case Err(f) => Err(f)
    case Ok(item) =>
      var kept := item.entries[..c.numBeams];
      assert forall e :: e in kept ==> e in item.entries;
      Ok(item.(entries := kept))
  }

  /** Appending item `b`'s entries and storing its hypotheses and flag. */
  function Absorb(acc: Sweep, item: ItemResult, b: nat, p: BeamParams, rows: nat): (r: Sweep)
    requires b < p.batchSize && Bookkeeping(acc.hyps, acc.done, p) && |acc.entries| == b * p.numBeams
    requires forall e :: e in acc.entries ==> 0 <= e.row < rows
    requires |item.entries| == p.numBeams && forall e :: e in item.entries ==> 0 <= e.row < rows
    requires Valid(item.hyp) && SameSettings(item.hyp, acc.hyps[b])
    requires (acc.done[b] ==> item.done) && (item.done ==> |item.hyp.beams| == p.numBeams)
    ensures Bookkeeping(r.hyps, r.done, p)
    ensures |r.entries| == (b + 1) * p.numBeams && acc.entries <= r.entries
    ensures forall e :: e in r.entries ==> 0 <= e.row < rows
    ensures forall j :: 0 <= j < p.batchSize && j != b ==> r.hyps[j] == acc.hyps[j] && r.done[j] == acc.done[j]
    ensures r.hyps[b] == item.hyp && r.done[b] == item.done
  {
    var r := Sweep(acc.entries + item.entries, acc.hyps[b := item.hyp], acc.done[b := item.done]);
    assert |r.entries| == (b + 1) * p.numBeams;
    assert r.entries[..|acc.entries|] == acc.entries;
    r
  }

  /** The `for batch_index in 0..batch_size` loop from item `b` on. */
  function ProcessItems(ids: seq<seq<int>>, next: seq<seq<Score>>, curLen: nat, p: BeamParams, k: Kernels, pow: Pow,
                        b: nat, acc: Sweep): (r: Result<Sweep>)
    requires ParamsOk(p, k) && p.vocab >= 2 && b <= p.batchSize
    requires |ids| == p.batchSize * p.numBeams && |next| == |ids| && Rectangular(next, p.vocab)
    requires Bookkeeping(acc.hyps, acc.done, p) && |acc.entries| == b * p.numBeams
    requires forall e :: e in acc.entries ==> 0 <= e.row < |ids|
    ensures r.Ok? ==> Bookkeeping(r.value.hyps, r.value.done, p)
    ensures r.Ok? ==> |r.value.entries| == |ids| && forall e :: e in r.value.entries ==> 0 <= e.row < |ids|
    ensures r.Ok? ==> forall j :: 0 <= j < p.batchSize && acc.done[j] ==> r.value.done[j]
    ensures r.Ok? ==> forall j :: 0 <= j < b ==> r.value.hyps[j] == acc.hyps[j] && r.value.done[j] == acc.done[j]
    decreases p.batchSize - b
    ensures r.Err? ==> PassFailure(r.failure, p.reading)
  {
    if b == p.batchSize then Ok(acc)
    else
      match ItemStep(ids, next, curLen, p, k, pow, b, acc)
      case Err(f) => Err(f)
      case Ok(acc') => ProcessItems(ids, next, curLen, p, k, pow, b + 1, acc')
  }

  /** `index_select(0, beam_indices)` followed by the new tokens: row `i`
      continues row `entries[i].row` with token `entries[i].token`. */
  function Reindex(ids: seq<seq<int>>, entries: seq<Entry>): (r: seq<seq<int>>)
    requires forall e :: e in entries ==> 0 <= e.row < |ids|
    ensures |r| == |entries|
    ensures forall i :: 0 <= i < |entries| ==> r[i] == ids[entries[i].row] + [entries[i].token]
  {
    seq(|entries|, i requires 0 <= i < |entries| => ids[entries[i].row] + [entries[i].token])
  }

  /** The end of a pass once the items are processed: the break when every
      item is done, otherwise the reindexed rows with one more token and the
      chosen running scores. */
  function Conclude(s: BeamState, sweep: Sweep, p: BeamParams): (r: BeamState)
    requires BeamShaped(s, p) && Bookkeeping(sweep.hyps, sweep.done, p)
    requires |sweep.entries| == |s.ids| && forall e :: e in sweep.entries ==> 0 <= e.row < |s.ids|
    ensures BeamShaped(r, p) && r.hyps == sweep.hyps && r.done == sweep.done
    ensures r.stopped <==> forall b :: 0 <= b < p.batchSize ==> sweep.done[b]
    ensures r.curLen == (if r.stopped then s.curLen else s.curLen + 1)
    ensures r.stopped ==> r.ids == s.ids && r.beamScores == s.beamScores
    ensures !r.stopped ==> r.ids == Reindex(s.ids, sweep.entries)
  {
    if forall b :: 0 <= b < p.batchSize ==> sweep.done[b] then
      s.(hyps := sweep.hyps, done := sweep.done, stopped := true)
    else
      var ids := Reindex(s.ids, sweep.entries);
      assert Rectangular(ids, s.curLen + 1);
      BeamState(ids, seq(|sweep.entries|, i requires 0 <= i < |sweep.entries| => sweep.entries[i].score),
                sweep.hyps, sweep.done, s.curLen + 1, false)
  }

  /** `StepScores` for the current state, seen only through the facts a
      pass needs. */
  function PassScores(s: BeamState, p: BeamParams, k: Kernels): (r: Result<seq<seq<Score>>>)
    requires ParamsOk(p, k) && BeamShaped(s, p)
    ensures r.Ok? ==> p.vocab >= 2 && |r.value| == |s.ids| && Rectangular(r.value, p.vocab)
    ensures r.Err? ==> StepFailure(r.failure)
  {
    StepScores(s.ids, s.beamScores, s.curLen, p, k)
  }

  /** One pass of the `while` loop: the scores, the items, then the break
      or the advance. */
  function BeamStep(s: BeamState, p: BeamParams, k: Kernels, pow: Pow): (r: Result<BeamState>)
    requires ParamsOk(p, k) && BeamShaped(s, p) && !s.stopped
    ensures r.Ok? ==> BeamShaped(r.value, p)
    ensures r.Ok? ==> r.value.curLen == (if r.value.stopped then s.curLen else s.curLen + 1)
    ensures r.Ok? ==> forall b :: 0 <= b < p.batchSize && s.done[b] ==> r.value.done[b]
    ensures r.Ok? && r.value.stopped ==> r.value.ids == s.ids && r.value.beamScores == s.beamScores
    ensures r.Ok? && p.reading == AsWritten ==> forall b :: 0 <= b < p.batchSize ==> !s.done[b]
    ensures r.Err? ==> PassFailure(r.failure, p.reading)
  {
    match PassScores(s, p, k)
    case Err(f) => Err(f)
    case Ok(next) => Advance(s, next, p, k, pow)
  }

  /** The items of one pass, then the break or the advance. As written, an
      item already done when the pass began has put twice `num_beams`
      entries into `next_batch_beam`; the pass is then doomed: if it breaks
      or is the last, the finalisation loop meets the done item and never
      ends, otherwise the next pass's `view` finds too many rows. */
  function Advance(s: BeamState, next: seq<seq<Score>>, p: BeamParams, k: Kernels, pow: Pow): (r: Result<BeamState>)
    requires ParamsOk(p, k) && BeamShaped(s, p) && !s.stopped
    requires p.vocab >= 2 && |next| == |s.ids| && Rectangular(next, p.vocab)
    ensures r.Ok? ==> BeamShaped(r.value, p)
    ensures r.Ok? ==> r.value.curLen == (if r.value.stopped then s.curLen else s.curLen + 1)
    ensures r.Ok? ==> forall b :: 0 <= b < p.batchSize && s.done[b] ==> r.value.done[b]
    ensures r.Ok? && r.value.stopped ==> r.value.ids == s.ids && r.value.beamScores == s.beamScores
    ensures r.Ok? && p.reading == AsWritten ==> forall b :: 0 <= b < p.batchSize ==> !s.done[b]
    ensures r.Err? ==> PassFailure(r.failure, p.reading)
  {
    match ProcessItems(s.ids, next, s.curLen, p, k, pow, 0, Sweep([], s.hyps, s.done))
    case Err(f) => Err(f)
    case Ok(sweep) =>
      if p.reading == AsWritten && exists b :: 0 <= b < p.batchSize && s.done[b] then
        var breaks := forall b :: 0 <= b < p.batchSize ==> sweep.done[b];
        Err(if breaks || s.curLen + 1 >= p.maxLength then Spins else ViewMismatch)
      else Ok(Conclude(s, sweep, p))
  }

  /** The `while current_length < max_length` loop. */
  function Run(s: BeamState, p: BeamParams, k: Kernels, pow: Pow): (r: Result<BeamState>)
    requires ParamsOk(p, k) && BeamShaped(s, p)
    ensures r.Ok? ==> BeamShaped(r.value, p)
    ensures r.Ok? ==> r.value.stopped || r.value.curLen >= p.maxLength
    ensures r.Ok? ==> s.curLen <= r.value.curLen <= Max(s.curLen, p.maxLength)
    ensures r.Ok? ==> forall b :: 0 <= b < p.batchSize && s.done[b] ==> r.value.done[b]
    decreases p.maxLength - s.curLen, if s.stopped then 0 else 1
    ensures r.Err? ==> PassFailure(r.failure, p.reading)
  {
    if s.stopped || s.curLen >= p.maxLength then Ok(s)
    else
      match BeamStep(s, p, k, pow)
      case Err(f) => Err(f)
      case Ok(s') =>
        assert BeamShaped(s', p) && s.curLen <= s'.curLen;
        Run(s', p, k, pow)
  }

  // ---------------------------------------------------------------------
  // The past-key-value cache

  /** `reorder_cache`: every layer's entries are `index_select`ed with the
      rows' new source indices. A layer holds one entry per hypothesis row. */
  function ReorderCache<C>(past: seq<seq<C>>, entries: seq<Entry>): (r: seq<seq<C>>)
    requires forall l :: 0 <= l < |past| ==> forall e :: e in entries ==> 0 <= e.row < |past[l]|
    ensures |r| == |past| && forall l :: 0 <= l < |past| ==> |r[l]| == |entries|
  {
    seq(|past|, l requires 0 <= l < |past| =>
      seq(|entries|, i requires 0 <= i < |entries| => past[l][entries[i].row]))
  }

  /** Reordering keeps rows and cache in step: if row `j` and cache entry
      `j` of every layer belonged together before the step, row `i` after
      it is the continuation of the row whose cache entry it now holds. */
  lemma CacheFollowsRows<C>(ids: seq<seq<int>>, past: seq<seq<C>>, entries: seq<Entry>, l: nat, i: nat)
    requires forall e :: e in entries ==> 0 <= e.row < |ids|
    requires forall m :: 0 <= m < |past| ==> |past[m]| == |ids|
    requires l < |past| && i < |entries|
    ensures var j := entries[i].row;
      ReorderCache(past, entries)[l][i] == past[l][j] && Reindex(ids, entries)[i][..|ids[j]|] == ids[j]
  {
    assert entries[i] in entries;
  }

  // ---------------------------------------------------------------------
  // Finalisation

  /** The rows of item `b` with their running scores, in beam order. */
  function FinalEntries(s: BeamState, b: nat, p: BeamParams): (r: seq<(seq<int>, Score)>)
    requires |s.ids| == p.batchSize * p.numBeams && |s.beamScores| == |s.ids| && b < p.batchSize
    ensures |r| == p.numBeams
    ensures forall j :: 0 <= j < p.numBeams ==>
      Flat(b, j, p.numBeams) < |s.ids| && r[j] == (s.ids[Flat(b, j, p.numBeams)], s.beamScores[Flat(b, j, p.numBeams)])
  {
    var r := seq(p.numBeams, j requires 0 <= j < p.numBeams => FinalEntry(s, b, j, p));
    forall j | 0 <= j < p.numBeams
      ensures Flat(b, j, p.numBeams) < |s.ids| && r[j] == (s.ids[Flat(b, j, p.numBeams)], s.beamScores[Flat(b, j, p.numBeams)])
    {
      FlatIndex(b, j, p.numBeams, p.batchSize);
    }
    r
  }

  /** Beam `j` of item `b` with its running score. */
  function FinalEntry(s: BeamState, b: nat, j: nat, p: BeamParams): (seq<int>, Score)
    requires |s.ids| == p.batchSize * p.numBeams && |s.beamScores| == |s.ids| && b < p.batchSize && j < p.numBeams
  {
    FlatIndex(b, j, p.numBeams, p.batchSize);
    (s.ids[Flat(b, j, p.numBeams)], s.beamScores[Flat(b, j, p.numBeams)])
  }

  /** The finalisation loop as written, from item `b`, for at most `fuel`
      passes: a done item hits a `continue` that does not advance
      `batch_index`. */
  function FinaliseAsWritten(s: BeamState, p: BeamParams, pow: Pow, hyps: seq<BeamHypotheses>, b: nat, fuel: nat)
    : (r: Option<seq<BeamHypotheses>>)
    requires BeamShaped(s, p) && Bookkeeping(hyps, s.done, p) && b < p.batchSize
    ensures r.Some? ==> forall j :: b <= j < p.batchSize ==> !s.done[j]
    ensures r.Some? ==> |r.value| == p.batchSize && forall j :: 0 <= j < b ==> r.value[j] == hyps[j]
    ensures r.Some? ==> forall j :: b <= j < p.batchSize ==> r.value[j] == AddAll(hyps[j], FinalEntries(s, j, p), pow)
    ensures (forall j :: b <= j < p.batchSize ==> !s.done[j]) && fuel >= p.batchSize - b ==> r.Some?
    decreases fuel
  {
    if fuel == 0 then None
    else if s.done[b] then FinaliseAsWritten(s, p, pow, hyps, b, fuel - 1)
    else
      var hyps' := hyps[b := AddAll(hyps[b], FinalEntries(s, b, p), pow)];
      if b + 1 == p.batchSize then Some(hyps')
      else FinaliseAsWritten(s, p, pow, hyps', b + 1, fuel - 1)
  }

  /** As written, the loop never ends once it meets a done item, whatever
      the budget; a done item exists whenever the main loop broke early. */
  lemma {:induction false} FinaliseAsWrittenSpins(s: BeamState, p: BeamParams, pow: Pow, hyps: seq<BeamHypotheses>,
                                                  b: nat, fuel: nat, d: nat)
    requires BeamShaped(s, p) && Bookkeeping(hyps, s.done, p) && b <= d < p.batchSize && s.done[d]
    ensures FinaliseAsWritten(s, p, pow, hyps, b, fuel) == None
    decreases fuel
  {
    if fuel > 0 {
      if s.done[b] {
        FinaliseAsWrittenSpins(s, p, pow, hyps, b, fuel - 1, d);
      } else {
        var hyps' := hyps[b := AddAll(hyps[b], FinalEntries(s, b, p), pow)];
        FinaliseAsWrittenSpins(s, p, pow, hyps', b + 1, fuel - 1, d);
      }
    }
  }

  /** Whenever the finalisation loop as written ends, it ends where the
      intended one does: no item is done, and every item offers its rows. */
  lemma FinaliseAsWrittenAgrees(s: BeamState, p: BeamParams, pow: Pow)
    requires BeamShaped(s, p) && p.batchSize > 0
    ensures var a := FinaliseAsWritten(s, p, pow, s.hyps, 0, p.batchSize);
      a.Some? ==> a.value == Finalise(s, p, pow)
    ensures (forall b :: 0 <= b < p.batchSize ==> !s.done[b]) ==> FinaliseAsWritten(s, p, pow, s.hyps, 0, p.batchSize).Some?
  {
    var a := FinaliseAsWritten(s, p, pow, s.hyps, 0, p.batchSize);
    if a.Some? {
      var f := Finalise(s, p, pow);
      assert |a.value| == |f|;
      forall b | 0 <= b < p.batchSize
        ensures a.value[b] == f[b]
      {
        assert !s.done[b];
      }
    }
  }

  /** The finalisation of the decoder's reading: as written it may never
      end, and when it ends it agrees with the intended one. */
  function FinalHypotheses(s: BeamState, p: BeamParams, pow: Pow): (r: Option<seq<BeamHypotheses>>)
    requires BeamShaped(s, p) && p.batchSize > 0
    ensures r.Some? ==> r.value == Finalise(s, p, pow)
    ensures r.None? <==> p.reading == AsWritten && exists b :: 0 <= b < p.batchSize && s.done[b]
  {
    match p.reading
    case Corrected => Some(Finalise(s, p, pow))
    case AsWritten =>
      FinaliseAsWrittenAgrees(s, p, pow);
      assert (exists b :: 0 <= b < p.batchSize && s.done[b]) ==> FinaliseAsWritten(s, p, pow, s.hyps, 0, p.batchSize).None?;
      FinaliseAsWritten(s, p, pow, s.hyps, 0, p.batchSize)
  }

  /** The finalisation as intended: done items are skipped, every other
      item offers each of its rows with its running score. Afterwards every
      item holds `num_beams` hypotheses. */
  function Finalise(s: BeamState, p: BeamParams, pow: Pow): (r: seq<BeamHypotheses>)
    requires BeamShaped(s, p)
    ensures |r| == p.batchSize
    ensures forall b :: 0 <= b < p.batchSize ==> Settled(r[b], p) && |r[b].beams| == p.numBeams
    ensures forall b :: 0 <= b < p.batchSize && s.done[b] ==> r[b] == s.hyps[b]
    ensures forall b :: 0 <= b < p.batchSize && !s.done[b] ==> r[b] == AddAll(s.hyps[b], FinalEntries(s, b, p), pow)
  {
    seq(p.batchSize, b requires 0 <= b < p.batchSize =>
      if s.done[b] then s.hyps[b] else AddAll(s.hyps[b], FinalEntries(s, b, p), pow))
  }


  // ---------------------------------------------------------------------
  // The whole decoder

  /** The state before the first step: the expanded prompts, the seeded
      beam scores, empty hypothesis lists and no item done. */
  function InitialState(ids: seq<seq<int>>, w0: nat, p: BeamParams): (s: BeamState)
    requires |ids| == p.batchSize * p.numBeams && Rectangular(ids, w0)
    ensures BeamShaped(s, p) && s.ids == ids && s.curLen == w0 && !s.stopped
    ensures forall b :: 0 <= b < p.batchSize ==> !s.done[b] && |s.hyps[b].beams| == 0
  {
    BeamState(ids, InitialBeamScores(p.batchSize, p.numBeams, p.doSample),
              Repeat(New(p.numBeams, p.maxLength, p.lengthPenalty, p.earlyStopping), p.batchSize),
              Repeat(false, p.batchSize), w0, false)
  }

  /** Sequences returned per item: one when sampling (the batch is already
      expanded by the number of returned sequences), otherwise
      `num_return_sequences`. */
  function PerItem(p: BeamParams): (n: nat)
    ensures n == 1 || n == p.numReturnSequences
    ensures p.doSample ==> n == 1
  {
    if p.doSample then 1 else p.numReturnSequences
  }

  /** `generate_beam_search` on `batch_size * num_beams` prompt rows of
      width `w0`: the loop, the finalisation of the reading, the `PerItem` best
      hypotheses of every item, and the padded output. Every returned row
      has the same length, there are `PerItem` rows per item, and since
      finalisation leaves `num_beams` hypotheses in every item the best ones
      never run out while at most `num_beams` are asked for. */
  function GenerateBeamSearch(ids: seq<seq<int>>, w0: nat, p: BeamParams, k: Kernels, pow: Pow): (r: Result<seq<seq<int>>>)
    requires ParamsOk(p, k) && |ids| == p.batchSize * p.numBeams && Rectangular(ids, w0)
    ensures r.Ok? ==> |r.value| == p.batchSize * PerItem(p)
    ensures r.Ok? ==> |r.value| > 0 && Rectangular(r.value, |r.value[0]|)
    ensures PerItem(p) <= p.numBeams && r.Err? ==> r.failure != NoHypothesisLeft
    ensures r.Err? && p.reading == Corrected ==> r.failure != Spins && r.failure != ViewMismatch
  {
    Finish(Run(InitialState(ids, w0, p), p, k, pow), p, pow)
  }

  /** The end of `generate_beam_search` once the loop has run: its failure,
      or the outputs. */
  function Finish(run: Result<BeamState>, p: BeamParams, pow: Pow): (r: Result<seq<seq<int>>>)
    requires p.batchSize >= 1 && p.numReturnSequences >= 1
    requires run.Ok? ==> BeamShaped(run.value, p)
    requires run.Err? ==> PassFailure(run.failure, p.reading)
    ensures r.Ok? ==> |r.value| == p.batchSize * PerItem(p)
    ensures r.Ok? ==> |r.value| > 0 && Rectangular(r.value, |r.value[0]|)
    ensures PerItem(p) <= p.numBeams && r.Err? ==> r.failure != NoHypothesisLeft
    ensures r.Err? && p.reading == Corrected ==> r.failure != Spins && r.failure != ViewMismatch
  {
    if run.Err? then Err(run.failure) else Outputs(run.value, p, pow)
  }

  /** What follows the loop: the finalisation, then the best hypotheses,
      padded. */
  function Outputs(s: BeamState, p: BeamParams, pow: Pow): (r: Result<seq<seq<int>>>)
    requires BeamShaped(s, p) && p.batchSize >= 1 && p.numReturnSequences >= 1
    ensures r.Ok? ==> |r.value| == p.batchSize * PerItem(p)
    ensures r.Ok? ==> |r.value| > 0 && Rectangular(r.value, |r.value[0]|)
    ensures PerItem(p) <= p.numBeams && r.Err? ==> r.failure != NoHypothesisLeft
    ensures r.Err? && p.reading == Corrected ==> r.failure != Spins && r.failure != ViewMismatch
  {
    match FinalHypotheses(s, p, pow)
    case None => Err(Spins)
    case Some(hyps) => Decoded(hyps, PerItem(p), p.maxLength, p.pad, p.eos)
  }

  // ---------------------------------------------------------------------
  // The two readings side by side

  /** The decoder with its reading replaced. */
  function Read(p: BeamParams, v: Variant): (q: BeamParams)
    ensures q.reading == v && q.(reading := p.reading) == p
    ensures forall k :: ParamsOk(q, k) == ParamsOk(p, k)
    ensures forall h :: Settled(h, q) == Settled(h, p)
    ensures forall hyps, done :: Bookkeeping(hyps, done, q) == Bookkeeping(hyps, done, p)
    ensures forall s :: BeamShaped(s, q) == BeamShaped(s, p)
  {
    p.(reading := v)
  }

  /** With the penalty off or one beam per item, the rows the penalty
      covers do not matter. */
  lemma PassLogitsAlike(ids: seq<seq<int>>, p: BeamParams, k: Kernels)
    requires Sound(k, p.vocab) && |ids| == p.batchSize * p.numBeams
    requires p.repetitionPenalty <= 1.0 || p.numBeams == 1
    ensures PassLogits(ids, p, k) == PassLogits(ids, Read(p, Corrected), k)
  {
    var q := Read(p, Corrected);
    var m := PenalisedRows(p, |ids|);
    assert PassLogits(ids, q, k) == BeamLogits(ids, q, k, |ids|);
    assert BeamLogits(ids, p, k, m) == BeamLogits(ids, q, k, m);
    if p.numBeams != 1 {
      var logits := k.forward(ids);
      assert BeamLogits(ids, q, k, m) == Ok(Temper(logits, p.temperature));
      assert BeamLogits(ids, q, k, |ids|) == Ok(Temper(logits, p.temperature));
    }
  }

  /** Where both readings ban alike, they block alike. */
  lemma BlockScoresAlike(scores: seq<seq<Score>>, ids: seq<seq<int>>, curLen: nat, p: BeamParams)
    requires |scores| == |ids| > 0 && Rectangular(scores, p.vocab)
    requires BannedTokens(p.reading, ids, p.noRepeatNgramSize, curLen) == BannedTokens(Corrected, ids, p.noRepeatNgramSize, curLen)
    ensures BlockScores(scores, ids, curLen, p) == BlockScores(scores, ids, curLen, Read(p, Corrected))
  {
  }

  /** Where both readings compute the same logits and ban alike, they
      score alike. */
  lemma StepScoresAlike(ids: seq<seq<int>>, beamScores: seq<Score>, curLen: nat, p: BeamParams, k: Kernels)
    requires Sound(k, p.vocab) && |ids| > 0 && |beamScores| == |ids|
    requires PassLogits(ids, p, k) == PassLogits(ids, Read(p, Corrected), k)
    requires BannedTokens(p.reading, ids, p.noRepeatNgramSize, curLen) == BannedTokens(Corrected, ids, p.noRepeatNgramSize, curLen)
    ensures StepScores(ids, beamScores, curLen, p, k) == StepScores(ids, beamScores, curLen, Read(p, Corrected), k)
  {
    match PassLogits(ids, p, k)
    case Err(_) =>
    case Ok(logits) =>
      if !(p.vocab < 2 || (p.doSample && p.topP < 1.0 && p.vocab <= 2)) {
        var logProbs := seq(|ids|, i requires 0 <= i < |ids| => k.logSoftmax(logits[i]));
        BlockScoresAlike(logProbs, ids, curLen, p);
      }
  }

  /** With banning off or at size three, and the penalty off or one beam
      per item, both readings score a pass alike. */
  lemma PassScoresAlike(s: BeamState, p: BeamParams, k: Kernels)
    requires ParamsOk(p, k) && BeamShaped(s, p)
    requires p.noRepeatNgramSize == 0 || p.noRepeatNgramSize == 3
    requires p.repetitionPenalty <= 1.0 || p.numBeams == 1
    ensures PassScores(s, p, k) == PassScores(s, Read(p, Corrected), k)
  {
    assert PassLogits(s.ids, p, k) == PassLogits(s.ids, Read(p, Corrected), k) by {
      PassLogitsAlike(s.ids, p, k);
    }
    assert BannedTokens(p.reading, s.ids, p.noRepeatNgramSize, s.curLen)
        == BannedTokens(Corrected, s.ids, p.noRepeatNgramSize, s.curLen) by {
      ReadingsAgreeAtZeroAndThree(s.ids, p.noRepeatNgramSize, s.curLen);
    }
    StepScoresAlike(s.ids, s.beamScores, s.curLen, p, k);
  }

  /** For an item still decoding, the item body as written agrees with the
      intended one whenever it returns. */
  lemma ItemOutcomesAlike(hyp: BeamHypotheses, c: ItemContext, pad: Option<int>, curLen: nat)
    requires ContextOk(c) && Valid(hyp) && hyp.numBeams == c.numBeams
    requires ItemOutcome(false, hyp, c, pad, curLen, AsWritten).Ok?
    ensures ItemOutcome(false, hyp, c, pad, curLen, AsWritten) == ItemOutcome(false, hyp, c, pad, curLen, Corrected)
  {
    ProcessItemAsWrittenAgrees(hyp, c, pad, curLen, |c.cands|);
    var item := ProcessItemAsWritten(false, hyp, c, pad, curLen, |c.cands|).value;
    assert item.entries[..c.numBeams] == item.entries;
  }

  /** A sweep over items that are all still decoding agrees between the
      readings whenever the one as written gets through. */
  lemma {:induction false} ProcessItemsAlike(ids: seq<seq<int>>, next: seq<seq<Score>>, curLen: nat, p: BeamParams,
                                             k: Kernels, pow: Pow, b: nat, acc: Sweep)
    requires ParamsOk(p, k) && p.vocab >= 2 && b <= p.batchSize
    requires |ids| == p.batchSize * p.numBeams && |next| == |ids| && Rectangular(next, p.vocab)
    requires Bookkeeping(acc.hyps, acc.done, p) && |acc.entries| == b * p.numBeams
    requires forall e :: e in acc.entries ==> 0 <= e.row < |ids|
    requires forall j :: b <= j < p.batchSize ==> !acc.done[j]
    requires ProcessItems(ids, next, curLen, p, k, pow, b, acc).Ok?
    ensures ProcessItems(ids, next, curLen, p, k, pow, b, acc) == ProcessItems(ids, next, curLen, Read(p, Corrected), k, pow, b, acc)
    decreases p.batchSize - b
  {
    if b < p.batchSize {
      var acc' := SweepAlikeStep(ids, next, curLen, p, Read(p, Corrected), k, pow, b, acc);
      ProcessItemsAlike(ids, next, curLen, p, k, pow, b + 1, acc');
    }
  }

  /** One step of such a sweep: both readings move on to the same sweep. */
  lemma SweepAlikeStep(ids: seq<seq<int>>, next: seq<seq<Score>>, curLen: nat, p: BeamParams, q: BeamParams,
                       k: Kernels, pow: Pow, b: nat, acc: Sweep) returns (acc': Sweep)
    requires q == Read(p, Corrected)
    requires ParamsOk(p, k) && p.vocab >= 2 && b < p.batchSize
    requires |ids| == p.batchSize * p.numBeams && |next| == |ids| && Rectangular(next, p.vocab)
    requires Bookkeeping(acc.hyps, acc.done, p) && |acc.entries| == b * p.numBeams
    requires forall e :: e in acc.entries ==> 0 <= e.row < |ids|
    requires forall j :: b <= j < p.batchSize ==> !acc.done[j]
    requires ProcessItems(ids, next, curLen, p, k, pow, b, acc).Ok?
    ensures Bookkeeping(acc'.hyps, acc'.done, p) && |acc'.entries| == (b + 1) * p.numBeams
    ensures forall e :: e in acc'.entries ==> 0 <= e.row < |ids|
    ensures forall j :: b + 1 <= j < p.batchSize ==> !acc'.done[j]
    ensures ItemStep(ids, next, curLen, p, k, pow, b, acc) == Ok(acc')
    ensures ItemStep(ids, next, curLen, q, k, pow, b, acc) == Ok(acc')
  {
    acc' := ItemStep(ids, next, curLen, p, k, pow, b, acc).value;
    ItemStepAlike(ids, next, curLen, p, k, pow, b, acc);
  }

  /** One item still decoding is processed alike by both readings whenever
      the one as written gets through. */
  lemma ItemStepAlike(ids: seq<seq<int>>, next: seq<seq<Score>>, curLen: nat, p: BeamParams, k: Kernels, pow: Pow,
                      b: nat, acc: Sweep)
    requires ParamsOk(p, k) && p.vocab >= 2 && b < p.batchSize
    requires |ids| == p.batchSize * p.numBeams && |next| == |ids| && Rectangular(next, p.vocab)
    requires Bookkeeping(acc.hyps, acc.done, p) && |acc.entries| == b * p.numBeams
    requires forall e :: e in acc.entries ==> 0 <= e.row < |ids|
    requires !acc.done[b] && ItemStep(ids, next, curLen, p, k, pow, b, acc).Ok?
    ensures ItemStep(ids, next, curLen, p, k, pow, b, acc) == ItemStep(ids, next, curLen, Read(p, Corrected), k, pow, b, acc)
  {
    var q := Read(p, Corrected);
    var c := ItemContextAt(ids, next, b, p, k, pow);
    assert c == ItemContextAt(ids, next, b, q, k, pow);
    if p.reading == AsWritten {
      ItemOutcomesAlike(acc.hyps[b], c, p.pad, curLen);
    }
  }

  /** A pass agrees between the readings whenever the one as written gets
      through. */
  lemma AdvanceAlike(s: BeamState, next: seq<seq<Score>>, p: BeamParams, k: Kernels, pow: Pow)
    requires ParamsOk(p, k) && BeamShaped(s, p) && !s.stopped
    requires p.vocab >= 2 && |next| == |s.ids| && Rectangular(next, p.vocab)
    requires Advance(s, next, p, k, pow).Ok?
    ensures Advance(s, next, p, k, pow) == Advance(s, next, Read(p, Corrected), k, pow)
  {
    var q := Read(p, Corrected);
    if p.reading == AsWritten {
      var acc := Sweep([], s.hyps, s.done);
      var sweep := ProcessItems(s.ids, next, s.curLen, p, k, pow, 0, acc);
      assert sweep.Ok? && forall b :: 0 <= b < p.batchSize ==> !s.done[b];
      assert sweep == ProcessItems(s.ids, next, s.curLen, q, k, pow, 0, acc) by {
        ProcessItemsAlike(s.ids, next, s.curLen, p, k, pow, 0, acc);
      }
      assert Advance(s, next, p, k, pow) == Ok(Conclude(s, sweep.value, p));
      assert Conclude(s, sweep.value, p) == Conclude(s, sweep.value, q);
    } else {
      assert q == p;
    }
  }

  /** With banning off or at size three, and the penalty off or one beam
      per item, the loop as written, whenever it gets through, ends where
      the intended one does. */
  lemma {:induction false} RunsAlike(s: BeamState, p: BeamParams, k: Kernels, pow: Pow)
    requires ParamsOk(p, k) && BeamShaped(s, p)
    requires p.noRepeatNgramSize == 0 || p.noRepeatNgramSize == 3
    requires p.repetitionPenalty <= 1.0 || p.numBeams == 1
    requires Run(s, p, k, pow).Ok?
    ensures Run(s, p, k, pow) == Run(s, Read(p, Corrected), k, pow)
    decreases p.maxLength - s.curLen, if s.stopped then 0 else 1
  {
    var q := Read(p, Corrected);
    if !(s.stopped || s.curLen >= p.maxLength) {
      var step := BeamStep(s, p, k, pow);
      assert step.Ok?;
      PassScoresAlike(s, p, k);
      var next := PassScores(s, p, k).value;
      assert step == Advance(s, next, p, k, pow);
      AdvanceAlike(s, next, p, k, pow);
      assert step == BeamStep(s, q, k, pow);
      assert Run(s, p, k, pow) == Run(step.value, p, k, pow);
      assert Run(s, q, k, pow) == Run(step.value, q, k, pow);
      RunsAlike(step.value, p, k, pow);
    }
  }

  /** With banning off or at size three, and the penalty off or one beam
      per item, beam search as written, whenever it returns, returns what
      the intended one does. */
  lemma ReadingsDecodeAlike(ids: seq<seq<int>>, w0: nat, p: BeamParams, k: Kernels, pow: Pow)
    requires ParamsOk(p, k) && |ids| == p.batchSize * p.numBeams && Rectangular(ids, w0)
    requires p.noRepeatNgramSize == 0 || p.noRepeatNgramSize == 3
    requires p.repetitionPenalty <= 1.0 || p.numBeams == 1
    requires GenerateBeamSearch(ids, w0, p, k, pow).Ok?
    ensures GenerateBeamSearch(ids, w0, p, k, pow) == GenerateBeamSearch(ids, w0, Read(p, Corrected), k, pow)
  {
    var q := Read(p, Corrected);
    var s0 := InitialState(ids, w0, p);
    assert s0 == InitialState(ids, w0, q);
    var run := Run(s0, p, k, pow);
    assert run.Ok?;
    RunsAlike(s0, p, k, pow);
    var s := run.value;
    assert GenerateBeamSearch(ids, w0, p, k, pow) == Outputs(s, p, pow);
    assert GenerateBeamSearch(ids, w0, q, k, pow) == Outputs(s, q, pow);
    OutputsAlike(s, p, pow);
  }

  /** The finalisation as written, whenever it ends, gives the outputs the
      intended one does. */
  lemma OutputsAlike(s: BeamState, p: BeamParams, pow: Pow)
    requires BeamShaped(s, p) && p.batchSize >= 1 && p.numReturnSequences >= 1
    requires Outputs(s, p, pow).Ok?
    ensures Outputs(s, p, pow) == Outputs(s, Read(p, Corrected), pow)
  {
    var q := Read(p, Corrected);
    assert BeamShaped(s, q);
    var h := FinalHypotheses(s, p, pow);
    assert h.Some? && h.value == Finalise(s, p, pow);
    assert FinalHypotheses(s, q, pow) == Some(Finalise(s, q, pow));
    FinaliseAlike(s, p, pow);
    assert PerItem(p) == PerItem(q);
  }

  /** The intended finalisation does not read the reading. */
  lemma FinaliseAlike(s: BeamState, p: BeamParams, pow: Pow)
    requires BeamShaped(s, p)
    ensures Finalise(s, p, pow) == Finalise(s, Read(p, Corrected), pow)
  {
    var q := Read(p, Corrected);
    assert BeamShaped(s, q);
    forall b | 0 <= b < p.batchSize
      ensures FinalEntries(s, b, p) == FinalEntries(s, b, q)
    {
    }
  }

  // ---------------------------------------------------------------------
  // Every output continues a prompt of its own item

  /** `t` continues one of the prompt rows of item `b`. */
  ghost predicate FromItem(t: seq<int>, ids0: seq<seq<int>>, b: nat, n: nat) {
    exists j :: 0 <= j < n && Flat(b, j, n) < |ids0| && ids0[Flat(b, j, n)] <= t
  }

  /** Continuing a continuation of a prompt row continues the prompt row. */
  lemma FromItemExtends(t: seq<int>, u: seq<int>, ids0: seq<seq<int>>, b: nat, n: nat)
    requires FromItem(t, ids0, b, n) && t <= u
    ensures FromItem(u, ids0, b, n)
  {
    var j :| 0 <= j < n && Flat(b, j, n) < |ids0| && ids0[Flat(b, j, n)] <= t;
    assert ids0[Flat(b, j, n)] <= u;
  }

  /** Every hypothesis of `h` continues a prompt row of item `b`. */
  ghost predicate HeldFromItem(h: BeamHypotheses, ids0: seq<seq<int>>, b: nat, n: nat) {
    forall x :: x in h.beams ==> FromItem(x.tokens, ids0, b, n)
  }

  /** The rows of the walk's item continue its prompt rows. */
  ghost predicate ContextFromItem(c: ItemContext, ids0: seq<seq<int>>) {
    forall t :: 0 <= t < c.numBeams && Flat(c.item, t, c.numBeams) < |c.ids| ==>
      FromItem(c.ids[Flat(c.item, t, c.numBeams)], ids0, c.item, c.numBeams)
  }

  /** A pass of the walk adds only rows of its own item. */
  lemma WalkBodyFromItem(w: WalkState, c: ItemContext, ids0: seq<seq<int>>)
    requires ContextOk(c) && w.rank < |c.cands| && Valid(w.hyp)
    requires HeldFromItem(w.hyp, ids0, c.item, c.numBeams) && ContextFromItem(c, ids0)
    ensures HeldFromItem(WalkBody(w, c).state.hyp, ids0, c.item, c.numBeams)
  {
    var e := EntryAt(c, w.rank);
    if IsEosAt(c, w.rank) && w.rank <= c.numBeams {
      AddOffersOnly(w.hyp, c.ids[e.row], e.score, c.pow);
      var t :| 0 <= t < c.numBeams && e.row == Flat(c.item, t, c.numBeams);
      assert FromItem(c.ids[e.row], ids0, c.item, c.numBeams);
    }
  }

  /** The corrected walk adds only rows of its own item. */
  lemma {:induction false} WalkFromItem(w: WalkState, c: ItemContext, ids0: seq<seq<int>>)
    requires ContextOk(c) && w.rank < |c.cands| && Valid(w.hyp)
    requires w.next == Pushed(c, w.rank) && |w.next| < c.numBeams
    requires HeldFromItem(w.hyp, ids0, c.item, c.numBeams) && ContextFromItem(c, ids0)
    ensures HeldFromItem(Walk(w, c).hyp, ids0, c.item, c.numBeams)
    decreases |c.cands| - w.rank, 1
  {
    if IsEosAt(c, w.rank) && w.rank > c.numBeams {
      SkipFromItem(w, c, ids0);
    } else {
      PassFromItem(w, c, ids0);
    }
  }

  /** The same, for a skipped end-of-sequence candidate. */
  lemma {:induction false} SkipFromItem(w: WalkState, c: ItemContext, ids0: seq<seq<int>>)
    requires ContextOk(c) && w.rank < |c.cands| && Valid(w.hyp)
    requires w.next == Pushed(c, w.rank) && |w.next| < c.numBeams
    requires HeldFromItem(w.hyp, ids0, c.item, c.numBeams) && ContextFromItem(c, ids0)
    requires IsEosAt(c, w.rank) && w.rank > c.numBeams
    ensures HeldFromItem(Walk(w, c).hyp, ids0, c.item, c.numBeams)
    decreases |c.cands| - w.rank, 0
  {
    var w' := WalkSkips(w, c);
    if w.rank < |c.cands| - 1 {
      WalkFromItem(w', c, ids0);
    }
  }

  /** The same, for a pass of the loop body. */
  lemma {:induction false} PassFromItem(w: WalkState, c: ItemContext, ids0: seq<seq<int>>)
    requires ContextOk(c) && w.rank < |c.cands| && Valid(w.hyp)
    requires w.next == Pushed(c, w.rank) && |w.next| < c.numBeams
    requires HeldFromItem(w.hyp, ids0, c.item, c.numBeams) && ContextFromItem(c, ids0)
    requires !(IsEosAt(c, w.rank) && w.rank > c.numBeams)
    ensures HeldFromItem(Walk(w, c).hyp, ids0, c.item, c.numBeams)
    decreases |c.cands| - w.rank, 0
  {
    WalkFollowsBody(w, c);
    WalkBodyFromItem(w, c, ids0);
    if WalkBody(w, c).Continue? {
      WalkFromItem(WalkBody(w, c).state, c, ids0);
    }
  }

  /** An item still decoding takes its entries and its new hypotheses
      from its own rows; a done item keeps its hypotheses. */
  lemma ItemFromItem(done: bool, hyp: BeamHypotheses, c: ItemContext, pad: Option<int>, curLen: nat, v: Variant,
                     ids0: seq<seq<int>>)
    requires ContextOk(c) && Valid(hyp) && hyp.numBeams == c.numBeams
    requires ItemOutcome(done, hyp, c, pad, curLen, v).Ok?
    requires v == AsWritten ==> !done
    requires HeldFromItem(hyp, ids0, c.item, c.numBeams)
    requires !done ==> ContextFromItem(c, ids0)
    ensures HeldFromItem(ItemOutcome(done, hyp, c, pad, curLen, v).value.hyp, ids0, c.item, c.numBeams)
    ensures !done ==> forall e :: e in ItemOutcome(done, hyp, c, pad, curLen, v).value.entries ==>
      InBlock(e.row, c.item, c.numBeams)
  {
    if v == AsWritten {
      ItemOutcomesAlike(hyp, c, pad, curLen);
    }
    var r := ProcessItem(done, hyp, c, pad, curLen);
    assert ItemOutcome(done, hyp, c, pad, curLen, v) == r;
    if !done {
      var w0 := WalkState(0, [], hyp);
      assert w0.next == Pushed(c, 0);
      WalkFromItem(w0, c, ids0);
      var all := Pushed(c, |c.cands|);
      PushedInBlock(c, |c.cands|);
      assert r.value.entries == all[..c.numBeams];
      assert forall e :: e in all[..c.numBeams] ==> e in all;
    }
  }

  /** After the items before `b`: every item's hypotheses continue its
      prompt rows, and every entry of an item not done before the pass
      extends one of its own rows. */
  ghost predicate SweepFromItems(acc: Sweep, ids0: seq<seq<int>>, done0: seq<bool>, b: nat, p: BeamParams)
    requires |acc.hyps| == p.batchSize && |done0| == p.batchSize && b <= p.batchSize
  {
    && (forall j :: 0 <= j < p.batchSize ==> HeldFromItem(acc.hyps[j], ids0, j, p.numBeams))
    && (forall j, t :: 0 <= j < b && 0 <= t < p.numBeams && !done0[j] ==>
          Flat(j, t, p.numBeams) < |acc.entries| && InBlock(acc.entries[Flat(j, t, p.numBeams)].row, j, p.numBeams))
  }

  /** The rows of every item not done continue its prompt rows. */
  ghost predicate RowsFromItems(ids: seq<seq<int>>, done: seq<bool>, ids0: seq<seq<int>>, p: BeamParams)
    requires |done| == p.batchSize
  {
    forall j, t :: 0 <= j < p.batchSize && 0 <= t < p.numBeams && !done[j] ==>
      Flat(j, t, p.numBeams) < |ids| && FromItem(ids[Flat(j, t, p.numBeams)], ids0, j, p.numBeams)
  }

  /** One item keeps the sweep rooted. */
  lemma ItemStepFromItem(ids: seq<seq<int>>, next: seq<seq<Score>>, curLen: nat, p: BeamParams, k: Kernels, pow: Pow,
                         b: nat, acc: Sweep, ids0: seq<seq<int>>, done0: seq<bool>)
    requires ParamsOk(p, k) && p.vocab >= 2 && b < p.batchSize
    requires |ids| == p.batchSize * p.numBeams && |next| == |ids| && Rectangular(next, p.vocab)
    requires Bookkeeping(acc.hyps, acc.done, p) && |acc.entries| == b * p.numBeams
    requires forall e :: e in acc.entries ==> 0 <= e.row < |ids|
    requires |done0| == p.batchSize && acc.done[b] == done0[b] && (p.reading == AsWritten ==> !done0[b])
    requires RowsFromItems(ids, done0, ids0, p) && SweepFromItems(acc, ids0, done0, b, p)
    requires ItemStep(ids, next, curLen, p, k, pow, b, acc).Ok?
    ensures SweepFromItems(ItemStep(ids, next, curLen, p, k, pow, b, acc).value, ids0, done0, b + 1, p)
  {
    var c := ItemContextAt(ids, next, b, p, k, pow);
    var item := ItemOutcome(acc.done[b], acc.hyps[b], c, p.pad, curLen, p.reading).value;
    assert ItemStep(ids, next, curLen, p, k, pow, b, acc) == Ok(Absorb(acc, item, b, p, |ids|));
    assert !done0[b] ==> ContextFromItem(c, ids0);
    ItemFromItem(acc.done[b], acc.hyps[b], c, p.pad, curLen, p.reading, ids0);
    AbsorbFromItem(acc, item, b, p, |ids|, ids0, done0);
  }

  /** Storing an item whose entries and hypotheses come from its own rows
      keeps the sweep rooted. */
  lemma AbsorbFromItem(acc: Sweep, item: ItemResult, b: nat, p: BeamParams, rows: nat, ids0: seq<seq<int>>,
                       done0: seq<bool>)
    requires b < p.batchSize && Bookkeeping(acc.hyps, acc.done, p) && |acc.entries| == b * p.numBeams
    requires forall e :: e in acc.entries ==> 0 <= e.row < rows
    requires |item.entries| == p.numBeams && forall e :: e in item.entries ==> 0 <= e.row < rows
    requires Valid(item.hyp) && SameSettings(item.hyp, acc.hyps[b])
    requires (acc.done[b] ==> item.done) && (item.done ==> |item.hyp.beams| == p.numBeams)
    requires |done0| == p.batchSize && SweepFromItems(acc, ids0, done0, b, p)
    requires HeldFromItem(item.hyp, ids0, b, p.numBeams)
    requires !done0[b] ==> forall e :: e in item.entries ==> InBlock(e.row, b, p.numBeams)
    ensures SweepFromItems(Absorb(acc, item, b, p, rows), ids0, done0, b + 1, p)
  {
    var acc' := Absorb(acc, item, b, p, rows);
    assert acc'.entries == acc.entries + item.entries;
    forall j, t | 0 <= j < b + 1 && 0 <= t < p.numBeams && !done0[j]
      ensures Flat(j, t, p.numBeams) < |acc'.entries| && InBlock(acc'.entries[Flat(j, t, p.numBeams)].row, j, p.numBeams)
    {
      FlatIndex(j, t, p.numBeams, b + 1);
      if j == b {
        assert acc'.entries[Flat(j, t, p.numBeams)] == item.entries[t];
        assert item.entries[t] in item.entries;
      } else {
        FlatIndex(j, t, p.numBeams, b);
      }
    }
  }

  /** What the sweep from item `b` needs to keep the items rooted: the
      shape the loop needs, the flags of the items still to come as they
      were when the pass began, and the items so far rooted. */
  ghost predicate RootedSweep(ids: seq<seq<int>>, next: seq<seq<Score>>, p: BeamParams, k: Kernels, b: nat, acc: Sweep,
                              ids0: seq<seq<int>>, done0: seq<bool>) {
    && ParamsOk(p, k) && p.vocab >= 2 && b <= p.batchSize
    && |ids| == p.batchSize * p.numBeams && |next| == |ids| && Rectangular(next, p.vocab)
    && Bookkeeping(acc.hyps, acc.done, p) && |acc.entries| == b * p.numBeams
    && (forall e :: e in acc.entries ==> 0 <= e.row < |ids|)
    && |done0| == p.batchSize && (forall j :: b <= j < p.batchSize ==> acc.done[j] == done0[j])
    && (p.reading == AsWritten ==> forall j :: b <= j < p.batchSize ==> !done0[j])
    && RowsFromItems(ids, done0, ids0, p) && SweepFromItems(acc, ids0, done0, b, p)
  }

  /** The sweep of a pass keeps every item rooted in its prompt rows. */
  lemma {:induction false} ProcessItemsFromItems(ids: seq<seq<int>>, next: seq<seq<Score>>, curLen: nat, p: BeamParams,
                                                 k: Kernels, pow: Pow, b: nat, acc: Sweep, ids0: seq<seq<int>>,
                                                 done0: seq<bool>, r: Sweep)
    requires RootedSweep(ids, next, p, k, b, acc, ids0, done0)
    requires ProcessItems(ids, next, curLen, p, k, pow, b, acc) == Ok(r)
    ensures SweepFromItems(r, ids0, done0, p.batchSize, p)
    decreases p.batchSize - b
  {
    if b < p.batchSize {
      var acc' := SweepAdvances(ids, next, curLen, p, k, pow, b, acc, ids0, done0);
      ProcessItemsFromItems(ids, next, curLen, p, k, pow, b + 1, acc', ids0, done0, r);
    }
  }

  /** The sweep after item `b`, with everything the rest of the sweep
      needs to stay rooted. */
  lemma SweepAdvances(ids: seq<seq<int>>, next: seq<seq<Score>>, curLen: nat, p: BeamParams, k: Kernels, pow: Pow,
                      b: nat, acc: Sweep, ids0: seq<seq<int>>, done0: seq<bool>) returns (acc': Sweep)
    requires RootedSweep(ids, next, p, k, b, acc, ids0, done0) && b < p.batchSize
    requires ItemStep(ids, next, curLen, p, k, pow, b, acc).Ok?
    ensures ItemStep(ids, next, curLen, p, k, pow, b, acc) == Ok(acc')
    ensures RootedSweep(ids, next, p, k, b + 1, acc', ids0, done0)
  {
    acc' := ItemStep(ids, next, curLen, p, k, pow, b, acc).value;
    ItemStepFromItem(ids, next, curLen, p, k, pow, b, acc, ids0, done0);
  }

  /** Every hypothesis, and every row of an item not done, continues a
      prompt row of its own item. */
  ghost predicate Rooted(s: BeamState, ids0: seq<seq<int>>, p: BeamParams)
    requires BeamShaped(s, p)
  {
    && (forall j :: 0 <= j < p.batchSize ==> HeldFromItem(s.hyps[j], ids0, j, p.numBeams))
    && RowsFromItems(s.ids, s.done, ids0, p)
  }

  /** A pass keeps the state rooted in the prompts. */
  lemma AdvanceFromItems(s: BeamState, next: seq<seq<Score>>, p: BeamParams, k: Kernels, pow: Pow, ids0: seq<seq<int>>)
    requires ParamsOk(p, k) && BeamShaped(s, p) && !s.stopped
    requires p.vocab >= 2 && |next| == |s.ids| && Rectangular(next, p.vocab)
    requires Rooted(s, ids0, p) && Advance(s, next, p, k, pow).Ok?
    ensures Rooted(Advance(s, next, p, k, pow).value, ids0, p)
  {
    var acc := Sweep([], s.hyps, s.done);
    var sweep := ProcessItems(s.ids, next, s.curLen, p, k, pow, 0, acc);
    assert sweep.Ok?;
    ProcessItemsFromItems(s.ids, next, s.curLen, p, k, pow, 0, acc, ids0, s.done, sweep.value);
    var r := Conclude(s, sweep.value, p);
    assert Advance(s, next, p, k, pow) == Ok(r);
    if !r.stopped {
      forall j, t | 0 <= j < p.batchSize && 0 <= t < p.numBeams && !r.done[j]
        ensures Flat(j, t, p.numBeams) < |r.ids| && FromItem(r.ids[Flat(j, t, p.numBeams)], ids0, j, p.numBeams)
      {
        FlatIndex(j, t, p.numBeams, p.batchSize);
        var i := Flat(j, t, p.numBeams);
        var e := sweep.value.entries[i];
        var t' :| 0 <= t' < p.numBeams && e.row == Flat(j, t', p.numBeams);
        assert r.ids[i] == s.ids[e.row] + [e.token];
        FromItemExtends(s.ids[e.row], r.ids[i], ids0, j, p.numBeams);
      }
    }
  }

  /** The loop keeps the state rooted in the prompts. */
  lemma {:induction false} RunFromItems(s: BeamState, p: BeamParams, k: Kernels, pow: Pow, ids0: seq<seq<int>>)
    requires ParamsOk(p, k) && BeamShaped(s, p)
    requires Rooted(s, ids0, p) && Run(s, p, k, pow).Ok?
    ensures Rooted(Run(s, p, k, pow).value, ids0, p)
    decreases p.maxLength - s.curLen, if s.stopped then 0 else 1
  {
    if !(s.stopped || s.curLen >= p.maxLength) {
      var step := BeamStep(s, p, k, pow);
      assert step.Ok?;
      var next := PassScores(s, p, k).value;
      assert step == Advance(s, next, p, k, pow);
      AdvanceFromItems(s, next, p, k, pow, ids0);
      assert Run(s, p, k, pow) == Run(step.value, p, k, pow);
      RunFromItems(step.value, p, k, pow, ids0);
    }
  }

  /** The finalisation offers each item only its own rows. */
  lemma FinaliseFromItems(s: BeamState, p: BeamParams, pow: Pow, ids0: seq<seq<int>>)
    requires BeamShaped(s, p) && Rooted(s, ids0, p)
    ensures forall b :: 0 <= b < p.batchSize ==> HeldFromItem(Finalise(s, p, pow)[b], ids0, b, p.numBeams)
  {
    var f := Finalise(s, p, pow);
    forall b | 0 <= b < p.batchSize
      ensures HeldFromItem(f[b], ids0, b, p.numBeams)
    {
      if !s.done[b] {
        var entries := FinalEntries(s, b, p);
        AddAllOffersOnly(s.hyps[b], entries, pow);
        forall x | x in f[b].beams
          ensures FromItem(x.tokens, ids0, b, p.numBeams)
        {
          if x !in s.hyps[b].beams {
            var i :| 0 <= i < |entries| && x.tokens == entries[i].0;
            assert x.tokens == s.ids[Flat(b, i, p.numBeams)];
          }
        }
      }
    }
  }

  /** The output stage of a rooted state: output `j` of item `b` continues
      one of the item's prompt rows. */
  lemma OutputsFromItems(s: BeamState, p: BeamParams, pow: Pow, ids0: seq<seq<int>>)
    requires BeamShaped(s, p) && p.batchSize >= 1 && p.numReturnSequences >= 1
    requires Rooted(s, ids0, p) && Outputs(s, p, pow).Ok?
    ensures var out := Outputs(s, p, pow).value;
      forall b, j :: 0 <= b < p.batchSize && 0 <= j < PerItem(p) ==>
        Flat(b, j, PerItem(p)) < |out| && FromItem(out[Flat(b, j, PerItem(p))], ids0, b, p.numBeams)
  {
    var hyps := FinalHypotheses(s, p, pow).value;
    assert hyps == Finalise(s, p, pow);
    FinaliseFromItems(s, p, pow, ids0);
    var per := PerItem(p);
    var out := Outputs(s, p, pow).value;
    assert Outputs(s, p, pow) == Decoded(hyps, per, p.maxLength, p.pad, p.eos);
    forall b, j | 0 <= b < p.batchSize && 0 <= j < per
      ensures Flat(b, j, per) < |out| && FromItem(out[Flat(b, j, per)], ids0, b, p.numBeams)
    {
      BestAreHeld(hyps[b], per);
      var x := BestOf(hyps[b], per).value[j];
      assert x in hyps[b].beams;
      FromItemExtends(x.tokens, out[Flat(b, j, per)], ids0, b, p.numBeams);
    }
  }

  /** Beam search only extends: output `j` of item `b` begins with one of
      the item's `num_beams` prompt rows, under either reading. */
  lemma OutputsContinuePrompts(ids: seq<seq<int>>, w0: nat, p: BeamParams, k: Kernels, pow: Pow)
    requires ParamsOk(p, k) && |ids| == p.batchSize * p.numBeams && Rectangular(ids, w0)
    requires GenerateBeamSearch(ids, w0, p, k, pow).Ok?
    ensures var out := GenerateBeamSearch(ids, w0, p, k, pow).value;
      forall b, j :: 0 <= b < p.batchSize && 0 <= j < PerItem(p) ==>
        Flat(b, j, PerItem(p)) < |out| && FromItem(out[Flat(b, j, PerItem(p))], ids, b, p.numBeams)
  {
    var s0 := InitialState(ids, w0, p);
    forall j, t | 0 <= j < p.batchSize && 0 <= t < p.numBeams
      ensures Flat(j, t, p.numBeams) < |s0.ids| && FromItem(s0.ids[Flat(j, t, p.numBeams)], ids, j, p.numBeams)
    {
      FlatIndex(j, t, p.numBeams, p.batchSize);
      assert ids[Flat(j, t, p.numBeams)] <= s0.ids[Flat(j, t, p.numBeams)];
    }
    assert Rooted(s0, ids, p);
    var run := Run(s0, p, k, pow);
    assert run.Ok?;
    RunFromItems(s0, p, k, pow, ids);
    assert GenerateBeamSearch(ids, w0, p, k, pow) == Outputs(run.value, p, pow);
    OutputsFromItems(run.value, p, pow, ids);
  }
}
