/** The single-hypothesis decoder `generate_no_beam_search`
    (src/pipelines/generation.rs:473-564) as a step function over the
    decoder state, run until every row has finished or `max_length` is
    reached. */
module Greedy {

  import opened Basics
  import opened Scores
  import opened Filters
  import opened Kernels
  import opened TopKTopP

  /** The arguments of `generate_no_beam_search` that stay fixed across steps. */
  datatype NoBeamParams = NoBeamParams(
    minLength: nat,
    maxLength: nat,
    doSample: bool,
    temperature: real,
    topK: nat,
    topP: real,
    repetitionPenalty: real,
    noRepeatNgramSize: nat,
    pad: Option<int>,
    eos: Option<seq<int>>,
    vocab: nat,
    reading: Variant)

  /** The end-of-sequence ids, empty when none are configured. */
  function EosList(p: NoBeamParams): seq<int> {
    if p.eos.Some? then p.eos.value else []
  }

  // ---------------------------------------------------------------------
  // Scores of one step

  /** Sampling: a temperature above one divides the logits, then top-k and
      top-p filtering with `min_tokens_to_keep = 1`. Each entry is its
      tempered value or removed, and a highest tempered entry survives. */
  function SampleScores(scores: seq<seq<Score>>, p: NoBeamParams, k: Kernels): (r: seq<seq<Score>>)
    requires Sound(k, p.vocab) && Rectangular(scores, p.vocab)
    ensures |r| == |scores| && Rectangular(r, p.vocab)
    ensures forall i, t :: 0 <= i < |scores| && 0 <= t < p.vocab ==>
      r[i][t] == Tempered(scores[i][t], p.temperature) || r[i][t] == NegInf
    ensures forall i :: 0 <= i < |scores| ==> KeepsMaximum(Temper(scores, p.temperature)[i], r[i])
  {
    var tempered := Temper(scores, p.temperature);
    Filter(tempered, p.topK, p.topP, 1, p.vocab, k)
  }

  /** The scores before sampling: the model's logits, the repetition penalty
      when it exceeds one, the n-gram bans of the decoder's reading, and the
      end-of-sequence mask before `min_length`. A blocked token is at
      negative infinity; any other keeps its penalised logit. */
  function Masked(ids: seq<seq<int>>, curLen: nat, p: NoBeamParams, k: Kernels): (r: seq<seq<Score>>)
    requires Sound(k, p.vocab) && |ids| > 0
    requires p.repetitionPenalty > 1.0 ==> TokensBelow(ids, p.vocab)
    ensures |r| == |ids| && Rectangular(r, p.vocab)
    ensures forall i, t :: 0 <= i < |ids| && 0 <= t < p.vocab ==>
      r[i][t] == if Blocked(p.reading, ids, curLen, p.noRepeatNgramSize, p.minLength, p.eos, i, t) then NegInf
                 else PenalisedLogit(k.forward(ids)[i][t], ids[i], t, p.repetitionPenalty)
  {
    var logits := k.forward(ids);
    var penalised :=
      if p.repetitionPenalty > 1.0 then
        var penalty: PosReal := p.repetitionPenalty;
        EnforceRepetitionPenalty(logits, |ids|, ids, penalty)
      else logits;
    var afterBans := ApplyBans(penalised, BannedTokens(p.reading, ids, p.noRepeatNgramSize, curLen));
    if p.eos.Some? && curLen < p.minLength then MaskEos(afterBans, p.eos.value) else afterBans
  }

  /** The scores a step chooses from: `Masked`, then the sampling filters
      when sampling. The penalty reads the logit of every history token, so
      an id outside the vocabulary is the out-of-range failure. Blocked
      tokens end at negative infinity; without sampling every other token
      keeps its penalised logit, with sampling its tempered one unless the
      filters remove it, and a highest entry is never removed. */
  function NoBeamScores(ids: seq<seq<int>>, curLen: nat, p: NoBeamParams, k: Kernels): (r: Result<seq<seq<Score>>>)
    requires Sound(k, p.vocab) && |ids| > 0
    ensures r.Err? <==> p.repetitionPenalty > 1.0 && !TokensBelow(ids, p.vocab)
    ensures r.Err? ==> r.failure == IndexOutOfRange
    ensures r.Ok? ==> |r.value| == |ids| && Rectangular(r.value, p.vocab)
    ensures r.Ok? ==> forall i, t :: 0 <= i < |ids| && 0 <= t < p.vocab ==>
      var logit := PenalisedLogit(k.forward(ids)[i][t], ids[i], t, p.repetitionPenalty);
      if Blocked(p.reading, ids, curLen, p.noRepeatNgramSize, p.minLength, p.eos, i, t) then r.value[i][t] == NegInf
      else if p.doSample then r.value[i][t] == Tempered(logit, p.temperature) || r.value[i][t] == NegInf
      else r.value[i][t] == logit
    ensures r.Ok? && p.doSample ==> forall i :: 0 <= i < |ids| ==>
      KeepsMaximum(Temper(Masked(ids, curLen, p, k), p.temperature)[i], r.value[i])
  {
    if p.repetitionPenalty > 1.0 && !InVocab(ids, p.vocab) then Err(IndexOutOfRange)
    else
      var masked := Masked(ids, curLen, p, k);
      Ok(if p.doSample then SampleScores(masked, p, k) else masked)
  }

  /** Without penalty, bans, mask or sampling the step chooses from the
      model's logits unchanged. As written, the empty n-gram size still runs
      the table lookup, with a query that is empty as long as no row is
      longer than `cur_len + 1`. */
  lemma PlainScoresAreLogits(ids: seq<seq<int>>, curLen: nat, p: NoBeamParams, k: Kernels)
    requires Sound(k, p.vocab) && |ids| > 0
    requires p.repetitionPenalty <= 1.0 && p.noRepeatNgramSize == 0 && !p.doSample
    requires p.eos.None? || curLen >= p.minLength
    ensures p.reading == Corrected || (forall i :: 0 <= i < |ids| ==> |ids[i]| <= curLen + 1) ==>
      NoBeamScores(ids, curLen, p, k) == Ok(k.forward(ids))
  {
    if p.reading == Corrected || (forall i :: 0 <= i < |ids| ==> |ids[i]| <= curLen + 1) {
      var logits := k.forward(ids);
      var banned := BannedTokens(p.reading, ids, 0, curLen);
      forall i | 0 <= i < |banned|
        ensures banned[i] == []
      {
        if p.reading == AsWritten {
          FollowersOfShortKey(ids[i], Query(ids[i], curLen + 1), 3);
        }
      }
      var r := NoBeamScores(ids, curLen, p, k).value;
      forall i | 0 <= i < |logits|
        ensures r[i] == logits[i]
      {
        forall t | 0 <= t < p.vocab
          ensures r[i][t] == logits[i][t]
        {
          assert !Blocked(p.reading, ids, curLen, 0, p.minLength, p.eos, i, t);
        }
      }
      assert r == logits;
    }
  }

  // ---------------------------------------------------------------------
  // One step

  /** `next_token * unfinished - pad * (unfinished - 1)`: the chosen token
      for an unfinished row, the padding id for a finished one. */
  function TokensToAdd(next: int, unfinished: int, pad: int): (r: int)
    requires unfinished == 0 || unfinished == 1
    ensures r == if unfinished == 1 then next else pad
  {
    next * unfinished - pad * (unfinished - 1)
  }

  /** The loop over the end-of-sequence ids: a row still unfinished whose new
      token is one of them records `cur_len + 1` as its length and becomes
      finished (`unfinished = -unfinished * (with_eos - 1)`). */
  function ApplyEos(tokens: seq<int>, unfinished: seq<int>, lengths: seq<nat>, eos: seq<int>, curLen: nat)
    : (r: (seq<int>, seq<nat>))
    requires |unfinished| == |tokens| && |lengths| == |tokens|
    requires forall i :: 0 <= i < |tokens| ==> unfinished[i] == 0 || unfinished[i] == 1
    ensures |r.0| == |tokens| && |r.1| == |tokens|
    ensures forall i :: 0 <= i < |tokens| ==>
      r.0[i] == (if unfinished[i] == 1 && tokens[i] !in eos then 1 else 0)
    ensures forall i :: 0 <= i < |tokens| ==>
      r.1[i] == (if unfinished[i] == 1 && tokens[i] in eos then curLen + 1 else lengths[i])
    decreases |eos|
  {
    if eos == [] then (unfinished, lengths)
    else
      var withEos := seq(|tokens|, i requires 0 <= i < |tokens| => (if tokens[i] == eos[0] then 1 else 0) * unfinished[i]);
      var lengths' := seq(|tokens|, i requires 0 <= i < |tokens| => if withEos[i] != 0 then curLen + 1 else lengths[i]);
      var unfinished' := seq(|tokens|, i requires 0 <= i < |tokens| => -unfinished[i] * (withEos[i] - 1));
      assert forall i :: 0 <= i < |tokens| ==> unfinished'[i] == (if unfinished[i] == 1 && tokens[i] != eos[0] then 1 else 0);
      assert forall t :: t in eos <==> t == eos[0] || t in eos[1..];
      ApplyEos(tokens, unfinished', lengths', eos[1..], curLen)
  }

  /** The decoder state: the token rows, the 0/1 `unfinished_sentences`
      flags, `sentence_lengths`, `current_length`, and whether the loop
      left through its `break` (which skips the length increment). */
  datatype GreedyState = GreedyState(
    ids: seq<seq<int>>,
    unfinished: seq<int>,
    lengths: seq<nat>,
    curLen: nat,
    stopped: bool)

  /** The flags and lengths line up with the rows, and every flag is 0 or 1. */
  ghost predicate Shaped(s: GreedyState) {
    && |s.ids| > 0
    && |s.unfinished| == |s.ids| && |s.lengths| == |s.ids|
    && (forall i :: 0 <= i < |s.ids| ==> s.unfinished[i] == 0 || s.unfinished[i] == 1)
  }

  function Last(row: seq<int>): int
    requires |row| > 0
  {
    row[|row| - 1]
  }

  /** How one pass of the loop body relates the state before and after:
      exactly one column is appended; a finished row receives the padding
      id; flags only go from 1 to 0, and an unfinished row finishes exactly
      when its new token is an end-of-sequence id; a row's length becomes
      `cur_len + 1` at the step where it finishes and is untouched
      otherwise; the loop breaks, without advancing `cur_len`, exactly when
      every row has finished. */
  ghost predicate Advanced(s: GreedyState, r: GreedyState, p: NoBeamParams)
    ensures Advanced(s, r, p) ==>
      && Shaped(s) && Shaped(r) && |r.ids| == |s.ids|
      && forall i :: 0 <= i < |s.ids| && s.unfinished[i] == 0 ==>
           r.unfinished[i] == 0 && r.lengths[i] == s.lengths[i]
  {
    && Shaped(s) && Shaped(r) && |r.ids| == |s.ids|
    && (p.eos.Some? ==> p.pad.Some?)
    && (forall i :: 0 <= i < |s.ids| ==>
          |r.ids[i]| == |s.ids[i]| + 1 && r.ids[i][..|s.ids[i]|] == s.ids[i])
    && (forall i :: 0 <= i < |s.ids| && s.unfinished[i] == 0 && p.eos.Some? ==>
          Last(r.ids[i]) == p.pad.value)
    && (forall i :: 0 <= i < |s.ids| ==> r.unfinished[i] <= s.unfinished[i])
    && (forall i :: 0 <= i < |s.ids| && s.unfinished[i] == 1 ==>
          (r.unfinished[i] == 0 <==> Last(r.ids[i]) in EosList(p)))
    && (forall i :: 0 <= i < |s.ids| ==>
          r.lengths[i] == (if s.unfinished[i] == 1 && r.unfinished[i] == 0 then s.curLen + 1 else s.lengths[i]))
    && (r.stopped <==> p.eos.Some? && forall i :: 0 <= i < |s.ids| ==> r.unfinished[i] == 0)
    && r.curLen == (if r.stopped then s.curLen else s.curLen + 1)
  }

  /** Each row with its new token appended. */
  function AppendColumn(ids: seq<seq<int>>, tokens: seq<int>): (r: seq<seq<int>>)
    requires |tokens| == |ids|
    ensures |r| == |ids|
    ensures forall i :: 0 <= i < |ids| ==>
      |r[i]| == |ids[i]| + 1 && r[i][..|ids[i]|] == ids[i] && Last(r[i]) == tokens[i]
  {
    seq(|ids|, i requires 0 <= i < |ids| => ids[i] + [tokens[i]])
  }

  /** For 0/1 flags, the maximum is 0 exactly when every flag is. */
  lemma MaxZeroIffAllFinished(u: seq<int>)
    requires |u| > 0 && forall i :: 0 <= i < |u| ==> u[i] == 0 || u[i] == 1
    ensures MaxIn(u) == 0 <==> forall i :: 0 <= i < |u| ==> u[i] == 0
  {
    if MaxIn(u) != 0 {
      assert MaxIn(u) in u;
    }
  }

  /** The state after the tokens to add are known. */
  function Append(s: GreedyState, tokens: seq<int>, p: NoBeamParams): (r: GreedyState)
    requires Shaped(s) && |tokens| == |s.ids|
    requires p.eos.Some? ==> p.pad.Some?
    requires p.eos.Some? ==> forall i :: 0 <= i < |s.ids| && s.unfinished[i] == 0 ==> tokens[i] == p.pad.value
    ensures Advanced(s, r, p)
    ensures forall i :: 0 <= i < |s.ids| ==> Last(r.ids[i]) == tokens[i]
  {
    var ids := AppendColumn(s.ids, tokens);
    var flags := ApplyEos(tokens, s.unfinished, s.lengths, EosList(p), s.curLen);
    MaxZeroIffAllFinished(flags.0);
    var stop := p.eos.Some? && MaxIn(flags.0) == 0;
    GreedyState(ids, flags.0, flags.1, if stop then s.curLen else s.curLen + 1, stop)
  }

  /** One pass of the loop body. With end-of-sequence ids configured and no
      padding id, the token arithmetic unwraps a missing value. Every row
      still decoding receives the token the kernels pick from its scores:
      without sampling a highest-scoring one (`argmax`), with sampling one
      the filters left in place whenever they left any. */
  function Step(s: GreedyState, p: NoBeamParams, k: Kernels): (r: Result<GreedyState>)
    requires Sound(k, p.vocab) && Shaped(s)
    ensures r.Err? <==> (p.repetitionPenalty > 1.0 && !TokensBelow(s.ids, p.vocab)) || (p.eos.Some? && p.pad.None?)
    ensures r.Ok? ==> Advanced(s, r.value, p)
    ensures r.Ok? ==> NoBeamScores(s.ids, s.curLen, p, k).Ok?
    ensures r.Ok? ==> forall i :: 0 <= i < |s.ids| && (p.eos.None? || s.unfinished[i] == 1) ==>
      Picked(NoBeamScores(s.ids, s.curLen, p, k).value[i], Last(r.value.ids[i]), p.doSample)
  {
    match NoBeamScores(s.ids, s.curLen, p, k)
    case Err(f) => Err(f)
    case Ok(scores) =>
      if p.eos.Some? && p.pad.None? then Err(MissingPadOrEos)
      else
        var next := k.pick(scores, p.doSample);
        PickedRows(scores, p.doSample, p.vocab, k);
        Ok(Append(s, NextTokens(s, next, p), p))
  }

  /** Every row of a full score matrix gets a token the kernels' `Picked`
      describes. */
  lemma PickedRows(scores: seq<seq<Score>>, sample: bool, vocab: nat, k: Kernels)
    requires Sound(k, vocab) && Rectangular(scores, vocab)
    ensures |k.pick(scores, sample)| == |scores|
    ensures forall i :: 0 <= i < |scores| ==> Picked(scores[i], k.pick(scores, sample)[i], sample)
  {
  }

  /** The tokens of a step: the pick for a row still decoding, the padding
      id for a finished one when end-of-sequence ids are configured. */
  function NextTokens(s: GreedyState, next: seq<int>, p: NoBeamParams): (r: seq<int>)
    requires Shaped(s) && |next| == |s.ids| && (p.eos.Some? ==> p.pad.Some?)
    ensures |r| == |s.ids|
    ensures forall i :: 0 <= i < |s.ids| ==>
      r[i] == if p.eos.Some? && s.unfinished[i] == 0 then p.pad.value else next[i]
  {
    var n := |s.ids|;
    if p.eos.Some? then seq(n, i requires 0 <= i < n => TokensToAdd(next[i], s.unfinished[i], p.pad.value))
    else next
  }

  /** Without sampling, the token a step appends to a row still decoding is
      never one the penalty, bans or mask put out of reach, as long as the
      row's scores are not all negative infinity; with sampling the same
      holds as long as some token that is not blocked has a finite
      penalised logit. */
  lemma StepAvoidsBlocked(s: GreedyState, p: NoBeamParams, k: Kernels, i: nat)
    requires Sound(k, p.vocab) && Shaped(s) && Step(s, p, k).Ok?
    requires i < |s.ids| && (p.eos.None? || s.unfinished[i] == 1)
    requires !p.doSample ==> exists t :: 0 <= t < p.vocab && NoBeamScores(s.ids, s.curLen, p, k).value[i][t] != NegInf
    requires p.doSample ==> exists t :: 0 <= t < p.vocab && Reachable(s.ids, s.curLen, p, k, i, t)
    ensures !Blocked(p.reading, s.ids, s.curLen, p.noRepeatNgramSize, p.minLength, p.eos, i, Last(Step(s, p, k).value.ids[i]))
  {
    var scores := NoBeamScores(s.ids, s.curLen, p, k).value;
    var tok := Last(Step(s, p, k).value.ids[i]);
    assert Picked(scores[i], tok, p.doSample);
    if p.doSample {
      ReachableSurvivesFilter(s.ids, s.curLen, p, k, i);
    }
    PickedIsFinite(scores[i], tok, p.doSample);
    BlockedScoresNegInf(s.ids, s.curLen, p, k, i, tok);
  }

  /** With sampling, a reachable token leaves some finite score in the
      filtered row: top-k/top-p never drop the row's maximum. */
  lemma ReachableSurvivesFilter(ids: seq<seq<int>>, curLen: nat, p: NoBeamParams, k: Kernels, i: nat)
    requires Sound(k, p.vocab) && |ids| > 0 && NoBeamScores(ids, curLen, p, k).Ok? && p.doSample
    requires i < |ids| && exists t :: 0 <= t < p.vocab && Reachable(ids, curLen, p, k, i, t)
    ensures exists t :: 0 <= t < p.vocab && NoBeamScores(ids, curLen, p, k).value[i][t] != NegInf
  {
    var t :| 0 <= t < p.vocab && Reachable(ids, curLen, p, k, i, t);
    var before := Temper(Masked(ids, curLen, p, k), p.temperature)[i];
    assert before[t].Fin?;
    MaximumKeepsFinite(before, NoBeamScores(ids, curLen, p, k).value[i], t);
  }

  /** A blocked token scores negative infinity. */
  lemma BlockedScoresNegInf(ids: seq<seq<int>>, curLen: nat, p: NoBeamParams, k: Kernels, i: nat, t: nat)
    requires Sound(k, p.vocab) && |ids| > 0 && NoBeamScores(ids, curLen, p, k).Ok?
    requires i < |ids| && t < p.vocab
    ensures Blocked(p.reading, ids, curLen, p.noRepeatNgramSize, p.minLength, p.eos, i, t) ==>
      NoBeamScores(ids, curLen, p, k).value[i][t] == NegInf
  {
  }

  /** Token `t` is not blocked for row `i` and has a finite penalised logit. */
  ghost predicate Reachable(ids: seq<seq<int>>, curLen: nat, p: NoBeamParams, k: Kernels, i: nat, t: nat)
    requires Sound(k, p.vocab) && i < |ids| && t < p.vocab
  {
    && !Blocked(p.reading, ids, curLen, p.noRepeatNgramSize, p.minLength, p.eos, i, t)
    && PenalisedLogit(k.forward(ids)[i][t], ids[i], t, p.repetitionPenalty).Fin?
  }

  /** A picked token scores above negative infinity when some token does. */
  lemma PickedIsFinite(row: seq<Score>, tok: int, sample: bool)
    requires Picked(row, tok, sample)
    requires exists t :: 0 <= t < |row| && row[t] != NegInf
    ensures row[tok] != NegInf
  {
    if !sample {
      var t :| 0 <= t < |row| && row[t] != NegInf;
      assert Le(row[t], row[tok]);
    }
  }

  /** Filtering that keeps a maximum keeps some entry above negative
      infinity when the unfiltered row has a finite one. */
  lemma MaximumKeepsFinite(before: seq<Score>, after: seq<Score>, t: nat)
    requires |after| == |before| && t < |before| && before[t].Fin?
    requires KeepsMaximum(before, after)
    ensures exists u :: 0 <= u < |after| && after[u] != NegInf
  {
    var u :| 0 <= u < |before| && after[u] == before[u] && forall v :: 0 <= v < |before| ==> Le(before[v], before[u]);
    assert Le(before[t], before[u]);
  }

  /** The `while current_length < max_length` loop. */
  function Run(s: GreedyState, p: NoBeamParams, k: Kernels): (r: Result<GreedyState>)
    requires Sound(k, p.vocab) && Shaped(s)
    ensures r.Ok? ==> Shaped(r.value) && |r.value.ids| == |s.ids|
    ensures r.Ok? ==> r.value.stopped || r.value.curLen >= p.maxLength
    ensures r.Err? ==> r.failure == IndexOutOfRange || r.failure == MissingPadOrEos
    decreases p.maxLength - s.curLen, if s.stopped then 0 else 1
  {
    if s.stopped || s.curLen >= p.maxLength then Ok(s)
    else
      match Step(s, p, k)
      case Err(f) => Err(f)
      case Ok(next) => Run(next, p, k)
  }

  // ---------------------------------------------------------------------
  // The loop invariant

  /** A finished row: its first end-of-sequence token after the prompt sits
      at position `len - 1`, within `max_length`, and only padding follows. */
  ghost predicate FinishedRow(row: seq<int>, len: nat, w0: nat, p: NoBeamParams) {
    && p.eos.Some? && p.pad.Some?
    && w0 < len <= |row| && len <= p.maxLength
    && row[len - 1] in p.eos.value
    && (forall j :: w0 <= j < len - 1 ==> row[j] !in p.eos.value)
    && (forall j :: len <= j < |row| ==> row[j] == p.pad.value)
  }

  /** One row of a reachable state: it starts with its prompt; an
      unfinished row has the default length and no end-of-sequence token
      after the prompt; a finished row is a `FinishedRow`. */
  ghost predicate RowInvariant(row: seq<int>, u: int, len: nat, prompt: seq<int>, w0: nat, p: NoBeamParams) {
    && |prompt| == w0 && w0 <= |row| && row[..w0] == prompt
    && (u == 0 || u == 1)
    && (u == 1 ==> len == p.maxLength && forall j :: w0 <= j < |row| ==> row[j] !in EosList(p))
    && (u == 0 ==> FinishedRow(row, len, w0, p))
  }

  /** What holds of every state the loop reaches from `prompt` (all rows of
      width `w0`). */
  ghost predicate Decoding(s: GreedyState, p: NoBeamParams, prompt: seq<seq<int>>, w0: nat) {
    && Shaped(s) && |s.ids| == |prompt|
    && Rectangular(s.ids, s.curLen + (if s.stopped then 1 else 0))
    && w0 <= s.curLen
    && (s.curLen == w0 || s.curLen <= p.maxLength)
    && (forall i :: 0 <= i < |prompt| ==> RowInvariant(s.ids[i], s.unfinished[i], s.lengths[i], prompt[i], w0, p))
    && (s.stopped <==> p.eos.Some? && forall i :: 0 <= i < |prompt| ==> s.unfinished[i] == 0)
    && (s.stopped ==> s.curLen < p.maxLength && exists i :: 0 <= i < |prompt| && s.lengths[i] == s.curLen + 1)
  }

  /** The state `generate_no_beam_search` starts from. */
  function Initial(prompt: seq<seq<int>>, w0: nat, p: NoBeamParams): (s: GreedyState)
    requires |prompt| > 0 && Rectangular(prompt, w0)
    ensures Decoding(s, p, prompt, w0)
  {
    var s := GreedyState(prompt, Repeat(1, |prompt|), Repeat(p.maxLength, |prompt|), w0, false);
    assert forall i :: 0 <= i < |prompt| ==> prompt[i][..w0] == prompt[i];
    assert s.unfinished[0] == 1;
    s
  }

  /** One row keeps its invariant across a step taken at `cur_len`. */
  lemma StepKeepsRow(row: seq<int>, u: int, len: nat, row': seq<int>, u': int, len': nat,
                     prompt: seq<int>, w0: nat, curLen: nat, p: NoBeamParams)
    requires RowInvariant(row, u, len, prompt, w0, p)
    requires |row| == curLen && w0 <= curLen < p.maxLength
    requires p.eos.Some? ==> p.pad.Some?
    requires |row'| == |row| + 1 && row'[..|row|] == row
    requires u == 0 && p.eos.Some? ==> Last(row') == p.pad.value
    requires (u' == 0 || u' == 1) && u' <= u
    requires u == 1 ==> (u' == 0 <==> Last(row') in EosList(p))
    requires len' == if u == 1 && u' == 0 then curLen + 1 else len
    ensures RowInvariant(row', u', len', prompt, w0, p)
  {
    assert row' == row + [Last(row')];
    assert row'[..w0] == row[..w0];
    if u == 0 {
      assert FinishedRow(row, len, w0, p);
    }
  }

  /** Any successor related to a reachable state by `Advanced` is reachable. */
  lemma AdvanceKeepsDecoding(s: GreedyState, r: GreedyState, p: NoBeamParams, prompt: seq<seq<int>>, w0: nat)
    requires Decoding(s, p, prompt, w0) && Advanced(s, r, p)
    requires !s.stopped && s.curLen < p.maxLength
    ensures Decoding(r, p, prompt, w0)
  {
    forall i | 0 <= i < |prompt|
      ensures RowInvariant(r.ids[i], r.unfinished[i], r.lengths[i], prompt[i], w0, p)
    {
      StepKeepsRow(s.ids[i], s.unfinished[i], s.lengths[i], r.ids[i], r.unfinished[i], r.lengths[i],
                   prompt[i], w0, s.curLen, p);
    }
    if r.stopped {
      assert !(forall i :: 0 <= i < |prompt| ==> s.unfinished[i] == 0);
      var i :| 0 <= i < |prompt| && s.unfinished[i] == 1;
      assert r.lengths[i] == r.curLen + 1;
    }
  }

  lemma StepKeepsDecoding(s: GreedyState, p: NoBeamParams, k: Kernels, prompt: seq<seq<int>>, w0: nat)
    requires Sound(k, p.vocab) && Decoding(s, p, prompt, w0)
    requires !s.stopped && s.curLen < p.maxLength
    requires Step(s, p, k).Ok?
    ensures Decoding(Step(s, p, k).value, p, prompt, w0)
  {
    AdvanceKeepsDecoding(s, Step(s, p, k).value, p, prompt, w0);
  }

  /** Every state `Run` returns still satisfies the invariant. */
  lemma {:induction false} RunKeepsDecoding(s: GreedyState, p: NoBeamParams, k: Kernels, prompt: seq<seq<int>>, w0: nat)
    requires Sound(k, p.vocab) && Decoding(s, p, prompt, w0)
    ensures Run(s, p, k).Ok? ==> Decoding(Run(s, p, k).value, p, prompt, w0)
    decreases p.maxLength - s.curLen, if s.stopped then 0 else 1
  {
    if !(s.stopped || s.curLen >= p.maxLength) && Step(s, p, k).Ok? {
      StepKeepsDecoding(s, p, k, prompt, w0);
      RunKeepsDecoding(Step(s, p, k).value, p, k, prompt, w0);
    }
  }

  // ---------------------------------------------------------------------
  // Padding after the loop

  /** The post-loop padding as written: when the lengths differ and a padding
      id exists, every row is `index_copy_`-ed whole into the positions
      `0 .. sentence_lengths[i]`, which requires as many positions as the
      row has tokens. */
  function FinalizeAsWritten(s: GreedyState, pad: Option<int>): (r: Result<seq<seq<int>>>)
    requires |s.ids| > 0 && |s.lengths| == |s.ids|
    ensures r.Err? ==> r.failure == IndexCopyMismatch
    ensures r.Ok? && MinIn(s.lengths) != MaxIn(s.lengths) && pad.Some? ==>
      forall i :: 0 <= i < |s.ids| ==> s.lengths[i] == |s.ids[i]|
  {
    var hi := MaxIn(s.lengths);
    if MinIn(s.lengths) != hi && pad.Some? then
      if exists i :: 0 <= i < |s.ids| && s.lengths[i] != |s.ids[i]| then Err(IndexCopyMismatch)
      else Ok(seq(|s.ids|, i requires 0 <= i < |s.ids| => s.ids[i] + Repeat(pad.value, hi - |s.ids[i]|)))
    else Ok(s.ids)
  }

  /** After the loop no recorded length exceeds its row, and when the
      lengths differ they top out at the full width. */
  lemma LengthsAfterLoop(s: GreedyState, p: NoBeamParams, prompt: seq<seq<int>>, w0: nat)
    requires Decoding(s, p, prompt, w0) && (s.stopped || s.curLen >= p.maxLength)
    ensures forall i :: 0 <= i < |s.ids| ==> s.lengths[i] <= |s.ids[i]|
    ensures MinIn(s.lengths) != MaxIn(s.lengths) ==>
      MaxIn(s.lengths) == s.curLen + (if s.stopped then 1 else 0)
      && forall i :: 0 <= i < |s.ids| && s.unfinished[i] == 1 ==> s.lengths[i] == MaxIn(s.lengths)
  {
    var width := s.curLen + (if s.stopped then 1 else 0);
    forall i | 0 <= i < |s.ids|
      ensures s.lengths[i] <= |s.ids[i]|
      ensures s.unfinished[i] == 0 ==> w0 < s.lengths[i] <= p.maxLength
    {
      assert RowInvariant(s.ids[i], s.unfinished[i], s.lengths[i], prompt[i], w0, p);
      if s.unfinished[i] == 1 {
        assert !s.stopped;
      } else {
        assert FinishedRow(s.ids[i], s.lengths[i], w0, p);
      }
    }
    var hi := MaxIn(s.lengths);
    if MinIn(s.lengths) != hi {
      var f :| 0 <= f < |s.ids| && s.lengths[f] != p.maxLength;
      assert s.unfinished[f] == 0;
      assert w0 < p.maxLength;
      if s.stopped {
        var c :| 0 <= c < |s.ids| && s.lengths[c] == s.curLen + 1;
        assert s.lengths[c] <= hi;
      } else {
        var u :| 0 <= u < |s.ids| && s.unfinished[u] == 1;
        assert s.lengths[u] <= hi;
      }
    }
  }

  /** Whenever the decoded lengths differ and a padding id exists, the
      padding as written fails: some row ended before the last column. */
  lemma AsWrittenFailsWhenLengthsDiffer(s: GreedyState, p: NoBeamParams, prompt: seq<seq<int>>, w0: nat)
    requires Decoding(s, p, prompt, w0) && (s.stopped || s.curLen >= p.maxLength)
    requires MinIn(s.lengths) != MaxIn(s.lengths) && p.pad.Some?
    ensures FinalizeAsWritten(s, p.pad) == Err(IndexCopyMismatch)
  {
    LengthsAfterLoop(s, p, prompt, w0);
    var a :| 0 <= a < |s.ids| && s.lengths[a] == MinIn(s.lengths);
    assert s.lengths[a] != |s.ids[a]|;
  }

  /** Two rows of three tokens, the first finished at length 2 (end id 50,
      padding 0), the second unfinished at length 3: the copy of the first
      row meets two positions for three tokens. */
  lemma AsWrittenPaddingExample()
    ensures FinalizeAsWritten(GreedyState([[7, 50, 0], [7, 8, 9]], [0, 1], [2, 3], 3, false), Some(0))
      == Err(IndexCopyMismatch)
  {
    var s := GreedyState([[7, 50, 0], [7, 8, 9]], [0, 1], [2, 3], 3, false);
    assert MinIn(s.lengths) == 2 && MaxIn(s.lengths) == 3;
    assert s.lengths[0] != |s.ids[0]|;
  }

  /** The post-loop padding as intended: each row keeps its first
      `sentence_lengths[i]` tokens and is padded to the longest length. */
  function Finalize(s: GreedyState, pad: Option<int>): (r: seq<seq<int>>)
    requires |s.ids| > 0 && |s.lengths| == |s.ids|
    ensures |r| == |s.ids|
    ensures MinIn(s.lengths) == MaxIn(s.lengths) || pad.None? ==> r == s.ids
    ensures MinIn(s.lengths) != MaxIn(s.lengths) && pad.Some? ==> forall i :: 0 <= i < |s.ids| ==>
      var kept := Min(s.lengths[i], |s.ids[i]|);
      && |r[i]| == MaxIn(s.lengths)
      && r[i][..kept] == s.ids[i][..kept]
      && forall j :: kept <= j < |r[i]| ==> r[i][j] == pad.value
  {
    var hi := MaxIn(s.lengths);
    if MinIn(s.lengths) != hi && pad.Some? then
      seq(|s.ids|, i requires 0 <= i < |s.ids| =>
        var kept := Min(s.lengths[i], |s.ids[i]|);
        s.ids[i][..kept] + Repeat(pad.value, hi - kept))
    else s.ids
  }

  /** Rows that already hold padding after their recorded lengths, all of
      the longest length, are left alone by the intended padding. */
  lemma FinalizeOfPaddedRows(s: GreedyState, pad: int)
    requires |s.ids| > 0 && |s.lengths| == |s.ids|
    requires forall i :: 0 <= i < |s.ids| ==> s.lengths[i] <= |s.ids[i]| == MaxIn(s.lengths)
    requires forall i, j :: 0 <= i < |s.ids| && s.lengths[i] <= j < |s.ids[i]| ==> s.ids[i][j] == pad
    ensures Finalize(s, Some(pad)) == s.ids
  {
    var r := Finalize(s, Some(pad));
    forall i | 0 <= i < |s.ids|
      ensures r[i] == s.ids[i]
    {
      assert |r[i]| == |s.ids[i]|;
      assert forall j :: 0 <= j < s.lengths[i] ==> r[i][j] == r[i][..s.lengths[i]][j];
    }
  }

  /** Once the loop is over the rows are already padded after their first
      end-of-sequence token, so the intended padding changes nothing. */
  lemma FinalizeKeepsDecodedRows(s: GreedyState, p: NoBeamParams, prompt: seq<seq<int>>, w0: nat)
    requires Decoding(s, p, prompt, w0) && (s.stopped || s.curLen >= p.maxLength)
    ensures Finalize(s, p.pad) == s.ids
  {
    if MinIn(s.lengths) != MaxIn(s.lengths) && p.pad.Some? {
      LengthsAfterLoop(s, p, prompt, w0);
      forall i, j | 0 <= i < |s.ids| && s.lengths[i] <= j < |s.ids[i]|
        ensures s.ids[i][j] == p.pad.value
      {
        assert RowInvariant(s.ids[i], s.unfinished[i], s.lengths[i], prompt[i], w0, p);
        assert FinishedRow(s.ids[i], s.lengths[i], w0, p);
      }
      FinalizeOfPaddedRows(s, p.pad.value);
    }
  }

  // ---------------------------------------------------------------------
  // The whole decoder

  /** A decoded row: past the prompt, either no end-of-sequence token at
      all, or a first one followed only by padding. */
  ghost predicate WellTerminated(row: seq<int>, w0: nat, p: NoBeamParams) {
    || (forall j :: w0 <= j < |row| ==> row[j] !in EosList(p))
    || (exists len :: FinishedRow(row, len, w0, p))
  }

  /** `generate_no_beam_search`. Every output row starts with its prompt,
      all rows have one width, at most `max(prompt width, max_length)` and
      exactly that without end-of-sequence ids, and each row is well
      terminated. As written, the post-loop padding fails whenever rows
      finished at different lengths and a padding id exists; as corrected,
      it returns the decoded rows. */
  function GenerateNoBeamSearch(prompt: seq<seq<int>>, w0: nat, p: NoBeamParams, k: Kernels): (r: Result<seq<seq<int>>>)
    requires Sound(k, p.vocab) && |prompt| > 0 && Rectangular(prompt, w0)
    ensures r.Err? ==> r.failure == IndexOutOfRange || r.failure == MissingPadOrEos || r.failure == IndexCopyMismatch
    ensures r.Err? && p.reading == Corrected ==> r.failure == IndexOutOfRange || r.failure == MissingPadOrEos
    ensures r.Err? && r.failure == IndexCopyMismatch ==> p.pad.Some?
    ensures p.eos.Some? && p.pad.None? && w0 < p.maxLength ==> r.Err?
    ensures r.Ok? ==> |r.value| == |prompt|
    ensures r.Ok? ==> exists width :: width <= Max(w0, p.maxLength) && Rectangular(r.value, width)
    ensures r.Ok? && p.eos.None? ==> Rectangular(r.value, Max(w0, p.maxLength))
    ensures r.Ok? ==> forall i :: 0 <= i < |prompt| ==>
      |r.value[i]| >= w0 && r.value[i][..w0] == prompt[i] && WellTerminated(r.value[i], w0, p)
  {
    var s0 := Initial(prompt, w0, p);
    RunKeepsDecoding(s0, p, k, prompt, w0);
    match Run(s0, p, k)
    case Err(f) => Err(f)
    case Ok(s) =>
      var out := match p.reading
        case AsWritten => FinalizeAsWritten(s, p.pad)
        case Corrected => Ok(Finalize(s, p.pad));
      FinalizeKeepsDecodedRows(s, p, prompt, w0);
      assert out.Ok? ==> out.value == s.ids by {
        if p.reading == AsWritten && MinIn(s.lengths) != MaxIn(s.lengths) && p.pad.Some? {
          AsWrittenFailsWhenLengthsDiffer(s, p, prompt, w0);
        }
      }
      DecodedRowsWellTerminated(s, p, prompt, w0);
      assert p.eos.None? ==> s.curLen == Max(w0, p.maxLength) && !s.stopped;
      out
  }

  /** Every row of a decoding state ends well: it either never produced an
      end-of-sequence id or finished on one and was padded after it. */
  lemma DecodedRowsWellTerminated(s: GreedyState, p: NoBeamParams, prompt: seq<seq<int>>, w0: nat)
    requires Decoding(s, p, prompt, w0)
    ensures forall i :: 0 <= i < |prompt| ==> WellTerminated(s.ids[i], w0, p)
  {
    forall i | 0 <= i < |prompt|
      ensures WellTerminated(s.ids[i], w0, p)
    {
      assert RowInvariant(s.ids[i], s.unfinished[i], s.lengths[i], prompt[i], w0, p);
      if s.unfinished[i] == 0 {
        assert FinishedRow(s.ids[i], s.lengths[i], w0, p);
      }
    }
  }

  /** The same parameters under reading `v`. */
  function Read(p: NoBeamParams, v: Variant): NoBeamParams {
    p.(reading := v)
  }

  /** With banning off or at size three, and rows of `cur_len` tokens, both
      readings score a step alike. */
  lemma ScoresAlike(ids: seq<seq<int>>, curLen: nat, p: NoBeamParams, k: Kernels)
    requires Sound(k, p.vocab) && |ids| > 0 && Rectangular(ids, curLen)
    requires p.noRepeatNgramSize == 0 || p.noRepeatNgramSize == 3
    ensures NoBeamScores(ids, curLen, p, k) == NoBeamScores(ids, curLen, Read(p, Corrected), k)
  {
    ReadingsAgreeAtZeroAndThree(ids, p.noRepeatNgramSize, curLen);
    if !(p.repetitionPenalty > 1.0 && !TokensBelow(ids, p.vocab)) {
      assert Masked(ids, curLen, p, k) == Masked(ids, curLen, Read(p, Corrected), k);
    }
  }

  /** A step reads the decoder's reading only through its scores. */
  lemma StepsAlike(s: GreedyState, p: NoBeamParams, k: Kernels)
    requires Sound(k, p.vocab) && Shaped(s)
    requires NoBeamScores(s.ids, s.curLen, p, k) == NoBeamScores(s.ids, s.curLen, Read(p, Corrected), k)
    ensures Step(s, p, k) == Step(s, Read(p, Corrected), k)
  {
    var c := Read(p, Corrected);
    assert EosList(p) == EosList(c);
  }

  /** With banning off or at size three, both readings take the same steps
      from any reachable state. */
  lemma {:induction false} ReadingsRunAlike(s: GreedyState, p: NoBeamParams, k: Kernels, prompt: seq<seq<int>>, w0: nat)
    requires Sound(k, p.vocab) && Decoding(s, p, prompt, w0)
    requires p.noRepeatNgramSize == 0 || p.noRepeatNgramSize == 3
    ensures Run(s, p, k) == Run(s, Read(p, Corrected), k)
    decreases p.maxLength - s.curLen, if s.stopped then 0 else 1
  {
    if !(s.stopped || s.curLen >= p.maxLength) {
      ScoresAlike(s.ids, s.curLen, p, k);
      StepsAlike(s, p, k);
      if Step(s, p, k).Ok? {
        StepKeepsDecoding(s, p, k, prompt, w0);
        ReadingsRunAlike(Step(s, p, k).value, p, k, prompt, w0);
      }
    }
  }

  /** At n-gram size 0 or 3 the two readings agree except that the
      as-written padding may fail, and only when a padding id exists, where
      the corrected decoder returns its rows. */
  lemma AsWrittenAgreesOrFailsCopy(prompt: seq<seq<int>>, w0: nat, p: NoBeamParams, k: Kernels)
    requires Sound(k, p.vocab) && |prompt| > 0 && Rectangular(prompt, w0)
    requires p.noRepeatNgramSize == 0 || p.noRepeatNgramSize == 3
    ensures var a := GenerateNoBeamSearch(prompt, w0, Read(p, AsWritten), k);
      var c := GenerateNoBeamSearch(prompt, w0, Read(p, Corrected), k);
      a == c || (a == Err(IndexCopyMismatch) && c.Ok? && p.pad.Some?)
  {
    var a, c := Read(p, AsWritten), Read(p, Corrected);
    assert Read(a, Corrected) == c;
    var s0 := Initial(prompt, w0, a);
    ReadingsRunAlike(s0, a, k, prompt, w0);
    RunKeepsDecoding(s0, a, k, prompt, w0);
    var run := Run(s0, a, k);
    if run.Ok? {
      var s := run.value;
      FinalizeKeepsDecodedRows(s, a, prompt, w0);
      if MinIn(s.lengths) != MaxIn(s.lengths) && p.pad.Some? {
        AsWrittenFailsWhenLengthsDiffer(s, a, prompt, w0);
      }
    }
  }
}
