/** The computations the decoders call but whose bodies are not part of this
    model: the language model's forward pass, the float kernels (`argmax`,
    `multinomial`, `log_softmax`, `softmax` followed by `cumsum`, `sort`,
    `topk`) and their tie-breaking. Each is a parameter; `Sound` states
    what the decoders rely on. */
module Kernels {

  import opened Basics
  import opened Scores
  import opened TopKTopP

  datatype Kernels = Kernels(
    /** Logits of the last position, one row per input row (the cache of
        past keys and values only saves work, so it is not an input). */
    forward: seq<seq<int>> -> seq<seq<Score>>,
    /** `argmax(-1)` when the flag is false, one `multinomial` draw per row
        when it is true. */
    pick: (seq<seq<Score>>, bool) -> seq<int>,
    /** `log_softmax(-1)` of one row. */
    logSoftmax: seq<Score> -> seq<Score>,
    /** `topk(.., largest = false)` order of one row. */
    ascending: seq<Score> -> seq<nat>,
    /** `sort(-1, descending = true)` order of one row. */
    descending: seq<Score> -> seq<nat>,
    /** The `cumsum(softmax(sorted)) >= p` flags of one row, in descending order. */
    nucleus: (seq<Score>, real) -> seq<bool>,
    /** Beam candidates of one flattened item row: `topk(count)` when the
        flag is false, `multinomial(count)` sorted by score when it is
        true; each a flat index into the row. */
    candidates: (seq<Score>, nat, bool) -> seq<nat>)

  /** What `argmax` and a `multinomial` draw over `softmax` promise for one
      row: a position of the row; without sampling one of highest score;
      with sampling one of nonzero probability, that is, not negative
      infinity, whenever the row has one. */
  ghost predicate Picked(row: seq<Score>, tok: int, sample: bool) {
    && 0 <= tok < |row|
    && (!sample ==> forall t :: 0 <= t < |row| ==> Le(row[t], row[tok]))
    && (sample && (exists t :: 0 <= t < |row| && row[t] != NegInf) ==> row[tok] != NegInf)
  }

  /** What `topk(count)` and the sorted `multinomial(count)` draw promise: `count`
      distinct positions of the row in non-increasing score order; the top
      entries when not sampling, so that no position left out scores above
      one taken. */
  ghost predicate CandidateList(row: seq<Score>, cands: seq<nat>, count: nat, sample: bool) {
    && |cands| == count
    && (forall j :: 0 <= j < count ==> cands[j] < |row|)
    && (forall j, m :: 0 <= j < m < count ==> cands[j] != cands[m] && Le(row[cands[m]], row[cands[j]]))
    && (!sample ==> forall j, t :: 0 <= j < count && 0 <= t < |row| && t !in cands ==> Le(row[t], row[cands[j]]))
  }

  /** What the decoders rely on: the shapes of every result, the defining
      order of `argmax`, `sort` and `topk`, and that sampling never draws an
      entry of zero probability. Ties, and which entry a draw picks, stay
      open. */
  ghost predicate Sound(k: Kernels, vocab: nat) {
    && vocab > 0
    && (forall m :: |k.forward(m)| == |m| && Rectangular(k.forward(m), vocab))
    && (forall s, sample :: |k.pick(s, sample)| == |s|)
    && (forall s, sample, i :: 0 <= i < |s| && i < |k.pick(s, sample)| ==> 0 <= k.pick(s, sample)[i] < vocab)
    && (forall s, sample, i :: 0 <= i < |s| && |s[i]| == vocab ==> Picked(s[i], k.pick(s, sample)[i], sample))
    && (forall row :: |k.logSoftmax(row)| == |row|)
    && (forall row :: |row| == vocab ==> AscendingOrder(row, k.ascending(row)))
    && (forall row :: |row| == vocab ==> DescendingOrder(row, k.descending(row)))
    && (forall row, p :: |row| == vocab ==> |k.nucleus(row, p)| == vocab)
    && (forall row, count: nat, sample :: count <= |row| ==> CandidateList(row, k.candidates(row, count, sample), count, sample))
  }

  /** The kernels' orders for each row: `topk` orders the row itself;
      `sort` and `softmax` see the row top-k leaves behind. */
  function Orders(scores: seq<seq<Score>>, topK: nat, topP: real, minKeep: nat, vocab: nat, k: Kernels)
    : (r: (seq<seq<nat>>, seq<seq<nat>>, seq<seq<bool>>))
    requires Sound(k, vocab) && Rectangular(scores, vocab)
    requires topP >= 1.0 || minKeep <= 1 || minKeep < vocab
    ensures RowsReady(scores, topP, minKeep, r.0, r.1, r.2)
    ensures forall i :: 0 <= i < |scores| ==>
      && AscendingOrder(scores[i], r.0[i])
      && DescendingOrder(AfterTopK(scores[i], topK, minKeep, r.0[i]), r.1[i])
  {
    var asc := seq(|scores|, i requires 0 <= i < |scores| => k.ascending(scores[i]));
    var afterK := seq(|scores|, i requires 0 <= i < |scores| => AfterTopK(scores[i], topK, minKeep, asc[i]));
    var desc := seq(|scores|, i requires 0 <= i < |scores| => k.descending(afterK[i]));
    var ge := seq(|scores|, i requires 0 <= i < |scores| => k.nucleus(afterK[i], topP));
    (asc, desc, ge)
  }

  /** `top_k_top_p_filtering` with the orders and flags the kernels give.
      Filtering only removes entries, changes nothing with `top_k = 0` and
      `top_p >= 1`, and keeps a highest entry of every row. */
  function Filter(scores: seq<seq<Score>>, topK: nat, topP: real, minKeep: nat, vocab: nat, k: Kernels): (r: seq<seq<Score>>)
    requires Sound(k, vocab) && Rectangular(scores, vocab)
    requires topP >= 1.0 || minKeep <= 1 || minKeep < vocab
    ensures |r| == |scores| && Rectangular(r, vocab)
    ensures forall i, t :: 0 <= i < |scores| && 0 <= t < vocab ==> r[i][t] == scores[i][t] || r[i][t] == NegInf
    ensures topK == 0 && topP >= 1.0 ==> r == scores
    ensures forall i :: 0 <= i < |scores| ==> KeepsMaximum(scores[i], r[i])
  {
    var (asc, desc, ge) := Orders(scores, topK, topP, minKeep, vocab, k);
    var r := TopKTopPFiltering(scores, topK, topP, minKeep, asc, desc, ge);
    KeepsMaxima(scores, topK, topP, minKeep, asc, desc, ge);
    r
  }

  /** Row by row, filtering with sorted orders keeps a highest entry. */
  lemma KeepsMaxima(scores: seq<seq<Score>>, topK: nat, topP: real, minKeep: nat,
                    asc: seq<seq<nat>>, desc: seq<seq<nat>>, ge: seq<seq<bool>>)
    requires RowsReady(scores, topP, minKeep, asc, desc, ge)
    requires forall i :: 0 <= i < |scores| ==>
      AscendingOrder(scores[i], asc[i]) && DescendingOrder(AfterTopK(scores[i], topK, minKeep, asc[i]), desc[i])
    ensures var r := TopKTopPFiltering(scores, topK, topP, minKeep, asc, desc, ge);
      forall i :: 0 <= i < |scores| ==> KeepsMaximum(scores[i], r[i])
  {
    var r := TopKTopPFiltering(scores, topK, topP, minKeep, asc, desc, ge);
    forall i | 0 <= i < |scores|
      ensures KeepsMaximum(scores[i], r[i])
    {
      assert r[i] == FilterRow(scores[i], topK, topP, minKeep, asc[i], desc[i], ge[i]);
      FilterKeepsMaximum(scores[i], topK, topP, minKeep, asc[i], desc[i], ge[i]);
    }
  }
}
