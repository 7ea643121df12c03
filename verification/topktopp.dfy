/** `top_k_top_p_filtering` (src/pipelines/generation.rs:445-471). The
    orders that `topk` and `sort` produce, and the row of "cumulative
    probability >= p" flags that `softmax` and `cumsum` produce, are given
    per row: they are float kernels, and with ties their order is not fixed. */
module TopKTopP {

  import opened Basics
  import opened Scores

  /** `perm` lists positions `0 .. n - 1`, each once. */
  ghost predicate IsPermutation(perm: seq<nat>, n: nat) {
    && |perm| == n
    && (forall j :: 0 <= j < n ==> perm[j] < n)
    && (forall j, k :: 0 <= j < k < n ==> perm[j] != perm[k])
  }

  /** `asc` visits the entries of `row` from lowest to highest. */
  ghost predicate AscendingOrder(row: seq<Score>, asc: seq<nat>) {
    && IsPermutation(asc, |row|)
    && (forall j, k :: 0 <= j <= k < |row| ==> Le(row[asc[j]], row[asc[k]]))
  }

  /** `desc` visits the entries of `row` from highest to lowest. */
  ghost predicate DescendingOrder(row: seq<Score>, desc: seq<nat>) {
    && IsPermutation(desc, |row|)
    && (forall j, k :: 0 <= j <= k < |row| ==> Le(row[desc[k]], row[desc[j]]))
  }

  /** The positions an order visits first. */
  function Leading(order: seq<nat>, count: nat): set<nat>
    requires count <= |order|
  {
    set j | 0 <= j < count :: order[j]
  }

  lemma {:induction false} LeadingSize(order: seq<nat>, count: nat)
    requires count <= |order|
    requires forall j, k :: 0 <= j < k < |order| ==> order[j] != order[k]
    ensures |Leading(order, count)| == count
    decreases count
  {
    if count > 0 {
      LeadingSize(order, count - 1);
      assert Leading(order, count) == Leading(order, count - 1) + {order[count - 1]};
      assert order[count - 1] !in Leading(order, count - 1);
    }
  }

  lemma {:induction false} SubsetSize(a: set<nat>, b: set<nat>)
    requires a <= b
    ensures |a| <= |b|
    decreases |a|
  {
    if a != {} {
      var x :| x in a;
      SubsetSize(a - {x}, b - {x});
    }
  }

  /** A permutation of `0 .. n - 1` visits every position. */
  lemma PermutationCovers(perm: seq<nat>, n: nat, t: nat)
    requires IsPermutation(perm, n) && t < n
    ensures exists j :: 0 <= j < n && perm[j] == t
  {
    LeadingSize(perm, n);
    var all := Leading(perm, n);
    if t !in all {
      var ident := seq(n, j requires 0 <= j < n => j as nat);
      LeadingSize(ident, n);
      var below := Leading(ident, n);
      forall x | x in all
        ensures x in below - {t}
      {
        assert ident[x] == x;
      }
      assert ident[t] == t;
      assert |below - {t}| == n - 1;
      SubsetSize(all, below - {t});
      assert false;
    }
  }

  /** `vocab - min(max(top_k, min_tokens_to_keep), vocab)`: how many entries
      top-k filtering removes from a row. */
  function TopKRemoveCount(vocab: nat, topK: nat, minKeep: nat): nat {
    vocab - Min(Max(topK, minKeep), vocab)
  }

  /** Top-k on one row: the `TopKRemoveCount` lowest entries (`topk` with
      `largest = false`) become negative infinity, all others are kept. */
  function TopKRow(row: seq<Score>, topK: nat, minKeep: nat, asc: seq<nat>): (r: seq<Score>)
    requires IsPermutation(asc, |row|)
    ensures |r| == |row|
    ensures var removed := Leading(asc, TopKRemoveCount(|row|, topK, minKeep));
      && |removed| == TopKRemoveCount(|row|, topK, minKeep)
      && (forall t :: 0 <= t < |row| ==> r[t] == (if t in removed then NegInf else row[t]))
    ensures AscendingOrder(row, asc) ==>
      forall j, m :: 0 <= j < TopKRemoveCount(|row|, topK, minKeep) <= m < |row| ==>
        Le(row[asc[j]], row[asc[m]])
  {
    var count := TopKRemoveCount(|row|, topK, minKeep);
    LeadingSize(asc, count);
    var removed := Leading(asc, count);
    seq(|row|, t requires 0 <= t < |row| => if t in removed then NegInf else row[t])
  }

  /** The removal flags of top-p in sorted order: the `>= p` flags, cleared at
      sorted positions `0 ..= min_keep` when `min_keep > 1`, shifted right by
      one, with position 0 cleared. */
  function NucleusMask(ge: seq<bool>, minKeep: nat): (m: seq<bool>)
    requires |ge| > 0
    requires minKeep <= 1 || minKeep < |ge|
    ensures |m| == |ge|
    ensures forall j :: 0 <= j < |ge| ==>
      m[j] == (j >= 1 && ge[j - 1] && (minKeep <= 1 || j > minKeep + 1))
  {
    var cleared := if minKeep > 1 then seq(|ge|, j requires 0 <= j < |ge| => if j <= minKeep then false else ge[j]) else ge;
    var shifted := seq(|ge|, j requires 0 <= j < |ge| => if j == 0 then cleared[0] else cleared[j - 1]);
    shifted[0 := false]
  }

  /** Top-p on one row: the flags are scattered back through the sorted
      order and flagged entries become negative infinity. */
  function TopPRow(row: seq<Score>, desc: seq<nat>, ge: seq<bool>, minKeep: nat): (r: seq<Score>)
    requires |row| > 0 && IsPermutation(desc, |row|) && |ge| == |row|
    requires minKeep <= 1 || minKeep < |row|
    ensures |r| == |row|
    ensures forall j :: 0 <= j < |row| ==>
      r[desc[j]] == (if j >= 1 && ge[j - 1] && (minKeep <= 1 || j > minKeep + 1) then NegInf else row[desc[j]])
    ensures forall t :: 0 <= t < |row| ==> r[t] == row[t] || r[t] == NegInf
    ensures r[desc[0]] == row[desc[0]]
  {
    var mask := NucleusMask(ge, minKeep);
    var removed := set j | 0 <= j < |row| && mask[j] :: desc[j];
    assert forall j :: 0 <= j < |row| ==> (desc[j] in removed <==> mask[j]);
    seq(|row|, t requires 0 <= t < |row| => if t in removed then NegInf else row[t])
  }

  /** When the flags only ever switch on along the sorted order, as
      cumulative probabilities do, top-p keeps a prefix of the sorted row. */
  lemma NucleusKeepsPrefix(row: seq<Score>, desc: seq<nat>, ge: seq<bool>, minKeep: nat, j: nat, k: nat)
    requires |row| > 0 && IsPermutation(desc, |row|) && |ge| == |row|
    requires minKeep <= 1 || minKeep < |row|
    requires forall a, b :: 0 <= a <= b < |ge| && ge[a] ==> ge[b]
    requires j <= k < |row|
    requires TopPRow(row, desc, ge, minKeep)[desc[j]] == NegInf && row[desc[j]] != NegInf
    ensures TopPRow(row, desc, ge, minKeep)[desc[k]] == NegInf
  {
  }

  /** The row top-k filtering leaves behind; `top_k = 0` skips it. */
  function AfterTopK(row: seq<Score>, topK: nat, minKeep: nat, asc: seq<nat>): (r: seq<Score>)
    requires IsPermutation(asc, |row|)
    ensures |r| == |row|
    ensures forall t :: 0 <= t < |row| ==> r[t] == row[t] || r[t] == NegInf
  {
    if topK > 0 then TopKRow(row, topK, minKeep, asc) else row
  }

  /** Both filters on one row, top-k first; `desc` and `ge` describe the row
      top-k leaves behind, which is the row top-p sorts. Filtering only ever
      removes entries; top-k alone removes exactly its count of
      lowest-ranked entries, and under top-p the highest-ranked survivor of
      top-k stays. */
  function FilterRow(row: seq<Score>, topK: nat, topP: real, minKeep: nat,
                     asc: seq<nat>, desc: seq<nat>, ge: seq<bool>): (r: seq<Score>)
    requires |row| > 0 && IsPermutation(asc, |row|) && IsPermutation(desc, |row|) && |ge| == |row|
    requires topP >= 1.0 || minKeep <= 1 || minKeep < |row|
    ensures |r| == |row|
    ensures forall t :: 0 <= t < |row| ==> r[t] == row[t] || r[t] == NegInf
    ensures topK == 0 && topP >= 1.0 ==> r == row
    ensures topK > 0 && topP >= 1.0 ==>
      var removed := Leading(asc, TopKRemoveCount(|row|, topK, minKeep));
      && |removed| == TopKRemoveCount(|row|, topK, minKeep)
      && forall t :: 0 <= t < |row| ==> r[t] == (if t in removed then NegInf else row[t])
    ensures topP < 1.0 ==> r[desc[0]] == AfterTopK(row, topK, minKeep, asc)[desc[0]]
  {
    var afterK := AfterTopK(row, topK, minKeep, asc);
    if topP < 1.0 then TopPRow(afterK, desc, ge, minKeep) else afterK
  }

  /** `filtered` still holds, unchanged, an entry of highest score in `row`. */
  ghost predicate KeepsMaximum(row: seq<Score>, filtered: seq<Score>)
    requires |filtered| == |row|
  {
    exists t :: 0 <= t < |row| && filtered[t] == row[t] && forall u :: 0 <= u < |row| ==> Le(row[u], row[t])
  }

  /** With sorted orders, filtering keeps a highest entry of the row: the
      last position of the ascending order survives top-k, and top-p keeps
      the first position of the descending order of what top-k left. */
  lemma FilterKeepsMaximum(row: seq<Score>, topK: nat, topP: real, minKeep: nat,
                           asc: seq<nat>, desc: seq<nat>, ge: seq<bool>)
    requires |row| > 0 && AscendingOrder(row, asc) && |ge| == |row|
    requires DescendingOrder(AfterTopK(row, topK, minKeep, asc), desc)
    requires topP >= 1.0 || minKeep <= 1 || minKeep < |row|
    ensures KeepsMaximum(row, FilterRow(row, topK, topP, minKeep, asc, desc, ge))
  {
    var n := |row|;
    var m := asc[n - 1];
    var afterK := AfterTopK(row, topK, minKeep, asc);
    var r := FilterRow(row, topK, topP, minKeep, asc, desc, ge);
    forall u | 0 <= u < n
      ensures Le(row[u], row[m])
    {
      PermutationCovers(asc, n, u);
    }
    assert afterK[m] == row[m] by {
      if topK > 0 {
        assert m !in Leading(asc, TopKRemoveCount(n, topK, minKeep));
      }
    }
    if topP < 1.0 {
      var top := desc[0];
      PermutationCovers(desc, n, m);
      assert Le(row[m], afterK[top]);
      forall u | 0 <= u < n
        ensures Le(row[u], row[top])
      {
        LeTransitive(row[u], row[m], afterK[top]);
      }
      assert r[top] == row[top];
    } else {
      assert r[m] == row[m];
    }
  }

  /** The shape every row must have for filtering: `asc` orders the row,
      `desc` and `ge` the row top-k leaves behind. */
  ghost predicate RowsReady(logits: seq<seq<Score>>, topP: real, minKeep: nat,
                            asc: seq<seq<nat>>, desc: seq<seq<nat>>, ge: seq<seq<bool>>) {
    && |asc| == |logits| && |desc| == |logits| && |ge| == |logits|
    && forall i :: 0 <= i < |logits| ==>
      && |logits[i]| > 0
      && IsPermutation(asc[i], |logits[i]|) && IsPermutation(desc[i], |logits[i]|)
      && |ge[i]| == |logits[i]|
      && (topP >= 1.0 || minKeep <= 1 || minKeep < |logits[i]|)
  }

  /** `top_k_top_p_filtering` on a score matrix: each row is filtered with its
      own orders and flags. Filtering only ever removes entries, and with
      `top_k = 0` and `top_p >= 1` it changes nothing. */
  function TopKTopPFiltering(logits: seq<seq<Score>>, topK: nat, topP: real, minKeep: nat,
                             asc: seq<seq<nat>>, desc: seq<seq<nat>>, ge: seq<seq<bool>>): (r: seq<seq<Score>>)
    requires RowsReady(logits, topP, minKeep, asc, desc, ge)
    ensures |r| == |logits|
    ensures forall i :: 0 <= i < |logits| ==> |r[i]| == |logits[i]|
    ensures forall i, t :: 0 <= i < |logits| && 0 <= t < |logits[i]| ==>
      r[i][t] == logits[i][t] || r[i][t] == NegInf
    ensures topK == 0 && topP >= 1.0 ==> r == logits
  {
    seq(|logits|, i requires 0 <= i < |logits| =>
      FilterRow(logits[i], topK, topP, minKeep, asc[i], desc[i], ge[i]))
  }

  /** With `k` at least the vocabulary size and `p = 1`, filtering is the identity. */
  lemma FullTopKIsIdentity(logits: seq<seq<Score>>, topK: nat, minKeep: nat,
                           asc: seq<seq<nat>>, desc: seq<seq<nat>>, ge: seq<seq<bool>>)
    requires RowsReady(logits, 1.0, minKeep, asc, desc, ge)
    requires forall i :: 0 <= i < |logits| ==> topK >= |logits[i]|
    ensures TopKTopPFiltering(logits, topK, 1.0, minKeep, asc, desc, ge) == logits
  {
    var r := TopKTopPFiltering(logits, topK, 1.0, minKeep, asc, desc, ge);
    forall i | 0 <= i < |logits|
      ensures r[i] == logits[i]
    {
      assert TopKRemoveCount(|logits[i]|, topK, minKeep) == 0;
      assert Leading(asc[i], 0) == {};
    }
  }
}
