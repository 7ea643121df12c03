/** Shared vocabulary of the decoding engine: optional values, results that
    carry one of the engine's fatal conditions, and small integer helpers. */
module Basics {

  datatype Option<+T> = None | Some(value: T)

  /** The ways the engine fails to produce a result. Each is a `panic!`, a
      failed `assert!` or an `unwrap` on a missing value in the source,
      except `Spins`, which stands for a loop that never ends, seen through
      a step budget. */
  datatype Failure =
    | EmptyPromptList      // `max().unwrap()` over zero prompts
    | MissingBosToken      // no prompt and no beginning-of-sequence id
    | EmptyEosList         // `eos_ids[0]` on an empty list
    | MissingPadOrEos      // an `unwrap` on an absent padding or end-of-sequence id
    | TooFewHypotheses     // "Batch cannot be completed if all beams have not been generated"
    | BeamIncomplete       // "Beam incomplete"
    | IndexCopyMismatch    // `index_copy_` with an index list and a source of different sizes
    | IndexOutOfRange      // a tensor read or write past the end of a row
    | NoHypothesisLeft     // `pop().unwrap()` on an exhausted hypothesis list
    | Spins                // a loop that cannot end
    | ViewMismatch         // `view` to a shape holding a different number of entries
    | UnknownWord          // `get(word).unwrap()` on a word the document does not contain

  datatype Result<+T> = Ok(value: T) | Err(failure: Failure)

  /** Which reading of the source a decoder follows: the code as it is
      written, or the behaviour its comments and its origin evidently
      intend where the two part ways. */
  datatype Variant = AsWritten | Corrected

  function Min(a: int, b: int): int { if a <= b then a else b }

  function Max(a: int, b: int): int { if a >= b then a else b }

  /** `n` copies of `x`. */
  function Repeat<T>(x: T, n: nat): (r: seq<T>)
    ensures |r| == n
    ensures forall i :: 0 <= i < n ==> r[i] == x
  {
    seq(n, _ => x)
  }

  /** Every row of `m` has exactly `cols` entries. */
  ghost predicate Rectangular<T>(m: seq<seq<T>>, cols: int) {
    forall i :: 0 <= i < |m| ==> |m[i]| == cols
  }

  /** Every token id of `m` indexes a vocabulary of `vocab` entries. */
  ghost predicate TokensBelow(m: seq<seq<int>>, vocab: nat) {
    forall i, j :: 0 <= i < |m| && 0 <= j < |m[i]| ==> 0 <= m[i][j] < vocab
  }

  /** The largest entry of a non-empty list (`Tensor::max`). */
  function MaxIn(s: seq<int>): (r: int)
    requires |s| > 0
    ensures r in s
    ensures forall i :: 0 <= i < |s| ==> s[i] <= r
  {
    if |s| == 1 then s[0] else Max(s[0], MaxIn(s[1..]))
  }

  /** The smallest entry of a non-empty list (`Tensor::min`). */
  function MinIn(s: seq<int>): (r: int)
    requires |s| > 0
    ensures r in s
    ensures forall i :: 0 <= i < |s| ==> r <= s[i]
  {
    if |s| == 1 then s[0] else Min(s[0], MinIn(s[1..]))
  }

  /** Compiled form of `TokensBelow`: every id indexes the vocabulary. */
  predicate InVocab(m: seq<seq<int>>, vocab: nat)
    ensures InVocab(m, vocab) <==> TokensBelow(m, vocab)
  {
    forall i :: 0 <= i < |m| ==> forall j :: 0 <= j < |m[i]| ==> 0 <= m[i][j] < vocab
  }

  /** Position `j` of block `b` when blocks hold `n` entries each: the index
      a row-major `view` gives entry `(b, j)` of a matrix. */
  function Flat(b: nat, j: nat, n: nat): nat {
    b * n + j
  }

  lemma {:induction false} MulAtLeast(k: nat, n: nat)
    requires k >= 1
    ensures k * n >= n
    decreases k
  {
    if k > 1 {
      MulAtLeast(k - 1, n);
      assert k * n == (k - 1) * n + n;
    }
  }

  /** A flat index lies inside the matrix and `/`, `%` recover its position. */
  lemma FlatIndex(b: nat, j: nat, n: nat, count: nat)
    requires b < count && j < n
    ensures Flat(b, j, n) < count * n
    ensures Flat(b, j, n) / n == b && Flat(b, j, n) % n == j
  {
    MulAtLeast(count - b, n);
    assert count * n == (count - b) * n + b * n;
    var x := Flat(b, j, n);
    var d, m := x / n, x % n;
    assert x == d * n + m;
    if d < b {
      MulAtLeast(b - d, n);
    } else if d > b {
      MulAtLeast(d - b, n);
    }
  }

  /** Block `b` of blocks of `m * n` entries, read as `m` sub-blocks of
      `n`: entry `t` of sub-block `s` sits at the same flat position. */
  lemma FlatNested(b: nat, s: nat, t: nat, m: nat, n: nat)
    requires s < m && t < n
    ensures Flat(s, t, n) < m * n
    ensures Flat(Flat(b, s, m), t, n) == Flat(b, Flat(s, t, n), m * n)
  {
    FlatIndex(s, t, n, m);
    assert (b * m + s) * n == b * (m * n) + s * n;
  }

  /** Every index of a matrix of `count` blocks of `n` is the flat index of
      its quotient and remainder. */
  lemma Unflat(i: nat, n: nat, count: nat)
    requires n > 0 && i < count * n
    ensures i / n < count && i == Flat(i / n, i % n, n)
  {
    assert i == (i / n) * n + i % n;
  }
}
