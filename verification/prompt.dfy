/** `encode_prompt_text` (src/pipelines/generation.rs:343-383): tokenised
    prompts are cut to at most `max_len` ids, then left-padded to the length
    of the longest one. Tokenisation itself is outside the model: the
    prompts arrive as id lists. */
module Prompt {

  import opened Basics

  /** `truncate_sequences` with the longest-first strategy, asked to remove
      `n` ids from one sequence. Its body belongs to the tokenizer library
      and is not part of this model; all that is relied on is that it
      removes exactly the `n` ids it is asked to. */
  type Truncation = (seq<int>, nat) -> seq<int>

  ghost predicate RemovesExactly(trunc: Truncation) {
    forall ids: seq<int>, n: nat :: n <= |ids| ==> |trunc(ids, n)| == |ids| - n
  }

  /** `len - max_len` ids are cut from a prompt longer than `max_len`. */
  function NumTruncated(ids: seq<int>, maxLen: nat): (n: nat)
    ensures n <= |ids| && |ids| - n == Min(|ids|, maxLen)
  {
    if |ids| > maxLen then |ids| - maxLen else 0
  }

  function Truncate(ids: seq<int>, maxLen: nat, trunc: Truncation): (r: seq<int>)
    requires RemovesExactly(trunc)
    ensures |r| == Min(|ids|, maxLen)
  {
    trunc(ids, NumTruncated(ids, maxLen))
  }

  /** The length of the longest list. */
  function LongestLength(rows: seq<seq<int>>): (w: nat)
    requires |rows| > 0
    ensures forall i :: 0 <= i < |rows| ==> |rows[i]| <= w
    ensures exists i :: 0 <= i < |rows| && |rows[i]| == w
  {
    if |rows| == 1 then |rows[0]|
    else
      var rest := LongestLength(rows[1..]);
      assert forall i :: 1 <= i < |rows| ==> rows[i] == rows[1..][i - 1];
      if |rows[0]| >= rest then |rows[0]| else rest
  }

  /** Every prompt truncated. */
  function TruncateAll(prompts: seq<seq<int>>, maxLen: nat, trunc: Truncation): (r: seq<seq<int>>)
    requires RemovesExactly(trunc)
    ensures |r| == |prompts|
    ensures forall i :: 0 <= i < |prompts| ==> r[i] == Truncate(prompts[i], maxLen, trunc)
  {
    seq(|prompts|, i requires 0 <= i < |prompts| => Truncate(prompts[i], maxLen, trunc))
  }

  /** The padding id: the configured one, else the unknown-token id. */
  function PadToken(pad: Option<int>, unkId: int): int {
    match pad
    case Some(p) => p
    case None => unkId
  }

  /** `encode_prompt_text`. Zero prompts is the `max().unwrap()` failure.
      Otherwise every row has the width of the longest truncated prompt,
      which is at most `max_len`; each row is padding followed by its own
      truncated prompt, and at least one row carries no padding. */
  function EncodePrompt(prompts: seq<seq<int>>, maxLen: nat, pad: Option<int>, unkId: int,
                        trunc: Truncation): (r: Result<seq<seq<int>>>)
    requires RemovesExactly(trunc)
    ensures r.Err? <==> prompts == []
    ensures r.Err? ==> r.failure == EmptyPromptList
    ensures r.Ok? ==>
      var w := LongestLength(TruncateAll(prompts, maxLen, trunc));
      && w <= maxLen
      && |r.value| == |prompts|
      && Rectangular(r.value, w)
      && (forall i :: 0 <= i < |prompts| ==>
            var kept := Min(|prompts[i]|, maxLen);
            && r.value[i][w - kept..] == trunc(prompts[i], NumTruncated(prompts[i], maxLen))
            && (forall j :: 0 <= j < w - kept ==> r.value[i][j] == PadToken(pad, unkId)))
      && (exists i :: 0 <= i < |prompts| && Min(|prompts[i]|, maxLen) == w)
  {
    if prompts == [] then Err(EmptyPromptList)
    else
      var cut := TruncateAll(prompts, maxLen, trunc);
      var w := LongestLength(cut);
      var padToken := PadToken(pad, unkId);
      Ok(seq(|cut|, i requires 0 <= i < |cut| => LeftPad(cut[i], w, padToken)))
  }

  /** A row padded on the left up to `width`. */
  function LeftPad(row: seq<int>, width: nat, padToken: int): (r: seq<int>)
    requires |row| <= width
    ensures |r| == width && r[width - |row|..] == row
    ensures forall j :: 0 <= j < width - |row| ==> r[j] == padToken
  {
    Repeat(padToken, width - |row|) + row
  }
}
