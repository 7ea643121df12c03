/** `LanguageGenerator::generate` (src/pipelines/generation.rs:850-941):
    the padding id is resolved, the prompts are encoded (or a lone
    beginning-of-sequence token stands in for them), every prompt is copied
    once per returned sequence and per beam, and the work is handed to beam
    search or to the beam-free decoder. Turning ids back into text belongs
    to the tokenizer and is not part of this model. */
module Facade {

  import opened Basics
  import opened Config
  import opened Prompt
  import opened Kernels
  import opened Hypotheses
  import Greedy
  import Beam

  /** The special ids a model brings along. */
  datatype SpecialIds = SpecialIds(bos: Option<int>, eos: Option<seq<int>>, pad: Option<int>, unk: int)

  /** The padding id: the model's own, else the first end-of-sequence id,
      else none. Indexing an empty end-of-sequence list panics. */
  function ResolvePad(pad: Option<int>, eos: Option<seq<int>>): (r: Result<Option<int>>)
    ensures r.Err? <==> pad.None? && eos.Some? && eos.value == []
    ensures r.Err? ==> r.failure == EmptyEosList
    ensures r.Ok? && pad.Some? ==> r.value == pad
    ensures r.Ok? && pad.None? ==> (r.value.Some? <==> eos.Some?)
    ensures r.Ok? && pad.None? && r.value.Some? ==> r.value.value == eos.value[0]
  {
    match pad
    case Some(_) => Ok(pad)
    case None =>
      match eos
      case None => Ok(None)
      case Some(ids) => if |ids| == 0 then Err(EmptyEosList) else Ok(Some(ids[0]))
  }

  /** The ids generation starts from: the encoded prompts, or `[[bos]]`
      when no prompt is given. Without prompts and without a
      beginning-of-sequence id, generation cannot start. */
  function InputIds(prompts: Option<seq<seq<int>>>, maxLength: nat, pad: Option<int>, ids: SpecialIds,
                    trunc: Truncation): (r: Result<seq<seq<int>>>)
    requires RemovesExactly(trunc)
    ensures r.Err? <==> (prompts.None? && ids.bos.None?) || prompts == Some([])
    ensures r.Err? ==> r.failure == (if prompts.None? then MissingBosToken else EmptyPromptList)
    ensures r.Ok? && prompts.None? ==> r.value == [[ids.bos.value]]
    ensures r.Ok? && prompts.Some? ==> |r.value| == |prompts.value| && Rectangular(r.value, |r.value[0]|)
    ensures r.Ok? && prompts.Some? ==> |r.value[0]| <= maxLength
  {
    match prompts
    case Some(texts) => EncodePrompt(texts, maxLength, pad, ids.unk, trunc)
    case None =>
      match ids.bos
      case Some(bos) => Ok([[bos]])
      case None => Err(MissingBosToken)
  }

  /** The default attention mask: positions holding the model's own padding
      id are hidden, and with no such id nothing is. */
  function DefaultMask(ids: seq<seq<int>>, pad: Option<int>): (r: seq<seq<bool>>)
    ensures |r| == |ids| && forall i :: 0 <= i < |ids| ==> |r[i]| == |ids[i]|
    ensures forall i, j :: 0 <= i < |ids| && 0 <= j < |ids[i]| ==>
      (r[i][j] <==> pad.None? || ids[i][j] != pad.value)
  {
    seq(|ids|, i requires 0 <= i < |ids| =>
      seq(|ids[i]|, j requires 0 <= j < |ids[i]| => pad.None? || ids[i][j] != pad.value))
  }

  /** On encoded prompts padded with the model's own padding id, the
      default mask hides every padding position, and shows every prompt
      token that differs from the padding id. */
  lemma MaskHidesPadding(prompts: seq<seq<int>>, maxLength: nat, pad: int, unk: int, trunc: Truncation)
    requires RemovesExactly(trunc) && prompts != []
    ensures var enc := EncodePrompt(prompts, maxLength, Some(pad), unk, trunc).value;
      var mask := DefaultMask(enc, Some(pad));
      var w := |enc[0]|;
      forall i, j :: 0 <= i < |prompts| && 0 <= j < w ==>
        var kept := Min(|prompts[i]|, maxLength);
        (j < w - kept ==> !mask[i][j]) &&
        (w - kept <= j ==> (mask[i][j] <==> enc[i][j] != pad))
  {
  }

  /** `unsqueeze(1).expand(..).view(..)`: every row copied `copies` times in
      a row, so that row `b * copies + j` is a copy of row `b`. */
  function Expand<T>(rows: seq<seq<T>>, copies: nat): (r: seq<seq<T>>)
    requires copies > 0
    ensures |r| == |rows| * copies
    ensures forall b, j :: 0 <= b < |rows| && 0 <= j < copies ==>
      Flat(b, j, copies) < |r| && r[Flat(b, j, copies)] == rows[b]
  {
    var r := seq(|rows| * copies, i requires 0 <= i < |rows| * copies =>
      Unflat(i, copies, |rows|);
      rows[i / copies]);
    forall b, j | 0 <= b < |rows| && 0 <= j < copies
      ensures Flat(b, j, copies) < |r| && r[Flat(b, j, copies)] == rows[b]
    {
      FlatIndex(b, j, copies, |rows|);
    }
    r
  }

  /** A single copy changes nothing, which is why the source skips the
      expansion when there is one beam and one returned sequence. */
  lemma ExpandOnceIsIdentity<T>(rows: seq<seq<T>>)
    ensures Expand(rows, 1) == rows
  {
    var r := Expand(rows, 1);
    forall i | 0 <= i < |rows|
      ensures r[i] == rows[i]
    {
      assert Flat(i, 0, 1) == i;
    }
  }

  /** Copying rows keeps them all of one width. */
  lemma ExpandKeepsWidth<T>(rows: seq<seq<T>>, copies: nat, w: int)
    requires copies > 0 && Rectangular(rows, w)
    ensures Rectangular(Expand(rows, copies), w)
  {
    var r := Expand(rows, copies);
    forall i | 0 <= i < |r|
      ensures |r[i]| == w
    {
      Unflat(i, copies, |rows|);
    }
  }

  /** How many copies of each prompt go to the decoder: one per returned
      sequence when sampling, times the number of beams. */
  function Copies(c: GenerateConfig): (n: nat)
    requires WellFormed(c)
    ensures n >= 1 && n == (if c.doSample then c.numReturnSequences else 1) * c.numBeams
  {
    MulAtLeast(if c.doSample then c.numReturnSequences else 1, c.numBeams);
    (if c.doSample then c.numReturnSequences else 1) * c.numBeams
  }

  /** The items beam search sees: the prompts, each once per returned
      sequence when sampling. Its `num_beams` rows per item are exactly
      the expanded rows, and its outputs per item make up
      `num_return_sequences` per prompt. */
  function EffectiveBatch(batch: nat, c: GenerateConfig): (n: nat)
    requires WellFormed(c)
    ensures batch >= 1 ==> n >= 1
    ensures n * c.numBeams == batch * Copies(c)
    ensures n * (if c.doSample then 1 else c.numReturnSequences) == batch * c.numReturnSequences
  {
    var m := if c.doSample then c.numReturnSequences else 1;
    assert batch >= 1 ==> batch * m >= m by {
      if batch >= 1 { MulAtLeast(batch, m); }
    }
    assert batch * (m * c.numBeams) == (batch * m) * c.numBeams;
    batch * m
  }

  /** The beam parameters `generate` passes on, in the decoder's reading `v`. */
  function BeamSettings(c: GenerateConfig, batch: nat, pad: Option<int>, ids: SpecialIds, vocab: nat,
                        v: Variant): Beam.BeamParams
    requires WellFormed(c)
  {
    Beam.BeamParams(c.minLength, c.maxLength, c.doSample, c.earlyStopping, c.temperature, c.topK, c.topP,
                    c.repetitionPenalty, c.noRepeatNgramSize, pad, ids.eos, EffectiveBatch(batch, c),
                    c.numReturnSequences, c.lengthPenalty, c.numBeams, vocab, v)
  }

  /** The beam-free parameters `generate` passes on, in the decoder's reading `v`. */
  function GreedySettings(c: GenerateConfig, pad: Option<int>, ids: SpecialIds, vocab: nat, v: Variant): Greedy.NoBeamParams {
    Greedy.NoBeamParams(c.minLength, c.maxLength, c.doSample, c.temperature, c.topK, c.topP,
                        c.repetitionPenalty, c.noRepeatNgramSize, pad, ids.eos, vocab, v)
  }

  /** The expansion step of `generate`, skipped when there is one beam and
      one returned sequence. */
  function Expanded(c: GenerateConfig, input: seq<seq<int>>): (r: seq<seq<int>>)
    requires WellFormed(c) && |input| > 0 && Rectangular(input, |input[0]|)
    ensures |r| == |input| * Copies(c) && Rectangular(r, |input[0]|)
    ensures forall b, j :: 0 <= b < |input| && 0 <= j < Copies(c) ==>
      Flat(b, j, Copies(c)) < |r| && r[Flat(b, j, Copies(c))] == input[b]
  {
    ExpandKeepsWidth(input, Copies(c), |input[0]|);
    if c.numReturnSequences > 1 || c.numBeams > 1 then Expand(input, Copies(c))
    else
      ExpandOnceIsIdentity(input);
      input
  }

  /** The decoding after the inputs are known, in the decoders' reading
      `v`: the expansion, then beam search for more than one beam and the
      beam-free decoder otherwise. Either way each prompt yields
      `num_return_sequences` outputs, each beginning with its prompt. */
  function Decode(c: GenerateConfig, input: seq<seq<int>>, pad: Option<int>, ids: SpecialIds,
                  vocab: nat, k: Kernels, pow: Pow, v: Variant): (r: Result<seq<seq<int>>>)
    requires WellFormed(c) && Sound(k, vocab)
    requires |input| > 0 && Rectangular(input, |input[0]|)
    ensures r.Ok? ==> |r.value| == |input| * c.numReturnSequences
    ensures r.Ok? ==> forall b, j :: 0 <= b < |input| && 0 <= j < c.numReturnSequences ==>
      Flat(b, j, c.numReturnSequences) < |r.value| && input[b] <= r.value[Flat(b, j, c.numReturnSequences)]
  {
    if c.numBeams > 1 then
      BeamOutputsContinuePrompts(c, input, pad, ids, vocab, k, pow, v);
      DecodeBeams(c, input, pad, ids, vocab, k, pow, v)
    else DecodeGreedy(c, input, pad, ids, vocab, k, v)
  }

  /** More than one beam: beam search over `effective_batch_size` items. */
  function DecodeBeams(c: GenerateConfig, input: seq<seq<int>>, pad: Option<int>, ids: SpecialIds,
                       vocab: nat, k: Kernels, pow: Pow, v: Variant): (r: Result<seq<seq<int>>>)
    requires WellFormed(c) && Sound(k, vocab)
    requires |input| > 0 && Rectangular(input, |input[0]|)
    ensures r.Ok? ==> |r.value| == |input| * c.numReturnSequences
  {
    var p := BeamSettings(c, |input|, pad, ids, vocab, v);
    Beam.GenerateBeamSearch(Expanded(c, input), |input[0]|, p, k, pow)
  }

  /** Every output of beam search begins with the prompt it was decoded
      from: output `j` of prompt `b` continues a row of its item, and every
      row of that item is a copy of prompt `b`. */
  lemma BeamOutputsContinuePrompts(c: GenerateConfig, input: seq<seq<int>>, pad: Option<int>, ids: SpecialIds,
                                   vocab: nat, k: Kernels, pow: Pow, v: Variant)
    requires WellFormed(c) && Sound(k, vocab)
    requires |input| > 0 && Rectangular(input, |input[0]|)
    ensures var r := DecodeBeams(c, input, pad, ids, vocab, k, pow, v);
      r.Ok? ==> forall b, j :: 0 <= b < |input| && 0 <= j < c.numReturnSequences ==>
        Flat(b, j, c.numReturnSequences) < |r.value| && input[b] <= r.value[Flat(b, j, c.numReturnSequences)]
  {
    var r := DecodeBeams(c, input, pad, ids, vocab, k, pow, v);
    if r.Ok? {
      var p := BeamSettings(c, |input|, pad, ids, vocab, v);
      var rows := Expanded(c, input);
      Beam.OutputsContinuePrompts(rows, |input[0]|, p, k, pow);
      forall b, j | 0 <= b < |input| && 0 <= j < c.numReturnSequences
        ensures Flat(b, j, c.numReturnSequences) < |r.value| && input[b] <= r.value[Flat(b, j, c.numReturnSequences)]
      {
        var b', j' := ItemOfOutput(c, |input|, b, j);
        assert Beam.FromItem(r.value[Flat(b', j', Beam.PerItem(p))], rows, b', c.numBeams);
        var t :| 0 <= t < c.numBeams && Flat(b', t, c.numBeams) < |rows|
          && rows[Flat(b', t, c.numBeams)] <= r.value[Flat(b', j', Beam.PerItem(p))];
        ItemRowIsPrompt(c, input, b, j, t);
      }
    }
  }

  /** Output `j` of prompt `b` is output `j'` of beam-search item `b'`:
      when sampling each returned sequence is an item of its own, otherwise
      the item is the prompt. */
  lemma ItemOfOutput(c: GenerateConfig, batch: nat, b: nat, j: nat) returns (b': nat, j': nat)
    requires WellFormed(c) && b < batch && j < c.numReturnSequences
    ensures b' == Flat(b, if c.doSample then j else 0, if c.doSample then c.numReturnSequences else 1)
    ensures b' < EffectiveBatch(batch, c)
    ensures j' < (if c.doSample then 1 else c.numReturnSequences)
    ensures Flat(b', j', if c.doSample then 1 else c.numReturnSequences) == Flat(b, j, c.numReturnSequences)
  {
    var m := if c.doSample then c.numReturnSequences else 1;
    var s := if c.doSample then j else 0;
    b', j' := Flat(b, s, m), if c.doSample then 0 else j;
    FlatIndex(b, s, m, batch);
  }

  /** Every row of the item holding output `j` of prompt `b` is a copy of
      prompt `b`. */
  lemma ItemRowIsPrompt(c: GenerateConfig, input: seq<seq<int>>, b: nat, j: nat, t: nat)
    requires WellFormed(c) && |input| > 0 && Rectangular(input, |input[0]|)
    requires b < |input| && j < c.numReturnSequences && t < c.numBeams
    ensures var m := if c.doSample then c.numReturnSequences else 1;
      var b' := Flat(b, if c.doSample then j else 0, m);
      Flat(b', t, c.numBeams) < |Expanded(c, input)| && Expanded(c, input)[Flat(b', t, c.numBeams)] == input[b]
  {
    var m := if c.doSample then c.numReturnSequences else 1;
    var s := if c.doSample then j else 0;
    FlatNested(b, s, t, m, c.numBeams);
    assert Flat(s, t, c.numBeams) < Copies(c);
  }

  /** One beam: the beam-free decoder over every copy of every prompt. */
  function DecodeGreedy(c: GenerateConfig, input: seq<seq<int>>, pad: Option<int>, ids: SpecialIds,
                        vocab: nat, k: Kernels, v: Variant): (r: Result<seq<seq<int>>>)
    requires WellFormed(c) && Sound(k, vocab) && c.numBeams == 1
    requires |input| > 0 && Rectangular(input, |input[0]|)
    ensures r.Ok? ==> |r.value| == |input| * c.numReturnSequences
    ensures r.Ok? ==> forall b, j :: 0 <= b < |input| && 0 <= j < c.numReturnSequences ==>
      Flat(b, j, c.numReturnSequences) < |r.value| && input[b] <= r.value[Flat(b, j, c.numReturnSequences)]
  {
    assert Copies(c) == c.numReturnSequences;
    Greedy.GenerateNoBeamSearch(Expanded(c, input), |input[0]|, GreedySettings(c, pad, ids, vocab, v), k)
  }

  /** `generate` up to the final decoding of ids into text, with decoders
      in reading `v`. */
  function Generate(c: GenerateConfig, prompts: Option<seq<seq<int>>>, ids: SpecialIds, vocab: nat,
                    trunc: Truncation, k: Kernels, pow: Pow, v: Variant): (r: Result<seq<seq<int>>>)
    requires WellFormed(c) && Sound(k, vocab) && RemovesExactly(trunc)
    ensures ids.pad.None? && ids.eos == Some([]) ==> r == Err(EmptyEosList)
    ensures ResolvePad(ids.pad, ids.eos).Ok? && InputIds(prompts, c.maxLength, ResolvePad(ids.pad, ids.eos).value, ids, trunc).Err? ==>
      r == Err(InputIds(prompts, c.maxLength, ResolvePad(ids.pad, ids.eos).value, ids, trunc).failure)
    ensures r.Ok? ==> |r.value| == (if prompts.Some? then |prompts.value| else 1) * c.numReturnSequences
    ensures r.Ok? ==>
      var input := InputIds(prompts, c.maxLength, ResolvePad(ids.pad, ids.eos).value, ids, trunc).value;
      forall b, j :: 0 <= b < |input| && 0 <= j < c.numReturnSequences ==>
        Flat(b, j, c.numReturnSequences) < |r.value| && input[b] <= r.value[Flat(b, j, c.numReturnSequences)]
  {
    match ResolvePad(ids.pad, ids.eos)
    case Err(f) => Err(f)
    case Ok(pad) =>
      match InputIds(prompts, c.maxLength, pad, ids, trunc)
      case Err(f) => Err(f)
      case Ok(input) => Decode(c, input, pad, ids, vocab, k, pow, v)
  }

  /** Without a pad id of its own, a model pads its prompts with the first
      end-of-sequence id, yet the default mask, which looks only at the
      model's own pad id, attends to every position: the padding stays
      visible. Prompts of different kept lengths do get padded. */
  lemma EosPaddingIsAttended(prompts: seq<seq<int>>, maxLength: nat, ids: SpecialIds, trunc: Truncation, i: nat, i2: nat)
    requires RemovesExactly(trunc)
    requires ids.pad.None? && ids.eos.Some? && ids.eos.value != []
    requires i < |prompts| && i2 < |prompts| && Min(|prompts[i]|, maxLength) < Min(|prompts[i2]|, maxLength)
    ensures ResolvePad(ids.pad, ids.eos) == Ok(Some(ids.eos.value[0]))
    ensures var input := InputIds(Some(prompts), maxLength, Some(ids.eos.value[0]), ids, trunc).value;
      var mask := DefaultMask(input, ids.pad);
      && |input[i]| > Min(|prompts[i]|, maxLength)
      && (forall j :: 0 <= j < |input[i]| - Min(|prompts[i]|, maxLength) ==> input[i][j] == ids.eos.value[0] && mask[i][j])
  {
    var input := InputIds(Some(prompts), maxLength, Some(ids.eos.value[0]), ids, trunc).value;
    var w := LongestLength(TruncateAll(prompts, maxLength, trunc));
    assert |TruncateAll(prompts, maxLength, trunc)[i2]| == Min(|prompts[i2]|, maxLength);
    assert |input[i]| == w;
  }

  /** `prepare_inputs_for_generation`: by default the whole rows; GPT-2,
      once it holds a cache of past keys and values, only the last token of
      each row. Selecting the last token of an empty row fails. Either way
      the model is shown the rows' last tokens at the end. */
  function PrepareInputs(rows: seq<seq<int>>, width: nat, hasPast: bool, lastOnly: bool): (r: Result<seq<seq<int>>>)
    requires Rectangular(rows, width)
    ensures r.Err? <==> hasPast && lastOnly && width == 0 && |rows| > 0
    ensures r.Err? ==> r.failure == IndexOutOfRange
    ensures r.Ok? ==> |r.value| == |rows|
    ensures r.Ok? ==> forall i :: 0 <= i < |rows| ==>
      |r.value[i]| <= |rows[i]| && r.value[i] == rows[i][|rows[i]| - |r.value[i]|..]
    ensures r.Ok? && hasPast && lastOnly ==> forall i :: 0 <= i < |rows| ==> |r.value[i]| == 1
    ensures r.Ok? && !(hasPast && lastOnly) ==> r.value == rows
  {
    if hasPast && lastOnly then
      if width == 0 && |rows| > 0 then Err(IndexOutOfRange)
      else Ok(seq(|rows|, i requires 0 <= i < |rows| => [rows[i][width - 1]]))
    else Ok(rows)
  }
}
