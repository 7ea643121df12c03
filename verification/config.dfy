/** `GenerateConfig`, its default value and its validation
    (src/pipelines/generation.rs:85-147). Counts are `u64` in the source and
    `nat` here; the floating-point parameters are reals. */
module Config {

  import opened Basics

  datatype GenerateConfig = GenerateConfig(
    minLength: nat,
    maxLength: nat,
    doSample: bool,
    earlyStopping: bool,
    numBeams: nat,
    temperature: real,
    topK: nat,
    topP: real,
    repetitionPenalty: real,
    lengthPenalty: real,
    noRepeatNgramSize: nat,
    numReturnSequences: nat)

  /** The assertion that fails first, in the order the source checks them. */
  datatype ConfigError =
    | NonPositiveTemperature
    | TopPOutOfRange
    | RepetitionPenaltyBelowOne
    | NonPositiveLengthPenalty
    | NoReturnSequences
    | NoBeams
    | GreedyWithSeveralReturns
    | MoreReturnsThanBeams

  /** The documented requirements on a configuration, stated declaratively. */
  predicate WellFormed(c: GenerateConfig) {
    && c.temperature > 0.0
    && 0.0 <= c.topP <= 1.0
    && c.repetitionPenalty >= 1.0
    && c.lengthPenalty > 0.0
    && c.numReturnSequences > 0
    && c.numBeams > 0
    && (!c.doSample && c.numBeams == 1 ==> c.numReturnSequences == 1)
    && (!c.doSample && c.numBeams > 1 ==> c.numReturnSequences <= c.numBeams)
  }

  /** What each error reports about the configuration. */
  predicate Reports(c: GenerateConfig, e: ConfigError) {
    match e
    case NonPositiveTemperature => c.temperature <= 0.0
    case TopPOutOfRange => c.topP < 0.0 || c.topP > 1.0
    case RepetitionPenaltyBelowOne => c.repetitionPenalty < 1.0
    case NonPositiveLengthPenalty => c.lengthPenalty <= 0.0
    case NoReturnSequences => c.numReturnSequences == 0
    case NoBeams => c.numBeams == 0
    case GreedyWithSeveralReturns => !c.doSample && c.numBeams == 1 && c.numReturnSequences != 1
    case MoreReturnsThanBeams => !c.doSample && c.numBeams > 1 && c.numReturnSequences > c.numBeams
  }

  /** `GenerateConfig::validate`: `None` when every assertion passes, else the
      first assertion that panics. */
  function Validate(c: GenerateConfig): (r: Option<ConfigError>)
    ensures r.None? <==> WellFormed(c)
    ensures r.Some? ==> Reports(c, r.value)
  {
    if !(c.temperature > 0.0) then Some(NonPositiveTemperature)
    else if !(c.topP >= 0.0 && c.topP <= 1.0) then Some(TopPOutOfRange)
    else if !(c.repetitionPenalty >= 1.0) then Some(RepetitionPenaltyBelowOne)
    else if !(c.lengthPenalty > 0.0) then Some(NonPositiveLengthPenalty)
    else if !(c.numReturnSequences > 0) then Some(NoReturnSequences)
    else if !(c.numBeams > 0) then Some(NoBeams)
    else if !c.doSample then
      if c.numBeams == 1 then
        if c.numReturnSequences == 1 then None else Some(GreedyWithSeveralReturns)
      else if c.numBeams >= c.numReturnSequences then None else Some(MoreReturnsThanBeams)
    else None
  }

  /** `GenerateConfig::default()`. */
  function Default(): (c: GenerateConfig)
    ensures Validate(c).None?
    ensures c.doSample && c.numBeams == 5 && c.maxLength == 20 && c.noRepeatNgramSize == 3
  {
    GenerateConfig(
      minLength := 0,
      maxLength := 20,
      doSample := true,
      earlyStopping := false,
      numBeams := 5,
      temperature := 1.0,
      topK := 0,
      topP := 0.9,
      repetitionPenalty := 1.0,
      lengthPenalty := 1.0,
      noRepeatNgramSize := 3,
      numReturnSequences := 1)
  }

  /** A valid configuration never asks a greedy decoder for more sequences
      than it has beams. */
  lemma ReturnsBoundedWithoutSampling(c: GenerateConfig)
    requires Validate(c).None?
    requires !c.doSample
    ensures 1 <= c.numReturnSequences <= c.numBeams
  {
  }
}
