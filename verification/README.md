# Decoding engine of rust-bert's text generation, in Dafny

This project models the decoding engine of rust-bert's language generators (`src/pipelines/generation.rs`). The modelled pieces are:

- **Configuration.** The configuration record, its default and its validation.
- **Prompt encoding.** Prompts are truncated and left-padded into one rectangular id matrix.
- **Token filters.** Both decoders share them: the repetition penalty, the ban on repeated n-grams, the end-of-sequence mask for short sequences, temperature, and top-k / nucleus (top-p) filtering.
- **`generate_no_beam_search`.** A step function over `(input_ids, unfinished_sentences, sentence_lengths, current_length)`, followed by the padding of the output.
- **`generate_beam_search`.** This covers:
  - the bookkeeping of beam scores;
  - the walk over each item's candidates;
  - the `BeamHypotheses` bounded best-N list with `add` and `is_done`;
  - the reindexing of rows and of the key/value cache;
  - the finalisation loop;
  - the selection and padding of the returned sequences.
- **`generate`.** Pad-id resolution, the beginning-of-sequence fallback, the default attention mask, batch expansion and the dispatch between the two decoders. `prepare_inputs_for_generation` is modelled too.
- **Keyword-extraction `predict`.** Two pure parts of rust-bert's keyword extraction pipeline (`src/pipelines/keywords_extraction/pipeline.rs`):
  - `flatten_word_list`;
  - the per-document assembly of keywords in `predict`: the `num_keywords` clamp, the offsets lookup, and the sort by descending score.

Some parts of the engine are parameters of the model rather than code in it. Their bodies are not part of this model:

- the neural model's forward pass;
- the floating-point kernels (`argmax`, `multinomial`, `log_softmax`, `softmax`/`cumsum`, `sort`, `topk`), bundled in `Kernels.Kernels`;
- `powf`;
- the tokenizer's `truncate_sequences`;
- keyword scoring.

Each of these comes with a predicate stating only the shapes the engine relies on.

Scores are extended reals: `NegInf | Fin(real) | PosInf`. Positive infinity is the initial `worst_score` of a hypothesis list.

Every panic, `assert!` or `unwrap` on a missing value becomes an `Err` of `Basics.Failure`. A loop that can never end is modelled with a step budget (`fuel`). The lemmas then show that no budget suffices.

The source has six bugs, listed under "## Findings". Each is modelled as written, next to a corrected definition. The decoders and `generate` take the reading as a parameter (`Basics.Variant`). Under `AsWritten` they are built from the helpers as written; a loop that never ends is reported as the failure `Spins`. Under `Corrected` they are built from the corrected helpers. A row below holds under both readings unless it says "as written" or "corrected".

The intended n-gram ban is read off the source itself. The field `no_repeat_ngram_size` (`src/pipelines/generation.rs:106-107`) names an n-gram size and switches the ban on above 0. `get_banned_tokens` is marked as a port of the transformers and fairseq code (`src/pipelines/generation.rs:400`), which bans the last id of every earlier n-gram of that size. The code, however, always cuts windows of three ids (`src/pipelines/generation.rs:416-420`) and uses the configured size only to place the query. `Filters.GetBannedTokensAsWritten` follows the code; `Filters.GetBannedTokens` uses windows of the configured size. On the history `[5, 9, 5, 9]` with size 2, the first bans nothing (`Filters.AsWrittenMissesBigram`) and the second bans exactly `5` (`Filters.BigramBansFive`).

Modules, one per file: `Basics`, `Scores`, `Config`, `Sorting`, `Hypotheses`, `Filters`, `TopKTopP`, `Prompt`, `Kernels`, `Greedy`, `Beam`, `Selection`, `Facade`, `Keywords`.

## Model

| member | source | states |
|---|---|---|
| Config.Validate | src/pipelines/generation.rs:132-147 | validation passes exactly when the configuration is well formed. The conditions are: positive temperature, top-p in [0, 1], repetition penalty at least 1, positive length penalty, at least one returned sequence and one beam, and the greedy / beam limits on returned sequences. A failure names a condition the configuration breaks |
| Config.Default | src/pipelines/generation.rs:112-130 | the default configuration passes validation; it samples with 5 beams, max length 20 and n-gram size 3 |
| Config.ReturnsBoundedWithoutSampling | src/pipelines/generation.rs:139-145 | without sampling, a valid configuration returns between one sequence and the number of beams |
| Sorting.SortBy | src/pipelines/generation.rs:742-743 | the result is ordered by the key and is a permutation of the input |
| Hypotheses.New | src/pipelines/generation.rs:970-979 | a new list is empty and satisfies the list invariant, with `max_length - 1` stored |
| Hypotheses.FirstMinIndex | src/pipelines/generation.rs:990-994 | the index `min_by_key` returns: a minimum score, and the first one |
| Hypotheses.Normalised | src/pipelines/generation.rs:986 | a hypothesis score is finite exactly when the summed log-probability is, infinities pass through unchanged, and a finite score keeps its sign |
| Hypotheses.NormalisedScalesBack | src/pipelines/generation.rs:986 | the stored score times `length ^ length_penalty` gives back the summed log-probability |
| Hypotheses.Add | src/pipelines/generation.rs:985-999 | the invariant is kept: at most `num_beams` entries, and `worst_score` is their minimum. A candidate is rejected (nothing changes) unless the list has room or it beats `worst_score`. An accepted one is appended with its length-normalised score and, on overflow, the first entry of minimum score is removed. Settings never change |
| Hypotheses.EvictionIsOld | src/pipelines/generation.rs:988-994 | on overflow the evicted entry is never the one just pushed: it is an old entry holding `worst_score` |
| Hypotheses.IsDone | src/pipelines/generation.rs:1001-1009 | false while the list is not full; true when full with early stopping; otherwise true exactly when `worst_score` is at least the best score normalised by the current length |
| Hypotheses.AddKeepsFullAndRaisesWorst | src/pipelines/generation.rs:985-999 | adding to a full list keeps it full and never lowers `worst_score` |
| Hypotheses.DoneStaysDone | src/pipelines/generation.rs:985-1009 | once `is_done` holds for a best score and length, it holds after any further `add` |
| Hypotheses.AddSize | src/pipelines/generation.rs:985-999 | after `add` the list holds `min(num_beams, size + 1)` entries |
| Hypotheses.AddAll | src/pipelines/generation.rs:719-724 | adding a sequence of entries keeps the invariant and the settings, and leaves `min(num_beams, size + count)` entries |
| Hypotheses.AddOffersOnly | src/pipelines/generation.rs:985-999 | `add` brings in no hypothesis but the one offered |
| Hypotheses.AddAllOffersOnly | src/pipelines/generation.rs:719-724 | adding a list of entries brings in no hypothesis but theirs |
| Filters.PenaliseRow | src/pipelines/generation.rs:387-394 | each entry of a row is rescaled once per occurrence of its token in the row's history: negative logits are multiplied by the penalty, the others divided |
| Filters.PenaliseOnce | src/pipelines/generation.rs:389-394 | one rescaling keeps infinities and the sign of a finite logit, and with a penalty of at least 1 never raises it |
| Filters.EnforceRepetitionPenalty | src/pipelines/generation.rs:385-397 | rows `0 .. batch_size*num_beams` are penalised with their own history; later rows are unchanged |
| Filters.UnitPenaltyIsIdentity | src/pipelines/generation.rs:385-397 | a penalty of 1 changes no score |
| Filters.PenaltyNeverRaises | src/pipelines/generation.rs:385-397 | a penalty of at least 1 never raises a score |
| Filters.Temper | src/pipelines/generation.rs:603-605 | a temperature above 1 divides every finite score; otherwise the scores are unchanged |
| Filters.Record | src/pipelines/generation.rs:427-432 | inserting into the n-gram table appends the follower to its key's list (a fresh list for a new key) and changes no other key |
| Filters.FollowersSnoc | src/pipelines/generation.rs:421-433 | extending a row by one id adds exactly the follower of the window ending at that id |
| Filters.FollowersAfter | src/pipelines/generation.rs:421-433 | the followers of a key in a prefix grow by the prefix's last window only |
| Filters.TableExtends | src/pipelines/generation.rs:421-433 | recording the next window keeps the table equal to "key maps to all its followers so far" |
| Filters.NgramTable | src/pipelines/generation.rs:405-433 | the loop builds the table that maps each key to the followers of its windows, in order |
| Filters.BannedForHypothesis | src/pipelines/generation.rs:434-438 | a row's banned list is the list of followers of its query, empty when the query was never seen |
| Filters.GetBannedTokensAsWritten | src/pipelines/generation.rs:399-443 | too short a history gives one empty list; otherwise one list per row, from windows of three ids |
| Filters.GetBannedTokens | src/pipelines/generation.rs:399-443 | the same shape, from windows of the configured size |
| Filters.BannedTokens | src/pipelines/generation.rs:399-443 | the banned lists of either reading: one empty list while the history is too short, otherwise one list per row |
| Filters.ReadingsAgreeAtZeroAndThree | src/pipelines/generation.rs:399-443 | at size 0 (rows of `cur_len` ids) or 3 both readings ban the same tokens |
| Filters.FollowersOfShortKey | src/pipelines/generation.rs:434-438 | a query whose length is not `n - 1` has no followers |
| Filters.FollowersMembership | src/pipelines/generation.rs:421-438 | a token follows a key exactly when some window of the row is the key followed by that token |
| Filters.AsWrittenBansNothingUnlessThree | src/pipelines/generation.rs:409-420 | as written, any size other than 3 bans nothing at all |
| Filters.AsWrittenMissesBigram | src/pipelines/generation.rs:416-420 | as written, history `[5, 9, 5, 9]` with size 2 bans nothing |
| Filters.BigramBansFive | src/pipelines/generation.rs:399-443 | corrected, the same history bans exactly `5` |
| Filters.AsWrittenAgreesAtThree | src/pipelines/generation.rs:416-420 | with size 3 the code as written and the corrected definition agree |
| Filters.BannedIffNgramSeen | src/pipelines/generation.rs:399-443 | corrected, a token is banned exactly when the row holds a window of the configured size: its last `n - 1` ids followed by that token |
| Filters.ZeroSizeBansNothing | src/pipelines/generation.rs:401-415 | size 0 bans no token |
| Filters.ApplyBans | src/pipelines/generation.rs:614-618 | row `i` loses exactly the tokens of list `i`; rows without a list are unchanged |
| Filters.MaskEos | src/pipelines/generation.rs:609-612 | every end-of-sequence token gets negative infinity; nothing else changes |
| TopKTopP.TopKRow | src/pipelines/generation.rs:449-456 | top-k removes exactly `vocab - min(max(k, min_keep), vocab)` entries, the lowest in the given ascending order, and keeps the rest |
| TopKTopP.NucleusMask | src/pipelines/generation.rs:458-468 | the removal flag at sorted position `j` is the `>= p` flag of position `j - 1`, cleared for `j <= min_keep + 1` when `min_keep > 1` |
| TopKTopP.TopPRow | src/pipelines/generation.rs:458-470 | the sorted entries flagged by the mask become negative infinity and the rest are kept; the best entry is never removed |
| TopKTopP.NucleusKeepsPrefix | src/pipelines/generation.rs:458-470 | with monotone flags, once a sorted position is removed every later one is removed too |
| TopKTopP.FilterRow | src/pipelines/generation.rs:445-471 | every entry is kept or removed. With k = 0 and p >= 1 the row is unchanged; with p >= 1 only top-k acts; top-p never removes the best entry left by top-k |
| TopKTopP.AfterTopK | src/pipelines/generation.rs:449-456 | top-k keeps or removes each entry, and `top_k = 0` skips it |
| TopKTopP.FilterKeepsMaximum | src/pipelines/generation.rs:445-471 | with sorted orders, filtering keeps a highest entry of the row |
| TopKTopP.TopKTopPFiltering | src/pipelines/generation.rs:445-471 | applied row by row: shapes kept, each entry kept or removed, a no-op with k = 0 and p >= 1 |
| TopKTopP.FullTopKIsIdentity | src/pipelines/generation.rs:449-456 | a `k` of at least the vocabulary size removes nothing |
| Kernels.Filter | src/pipelines/generation.rs:445-471 | filtering with the kernels' orders, where `sort` and `softmax` see the row top-k leaves, keeps the shape, keeps or removes each entry, keeps a highest entry of each row, and is a no-op with k = 0 and p >= 1 |
| Kernels.Orders | src/pipelines/generation.rs:449-467 | `topk` orders the row itself; `sort` and the cumulative flags order the row top-k leaves |
| Kernels.KeepsMaxima | src/pipelines/generation.rs:445-471 | row by row, filtering with sorted orders keeps a highest entry |
| Prompt.NumTruncated | src/pipelines/generation.rs:350-353 | the number of ids cut leaves `min(len, max_len)` ids |
| Prompt.Truncate | src/pipelines/generation.rs:355-363 | a truncated prompt has `min(len, max_len)` ids |
| Prompt.LongestLength | src/pipelines/generation.rs:365 | the longest length bounds every row and is reached by one |
| Prompt.TruncateAll | src/pipelines/generation.rs:355-363 | every prompt is truncated on its own |
| Prompt.LeftPad | src/pipelines/generation.rs:374-378 | the row is padding followed by the original ids, at the given width |
| Prompt.EncodePrompt | src/pipelines/generation.rs:343-383 | fails exactly on zero prompts. Otherwise every row has the width of the longest truncated prompt, at most `max_len`, and is pad ids (the unknown id without a pad) followed by its truncated prompt; some row has no padding |
| Greedy.SampleScores | src/pipelines/generation.rs:509-513 | sampling keeps the shape, keeps every banned entry at negative infinity, and keeps a highest entry of each tempered row |
| Greedy.NoBeamScores | src/pipelines/generation.rs:490-518 | fails exactly when the penalty is on and a history id is outside the vocabulary. Otherwise a token masked, or banned under the reading (windows of three ids as written, of the configured size corrected), scores negative infinity. Without sampling every other entry is its penalised logit; with sampling it is its tempered penalised logit or negative infinity, and a highest entry survives the filters |
| Greedy.Masked | src/pipelines/generation.rs:490-506 | the penalised logits with every masked or banned token at negative infinity |
| Greedy.PlainScoresAreLogits | src/pipelines/generation.rs:492-518 | with every filter off, the scores are the model's logits |
| Greedy.TokensToAdd | src/pipelines/generation.rs:521-524 | an unfinished row gets its token, a finished row gets the pad id |
| Greedy.ApplyEos | src/pipelines/generation.rs:528-534 | a row finishes exactly when it was unfinished and its token is an end-of-sequence id; its length becomes `current_length + 1` only then |
| Greedy.AppendColumn | src/pipelines/generation.rs:526 | each row grows by exactly its new token |
| Greedy.MaxZeroIffAllFinished | src/pipelines/generation.rs:535-537 | the maximum of the flags is 0 exactly when every row is finished |
| Greedy.Append | src/pipelines/generation.rs:520-542 | one step: a column is added, finished rows get the pad id, flags only go from 1 to 0, lengths are set at the first end-of-sequence id, and the loop stops exactly when every row is finished |
| Greedy.Advanced | src/pipelines/generation.rs:520-542 | the relation one pass establishes; a row already finished stays finished and keeps its length |
| Greedy.Step | src/pipelines/generation.rs:485-542 | a step fails exactly on an out-of-vocabulary history under the penalty or a missing pad id with end-of-sequence ids. Otherwise it advances as above, and a row still decoding gets a token the kernels may pick from its scores: a highest-scoring one without sampling, one above negative infinity with sampling whenever there is one |
| Greedy.PickedRows | src/pipelines/generation.rs:514-517 | every row of a full score matrix gets a token `argmax` or a draw may return |
| Greedy.NextTokens | src/pipelines/generation.rs:521-524 | a row still decoding gets its pick, a finished row the pad id |
| Greedy.StepAvoidsBlocked | src/pipelines/generation.rs:496-517 | a row still decoding never gets a token banned under the reading or masked, provided its scores have a finite entry (without sampling) or an unblocked token has a finite logit (with sampling) |
| Greedy.BlockedScoresNegInf | src/pipelines/generation.rs:496-506 | a blocked token scores negative infinity in the step's scores |
| Greedy.PickedIsFinite | src/pipelines/generation.rs:514-517 | a picked token scores above negative infinity whenever some token does |
| Greedy.MaximumKeepsFinite | src/pipelines/generation.rs:509-512 | filtering that keeps a highest entry keeps a finite entry of a row that had one |
| Greedy.Run | src/pipelines/generation.rs:485-543 | the loop ends with every row finished or at `max_length`, with as many rows as it started with |
| Greedy.Initial | src/pipelines/generation.rs:477-483 | the start state (all unfinished, lengths `max_length`) satisfies the decoding invariant |
| Greedy.StepKeepsRow | src/pipelines/generation.rs:520-542 | one row keeps its prompt; while unfinished it has no end-of-sequence id, and once finished it stays finished with pad ids after its end |
| Greedy.AdvanceKeepsDecoding | src/pipelines/generation.rs:520-542 | a step preserves the decoding invariant for all rows |
| Greedy.StepKeepsDecoding | src/pipelines/generation.rs:485-542 | a successful step preserves the decoding invariant |
| Greedy.RunKeepsDecoding | src/pipelines/generation.rs:485-543 | the invariant holds when the loop ends |
| Greedy.FinalizeAsWritten | src/pipelines/generation.rs:545-563 | as written, the copy succeeds with unequal lengths only if each length equals its row's width |
| Greedy.LengthsAfterLoop | src/pipelines/generation.rs:528-543 | after the loop no length exceeds its row, and with unequal lengths the longest equals the row width |
| Greedy.AsWrittenFailsWhenLengthsDiffer | src/pipelines/generation.rs:545-555 | as written, padding fails whenever the lengths differ and a pad id exists |
| Greedy.AsWrittenPaddingExample | src/pipelines/generation.rs:545-555 | a concrete two-row state on which the copy as written fails |
| Greedy.Finalize | src/pipelines/generation.rs:545-563 | corrected: each row keeps its first `length` ids and is padded to the longest length |
| Greedy.FinalizeOfPaddedRows | src/pipelines/generation.rs:545-563 | rows already padded after their length are returned unchanged |
| Greedy.FinalizeKeepsDecodedRows | src/pipelines/generation.rs:545-563 | on any state the loop reaches, the corrected padding returns the rows as decoded |
| Greedy.GenerateNoBeamSearch | src/pipelines/generation.rs:473-564 | one output row per input row, each starting with its prompt and well terminated, all of one width of at most `max(prompt width, max_length)` (exactly that without end-of-sequence ids). A missing pad id with end-of-sequence ids fails. As written the padding copy may fail too, and only with a pad id; corrected it never does |
| Greedy.ScoresAlike | src/pipelines/generation.rs:496-498 | at n-gram size 0 or 3 both readings score alike |
| Greedy.StepsAlike | src/pipelines/generation.rs:485-542 | a step reads the reading only through its scores |
| Greedy.ReadingsRunAlike | src/pipelines/generation.rs:485-543 | at n-gram size 0 or 3 both readings run the loop alike |
| Greedy.AsWrittenAgreesOrFailsCopy | src/pipelines/generation.rs:473-564 | at n-gram size 0 or 3 both readings return the same, except where the padding copy as written fails, only with a pad id, and the corrected decoder returns rows |
| Beam.InitialBeamScores | src/pipelines/generation.rs:575-580 | every item's first beam scores 0; the others score negative infinity unless sampling |
| Beam.ItemRow | src/pipelines/generation.rs:623 | an item's flattened row holds beam `j`'s token `t` at `j*vocab + t` |
| Beam.DecodeCandidate | src/pipelines/generation.rs:659-662 | a flat index splits into beam and token with `beam*vocab + token == index`, and the source row is `item*num_beams + beam` |
| Beam.DecodeFlattened | src/pipelines/generation.rs:659-662 | decoding inverts flattening |
| Beam.EntryAt | src/pipelines/generation.rs:657-662 | a candidate names a row of the item and a token of the vocabulary |
| Beam.WalkBody | src/pipelines/generation.rs:657-682 | one pass of the walk keeps the hypothesis invariant and settings |
| Beam.WalkAsWritten | src/pipelines/generation.rs:656-683 | the walk as written, under a step budget, keeps the hypothesis invariant when it ends |
| Beam.StuckWalkNeverEnds | src/pipelines/generation.rs:665-668 | a pass that `continue`s to the same state never ends the walk, whatever the budget |
| Beam.WalkBodyAdvances | src/pipelines/generation.rs:664-682 | a pass that does not hit the skip moves to the next rank, pushing the candidate unless it is an end-of-sequence id |
| Beam.ContinueSpendsFuel | src/pipelines/generation.rs:656-683 | a continuing pass costs one unit of budget |
| Beam.BreakSpendsFuel | src/pipelines/generation.rs:656-683 | a breaking pass ends the walk with the state it leaves |
| Beam.BudgetOfCandidates | src/pipelines/generation.rs:656-683 | a budget of one pass per remaining rank decides the walk: more changes nothing, and if it runs out so does any |
| Beam.SpinCandidates | src/pipelines/generation.rs:620-634 | the example item has end-of-sequence candidates at ranks 0, 1 and 4 |
| Beam.SpinContext | src/pipelines/generation.rs:620-634 | the example item's candidate context is well formed |
| Beam.SpinFromRankTwo | src/pipelines/generation.rs:664-683 | from rank 2 of such an item the walk never ends |
| Beam.SpinFromRankOne | src/pipelines/generation.rs:664-683 | from rank 1 of such an item the walk never ends |
| Beam.SpinFromStart | src/pipelines/generation.rs:656-683 | from the start of such an item the walk never ends |
| Beam.WalkAsWrittenSpins | src/pipelines/generation.rs:664-668 | for three beams and a candidate list with end-of-sequence ids at ranks 0, 1 and 4, the walk as written never ends |
| Beam.Pushed | src/pipelines/generation.rs:671-674 | the continuing candidates among the first `n` ranks name rows of the item and tokens of the vocabulary |
| Beam.PushedInBlock | src/pipelines/generation.rs:657-662 | every pushed entry names a row of the item's own block |
| Beam.PushedGrows | src/pipelines/generation.rs:671-674 | more ranks push a longer list with the same prefix |
| Beam.BodyFollowsPushed | src/pipelines/generation.rs:664-682 | each pass keeps the beam list equal to the continuing candidates seen so far, and a break leaves the first `num_beams` of them |
| Beam.BodyPushes | src/pipelines/generation.rs:664-682 | a pass breaks exactly when the list reaches `num_beams` or the ranks run out |
| Beam.SkipFollowsPushed | src/pipelines/generation.rs:665-669 | an end-of-sequence candidate pushes nothing |
| Beam.Walk | src/pipelines/generation.rs:652-683 | corrected: the walk ends with the first `num_beams` continuing candidates, keeping the hypothesis invariant |
| Beam.WalkAsWrittenAgrees | src/pipelines/generation.rs:656-683 | whenever the walk as written ends, it ends where the corrected walk does |
| Beam.PassAgrees | src/pipelines/generation.rs:664-682 | the same from a pass outside the faulty `continue` |
| Beam.WalkSkips | src/pipelines/generation.rs:665-669 | corrected: an end-of-sequence candidate ranked above `num_beams` is stepped over |
| Beam.WalkFollowsBody | src/pipelines/generation.rs:664-682 | outside the faulty `continue`, the corrected walk takes the loop body's pass |
| Beam.BestCandidate | src/pipelines/generation.rs:687 | the best candidate score is a candidate's and bounds them all |
| Beam.Placeholders | src/pipelines/generation.rs:647-649 | `num_beams` entries `(0, pad, 0)` |
| Beam.FinishedItem | src/pipelines/generation.rs:641-649 | a done item needs a full list, an end-of-sequence id and a pad id, and then yields the placeholders |
| Beam.ProcessItemAsWritten | src/pipelines/generation.rs:640-691 | as written: a done item that passes the guards yields its placeholders and then the walk's entries, `2*num_beams` in all; an item still decoding yields `num_beams`; a failure is a guard, a short walk, or a walk that never ends |
| Beam.FinishedItemAppendsTwice | src/pipelines/generation.rs:641-691 | as written, a done item that succeeds appends `2*num_beams` entries |
| Beam.ProcessItem | src/pipelines/generation.rs:640-691 | corrected: a done item yields the placeholders only. Otherwise the item yields the first `num_beams` continuing candidates, failing "Beam incomplete" exactly when there are fewer. A done item stays done and a done list is full |
| Beam.ProcessItemAsWrittenAgrees | src/pipelines/generation.rs:640-691 | for an item still decoding the body as written returns what the corrected one does, or never ends |
| Beam.BeamLogits | src/pipelines/generation.rs:598-605 | penalises the first `penalised` rows (the code passes `batch_size`), then divides by temperature above 1; fails exactly on an out-of-vocabulary id in a penalised history |
| Beam.PenaltySkipsLaterBeams | src/pipelines/generation.rs:600 | as written, rows past `batch_size` keep their unpenalised logits |
| Beam.StepLogits | src/pipelines/generation.rs:598-605 | corrected: every row is penalised with its own history |
| Beam.StepScores | src/pipelines/generation.rs:596-635 | fails exactly on an out-of-vocabulary id in a penalised row (the first `batch_size` rows as written, every row corrected), a vocabulary below two tokens, or top-p sampling over two tokens. Otherwise a token masked or banned under the reading, and every token of a row whose beam score is negative infinity, scores negative infinity; every other entry is its log-probability plus the row's beam score, which sampling may only remove |
| Beam.BlockScores | src/pipelines/generation.rs:609-618 | every token masked, or banned under the reading, becomes negative infinity; the rest are kept |
| Beam.AddBeamScores | src/pipelines/generation.rs:621 | each entry is added to its row's beam score |
| Beam.ItemContextAt | src/pipelines/generation.rs:620-634 | the candidate context of item `b` is well formed |
| Beam.ItemStep | src/pipelines/generation.rs:640-692 | processing item `b` appends `num_beams` entries after the earlier ones, changes no other item, and never clears a done flag; a failure is one of the reading's. As written, the first `num_beams` of a done item's doubled entries stand in for them (`Beam.Advance` says what becomes of such a pass) |
| Beam.ItemOutcome | src/pipelines/generation.rs:640-691 | under either reading an item's outcome has `num_beams` entries over the item's rows and a valid list with the same settings, and a done list is full; as written a failure may also be a walk that never ends |
| Beam.AsWrittenOutcome | src/pipelines/generation.rs:640-691 | as written, with one pass per candidate: `num_beams` entries over the item's rows (the first of a done item's doubled list), a valid list, full when done |
| Beam.Absorb | src/pipelines/generation.rs:685-691 | folding in an item's outcome updates that item only |
| Beam.ProcessItems | src/pipelines/generation.rs:640-692 | all items yield one entry per row, done flags only turn on, and the items already processed are untouched; a failure is one of the reading's |
| Beam.Reindex | src/pipelines/generation.rs:697-702 | new row `i` is old row `beam_indices[i]` followed by `beam_tokens[i]` |
| Beam.Conclude | src/pipelines/generation.rs:694-710 | the loop stops exactly when every item is done, leaving rows and scores unchanged; otherwise rows are reindexed and the length grows by one |
| Beam.PassScores | src/pipelines/generation.rs:598-635 | the step's candidate scores, one row per beam, or a step failure |
| Beam.Advance | src/pipelines/generation.rs:638-710 | a pass that returns keeps the state's shape, grows the length unless stopping, and never clears a done flag. As written a pass returns only when no item was done at its start; otherwise it fails, with a loop that never ends or a `view` of too many rows |
| Beam.BeamStep | src/pipelines/generation.rs:591-710 | the same for one whole step of the loop, scores included |
| Beam.Run | src/pipelines/generation.rs:591-711 | under either reading the loop ends with every item done or at `max_length`, never clearing a done flag; as written a failure may also be a loop that never ends |
| Beam.ReorderCache | src/pipelines/generation.rs:779-785 | every cache layer is reordered to one entry per beam index |
| Beam.CacheFollowsRows | src/pipelines/generation.rs:697-707 | cache entry `i` of every layer and row `i` both come from the same source row |
| Beam.FinalEntries | src/pipelines/generation.rs:719-724 | item `b`'s final entries are its beams' rows and scores |
| Beam.FinaliseAsWrittenSpins | src/pipelines/generation.rs:714-719 | as written, the finalisation loop never ends once it reaches a done item |
| Beam.Finalise | src/pipelines/generation.rs:714-730 | corrected: done items keep their lists, the others absorb their final beams, and every list is full |
| Beam.FinaliseAsWritten | src/pipelines/generation.rs:714-730 | as written: when it ends no item from `b` on is done and each absorbed its final beams; with no done item and enough budget it ends |
| Beam.FinaliseAsWrittenAgrees | src/pipelines/generation.rs:714-730 | whenever the loop as written ends it gives the corrected finalisation, and it ends when no item is done |
| Beam.FinalHypotheses | src/pipelines/generation.rs:712-730 | the finalisation of the reading: the corrected one, or as written nothing exactly when some item is done |
| Beam.InitialState | src/pipelines/generation.rs:570-589 | the start state: the given rows, no item done, empty lists |
| Beam.PerItem | src/pipelines/generation.rs:732-736 | one sequence per item when sampling, otherwise `num_return_sequences` |
| Beam.GenerateBeamSearch | src/pipelines/generation.rs:566-777 | `batch_size * per_item` rows of one width. No "no hypothesis left" failure when `per_item <= num_beams`. Corrected, it never reports a loop that never ends or a `view` mismatch |
| Beam.Outputs | src/pipelines/generation.rs:712-776 | after the loop: `batch_size * per_item` rows of one width; no "no hypothesis left" failure while `per_item <= num_beams` |
| Beam.PassLogitsAlike | src/pipelines/generation.rs:598-600 | with the penalty off or one beam per item both readings compute the same logits |
| Beam.BlockScoresAlike | src/pipelines/generation.rs:609-618 | where both readings ban alike they block alike |
| Beam.StepScoresAlike | src/pipelines/generation.rs:596-635 | where both readings compute the same logits and ban alike they score alike |
| Beam.PassScoresAlike | src/pipelines/generation.rs:596-635 | at n-gram size 0 or 3, with the penalty off or one beam per item, a step scores alike |
| Beam.ItemOutcomesAlike | src/pipelines/generation.rs:640-691 | an item still decoding gets the same outcome whenever the body as written returns |
| Beam.ItemStepAlike | src/pipelines/generation.rs:640-692 | an item still decoding is processed alike whenever the one as written returns |
| Beam.SweepAlikeStep | src/pipelines/generation.rs:640-692 | one item of a sweep over items still decoding moves both readings to the same sweep |
| Beam.ProcessItemsAlike | src/pipelines/generation.rs:638-692 | a sweep over items all still decoding agrees whenever the one as written returns |
| Beam.AdvanceAlike | src/pipelines/generation.rs:638-710 | a pass agrees whenever the one as written returns |
| Beam.RunsAlike | src/pipelines/generation.rs:591-711 | at n-gram size 0 or 3, with the penalty off or one beam per item, the loop agrees whenever the one as written returns |
| Beam.ReadingsDecodeAlike | src/pipelines/generation.rs:566-777 | under the same conditions, whenever beam search as written returns it returns what the corrected one does |
| Beam.OutputsAlike | src/pipelines/generation.rs:712-776 | the finalisation as written, when it ends, gives the corrected outputs |
| Beam.FinaliseAlike | src/pipelines/generation.rs:714-730 | the corrected finalisation does not read the reading |
| Beam.FromItemExtends | src/pipelines/generation.rs:697-702 | continuing a continuation of a prompt row continues the prompt row |
| Beam.WalkBodyFromItem | src/pipelines/generation.rs:670-674 | a pass of the walk stores only hypotheses that extend rows of its own item |
| Beam.WalkFromItem | src/pipelines/generation.rs:656-683 | the corrected walk stores only hypotheses that extend rows of its own item |
| Beam.SkipFromItem | src/pipelines/generation.rs:665-669 | the same after a skipped end-of-sequence candidate |
| Beam.PassFromItem | src/pipelines/generation.rs:664-682 | the same after a pass of the loop body |
| Beam.ItemFromItem | src/pipelines/generation.rs:640-691 | an item's new hypotheses, and the entries of an item still decoding, come from its own rows |
| Beam.ItemStepFromItem | src/pipelines/generation.rs:640-692 | one item keeps the sweep rooted in the prompts |
| Beam.AbsorbFromItem | src/pipelines/generation.rs:685-691 | storing an item whose entries and hypotheses come from its rows keeps the sweep rooted |
| Beam.SweepAdvances | src/pipelines/generation.rs:640-692 | an item of a rooted sweep that succeeds leaves a rooted sweep |
| Beam.ProcessItemsFromItems | src/pipelines/generation.rs:640-692 | the sweep of a pass keeps every item rooted in its prompt rows |
| Beam.AdvanceFromItems | src/pipelines/generation.rs:638-710 | a pass keeps every hypothesis, and every row of an item not done, extending a prompt row of its item |
| Beam.RunFromItems | src/pipelines/generation.rs:591-711 | the loop keeps the state rooted in the prompts |
| Beam.FinaliseFromItems | src/pipelines/generation.rs:714-730 | the finalisation offers each item only its own rows |
| Beam.OutputsFromItems | src/pipelines/generation.rs:732-776 | output `j` of item `b` continues a prompt row of item `b` |
| Beam.OutputsContinuePrompts | src/pipelines/generation.rs:566-777 | beam search only extends: output `j` of item `b` begins with one of item `b`'s prompt rows |
| Selection.PopBest | src/pipelines/generation.rs:742-750 | popping `count` times takes the last entries in reverse and splits the list as a multiset |
| Selection.Popped | src/pipelines/generation.rs:745 | the popped entries are the tail of the list in reverse |
| Selection.PoppedSplits | src/pipelines/generation.rs:745 | popped and remaining entries together are the whole list |
| Selection.PopBestDominates | src/pipelines/generation.rs:742-745 | after an ascending sort, every popped entry scores at least as high as every remaining one |
| Selection.BestOf | src/pipelines/generation.rs:741-751 | an item's `count` best hypotheses, best first, none left behind scoring higher; fails exactly when the list is too short |
| Selection.BestAreHeld | src/pipelines/generation.rs:741-751 | the best hypotheses are hypotheses of the item |
| Selection.BestIsBest | src/pipelines/generation.rs:742-745 | sorting then popping yields the best entries in non-increasing order |
| Selection.SelectBest | src/pipelines/generation.rs:741-751 | each item contributes its `per` best sequences |
| Selection.ConcatIndex | src/pipelines/generation.rs:744-749 | entry `j` of item `b` lands at `b*per + j` |
| Selection.PadRow | src/pipelines/generation.rs:756-770 | a row is padded to the width, with an end-of-sequence id right after it when shorter than `max_length`. It fails when the row is wider, or when that id is missing or has no room |
| Selection.PadRows | src/pipelines/generation.rs:756-770 | every row is padded on its own |
| Selection.PadOutputs | src/pipelines/generation.rs:754-775 | equal lengths are stacked unchanged. Otherwise each row is kept as a prefix, ends with an end-of-sequence id when shorter than `max_length`, and is then padded; a missing pad id fails |
| Selection.Decoded | src/pipelines/generation.rs:732-776 | `|items| * per` rows of one width; row `b*per + j` starts with item `b`'s `j`-th best hypothesis |
| Selection.DecodedFits | src/pipelines/generation.rs:754-775 | the padded rows: one per chosen hypothesis, of one width, each beginning with its hypothesis |
| Selection.GroupsStayInFront | src/pipelines/generation.rs:754-775 | padding keeps each selected hypothesis as a prefix of its output row |
| Facade.ResolvePad | src/pipelines/generation.rs:869-875 | the configured pad id, else the first end-of-sequence id, else none; an empty end-of-sequence list without a pad fails |
| Facade.InputIds | src/pipelines/generation.rs:877-883 | the encoded prompts, or a single beginning-of-sequence id without prompts; fails without prompts and without that id, or with an empty prompt list |
| Facade.DefaultMask | src/pipelines/generation.rs:893-901 | a position is visible exactly when there is no pad id or it holds another id |
| Facade.MaskHidesPadding | src/pipelines/generation.rs:893-901 | the default mask hides every left-padding position of the encoded prompts, and shows a prompt id exactly when it differs from the pad id |
| Facade.EosPaddingIsAttended | src/pipelines/generation.rs:869-901 | without a pad id of its own, the prompts are padded with the first end-of-sequence id, and the default mask, built from the model's own (absent) pad id, shows that padding |
| Facade.Expand | src/pipelines/generation.rs:903-914 | each input row is repeated `copies` times contiguously: copy `j` of row `b` sits at `b*copies + j` |
| Facade.ExpandOnceIsIdentity | src/pipelines/generation.rs:903-917 | one copy changes nothing |
| Facade.ExpandKeepsWidth | src/pipelines/generation.rs:903-914 | expansion keeps the width |
| Facade.Copies | src/pipelines/generation.rs:888-891 | the number of copies is `num_return_sequences*num_beams` when sampling, else `num_beams` |
| Facade.Expanded | src/pipelines/generation.rs:903-917 | expansion happens only with several returns or beams, and its result is the repetition in every case |
| Facade.EffectiveBatch | src/pipelines/generation.rs:886-891 | the items beam search sees: at least one per prompt; their `num_beams` rows per item make up the expanded rows, and their returns per item make up `num_return_sequences` per prompt |
| Facade.DecodeBeams | src/pipelines/generation.rs:920-922 | beam search, in either reading, returns `num_return_sequences` rows per input row |
| Facade.BeamOutputsContinuePrompts | src/pipelines/generation.rs:903-922 | output `j` of prompt `b` from beam search starts with prompt `b` |
| Facade.ItemOfOutput | src/pipelines/generation.rs:886-891 | output `j` of prompt `b` is an output of an item of the effective batch, at the same flat position |
| Facade.ItemRowIsPrompt | src/pipelines/generation.rs:903-914 | every row of that item is a copy of prompt `b` |
| Facade.DecodeGreedy | src/pipelines/generation.rs:923-925 | the beam-free decoder, in either reading, returns `num_return_sequences` rows per input row, each starting with its input row |
| Facade.Decode | src/pipelines/generation.rs:903-927 | after the expansion, either decoder in either reading returns `num_return_sequences` rows per input row; output `j` of row `b` sits at `b*num_return_sequences + j` and starts with row `b` |
| Facade.Generate | src/pipelines/generation.rs:850-927 | end to end, in either reading: the pad-resolution and input failures are reported as such. `num_return_sequences` rows come out per prompt (one prompt without any), output `j` of prompt `b` starting with its encoded prompt |
| Facade.PrepareInputs | src/pipelines/generation.rs:309-315 | with a cache and the last-token variant only the last id of each row is fed (failing on empty rows); otherwise the rows themselves |
| Keywords.LaidExtends | src/pipelines/keywords_extraction/pipeline.rs:261-266 | appending a document extends the flat list and its boundary list consistently |
| Keywords.FlattenWordList | src/pipelines/keywords_extraction/pipeline.rs:255-269 | one boundary per document; the first starts at 0, each starts at the previous end, each spans its document's words exactly, and the flat list ends at the last end |
| Keywords.NumKeywords | src/pipelines/keywords_extraction/pipeline.rs:232 | the requested count clamped to the candidate count |
| Keywords.SortedDescending | src/pipelines/keywords_extraction/pipeline.rs:248 | sorting by the negated score lists keywords best first |
| Keywords.Build | src/pipelines/keywords_extraction/pipeline.rs:240-247 | each pick becomes the word at `start + index` with its score and offsets; fails exactly when an index leaves the list or the word has no offsets |
| Keywords.DocumentKeywords | src/pipelines/keywords_extraction/pipeline.rs:240-249 | the built keywords, best first, as a permutation, each with its word's offsets |
| Keywords.DocumentResult | src/pipelines/keywords_extraction/pipeline.rs:224-249 | one document's keywords, which never fail when the scorer's indices stay in the document |
| Keywords.ScorerInDocument | src/pipelines/keywords_extraction/pipeline.rs:232-247 | in-document picks always build |
| Keywords.Predict | src/pipelines/keywords_extraction/pipeline.rs:206-253 | one keyword list per document, best first, each a word of the document with its offsets; no failure when the scorer's indices stay in their documents |
| Keywords.InDocumentBuilds | src/pipelines/keywords_extraction/pipeline.rs:240-247 | picks inside a document always find their word and its offsets |

## Left out

- The neural model's forward pass, the tokenizer (tokenisation, id conversion, `decode` of the output rows), and the loading of weights and vocabularies in the constructors. These are foreign calls and file I/O. The forward pass is the oracle `Kernels.forward`; prompts enter as id lists; the output stays as id rows.
- Floating-point numerics: `softmax`, `log_softmax`, `cumsum`, `powf`, the NaN behaviour of `partial_cmp(..).unwrap()`, and the `f64`/`f32` conversions. Scores are exact reals with infinities; `powf` is the oracle `Hypotheses.Pow`.
- Randomness: `multinomial` is an arbitrary choice (`Kernels.pick`, `Kernels.candidates`), and so are the tie-breaking of `argmax`, `topk` and `sort`.
- The attention mask inside the decoding loops: the model never reads it, so only its default construction is modelled.
- The cache of past keys and values as data: it only saves work. Its reordering is modelled generically (`Beam.ReorderCache`).
- `i64`/`u64` widths and the `as usize` casts: counts are unbounded `nat`s, because no realistic length or vocabulary size comes near the limits.
- `index_fill_` with an id outside the vocabulary (a ban or an end-of-sequence id): the model ignores such ids instead of failing.
- `HashMap` iteration order in `flatten_word_list`: each document's word sequence is an input.
- The sentence-embedding calls and `score_keywords` in keyword `predict`: they are model calls and code outside the model, so the scorer is an oracle from a document and a count to `(index, score)` picks.
- Greedy.FinalizeAsWritten: states only the consequence of the size check of `index_copy_`, not the copy itself, since it fails on every state the loop reaches with unequal lengths.
- Beam.BeamStep: does not restate which inputs make the scoring fail (`Beam.StepScores` does); it only says a failure is a step failure.
- Beam.WalkAsWritten, Beam.FinaliseAsWritten: the loops as written run under a step budget, and `None` stands for a budget that ran out. The lemmas show that no budget suffices on the inputs they name. The decoders give the walk one pass per candidate, which `Beam.BudgetOfCandidates` shows is as good as any budget, and the finalisation one pass per item.
- Beam.GenerateBeamSearch: its own contract states the shape only. `Beam.OutputsContinuePrompts` relates its rows to the prompts, and `Selection.Decoded` relates them to the hypotheses.
- Beam.AsWrittenOutcome, Beam.ItemOutcome: as written, a done item's doubled entries are cut to their first `num_beams` inside the sweep. Every pass holding such an item then fails in `Beam.Advance`, so the rows the surplus entries would select are not modelled.
- Beam.Advance: as written, the pass with a done item fails with `Spins` when the loop then ends and with `ViewMismatch` otherwise; the tensor contents at the failing `view` are not modelled.
- Greedy.StepAvoidsBlocked: says nothing of a row whose scores are all negative infinity. `argmax` then returns any position, and `multinomial` meets the NaNs of `softmax`, which is floating-point behaviour.
- Facade.Generate: the configuration is assumed valid (`WellFormed`), because both constructors call `validate` and panic otherwise; `Config.Validate` models that check.
- Facade.MaskHidesPadding: stated for the model's own pad id. The default mask uses that id even when the prompts were padded with the end-of-sequence fallback; `Facade.EosPaddingIsAttended` shows that such padding stays visible.

## Findings

| source | as written | input that shows it | evidently intended | confidence | as-written member | corrected member |
|---|---|---|---|---|---|---|
| src/pipelines/generation.rs:545-555 | after greedy decoding, with unequal sentence lengths and a pad id, each row is copied whole into `arange(0, length)` positions with `index_copy_`, which requires equal sizes | two rows `[7, 50, 0]` and `[7, 8, 9]`, lengths 2 and 3, pad 0 | keep each row's first `length` ids and pad the rest; the loop has already padded them, so the rows are returned as decoded | not executed; medium, rests on `index_copy_` rejecting a size mismatch | Greedy.FinalizeAsWritten, Greedy.AsWrittenFailsWhenLengthsDiffer, Greedy.AsWrittenPaddingExample | Greedy.Finalize, Greedy.FinalizeKeepsDecodedRows |
| src/pipelines/generation.rs:666-668 | an end-of-sequence candidate past rank `num_beams` `continue`s without advancing the rank, so the walk repeats the same candidate forever | three beams, candidates with end-of-sequence ids at ranks 0, 1 and 4 and ordinary tokens at 2 and 3 | skip the candidate and move to the next rank | not executed; high | Beam.WalkAsWritten, Beam.WalkAsWrittenSpins | Beam.Walk |
| src/pipelines/generation.rs:716-719 | the finalisation loop `continue`s on a done item without advancing `batch_index` | any batch in which some item is done when the loop ends | skip the done item and move to the next | not executed; high | Beam.FinaliseAsWritten, Beam.FinaliseAsWrittenSpins | Beam.Finalise |
| src/pipelines/generation.rs:641-650 | a done item appends `num_beams` placeholders and then falls through to the walk, which appends `num_beams` more entries | any step after an item is done while another is not | append the placeholders and go on to the next item | not executed; high | Beam.ProcessItemAsWritten, Beam.FinishedItemAppendsTwice | Beam.ProcessItem |
| src/pipelines/generation.rs:416-420 | n-gram windows always span three ids; `no_repeat_ngram_size` only moves the query | history `[5, 9, 5, 9]`, size 2: nothing is banned | windows of `no_repeat_ngram_size` ids, so `5` is banned | not executed; high | Filters.GetBannedTokensAsWritten, Filters.AsWrittenMissesBigram, Filters.AsWrittenBansNothingUnlessThree | Filters.GetBannedTokens, Filters.BigramBansFive, Filters.BannedIffNgramSeen |
| src/pipelines/generation.rs:600 | beam search passes `num_beams = 1`, so only the first `batch_size` of the `batch_size*num_beams` rows are penalised | one item, two beams, penalty 2: the second beam's history is not penalised | every beam row penalised with its own history | not executed; high | Beam.BeamLogits, Beam.PenaltySkipsLaterBeams | Beam.StepLogits |
