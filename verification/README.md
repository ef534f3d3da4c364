# Verified model of the catalog, its evaluation and its small protocols

A Dafny model of a model-recommendation service and of the parts of its bundled chat
backend that keep state: what each computes, stated apart from how it is computed, and
proofs that the two agree on all inputs. `dafny verify dfyconfig.toml` checks everything.

| Modules | Program part |
|---|---|
| SignFlip, SignVectors, SignFlipLaws, SignFlipValues | exact sign-flip test: meet in the middle against all 2^n assignments |
| Holm, HolmLaws | Holm adjustment against step-down testing |
| Pooled, PooledLaws, PooledReports, PooledFacts | pooled comparison of two systems |
| Rearrangement, Metrics, MetricFacts, Extraction, AnswerLaws | ranking metrics and the extraction of predictions from answers |
| FamilyKeys, FamilyKeyFacts, SemanticSearch, SearchLaws, SearchDeterminism, SearchFacts, FilterModels | catalog search: family keys, collapse, structured filter |
| Text, Readme, Chunking | model card parser and overlapping chunker |
| Storage, Vectorizer, RecordFacts | buffered record pipeline with resumed ids |
| Automations, ClaimRuns, LockedClaims, UnlockedClaims | claiming due automations: one call, and interleaved workers and users |
| AccessGrants, GrantPayloads | legacy conversion and normalization of access grants |
| Tasks, LocalTasks | task registry: a task hash and item sets, and the process-local tables |
| Channels, ChannelRaces | channel memberships and direct-message lookup; racing requests |
| Basics, Sorting, OrderedDict | slices, stable sorting, insertion-ordered dictionaries |

Loops that update state are methods, proved against specification functions or
predicates; stored tables, the writer, the vectorizer and the registries are classes. The
laws are lemmas about those specifications; the modules named Facts and Values, and
AnswerLaws, state them in terms of the inputs alone, with the source's constants written
out. Floats are reals, with the source's tolerances as constants. Regex matches, id
normalisation (`_norm`), the rank discount `1 / log2(rank + 1)`, tokenizer output,
embedding outcomes, clocks, random ids and the schedule's next run are parameters; the
discount is only known to be positive and strictly decreasing.

Where code and documentation part ways, the model follows the code:

- Legacy conversion says that write grants beside public read are preserved; they are
  lost, and public files become private. `AccessGrants.SurvivalIff` gives the exact
  condition under which access decisions survive.
- A claimed automation "can never be double-claimed" only where rows are locked:
  `UnlockedClaims.UnlockedDoubleClaim` is a run of the other path with two claims for one
  due time, and `UnlockedClaims.UnlockedRunSafeIffChecked` says exactly which runs are safe.
- Skipping a failed embedding batch shifts later embeddings to wrong texts, except
  under the condition of `Vectorizer.AlignedIffLastFail`; `Vectorizer.FailedBatchMispairs`
  shows a wrong pair.
- The chunker does not end for overlap >= max_tokens on texts longer than one window:
  `Chunking.TerminatesIffChecked`.
- nDCG can exceed 1 when predictions repeat (`Metrics.RepetitionExceedsOne`), though not
  whenever they do: `Metrics.NdcgBoundedIffNeverAhead` is the exact condition. The one
  caller (evaluation/run.py:52-60) scores extracted predictions, which never repeat.
- A task created without an item stays in the local item table after it finished
  (`Tasks.NoTraceIffItem`), and without Redis a stopped task keeps its item active until
  its callback (`LocalTasks.StoppedStaysActive`).
- The direct-message lookup relies on one membership row per user
  (`Channels.CountsRightIffOneRow`). Each operation on its own keeps that, but no
  constraint does, and racing requests break it: `ChannelRaces.RacingJoinsMislead`.

## Model

| member | source | states |
|---|---|---|
| SignFlip.ExactSignFlipP | evaluation/pooled.py:165-187 | The fast test (two half enumerations, a sort, two bisections per left sum) returns the brute-force p-value over all 2^n assignments, for every list of differences |
| SignFlip.CountHits | evaluation/pooled.py:177-186 | The loop counts exactly the assignments whose sum is at least `observed` or at most `-observed`, for every positive `observed` |
| SignFlip.CountPairs | evaluation/pooled.py:181-186 | Over a sorted right half, the two bisections per left sum count the extreme pairs of half sums |
| SignFlip.EnumerateSignedSums | evaluation/pooled.py:157-162 | The doubling loop lists 2^n sums; `SignFlip.EnumerationCountsHits` says which |
| SignFlip.EnumerationCountsHits | evaluation/pooled.py:157-162 | Counting extreme values of the enumeration counts extreme sign assignments, whatever offset is added |
| SignFlip.MeetInTheMiddle | evaluation/pooled.py:170-171 | Pairs of half sums count every full assignment of the concatenation exactly once |
| SignFlip.CutsCount | evaluation/pooled.py:183-186 | No assignment is counted by both bisections: for a positive `observed` the two cut-off ranges are disjoint and together are the extreme sums |
| SignFlip.BisectLeft | evaluation/pooled.py:185 | Splits a sorted list into the values below `x` and the others |
| SignFlip.BisectRight | evaluation/pooled.py:186 | Splits a sorted list into the values up to `x` and the others |
| SignFlip.ShareIsQuotient | evaluation/pooled.py:187 | The share used in the proofs is `hits / 2 ** n` |
| SignVectors.HitsCountAssignments | evaluation/pooled.py:165-167 | The brute-force count is the size of the set of sign vectors whose signed sum is extreme |
| SignFlipValues.PValueInFull | evaluation/pooled.py:174-187 | The p-value in plain numbers: 1 for a sum of at most 1e-12 in size; otherwise the share, among all sign vectors, of those whose signed sum reaches the observed size less 1e-12, on either side |
| SignFlipValues.ClearWinIsSmallest | evaluation/pooled.py:171-187 | Whenever every difference exceeds 1e-12, or every negated one does, the p-value is exactly 2 / 2^n, the smallest possible |
| SignVectors.PValueMeaning | evaluation/pooled.py:174-187 | Above the tolerance the p-value is the share of sign vectors that are at least as extreme as the data minus the tolerance |
| SignFlipLaws.PValueRange | evaluation/pooled.py:171-172 | The p-value is at most 1 and never below 2 / 2^n: the observed assignment and its mirror image are always counted |
| SignFlipLaws.PValuePermuted | evaluation/pooled.py:165-187 | Reordering the differences does not change the p-value |
| SignFlipLaws.PValueNegated | evaluation/pooled.py:165-187 | Negating all differences does not change the p-value |
| SignFlipLaws.TestIsExact | evaluation/pooled.py:166-172 | The test is exact: of the 2^n equally likely sign assignments at most a share of `level` has a p-value of at most `level`, for every level and every list of differences |
| Holm.Holm | evaluation/pooled.py:190-197 | The running maximum over the sort permutation, written back in input order, yields values with a meaning free of any order: at each level below 1 a hypothesis is rejected iff it and all at least as significant ones survive the correction by the number of not more significant ones |
| Holm.RankedStepsDown | evaluation/pooled.py:194-196 | The running maximum up to a rank is within a level exactly when every hypothesis at least as significant passes at that level, ties included |
| HolmLaws.AgreesWithStepDown | evaluation/pooled.py:190-197 | For each level below 1 an adjusted value is at most the level iff step-down testing, which compares the number of remaining hypotheses times the smallest p with the level, rejects that hypothesis |
| HolmLaws.NoFalseRejection | evaluation/pooled.py:190-197 | If all true nulls miss the Bonferroni bound for the true nulls alone, none is rejected: the deterministic core of familywise error control |
| HolmLaws.OrderPreserved | evaluation/pooled.py:194-196 | Smaller p-values get adjusted values that are not larger, and ties get equal ones |
| HolmLaws.AdjustedBounds | evaluation/pooled.py:195-196 | For p in [0, 1]: p <= adjusted <= 1 and adjusted <= m * p |
| HolmLaws.SmallestAdjusted | evaluation/pooled.py:195-196 | The smallest p >= 0 is adjusted to exactly min(1, m * p) |
| HolmLaws.Equivariant | evaluation/pooled.py:190-197 | Permuting the p-values permutes the adjusted values in the same way |
| HolmLaws.HolmUnique | evaluation/pooled.py:190-197 | The meaning determines the adjusted values |
| Pooled.PooledMeans | evaluation/pooled.py:139-149 | The loop gives each question that carries the metric in some run the mean over those runs, and no other question a value |
| PooledFacts.MeanIffScored | evaluation/pooled.py:145-148 | A question has a pooled mean iff it is asked for and some run scores it |
| PooledFacts.MeanWithOneMore | evaluation/pooled.py:146-148 | Each further score joins the mean with equal weight, and a single score is its own mean: mean times number of scoring runs grows by the score |
| PooledFacts.MeanUnscored | evaluation/pooled.py:146 | A run without a score for a question leaves its mean alone |
| Pooled.LeaveOneOut | evaluation/pooled.py:229-244 | One p-value per omitted pair of runs, or the missing-question error when a shared question loses its last score |
| Pooled.ComparePooled | evaluation/pooled.py:200-245 | The row, the None for fewer than two shared questions, and the missing-question error of the leave-one-out part are those of `Comparison` |
| PooledLaws.ComparisonSwapped | evaluation/pooled.py:200-245 | Swapping the systems swaps means, wins and losses, negates the difference and keeps n, ties, p-value, leave-one-out range and error cases |
| PooledLaws.RowConsistent | evaluation/pooled.py:214-227 | In every row the mean difference is the difference of the means, wins, ties and losses add up to n >= 2, and the p-value lies between 2 / 2^n and 1 |
| PooledReports.RowCounts | evaluation/pooled.py:218-226 | In every row n is the number of questions with a mean in both systems, wins and losses those on which one or the other is ahead by more than 1e-9, and ties the rest |
| PooledFacts.OutcomeIff | evaluation/pooled.py:212-243 | There is no row iff fewer than two questions are shared, and a missing-question error iff leaving out some run leaves a shared question unscored by the other runs of a system |
| PooledFacts.BetterEverywhere | evaluation/pooled.py:214-223 | A system that is better on every shared question gets the p-value 2 / 2^n |
| PooledFacts.RowMeansBounded | evaluation/pooled.py:219 | The first mean of a row lies between any bounds of the first pooled means on the shared questions |
| PooledFacts.LeftOutIsComparison | evaluation/pooled.py:231-243 | The i-th leave-one-out p-value is that of comparing the other runs, as long as these share the same questions |
| PooledReports.LeaveOneOutRange | evaluation/pooled.py:229-244 | The leave-one-out range exists iff there are at least three runs, equally many per system; both its ends are p-values without one run and all those lie between them |
| PooledReports.OrderOfIdsIrrelevant | evaluation/pooled.py:209-214 | The row, or the error, depends on the set of question ids only: any order and repetition gives the same |
| Rearrangement.Dominated | evaluation/metrics.py:179-185 | Under a positive, strictly decreasing discount, gains that at no rank have summed to more than the best grades do not beat the ideal list, and only that list ties with it |
| Rearrangement.GainsNeverAhead | evaluation/metrics.py:178-183 | Gains drawn from any descending grades, each at most once, are never ahead of the best ones (truncated rearrangement) |
| Rearrangement.BoundedIffNeverAhead | evaluation/metrics.py:179-185 | Any gains, repeated ones included, stay within the ideal under every discount iff they are never ahead |
| Rearrangement.ExchangeRaises | evaluation/metrics.py:173-174 | Moving the larger of two gains first strictly raises the discounted sum |
| Metrics.NdcgPerfectIffGoldOrder | evaluation/metrics.py:169-185 | For predictions and gold pairwise distinct after normalisation, gold not empty and k > 0: nDCG@k is in [0, 1], and 1 iff the first min(k, len(gold)) predictions are the gold ids in gold order |
| Metrics.SwapHelps | evaluation/metrics.py:172-174 | Swapping two of the top k predictions whose grades are out of order strictly raises nDCG@k, for every non-empty gold list |
| Metrics.NdcgInUnit | evaluation/metrics.py:169-185 | For predictions distinct after normalisation nDCG@k is in [0, 1] for every gold list (empty, or with ids that coincide after normalisation, included) and every k |
| Metrics.NdcgBoundedIffNeverAhead | evaluation/metrics.py:178-185 | For any predictions, repeated or not, any gold list and k: nDCG@k is at most 1 under every discount iff, for each m up to k, the first m predictions earn no more in grades than the m best grades |
| Metrics.RepetitionExceedsOne | evaluation/metrics.py:178-185 | A concrete input above 1: the same gold id predicted twice |
| Metrics.NdcgAsQuotient | evaluation/metrics.py:178-185 | For every non-empty gold list and k > 0 the score is the DCG of the answer over that of the sorted grades, which is positive |
| Metrics.Mrr | evaluation/metrics.py:160-166 | The early-return loop gives the reciprocal of the first relevant rank, or 0 |
| MetricFacts.PrecisionCounted | evaluation/metrics.py:142-148 | Precision at k is the number of relevant ones among the first k predictions over k |
| MetricFacts.RecallCounted | evaluation/metrics.py:151-157 | Recall at k is that number over the number of different gold ids, and 0 without gold |
| MetricFacts.ReciprocalOfFirst | evaluation/metrics.py:160-166 | MRR is 1 over the rank of the first relevant prediction, counted from 1, or 0 |
| MetricFacts.NdcgOfOne | evaluation/metrics.py:178-185 | With one gold id predicted at rank r within the cut-off, nDCG is the discount of rank r over that of rank 1 |
| MetricFacts.ZeroWithoutTarget | evaluation/metrics.py:144-177 | Scores are 0 for k <= 0, and recall and nDCG for an empty gold list |
| Metrics.MrrAndRecall | evaluation/metrics.py:151-166 | MRR of distinct predictions is in [0, 1] and positive iff recall over the whole list is positive |
| Metrics.SetMetricsInUnit | evaluation/metrics.py:142-157 | Precision and recall at k of distinct predictions lie in [0, 1], for every k, also negative and zero |
| Extraction.RemoveUmbrellas | evaluation/metrics.py:135-138 | The loop that counts extensions among the entries left and deletes as it goes removes exactly the non-gold ids that two of the original ids extend, in every visiting order |
| Extraction.ExtensionsSurvive | evaluation/metrics.py:129-138 | An id with two extensions keeps at least two after all umbrellas are gone |
| Extraction.SomethingSurvives | evaluation/metrics.py:129-138 | Removing umbrellas never empties a non-empty set of ids |
| Extraction.CollectMatches | evaluation/metrics.py:111-118 | The first loop records each catalog or plausible id at its first match |
| AnswerLaws.KeptMembers | evaluation/metrics.py:115 | A match counts iff its id is in the catalog or plausible |
| Extraction.CollectGold | evaluation/metrics.py:120-128 | The second loop lowers an entry to an earlier bare mention of the gold id, or adds it |
| Extraction.ExtractPredictions | evaluation/metrics.py:99-139 | The whole function returns the surviving first mentions, by offset; the laws of AnswerLaws say which, from matches, catalog and gold list alone |
| AnswerLaws.PredictedIff | evaluation/metrics.py:107-138 | An id is predicted iff it is written in the answer (a match that is in the catalog or plausible, or a gold id found by bare name) and it is gold or no two other written ids extend it by a dash |
| AnswerLaws.PredictedAsWritten | evaluation/metrics.py:117-128 | Each prediction is spelled as where its id is written first |
| AnswerLaws.PredictedInOrder | evaluation/metrics.py:105-139 | Predictions come in the order of the first places where their ids are written |
| Extraction.ExtractionIsDetermined | evaluation/metrics.py:111-139 | The mentions leave one list of predictions, spelling and ties included |
| Extraction.ExtractionIsRanked | evaluation/metrics.py:106 | Predictions are pairwise distinct after normalisation and in order of their first mention |
| Extraction.ExtractionIsComplete | evaluation/metrics.py:99-139 | An id is predicted iff it is mentioned and no umbrella; an answer that mentions something predicts something |
| Extraction.AnswerMetricsInUnit | evaluation/metrics.py:94-185 | All four metrics of every extracted answer lie in [0, 1] for every gold list and every k, and MRR is positive iff recall is |
| FamilyKeys.SameKeyIffSameTokens | backend/src/catalog.py:205-209 | Two ids share a key iff their token lists, without format markers and up to the meta-llama rule, are equal |
| FamilyKeys.KeyIsIdempotent | backend/src/catalog.py:205-209 | The key of a key is itself |
| FamilyKeys.KeyIgnoresSpelling | backend/src/catalog.py:182-184 | Two ids, with or without an organisation, have the same key when their repo parts spell the same words apart from format markers: letter case, the choice and number of separators between, before and after words, and the organisation do not matter |
| FamilyKeyFacts.KeyIgnoresCaseAndSeparators | backend/src/catalog.py:206-208 | Repo parts that agree at each position up to the case of a letter, or hold any of the separators `-`, `_`, `.`, `/` there, have the same key |
| FamilyKeyFacts.KeyHasNoCapitals | backend/src/catalog.py:207 | No key holds a capital letter |
| FamilyKeyFacts.PlainNameIsKey | backend/src/catalog.py:205-209 | A single word without capitals that is no format marker is its own key |
| FamilyKeyFacts.TokensAreWords | backend/src/catalog.py:195 | The tokens of a text are its longest stretches without separators |
| FamilyKeyFacts.AppendedWordKeepsKeyIffMarker | backend/src/catalog.py:185-209 | Appending a word keeps the key iff the word is, in any letter case, one of the nineteen format markers |
| FamilyKeyFacts.QuantizedIffMarker | backend/src/catalog.py:201-202 | An id counts as a quantized re-upload iff one of its words is such a marker |
| FamilyKeyFacts.RenamedModelsShareKeyIff | backend/src/catalog.py:196-209 | "Meta-Llama-..." and "Llama-..." share a key iff something other than format markers follows |
| FamilyKeys.EveryRepoIsSpelled | backend/src/catalog.py:195 | Every repo part is a spelling of some words, so the law above leaves none out |
| FamilyKeys.TokensOfSpelling | backend/src/catalog.py:206-208 | The tokens of a repo part in lower case are its words, whatever runs of separators surround them |
| FamilyKeys.KeyIgnoresQuantToken | backend/src/catalog.py:182-184 | A format marker as an additional word at any position (front, middle, end) does not change the key, however both ids are spelled |
| FamilyKeys.KeyIgnoresAppendedMarker | backend/src/catalog.py:182-184 | For every id: appending any separators and a format marker (`-GGUF`) keeps the key |
| FamilyKeys.TokensOfJoin | backend/src/catalog.py:208-209 | Splitting what was joined gives the tokens back |
| FamilyKeys.TokensConcat | backend/src/catalog.py:195 | A separator cuts an id in two: the tokens are those of the left part followed by those of the right part |
| FamilyKeys.CanonicalTokens | backend/src/catalog.py:205-209 | The key is the join of canonical tokens, none of them empty, and splits into them again |
| SemanticSearch.Aggregate | backend/src/catalog.py:232-247 | Each admissible model has one entry, in the order of first hits, with its best chunk score and the text of the last chunk with text that was best when it came |
| SemanticSearch.SortedAggregate | backend/src/catalog.py:251-255 | Sorting keeps the models, puts them in order of non-increasing best score, and leaves models of equal score in the order of their first hits |
| SemanticSearch.Collapse | backend/src/catalog.py:270-277 | One entry per family in the order of best-ranked members, held by the member that is least under the preference, ties to the higher ranked; this rests on an overwritten dictionary entry keeping its place |
| SemanticSearch.Rows | backend/src/catalog.py:279-286 | The first `limit` families, each with its own excerpt or, failing that, the card excerpt |
| SemanticSearch.SemanticSearch | backend/src/catalog.py:232-286 | The result is some shaping of some collapse of the ranking of the hits |
| SearchLaws.RowsAreRankedFamilies | backend/src/catalog.py:270-286 | Rows have pairwise distinct family keys and come by non-increasing best chunk score over all members of the family |
| SearchLaws.RowIsBestMember | backend/src/catalog.py:263-277 | No hit member is preferred to the one shown; of the equally preferred none scores higher, and of those that also score the same none was hit first |
| SearchFacts.ShownIsBest | backend/src/catalog.py:263-277 | The row of a family is an original if one was hit; among equals the most downloaded (missing counts are 0), then the best-scoring, then the one hit first |
| SearchFacts.RowsByBestHit | backend/src/catalog.py:249-286 | Whatever hit a later row has in its family, an earlier row has one in its family that scores at least as high |
| SearchFacts.AllFamiliesShown | backend/src/catalog.py:270-286 | With fewer rows than `limit`, every family hit by a model that is no test artifact is shown |
| SearchFacts.ExcerptOfHit | backend/src/catalog.py:243-247 | The excerpt is the first 400 characters of the last hit with text that no earlier hit of the model outscores |
| SearchFacts.TestArtifactIff | backend/src/catalog.py:193-194 | Left out are exactly the ids with `tiny-random` or `internal-testing` in them, in any letter case |
| SearchFacts.CatalogJudges | backend/src/catalog.py:201-209 | The rules used are the family key and the marker words |
| SearchDeterminism.SearchIsDetermined | backend/src/catalog.py:232-286 | The specification of the search leaves one result: hits, metadata and limit determine the rows |
| SearchDeterminism.NoReuploadBesideOriginal | backend/src/catalog.py:180-184 | With the catalog rules, no result shows a model together with a re-upload that appends a format marker to its id |
| SearchDeterminism.OriginalsFirst | backend/src/catalog.py:263-268 | With the catalog rules, a quantized re-upload is shown only if no original of its family was hit, and test artifacts never are |
| SearchLaws.RowsWereHit | backend/src/catalog.py:235-239 | Every row is a hit model and no test artifact |
| SearchLaws.RowShowsOwnExcerpt | backend/src/catalog.py:243-247 | A row shows the excerpt of its own model, not of the member that earned the rank, and the card excerpt only without one |
| SearchLaws.MissingOnlyBeyondLimit | backend/src/catalog.py:280 | The family of an admissible hit is missing only if `limit` rows are shown, all of families whose best score is at least the score of that hit |
| FilterModels.Run | backend/src/catalog.py:333-411 | `total_matches` is the number of matching rows for every requested limit; the models are the first of a sorted listing of the matches; the warnings are exactly those that apply; an empty result without warnings means that every row passing the other clauses has a known size out of range |
| FilterModels.Warnings | backend/src/catalog.py:371-405 | Each warning is given exactly when its condition holds, once, with the right count and in their order |
| FilterModels.MatchesFit | backend/src/catalog.py:333-367 | A row matches iff it fits the request in two-valued terms, an unknown size fitting no bound, and pages show only such rows |
| FilterModels.PagesSorted | backend/src/catalog.py:289-295 | Pages come in descending order of the column asked for, ascending for `smallest`, unknown values last |
| FilterModels.Clamp | backend/src/catalog.py:356 | Page sizes from 1 to 25: smaller requests give 1, larger ones 25 |
| FilterModels.WarningsInFull | backend/src/catalog.py:371-400 | The three conditions with their numbers: under 25 matches for a tag; rows of unknown size under a size bound; `smallest` without any other constraint |
| FilterModels.SizeFilterPartition | backend/src/catalog.py:349-393 | Under a size bound, rows passing the other clauses split into matches, unknown sizes and known sizes out of range, as multisets and in number |
| FilterModels.NothingFits | backend/src/catalog.py:384-393 | No match and no unknown size iff each row passing the other clauses has a known size out of range |
| Readme.ParseReadme | agentpick_data/src/hf_vectorizer/parsing.py:41-91 | The line state machine computes the visible header blocks with text, or the whole card as one section |
| Readme.ParseUndoesPrint | agentpick_data/src/hf_vectorizer/parsing.py:41-91 | Printing sections with trimmed one-line headers and trimmed contents free of fences and header lines, and parsing, gives the same list |
| Readme.SectionsNonempty | agentpick_data/src/hf_vectorizer/parsing.py:60-89 | Every section has a header and trimmed, non-empty text, and only a blank card has no section |
| Readme.NoHeaderWholeCard | agentpick_data/src/hf_vectorizer/parsing.py:84-89 | A card without a line starting with `## ` is one section, its trimmed text under "Full Content", or none if blank |
| Readme.FrontMatterIgnored | agentpick_data/src/hf_vectorizer/parsing.py:49-55 | Front matter between two lines that trim to `---` is not part of the sections, whatever it holds |
| Text.StripIs | agentpick_data/src/hf_vectorizer/parsing.py:50 | Stripping takes exactly the blanks around a text |
| Text.BlankIff | agentpick_data/src/hf_vectorizer/parsing.py:50 | Which ASCII characters are blanks, by number |
| Text.LinesOfJoin | agentpick_data/src/hf_vectorizer/parsing.py:42 | Joining lines with newlines and splitting gives the lines back |
| Text.JoinOfLines | agentpick_data/src/hf_vectorizer/parsing.py:42 | Splitting a text into lines and joining gives the text back |
| Chunking.ChunkTextTokens | agentpick_data/src/hf_vectorizer/parsing.py:109-128 | The window loop returns the texts of the windows that decode to something not blank |
| Chunking.TextsMembers | agentpick_data/src/hf_vectorizer/parsing.py:119-121 | A text is a chunk iff it is not blank and some window decodes to it |
| Chunking.TerminatesIffChecked | agentpick_data/src/hf_vectorizer/parsing.py:115-126 | The loop ends iff one window holds all tokens or overlap < max_tokens |
| Chunking.OverlapTooLarge | agentpick_data/src/hf_vectorizer/parsing.py:115-126 | A concrete input on which no iteration ends the loop |
| Chunking.WindowsOverlap | agentpick_data/src/hf_vectorizer/parsing.py:115-126 | With 0 <= overlap < max_tokens: no window is longer than max_tokens, neighbours share exactly `overlap` tokens, each window adds at least one token |
| Chunking.WindowsReconstruct | agentpick_data/src/hf_vectorizer/parsing.py:115-126 | Dropping the shared prefixes and concatenating gives back the tokens |
| Chunking.WindowsCounted | agentpick_data/src/hf_vectorizer/parsing.py:115-126 | From any start, the number of windows is the closed form with 1 + ceil((n - max_tokens) / (max_tokens - overlap)) for n > max_tokens |
| Chunking.CeilDivMeaning | agentpick_data/src/hf_vectorizer/parsing.py:123-126 | The rounding in that count: the least number of steps that covers what the first window leaves |
| Storage.ParquetWriter.Add | agentpick_data/src/hf_vectorizer/storage.py:52-60 | File followed by buffer is always everything added, in order; a full buffer is flushed, a shorter one leaves the file alone |
| Storage.ParquetWriter.Flush | agentpick_data/src/hf_vectorizer/storage.py:62-85 | Flushing empties the buffer and moves its records to the end of the file |
| Storage.ParquetWriter.Close | agentpick_data/src/hf_vectorizer/storage.py:87-92 | Closing writes nothing: what is buffered stays buffered |
| Vectorizer.HFModelVectorizer.EmbedBatches | agentpick_data/src/hf_vectorizer/vectorizer.py:143-152 | The batch loop yields the numbers of the texts in the batches that succeed, in order |
| RecordFacts.EmbeddedIff | agentpick_data/src/hf_vectorizer/vectorizer.py:145-152 | Text t is embedded iff batch t / size succeeds |
| Vectorizer.PrepareChunks | agentpick_data/src/hf_vectorizer/vectorizer.py:123-141 | The loops over sections and chunks list the chunks with their header and indexes |
| RecordFacts.ChunkIff | agentpick_data/src/hf_vectorizer/vectorizer.py:124-141 | The chunks are exactly the pieces of the contents of the sections, with the header and both numbers |
| RecordFacts.ChunksInOrder | agentpick_data/src/hf_vectorizer/vectorizer.py:124-141 | They come section by section and piece by piece |
| Vectorizer.BuildRecords | agentpick_data/src/hf_vectorizer/vectorizer.py:160-176 | The zip loop pairs text i with the embedding that came i-th, numbers the records from the given id, and ends with the shorter list |
| Vectorizer.HFModelVectorizer.ModelRecords | agentpick_data/src/hf_vectorizer/vectorizer.py:90-176 | A model is skipped exactly when it is known, unpopular, undocumented or not embedded at all; otherwise its records are those specified |
| Vectorizer.HFModelVectorizer.ProcessModel | agentpick_data/src/hf_vectorizer/vectorizer.py:78-197 | One model: which records are added, the next free id, the processed set and file, and that a processed model is flushed |
| RecordFacts.ProcessedIff | agentpick_data/src/hf_vectorizer/vectorizer.py:91-156 | A model is processed iff it is new, has at least 10000 downloads, a card with a section, and a text in a batch that succeeds |
| RecordFacts.RunDescribes | agentpick_data/src/hf_vectorizer/vectorizer.py:160-176 | Every record of a run holds a piece of a section of the card of its model, with that header, both numbers and the number of sections |
| RecordFacts.ProcessedHaveRecords | agentpick_data/src/hf_vectorizer/vectorizer.py:178-189 | The processed set grows by exactly the models that have records |
| RecordFacts.StartIdIs | agentpick_data/src/hf_vectorizer/vectorizer.py:216-225 | The first new id is 0 for an empty file and one more than the greatest stored id otherwise |
| Vectorizer.HFModelVectorizer.ProcessAll | agentpick_data/src/hf_vectorizer/vectorizer.py:231-243 | Over all models the records and the processed set are those of `RunModels` |
| Vectorizer.HFModelVectorizer.Run | agentpick_data/src/hf_vectorizer/vectorizer.py:199-247 | After a run the file holds everything added before and during it, in order, and nothing is buffered |
| Vectorizer.IdsContiguous | agentpick_data/src/hf_vectorizer/vectorizer.py:214-236 | The ids of a run form one contiguous range that starts above every id read at the start |
| Vectorizer.ModelsOwnBlocks | agentpick_data/src/hf_vectorizer/vectorizer.py:90-94 | Each model owns one contiguous block of records even when it is listed repeatedly |
| Vectorizer.AlignedIffLastFail | agentpick_data/src/hf_vectorizer/vectorizer.py:143-162 | Text i is paired with embedding i for all records iff no batch succeeds after one that failed |
| Vectorizer.RunPaired | agentpick_data/src/hf_vectorizer/vectorizer.py:160-176 | A run in which, for no model, a batch succeeds after a failed one stores with every text the embedding of that text |
| Vectorizer.FailedBatchMispairs | agentpick_data/src/hf_vectorizer/vectorizer.py:149-152 | With batches of one text, the first failing and the second not, the first record pairs the first text with the embedding of the second |
| Vectorizer.RunInvariant | agentpick_data/src/hf_vectorizer/vectorizer.py:160-192 | At every point of a run, ids count up from the start id and every record belongs to a processed model |
| Automations.AutomationTable.SelectDue | UI/backend/open_webui/models/automations.py:266-280 | The query takes at most `limit` due rows that are not locked, by due time, and leaves out none that is due earlier |
| Automations.AutomationTable.ClaimDue | UI/backend/open_webui/models/automations.py:257-300 | A claim selects as above and changes exactly the claimed rows: last run now, next run as scheduled |
| Automations.SelectionInFull | UI/backend/open_webui/models/automations.py:266-280 | The rows taken are active, due and not locked; such a row is passed over only when `limit` rows due no later are taken |
| Automations.ClaimInFull | UI/backend/open_webui/models/automations.py:294-296 | A claim writes last and next run of the rows taken, keeps their active flag, and leaves the other rows alone |
| LockedClaims.NoDoubleClaim | UI/backend/open_webui/models/automations.py:257-300 | Over every interleaving of selects, commits, aborts and of creating, editing and deleting automations on the skip-locked path, the due times at which one automation is claimed strictly increase |
| LockedClaims.StepKeepsLockedInv | UI/backend/open_webui/models/automations.py:276-298 | Every step keeps the inductive invariant: rows are held by one worker at a time, are still due when held, and lie after all earlier claims |
| UnlockedClaims.UnlockedRunSafeIffChecked | UI/backend/open_webui/models/automations.py:276-298 | Over every run without row locks, edits and deletions of held rows included, the due times of one automation strictly increase iff each commit passes a check the code does not make: no row to write has a last run at or after the due time claimed |
| UnlockedClaims.CommitSafeIffChecked | UI/backend/open_webui/models/automations.py:294-298 | In each state such a run reaches, a commit keeps the due times increasing iff its check passes |
| UnlockedClaims.StepSafeIffChecked | UI/backend/open_webui/models/automations.py:276-298 | Every other step, and every commit that passes the check, keeps the inductive invariant of these runs |
| UnlockedClaims.UnlockedDoubleClaim | UI/backend/open_webui/models/automations.py:276-277 | Without row locks there is a run in which two workers claim the same automation for the same due time |
| AccessGrants.AccessControlToGrants | UI/backend/open_webui/models/access_grants.py:80-144 | The loops yield the grants of the legacy dictionary, groups before users and read before write |
| AccessGrants.GrantsToAccessControl | UI/backend/open_webui/models/access_grants.py:234-276 | The loop yields the legacy dictionary: ids once each by first appearance, None for public read |
| AccessGrants.LegacyMeans | UI/backend/open_webui/models/access_grants.py:88-144 | A legacy dictionary grants reading and writing to exactly the users and groups it names; none grants reading to everybody, and for files nothing |
| AccessGrants.GrantsMean | UI/backend/open_webui/models/access_grants.py:252-276 | In the dictionary of private grants each user and group stands exactly under what it was granted |
| AccessGrants.PrivateRoundTrip | UI/backend/open_webui/models/access_grants.py:80-144 | Valid grants without public read come back from the legacy form as the same set, each once |
| AccessGrants.ReadDecisionsSurvive | UI/backend/open_webui/models/access_grants.py:499-557 | Away from files every read decision survives the round trip, for public grants too |
| AccessGrants.SurvivalIff | UI/backend/open_webui/models/access_grants.py:240-247 | All access decisions survive iff the resource is not both publicly readable and either a file or writable by somebody |
| GrantPayloads.NormalizeAccessGrants | UI/backend/open_webui/models/access_grants.py:147-183 | The loop computes the dictionary of valid grants in order of first submission |
| GrantPayloads.NormalizedGrants | UI/backend/open_webui/models/access_grants.py:151-152 | Exactly the valid submitted grants are kept, each once |
| GrantPayloads.KeptIff | UI/backend/open_webui/models/access_grants.py:168-173 | A grant is kept iff some payload submits it for a user or group, to read or write, with a principal |
| GrantPayloads.LastIdWins | UI/backend/open_webui/models/access_grants.py:175-181 | A grant submitted several times carries the id of its last submission, or a made-up one when that has none |
| GrantPayloads.NormalizingTwice | UI/backend/open_webui/models/access_grants.py:147-183 | Normalizing again changes nothing, ids and order included |
| GrantPayloads.DecisionsNormalized | UI/backend/open_webui/models/access_grants.py:147-183 | Access is decided by the normalized grants as by all valid ones submitted |
| Tasks.TaskRegistry.CreateTask | UI/backend/open_webui/tasks.py:104-124 | Registers the task locally and, with Redis, in hash and item set |
| Tasks.TaskRegistry.RedisSaveTask | UI/backend/open_webui/tasks.py:49-54 | Hash entry for the task, and set membership iff it has an item |
| Tasks.TaskRegistry.RedisCleanupTask | UI/backend/open_webui/tasks.py:57-67 | Removes hash entry and set membership and drops an emptied set |
| Tasks.TaskRegistry.CleanupTask | UI/backend/open_webui/tasks.py:88-101 | The done-callback on both sides |
| Tasks.TaskRegistry.StopTask | UI/backend/open_webui/tasks.py:145-179 | Stop on both sides; without Redis it succeeds iff the task is known |
| Tasks.TaskRegistry.HasActiveTasks | UI/backend/open_webui/tasks.py:198-201 | Whether any task is listed under the item |
| Tasks.HistoryAgrees | UI/backend/open_webui/tasks.py:49-67 | After any history of completed creates, stops and callbacks, a task is in the set of an item iff the hash maps it there, no empty set is stored, and the hash lists exactly the running tasks |
| Tasks.CleanedAgreesIff | UI/backend/open_webui/tasks.py:57-67 | Cleaning up keeps the indexes in agreement iff it is told the item of the task, or the task is unknown or has none |
| Tasks.HashDetermines | UI/backend/open_webui/tasks.py:49-67 | The task hash determines the item sets |
| Tasks.StopAndCallbackCommute | UI/backend/open_webui/tasks.py:160-162 | Stop then callback and callback then stop leave the same Redis state, that of the callback alone |
| LocalTasks.WholeRegistryCommutes | UI/backend/open_webui/tasks.py:88-101 | The same for the whole registry, Redis and process-local, with and without Redis |
| Tasks.ActiveIffRunning | UI/backend/open_webui/tasks.py:136-141 | With Redis, an item is reported active iff one of its tasks was created and neither stopped nor called back |
| LocalTasks.LocalActiveIffListed | UI/backend/open_webui/tasks.py:142 | Without Redis, an item is reported active iff one of its tasks was created and, unless the item id is empty, not called back: a stop alone does not count |
| LocalTasks.LocalListing | UI/backend/open_webui/tasks.py:97-119 | After any history the local table lists under each id exactly those tasks, each once, and stores no empty list |
| LocalTasks.TasksKept | UI/backend/open_webui/tasks.py:95-113 | After any events the process holds exactly the tasks created and neither called back nor, without Redis, stopped since; a stop without Redis succeeds for these |
| LocalTasks.StoppedStaysActive | UI/backend/open_webui/tasks.py:165-179 | A concrete history, a task created and stopped, on which the two branches answer differently |
| Tasks.NoTraceIffItem | UI/backend/open_webui/tasks.py:97-101 | Create and callback leave the local registry as it was iff the task has an item; a task without one stays listed |
| Channels.CreateMemberships | UI/backend/open_webui/models/channels.py:286-320 | One row for each new user |
| Channels.ChannelTable.AddMembers | UI/backend/open_webui/models/channels.py:457-481 | Adds exactly the requested users without a row, touches no other row or channel, and keeps one row per channel and user |
| Channels.ChannelTable.Join | UI/backend/open_webui/models/channels.py:517-553 | A user without a row gets one; any other keeps the row as it is, also after leaving |
| Channels.ChannelTable.Leave | UI/backend/open_webui/models/channels.py:555-573 | Marks the one row of that member as left and keeps it |
| Channels.ChannelTable.RemoveMembers | UI/backend/open_webui/models/channels.py:483-497 | Deletes exactly the rows of those users in that channel and counts them |
| Channels.SelectedIffSameMembers | UI/backend/open_webui/models/channels.py:428-444 | With one row per channel and user, both HAVING counts hold iff the recorded members are the requested users and there is at least one |
| Channels.FindDm | UI/backend/open_webui/models/channels.py:421-455 | The lookup finds only a direct-message channel with exactly those members, and for a non-empty request it finds none only if there is none |
| Channels.CountsRightIffOneRow | UI/backend/open_webui/models/channels.py:428-444 | For any table: the counts select a channel exactly for its own non-empty member set, for every request, iff the channel has one row per member |
| ChannelRaces.RunSafeIffChecked | UI/backend/open_webui/models/channels.py:466-479 | With check and insert as separate steps of interleaved requests, there is always one row per channel and user iff no insert adds a row that another request inserted since its check |
| ChannelRaces.StepSafeIffChecked | UI/backend/open_webui/models/channels.py:524-552 | The same for each step: removals, leaving and other checks keep one row per channel and user |
| ChannelRaces.RacingJoinsMislead | UI/backend/open_webui/models/channels.py:524-552 | A run of two racing joins of one user that leaves two rows, after which the counts select the channel for that user together with any other |

## Left out

- Floating-point rounding: sums, means and scores are exact reals; `math.fsum` is the sum.
- Pooled.ComparePooled: does not model the bootstrap interval `diff_ci95`, which is random; so is the other resampling code of the evaluation.
- The regular expressions that find ids, `_plausible_id`, URL removal and the catalog's contents; matches come as a list of offsets and ids in increasing order of offset.
- Case folding and blanks outside ASCII in `_family_key` and in trimming.
- `score_sum` and `count` of the search aggregation, which nothing reads, and the metadata columns that search and filter rows merely pass on.
- Qdrant, SQL, Redis and Parquet themselves: tables, hits and keys are sequences, maps and sets; rows that tie under the filter's sort may come in any order.
- The text of the warnings, the similar tags in one of them, and the conversion of size bounds from billions.
- Tokenizing and decoding: the chunker works on given tokens with a given decoder.
- Vectorizer.HFModelVectorizer.ProcessModel: does not model storage writes that fail, after which ids can repeat, nor the `model_info` columns of a record.
- Vectorizer.HFModelVectorizer.Run: does not model what opening the Parquet file for writing does to an existing file on resumption, which is up to the Parquet library.
- LockedClaims.NoDoubleClaim: assumes that a next run is absent or later than the time of the selection, that a user's write waits for a held row, and that a next run a user stores is later than every clock reading so far.
- UnlockedClaims.UnlockedRunSafeIffChecked: assumes one clock for all workers and that every next run stored, which `next_run_ns` computes from a clock reading of its own (UI/backend/open_webui/utils/automations.py:97-106), is later than all readings so far; recurrence rules and time zones are not part of this model. The run starts with every last run in the past and before the next run.
- Tasks.HistoryAgrees: handlers run to completion; interleavings inside a handler, `stop_item_tasks`, cancellation and the publish-subscribe channel are not modelled.
- Channels.ChannelTable.AddMembers: takes the collected set of users; group lookup, roles, pins and timestamps other than `left_at` are not modelled.
- AccessGrants.SurvivalIff: about the grants of one resource; the `set_*` and bulk operations on the table and the filter builders would only add easy members.
- The test-artifact pattern is matched as two substrings in lower case, and in the structured filter it is a parameter.
- Configuration, command lines, reports, routes, language-model calls and the user interface.
