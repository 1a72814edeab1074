# Verified model of the BM25 index, the process supervisors and the ranking checks

This project models three parts of NeX-PCX in Dafny and proves what they promise.

**The BM25 keyword index** is a derived index: term rows keyed by (chunk, tokenizer, term)
and statistics rows keyed by (policy, tokenizer, term) that must agree with the simple
thing they speed up, tokenizing every chunk of a policy and counting. `IndexDatabase` is
the database as in-memory tables with the real operations; `KeywordIndex` holds the tables
and the count from scratch; `RefreshLaws`, `RefreshOrder` and `CountingLaws` relate the two;
`SchemaLaws` ties success and failure of the operations to the schema, row by row;
`IndexRefresh` is the runner over many policies; `Coverage` and `CoverageRuns` are the read
model with its statuses over whole runs, `CoverageSummary` and `CoverageMatrix` its matrix
and totals; `ExactSlices` says what exact slices store and which status certifies one;
`MisfiledRuns` holds runs over tables with a misfiled row. `Tokenizer` and `TokenizerLaws`
are the two built-in tokenizers, `DecimalAverage` the decimal arithmetic of the stored
average.

**Two process-control state machines**: the foreground supervisor (`Supervisor`,
`SupervisorLaws`) and the launch / probe / stop protocol of the remote provider smoke
(`ForegroundSmoke`, `Polling`). Exit codes, probe answers, signals and the passing of time
are inputs; what is proved holds for all of them.

**Ranking and accounting**: the reranker's top k (`Reranker`), the independent checker of
its response (`RerankerCheck`), their agreement (`RerankerAgreement`), what either promises
in the caller's terms (`RerankerLaws`) and the plans the smoke builds (`RerankerPlan`);
cyclic batching and percentiles (`ProviderBenchmark`); the verdict of the corpus benchmark
(`CorpusBenchmark`) and its persisted report (`BenchmarkReport`).

`dafny verify dfyconfig.toml` checks everything.

## How the source is read

- Characters: which are word characters, which are white space and how one character
  case-folds are parameters (`Alphabet`); the Hangul syllable block is concrete. Assumed of
  them: a space is white space and no word character is; ASCII letters and digits are word
  characters; folding never deletes a character nor makes white space; Hangul syllables are
  word characters that folding leaves alone.
- The optional morphological tokenizer is a function that may raise (`Engine.morphs`).
- A `Counter` is a multiset, a table a map from its primary key, NUMERIC(12, 4) a number of
  ten-thousandths. The column limits INT and NUMERIC(12, 4) and the foreign keys are those
  of migrations/versions/20260720_0030_create_bm25_search_profile_schema.py; violating one
  is a failure of the operation.
- A connection commits when its block ends normally and rolls back when it raises.
- A clock is monotonic: time may pass between two readings, and a sleep may last longer than
  asked for. A punctual clock moves in sleeps only, by exactly the time asked for.
- Operations of the run model (`Coverage.Operation`) carry names that are already validated.

## Results that are not what one might expect

- The inner delete of a refresh goes by chunk id and ignores the policy, so a refresh can
  delete another policy's rows. `RefreshLaws.RefreshFrame` says exactly when, and
  `CoverageRuns.RefreshTakesAnotherPolicysRow` is a run in which it does.
- The double rounding of the average is correct below a total of 10^23 and can fail above
  (`DecimalAverage.DoubleRoundingFailsAboveTheBound`); since larger averages do not fit
  their column, every refresh that commits stores the correctly rounded average
  (`CountingLaws.RefreshedAverageIsCorrectlyRounded`).
- The staleness test compares counts only: `Coverage.StaleExactlyWhenCountsDiffer` is the
  exact condition, `CoverageRuns.CompleteCellOverOutdatedStatistics` a run in which it
  misses that the index is outdated. As long as no chunk of the last refresh is deleted a
  status can be relied on: `ExactSlices.NotStaleExactlyWhenTheSliceIsExact`.
- Over tables in which every row is filed under its chunk's policy, a chunk without tokens
  has no row after a refresh, so its document stays partial or missing
  (`Coverage.FiledCellsAfterRefresh`). A refresh does not delete a row that such a chunk has
  under another policy: then a cell can be stale right after its refresh and stay so
  (`MisfiledRuns.StaleRightAfterRefresh`), or complete without a token
  (`MisfiledRuns.CompleteWithoutTokens`). `Coverage.CellsAfterRefresh` says exactly when.
- A run over many policies can change a slice it does not refresh
  (`MisfiledRuns.RunChangesASliceItDoesNotRefresh`); `IndexRefresh.ReportTellsTheTruth` is
  the exact condition. The slices it reports as succeeded are exact from any tables.
- A supervisor stopped during a worker cycle may report failed
  (`SupervisorLaws.StoppedSupervisorCanReportFailed`).
- The reranker answers with stripped candidate keys, the checker knows the unstripped ones:
  `RerankerAgreement.EveryModelIsAcceptedExactlyWhenKeysSurvive` is the exact condition,
  `RerankerPlan.PaddedKeyIsRejected` a request that fails it. The plans the smoke itself
  builds meet it (`RerankerPlan.EveryResponseToABuiltPlanIsAccepted`).
- A corpus benchmark profile can pass with a result that does not
  (`CorpusBenchmark.PassingProfileWithFailingResult`);
  `CorpusBenchmark.PassingProfilePassesThroughout` is the exact condition. Regrouping a
  report keeps each job once if and only if every profile has exactly one summary: a plan
  with different profiles does (`BenchmarkReport.PlannedJobsAreKeptOnce`), one that repeats
  a profile does not (`BenchmarkReport.RepeatedProfileKeepsJobsTwice`).

## Model

| member | source | states |
|---|---|---|
| `Tokenizer.RunsAreTheMaximalRuns` | app/core/bm25_keyword_index.py:18-19 | A left-to-right greedy scan reports exactly the maximal runs of matching characters at or after its start, in text order, none twice |
| `Tokenizer.WordTokensAreTheMaximalWords` | app/core/bm25_keyword_index.py:146-147 | Word tokenization keeps exactly the maximal word runs of the text, in order, each case-folded |
| `Tokenizer.NoWordsExactlyWithoutWordCharacters` | app/core/bm25_keyword_index.py:146-147 | A text yields no token if and only if it has no word character |
| `Tokenizer.FoldAt` | app/core/bm25_keyword_index.py:147 | After the folded prefix of a string stands exactly what its next character folds to |
| `Tokenizer.FoldDependsOnCharacters` | app/core/bm25_keyword_index.py:147 | Strings whose characters fold alike, one by one, fold to the same string |
| `Tokenizer.StripCutsWhiteSpace` | app/core/bm25_keyword_index.py:106-110 | Stripping cuts off white space at both ends, nothing else, and leaves none there |
| `Tokenizer.BlankExactlyWhenWhite` | app/core/bm25_keyword_index.py:106-110 | A name is refused as blank if and only if it consists of white space |
| `Tokenizer.StripIdempotent` | app/core/bm25_keyword_index.py:106-110 | Validating an already validated name changes nothing |
| `Tokenizer.IterKoreanNgrams` | app/core/bm25_keyword_index.py:150-163 | The nested loops over Hangul runs, sizes and start positions produce all 2- and 3-grams of every run, in order, without those equal to the whole folded token |
| `Tokenizer.AppendPieces` | app/core/bm25_keyword_index.py:155-162 | The innermost loop appends the pieces of one size of one run, left to right, without the skipped one |
| `Tokenizer.TokenizeWordsWithKoreanNgrams` | app/core/bm25_keyword_index.py:166-171 | Each word in order, followed by its n-grams |
| `TokenizerLaws.TokenRecall` | app/core/bm25_keyword_index.py:150-163 | A Hangul 2- or 3-gram standing anywhere in a token is a term of that token, despite the skip: it is one of its n-grams or the token itself |
| `TokenizerLaws.KoreanRecall` | app/core/bm25_keyword_index.py:146-171 | If a Hangul string occurs anywhere in a text, every 2- and 3-gram of it (itself included when it has two or three syllables) is an index term of the text |
| `TokenizerLaws.ShortKoreanQueryMatchesFully` | app/core/bm25_keyword_index.py:166-171 | Every term of a two- or three-syllable Hangul query, tokenized as the index tokenizes, is a term of every text it occurs in |
| `TokenizerLaws.KoreanGramCount` | app/core/bm25_keyword_index.py:150-163 | A token has max(n-1,0) + max(n-2,0) n-grams summed over its Hangul runs, minus one exactly when the folded token is one run of length 2 or 3 |
| `TokenizerLaws.KoreanLengthClosedForm` | app/core/bm25_keyword_index.py:166-171 | So the length of a text under the n-gram tokenizer is a sum over the runs of its words |
| `TokenizerLaws.KoreanTokensDominateWords` | app/core/bm25_keyword_index.py:146-171 | The n-gram tokenizer counts every word at least as often as the word tokenizer, and both leave the same texts empty |
| `TokenizerLaws.TermsAreSolid` | app/core/bm25_keyword_index.py:146-171 | Neither tokenizer yields an empty term or one with white space in it |
| `TokenizerLaws.TextsThatFoldAlikeHaveTheSameTerms` | app/core/bm25_keyword_index.py:146-171 | Texts of which every character folds alike and is a word character alike have the same terms under both built-in tokenizers: case does not matter |
| `KeywordIndex.WordTokenizerYields` | app/core/bm25_keyword_index.py:215-228 | The default tokenizer never raises and yields one term per maximal word run, in order: the folded run |
| `KeywordIndex.GramTokenizerYields` | app/core/bm25_keyword_index.py:215-228 | The n-gram tokenizer never raises, counts every word at least as often as the default one, and yields as many terms as the closed form says |
| `KeywordIndex.MorphTokenizerYields` | app/core/bm25_keyword_index.py:204-212 | The morphological tokenizer raises exactly when the analyser does; a term is yielded if and only if it is a folded morph that is one whole word, and all of them in order if all are |
| `KeywordIndex.TokensAreNotBlank` | migrations/versions/20260720_0030_create_bm25_search_profile_schema.py:131 | No tokenizer yields a term that the schema's check refuses |
| `DecimalAverage.DoubleRoundingFailsAboveTheBound` | app/core/bm25_keyword_index.py:405-407 | Above the bound the two roundings can differ from one correct rounding: a concrete total and count |
| `DecimalAverage.RoundHalfEvenIsCorrectRounding` | app/core/bm25_keyword_index.py:405-407 | Half-even integer rounding yields the nearest integer with ties to even, and no other integer is that |
| `DecimalAverage.RoundHalfEvenMonotone` | app/core/bm25_keyword_index.py:405-407 | Rounding keeps order |
| `DecimalAverage.RoundingTwiceIsRoundingOnce` | app/core/bm25_keyword_index.py:405-407 | Rounding first to a finer grid and then to integers equals rounding once, whenever the finer grid has an even number of steps per unit, more than the divisor |
| `DecimalAverage.AverageIsCorrectlyRounded` | app/core/bm25_keyword_index.py:17 | For every total below 10^23 the 28-digit division followed by quantize(0.0001) is the exact quotient correctly rounded to four places |
| `DecimalAverage.SmallAverageSmallTotal` | app/core/bm25_keyword_index.py:405-407 | An average below 10^8 can only come from a total of at most 10^8 per chunk, read back through both roundings |
| `DecimalAverage.AverageIsValidExactlyWhenItFits` | app/core/bm25_keyword_index.py:405-407 | There is an average if and only if the correctly rounded quotient has at most 28 digits |
| `IndexStore.IndexDatabase.constructor` | migrations/versions/20260720_0030_create_bm25_search_profile_schema.py:126-155 | An index starts empty |
| `IndexStore.IndexDatabase.InsertChunk` | app/core/chunks.py:190-253 | A chunk is inserted exactly when text and policy name are not blank and the policy exists; nothing else changes |
| `IndexStore.IndexDatabase.DeleteDocumentChunks` | app/core/chunks.py:312-320 | Removes a document's chunks of one policy and, by cascade, exactly their term rows; statistics stay |
| `IndexStore.IndexDatabase.ReplaceChunkTermsInConnection` | app/core/bm25_keyword_index.py:261-326 | Succeeds exactly when the arguments validate, the text tokenizes and -- only if it has tokens -- the foreign keys and the integer column hold; then exactly the chunk's rows of this tokenizer are replaced by one row per distinct token with its exact count |
| `IndexStore.IndexDatabase.InsertChunkTerms` | app/core/bm25_keyword_index.py:288-309 | The row insert succeeds exactly when chunk and policy exist, no term is blank and the counts fit; then one row per distinct term is added |
| `IndexStore.IndexDatabase.FinishRefresh` | app/core/bm25_keyword_index.py:404-441 | After the loop: fails exactly when the average cannot be computed or a value does not fit its column; otherwise the exact statistics are added and the report has the exact counts |
| `IndexStore.IndexDatabase.InsertStatistics` | app/core/bm25_keyword_index.py:408-433 | One statistics row per counted term under the schema's checks, none for an empty counter |
| `IndexStore.IndexDatabase.ReplaceChunkTerms` | app/core/bm25_keyword_index.py:329-344 | The same in its own transaction: a failure leaves the table as it was |
| `IndexStore.IndexDatabase.SelectPolicyChunks` | app/core/bm25_keyword_index.py:357-366 | The ids of the policy's chunks, each once, in ascending order |
| `IndexStore.IndexDatabase.IndexChunk` | app/core/bm25_keyword_index.py:387-402 | One pass of the refresh loop: the table is the rebuilt table for one more chunk, and the three accumulators count one more chunk, whether or not it has tokens |
| `IndexStore.IndexDatabase.RewriteChunks` | app/core/bm25_keyword_index.py:384-402 | The loop visits every chunk of the policy; it fails exactly on a chunk that does not tokenize or fit |
| `IndexStore.IndexDatabase.RefreshInConnection` | app/core/bm25_keyword_index.py:347-441 | Succeeds exactly when the name and tokenizer validate, every chunk tokenizes and every value fits its column; then the tables are the refreshed tables and the report has the exact counts |
| `IndexStore.IndexDatabase.RefreshPolicy` | app/core/bm25_keyword_index.py:444-455 | The refresh in its own transaction: committed on success, all tables as before on failure |
| `KeywordIndex.RebuildStep` | app/core/bm25_keyword_index.py:394-402 | Rewriting one more chunk takes the rebuilt table for a set of chunks to the rebuilt table for that set and the chunk |
| `KeywordIndex.AccumulateChunk` | app/core/bm25_keyword_index.py:388-402 | The length list, the document counter and the row counter stay the exact counts when a chunk is added |
| `RefreshLaws.RefreshedSliceIsTheCount` | app/core/bm25_keyword_index.py:347-441 | From any tables at all, a refresh leaves in its (policy, tokenizer) slice exactly the from-scratch count: one row per chunk and distinct token with its count, one statistics row per term with its number of containing chunks |
| `RefreshLaws.RefreshFrame` | app/core/bm25_keyword_index.py:278-285 | A refresh leaves every other term slice as it was if and only if no row of this tokenizer for a tokenized chunk of the policy is filed under another policy; other statistics never change |
| `RefreshLaws.MisfiledRowIsLost` | app/core/bm25_keyword_index.py:278-285 | Such a misfiled row is deleted by the inner delete, which ignores the policy |
| `RefreshLaws.FiledRowsAreSafe` | app/core/bm25_keyword_index.py:367-383 | Where every term row carries its chunk's policy no row is misfiled |
| `RefreshLaws.RefreshKeepsInvariants` | app/core/bm25_keyword_index.py:347-441 | A refresh keeps the foreign keys and the invariant that a row carries its chunk's policy |
| `RefreshLaws.RewriteKeepsFiling` | app/core/bm25_keyword_index.py:261-326 | Rewriting one chunk keeps that invariant if and only if it writes no rows or files them under the chunk's own policy |
| `RefreshLaws.RefreshIsIdempotent` | app/core/bm25_keyword_index.py:347-441 | Refreshing a slice twice equals refreshing it once |
| `RefreshLaws.RefreshesCommute` | app/core/bm25_keyword_index.py:347-441 | Refreshes of two different slices commute, misfiled rows or not |
| `RefreshOrder.AnyOneFirst` | app/core/bm25_index_refresh.py:94-106 | Any policy of a work list may be refreshed first |
| `RefreshOrder.OrderIsIrrelevant` | app/core/bm25_index_refresh.py:94-106 | Any two orders of refreshing the same set of policies end in the same tables, failing policies included |
| `RefreshOrder.CommittedSliceIsExact` | app/core/bm25_index_refresh.py:94-106 | From any tables and for any work list, a slice whose refresh commits is exactly the from-scratch count at the end: no other refresh takes a row from it |
| `RefreshOrder.OtherSliceKeptExactlyWhen` | app/core/bm25_index_refresh.py:94-106 | Every other slice of any tokenizer is as before if and only if none of its rows was misfiled among the chunks of a committed refresh |
| `RefreshOrder.SlicesAfterAll` | app/core/bm25_index_refresh.py:94-106 | Both together, for any tables and work list |
| `RefreshOrder.FiledSlicesAfterAll` | app/core/bm25_index_refresh.py:94-106 | Over filed tables every slice whose refresh does not commit is as before |
| `CountingLaws.ContainingAddsUp` | app/core/bm25_keyword_index.py:384-402 | Double counting: the numbers of containing chunks, summed over the vocabulary, are the number of (chunk, term) pairs |
| `CountingLaws.DocumentFrequenciesAddUp` | app/core/bm25_keyword_index.py:408-441 | The stored document frequencies of a refreshed slice add up to its number of term rows, which is the reported term_row_count; the number of statistics rows is the reported one too |
| `CountingLaws.DocumentFrequencyInRange` | app/core/bm25_keyword_index.py:422-432 | Every stored document frequency lies between 1 and corpus_chunk_count |
| `CountingLaws.TermFrequenciesAddUp` | app/core/bm25_keyword_index.py:388-407 | The stored term frequencies of a refreshed slice add up to the numerator of the average |
| `CountingLaws.RefreshedAverageIsCorrectlyRounded` | app/core/bm25_keyword_index.py:404-407 | Whenever a refresh commits, for any number and size of chunks, its average is the exact quotient correctly rounded to four places |
| `CountingLaws.ReportTellsTheSlice` | app/core/bm25_keyword_index.py:434-441 | The report of a committed refresh is about the tables it leaves: its counts are the sizes of the term slice, of the statistics slice and of the policy; its average is correctly rounded and is the one every statistics row stores |
| `SchemaLaws.RefreshCommitsExactlyWhenRowsFit` | migrations/versions/20260720_0030_create_bm25_search_profile_schema.py:126-155 | A refresh commits if and only if every chunk tokenizes, there is an average and every row of the count, one by one, meets the checks, keys and column limits of the schema |
| `SchemaLaws.RewriteCommitsExactlyWhenRowsFit` | migrations/versions/20260720_0030_create_bm25_search_profile_schema.py:126-135 | Rewriting a chunk commits if and only if its arguments validate, its text tokenizes and every row to be written meets the schema |
| `SchemaLaws.RunsKeepRowsFit` | migrations/versions/20260720_0030_create_bm25_search_profile_schema.py:126-155 | Over any run of inserts, deletes, rewrites and refreshes every stored row meets the schema |
| `CountingLaws.AverageBetweenShortestAndLongest` | app/core/bm25_keyword_index.py:404-407 | The average lies between the shortest and the longest chunk |
| `CountingLaws.KoreanIndexDominatesWordIndex` | app/core/bm25_keyword_index.py:231-237 | Tokenizing a policy: under the n-gram tokenizer every count and document frequency is at least that of the word tokenizer, the same chunks yield no token, and the average is at least as large |
| `ExactSlices.SameIndexedExactlyWhen` | app/core/bm25_index_coverage.py:343-355 | Over slices that are exact for both tokenizers a cell has the same indexed chunks under both if and only if its chunks without tokens have rows of other policies under both or neither |
| `ExactSlices.BothTokenizersCoverTheSame` | app/core/bm25_index_coverage.py:343-355 | Over filed tables with slices that are exact for both tokenizers, every cell has the same indexed chunks and the same status under both |
| `ExactSlices.StoredFrequenciesDominate` | app/core/bm25_keyword_index.py:288-309 | Every stored word row has an n-gram row of the same chunk and term that is at least as frequent |
| `ExactSlices.StoredStatisticsDominate` | app/core/bm25_keyword_index.py:408-433 | Every stored word statistic has an n-gram statistic with at least its document frequency and average, over the same chunk count |
| `ExactSlices.KoreanRefreshCoversWordRefresh` | app/core/bm25_keyword_index.py:347-441 | After refreshing any tables with both tokenizers no stored word count is above its n-gram counterpart, and over filed tables every cell has equal indexed chunks and status |
| `IndexRefresh.NormalizePolicyNames` | app/core/bm25_index_refresh.py:57-66 | Fails exactly when some name is blank; otherwise the distinct stripped names in order of first occurrence |
| `IndexRefresh.EveryResultIsCountedOnce` | app/core/bm25_index_refresh.py:108-119 | Succeeded and failed results add up to all results; the empty ones are among the succeeded |
| `IndexRefresh.ReportCountsPolicies` | app/core/bm25_index_refresh.py:108-120 | The counters of a completed run, by the policies alone: how many could be refreshed, how many could not, how many have no chunk |
| `IndexRefresh.AttemptPolicy` | app/core/bm25_index_refresh.py:95-106 | One policy: a commit becomes a succeeded result with exact counts, an exception a failed one with zero counts and unchanged tables |
| `IndexRefresh.RunPolicies` | app/core/bm25_index_refresh.py:93-122 | The run over a work list: one truthful result per policy, or the first failure when errors are not continued over, with the earlier policies committed |
| `IndexRefresh.RefreshKeywordIndexes` | app/core/bm25_index_refresh.py:81-122 | Rejects an unsupported tokenizer or a blank name without touching a table; otherwise runs over the distinct requested names, or over all policies when none is requested |
| `IndexRefresh.ReportTellsTheTruth` | app/core/bm25_index_refresh.py:81-122 | At the end of a completed run, from any tables: every slice reported as succeeded is the from-scratch count, and every other slice is as before if and only if none of its rows was misfiled among the chunks of a policy reported as succeeded |
| `MisfiledRuns.RunChangesASliceItDoesNotRefresh` | app/core/bm25_keyword_index.py:278-285 | A concrete case: a run over one policy takes a row of another policy's slice |
| `IndexRefresh.FiledReportTellsTheTruth` | app/core/bm25_index_refresh.py:81-122 | Over filed tables every slice not reported as succeeded is as before, and the tables stay filed |
| `IndexRefresh.MissingTokenizerFailsNonEmptyPolicies` | app/core/bm25_index_refresh.py:93-122 | Without the optional tokenizer a completed run reports exactly the policies that have a chunk as failed; a run that stops at the first error completes only if no policy has one |
| `Coverage.RefreshedStatistics` | app/core/bm25_index_coverage.py:356-366 | What the statistics subquery returns right after a refresh: the vocabulary size, and the policy's chunk count unless the vocabulary is empty |
| `Coverage.StatusMeans` | app/core/bm25_index_coverage.py:121-139 | What each of the five statuses means for any tables, in sets of chunks and in the statistics: both directions |
| `Coverage.RowsAfterRefresh` | app/core/bm25_index_coverage.py:343-355 | Right after a refresh of any tables a chunk has term rows if and only if it has tokens or had a row filed under another policy |
| `Coverage.RowsAreTokens` | app/core/bm25_index_coverage.py:343-355 | Over filed tables: right after a refresh a chunk has term rows exactly when it has tokens |
| `Coverage.CellsAfterRefresh` | app/core/bm25_index_coverage.py:121-139 | What the cells read right after a refresh of any tables: stale if and only if the policy has no term and a chunk of the cell has a row under another policy; complete if and only if cell and vocabulary are not empty and every chunk of the cell has tokens or such a row; missing if and only if no chunk has either |
| `Coverage.FiledCellsAfterRefresh` | app/core/bm25_index_coverage.py:121-139 | Over filed tables: right after a refresh no cell of the policy is stale; a chunked cell is complete exactly when all its chunks yield a token and missing exactly when none does |
| `MisfiledRuns.StaleRightAfterRefresh` | app/core/bm25_index_coverage.py:131-134 | A concrete run from filed tables: after a rewrite under another policy the cell is stale right after its refresh, however often it is refreshed |
| `MisfiledRuns.CompleteWithoutTokens` | app/core/bm25_index_coverage.py:135-136 | A concrete run from filed tables: a document whose only chunk has no token reads complete right after the refresh of its policy |
| `Coverage.Perform` | app/core/chunks.py:312-324 | The database methods do what the run model says, operation by operation |
| `Coverage.RunsStayWellFormed` | migrations/versions/20260720_0030_create_bm25_search_profile_schema.py:126-155 | Every run of inserts, deletes, rewrites and refreshes keeps the foreign keys |
| `Coverage.StatisticsOnlyChangeInRefresh` | app/core/bm25_keyword_index.py:375-383 | Over any run the statistics of a slice change only in a refresh of that slice |
| `Coverage.StaleExactlyWhenCountsDiffer` | app/core/bm25_index_coverage.py:131-134 | At any point of any run after a refresh, a chunked cell is stale if and only if the policy's number of chunks differs from that at the refresh (or, if the refresh found no term at all, a chunk of the cell has a row, written since or older and filed under another policy) |
| `CoverageRuns.StepKeepsFiling` | app/core/bm25_keyword_index.py:261-326 | One operation breaks the filing invariant if and only if it is a rewrite under a foreign policy that writes a row |
| `CoverageRuns.RunsStayFiled` | app/core/bm25_keyword_index.py:261-441 | Runs without such rewrites keep the invariant throughout |
| `CoverageRuns.RefreshTakesAnotherPolicysRow` | app/core/bm25_keyword_index.py:278-285 | A concrete run: a chunk of one policy is rewritten under another, and the refresh of its own policy deletes that row |
| `CoverageRuns.InsertMakesEveryCellStale` | app/core/bm25_index_coverage.py:131-134 | Without deletes, once statistics exist, a chunked cell of the policy is stale if and only if a chunk was inserted since the refresh -- then all of them are |
| `CoverageRuns.SwapHidesStaleness` | app/core/bm25_index_coverage.py:131-134 | After a delete and an insert of one chunk no cell of the policy is stale, although the new chunk has no row and the statistics are the old ones |
| `CoverageRuns.CompleteCellOverOutdatedStatistics` | app/core/bm25_index_coverage.py:121-139 | A concrete such run: a complete cell over statistics that still count a deleted chunk |
| `ExactSlices.NotStaleExactlyWhenTheSliceIsExact` | app/core/bm25_index_coverage.py:131-139 | What a status certifies: after a refresh of any tables that found a term, throughout any run that does not refresh, misfile into or retext the slice nor delete a chunk of that refresh -- later chunks may come and go -- a chunked cell is not stale if and only if the stored slice is exactly the count of the policy's chunks |
| `ExactSlices.UnchangedChunksStayExact` | app/core/bm25_keyword_index.py:347-441 | Throughout such a run the slice is the exact count whenever the policy's chunks are those of the refresh |
| `CoverageSummary.GroupRows` | app/core/bm25_index_coverage.py:221-225 | The loop groups the rows by policy in order and collects the documents |
| `CoverageSummary.SummarizeGroups` | app/core/bm25_index_coverage.py:227-230 | One summary per policy that has a row, each over exactly its own rows |
| `CoverageSummary.BuildSummary` | app/core/bm25_index_coverage.py:218-256 | The overall summary: sizes, totals and counts; complete, attention and not-chunked rows cover all rows |
| `CoverageSummary.GroupingKeepsTotals` | app/core/bm25_index_coverage.py:185-204 | Any total over all rows is the sum of the totals of the per-policy groups |
| `CoverageSummary.StatusesPartitionRows` | app/core/bm25_index_coverage.py:196-200 | The five statuses partition any set of rows |
| `CoverageSummary.ChunksAreIndexedOrMissing` | app/core/bm25_index_coverage.py:189-203 | Over rows that balance, all chunks are indexed or missing |
| `CoverageSummary.PolicySummariesAddUp` | app/core/bm25_index_coverage.py:218-256 | The per-policy summaries add up to the overall totals: rows, chunks, indexed, missing, term rows and the status counts |
| `CoverageSummary.PolicySummaryBalances` | app/core/bm25_index_coverage.py:185-215 | Within one policy summary documents are chunked or not, chunked ones are complete, partial, missing or stale, and chunks are indexed or missing |
| `CoverageMatrix.MatrixRowsBalance` | app/core/bm25_index_coverage.py:142-182 | Every row of the matrix balances -- chunks are indexed or missing, not chunked means no chunk -- and its status is that of its cell |
| `CoverageMatrix.MatrixRowSays` | app/core/bm25_index_coverage.py:142-182 | Every field of a row, in sets: its document and policy, how many of the chunks of the cell there are, how many with a term row, how many without, how many term rows they have, the number of statistics rows and their corpus count, and the status |
| `CoverageMatrix.MatrixMembers` | app/core/bm25_index_coverage.py:392-402 | The rows are exactly those of the selected (document, policy) pairs |
| `CoverageMatrix.DocumentsTimesPolicies` | app/core/bm25_index_coverage.py:237-240 | document_count times policy_count is document_policy_count |
| `CoverageMatrix.MatrixCountsEveryChunkOnce` | app/core/bm25_index_coverage.py:327-342 | The chunk total of the matrix is the number of chunks of the selected documents and policies |
| `CoverageMatrix.MatrixCountsIndexedChunks` | app/core/bm25_index_coverage.py:231-232 | The indexed total is the number of selected chunks that have a term row |
| `CoverageMatrix.MatrixCountsMissingChunks` | app/core/bm25_index_coverage.py:243 | The missing total is the number of selected chunks that have none |
| `CoverageMatrix.MatrixCountsTermRows` | app/core/bm25_index_coverage.py:244 | The term row total is the number of this tokenizer's rows of selected chunks |
| `CoverageMatrix.SummaryCountsCells` | app/core/bm25_index_coverage.py:194-200 | The status counts of a policy are the numbers of selected documents whose cell reads so |
| `CoverageMatrix.SummaryCountsChunks` | app/core/bm25_index_coverage.py:201-204 | The chunk counts of a policy's summary are those of its selected chunks: all, with a row, without, and their rows |
| `CoverageMatrix.SummaryShowsStatistics` | app/core/bm25_index_coverage.py:205-209 | The two maxima of a policy's summary are the number of its statistics rows and their corpus count |
| `CoverageMatrix.SummaryCountsStatistics` | app/core/bm25_index_coverage.py:245 | The statistics total over all policies is the number of this tokenizer's statistics rows of the selected policies |
| `Supervisor.Process.Poll` | scripts/run_foreground_app_worker_supervisor.py:271 | An exit code, once seen, stays |
| `Supervisor.TerminateProcess` | scripts/run_foreground_app_worker_supervisor.py:435-441 | A terminated process has ended, by itself or by the kill; one that had ended keeps its code |
| `Supervisor.RunWorkerCycle` | scripts/run_foreground_app_worker_supervisor.py:344-395 | The cycle ends with the worker's own code, or with that of the worker stopped at the first poll at which a stop is pending |
| `Supervisor.SleepWithStop` | scripts/run_foreground_app_worker_supervisor.py:427-432 | The pause ends early only for a stop, otherwise lasts at least the given time; it looks for a stop at most ceil(seconds / 0.2) times, and exactly that often when no step takes longer than asked |
| `Supervisor.RunSupervisor` | scripts/run_foreground_app_worker_supervisor.py:269-319 | The loop returns what the run function says, whose laws follow; on every way out the web process has ended, with its own code or as stopped |
| `SupervisorLaws.RunsReportSoundly` | scripts/run_foreground_app_worker_supervisor.py:270-341 | With a tolerance of at least 0 every returned report is sound: cycles numbered 1..n within the limit, return code nonzero exactly when failed, at most tolerance failures, and exactly one more -- the last cycle -- when the tolerance ended the run |
| `SupervisorLaws.EveryReportIsSound` | scripts/run_foreground_app_worker_supervisor.py:270-341 | The same from any point of a run that is still within tolerance |
| `SupervisorLaws.CodeTellsStatusExactlyWhenTolerant` | scripts/run_foreground_app_worker_supervisor.py:278-299 | The return code tells the status over all runs if and only if the tolerance is not negative or no cycle is allowed at all |
| `SupervisorLaws.CyclesRecordTheirWorkers` | scripts/run_foreground_app_worker_supervisor.py:282-291 | Cycle i records the exit code of the i-th worker |
| `SupervisorLaws.ReturnIsFinal` | scripts/run_foreground_app_worker_supervisor.py:270-341 | A returned run depends on nothing that happens later |
| `SupervisorLaws.StopEndsTheWorker` | scripts/run_foreground_app_worker_supervisor.py:364-372 | A stop during a cycle ends the running worker and its exit code is recorded |
| `SupervisorLaws.ExitEndsTheCycle` | scripts/run_foreground_app_worker_supervisor.py:364-384 | A worker that exits before any stop reports its own code |
| `SupervisorLaws.PendingStopEndsTheRun` | scripts/run_foreground_app_worker_supervisor.py:270-312 | A stop that is pending or arrives at the guard ends the run with no further cycle, even if the web process has exited or the limit is reached |
| `SupervisorLaws.WebExitEndsTheRun` | scripts/run_foreground_app_worker_supervisor.py:271-277 | Otherwise the exit of the web process ends the run with its code before any further cycle: exited for zero, failed for any other |
| `SupervisorLaws.LimitEndsTheRun` | scripts/run_foreground_app_worker_supervisor.py:278-280 | With the web process up, the cycle limit ends the run as a clean exit |
| `SupervisorLaws.InterruptEndsTheRun` | scripts/run_foreground_app_worker_supervisor.py:313-316 | An interrupt ends the run with code 130, whatever else is pending |
| `SupervisorLaws.FailedCycleEndsTheRun` | scripts/run_foreground_app_worker_supervisor.py:292-299 | A cycle beyond the tolerance ends the run as failed with that worker's code |
| `SupervisorLaws.StopInThePauseEndsTheRun` | scripts/run_foreground_app_worker_supervisor.py:307-312 | A stop that arrives in the pause after a tolerated cycle ends the run there: no further worker is started |
| `SupervisorLaws.QuietRoundsGoOn` | scripts/run_foreground_app_worker_supervisor.py:281-310 | Rounds without a stop, within limit and tolerance, record one cycle each and the run goes on from there, however many they are |
| `SupervisorLaws.StopAfterQuietRounds` | scripts/run_foreground_app_worker_supervisor.py:270-312 | So a run of quiet rounds, the last with a stop in its pause, is a clean exit with exactly their cycles |
| `SupervisorLaws.StopDuringCycle` | scripts/run_foreground_app_worker_supervisor.py:292-312 | After such a stop the supervisor reports failed exactly when that cycle exceeds the tolerance, and a clean exit otherwise |
| `SupervisorLaws.StoppedSupervisorCanReportFailed` | scripts/run_foreground_app_worker_supervisor.py:292-312 | So a stopped supervisor does not always report exited: a concrete run |
| `Polling.Rounds` | scripts/run_remote_provider_foreground_smoke.py:394-416 | timeout / interval rounded up, as the bound on the number of probes |
| `Polling.DeadlineTakesAllRounds` | scripts/run_remote_provider_foreground_smoke.py:394-416 | A schedule that is not late reaches its deadline exactly when all ceil(timeout / interval) rounds are done |
| `ForegroundSmoke.WaitUntilUnreachable` | scripts/run_remote_provider_foreground_smoke.py:243-256 | True exactly when a probe failed, which is then the last one; at most ceil(timeout / interval) probes; it gives up only once the time has passed, and on a punctual clock exactly when none of the first ceil(timeout / interval) probes fails |
| `ForegroundSmoke.WaitUntilHealthy` | scripts/run_remote_provider_foreground_smoke.py:394-418 | The startup loop terminates after at most ceil(startup_timeout / poll_interval) probes, with a healthy last probe, an exited process or the deadline, and logs what it saw; it times out only once the time has passed, and on a punctual clock only after all those probes |
| `ForegroundSmoke.StopProcess` | scripts/run_remote_provider_foreground_smoke.py:223-240 | Whether the process ended without a kill, and its exit code |
| `ForegroundSmoke.ConfirmStop` | scripts/run_remote_provider_foreground_smoke.py:429-463 | Whether the URL went dark, whether the fallback stop was needed, and which error is reported first |
| `ForegroundSmoke.RunForegroundSmoke` | scripts/run_remote_provider_foreground_smoke.py:305-483 | Every logged event was really observed, the run passes if and only if its log is certified, the attempts are the logged probes and error and fields are those of the log; on a punctual clock it passes if and only if the outside world alone -- dark before, spawned, healthy and matching in time, ended without a kill, dark again -- deserves it |
| `ForegroundSmoke.RunLaunched` | scripts/run_remote_provider_foreground_smoke.py:394-483 | The same for a run whose process was launched |
| `ForegroundSmoke.CertifiedLogTellsTheStory` | scripts/run_remote_provider_foreground_smoke.py:84-95 | A certified log shows, in this order: URL dark, launch, healthy probe, matching payload, end without a kill, URL dark again |
| `Reranker.SortSorts` | app/reranker_provider_service.py:121-124 | The ordering is a permutation sorted by score descending, source rank, then request order |
| `Reranker.SortedPrefixIsTopK` | app/reranker_provider_service.py:121-124 | The prefix is the top k: nothing left out comes before anything kept |
| `Reranker.TopKIsUnique` | app/reranker_provider_service.py:121-124 | There is only one top k |
| `RerankerCheck.CheckItems` | scripts/run_remote_reranker_request_smoke.py:265-274 | The loop over results with its set of seen keys reports exactly the unknown, repeated and non-finite items |
| `RerankerCheck.CheckHeaders` | scripts/run_remote_reranker_request_smoke.py:245-257 | The loop over expected values reports exactly the differing fields, in order |
| `RerankerCheck.ResponseMismatches` | scripts/run_remote_reranker_request_smoke.py:239-289 | The mismatch list, part by part |
| `RerankerCheck.AcceptedExactlyWhenSound` | scripts/run_remote_reranker_request_smoke.py:239-308 | No mismatch is reported if and only if headers and metadata are as expected, ranks are 1..n, keys are known and different and scores finite |
| `RerankerLaws.MismatchesNameTheKeys` | scripts/run_remote_reranker_request_smoke.py:277-286 | An unknown key, a repeated key and a score that is not finite are reported under exactly that name and key if and only if some result (or pair) has it |
| `RerankerLaws.MismatchesNameTheFields` | scripts/run_remote_reranker_request_smoke.py:245-266 | Each of the seven header fields is named if and only if it is not as expected |
| `RerankerLaws.MismatchesNameTheRest` | scripts/run_remote_reranker_request_smoke.py:268-308 | So are the number and the ranks of the results and the three metadata fields |
| `RerankerAgreement.RerankReturnsTheTopK` | app/reranker_provider_service.py:116-147 | A successful rerank returns exactly the top min(top_k, n) of the validated candidates under their finite scores, numbered from 1 |
| `RerankerLaws.RequestIsValidExactlyWhen` | app/core/rerankers.py:176-217 | A request is valid if and only if it has 1 to 100 candidates and a top k from 1 to 100, every rank is positive, no field consists of white space and no two keys are the same once stripped |
| `RerankerLaws.RerankSucceedsExactlyWhen` | app/reranker_provider_service.py:116-124 | A rerank succeeds if and only if the request is valid for this service and the model, asked for the stripped query and texts in order, gives one finite score per text |
| `RerankerLaws.RerankReportsTheFirstError` | app/reranker_provider_service.py:116-120 | Which error is reported: the request before the profile, the profile before the model, both before the number of scores |
| `RerankerLaws.ResponseReturnsTheBestTexts` | app/reranker_provider_service.py:116-147 | For a model that scores every text by itself: a response returns min(top_k, n) candidates, each stripped, with its own rank and the score of its own text, numbered from 1; each goes before the next, and all go before every candidate left out -- higher score, then smaller source rank, then earlier place |
| `RerankerAgreement.ProviderAcceptedExactlyWhenKeysSurvive` | scripts/run_remote_reranker_request_smoke.py:263-274 | The provider's own response passes the checker if and only if every returned key is a key of the request |
| `RerankerAgreement.EveryModelIsAcceptedExactlyWhenKeysSurvive` | app/core/rerankers.py:176-217 | The response is accepted whatever the model scores if and only if every candidate key, once stripped by the validation, is still a key of the request |
| `RerankerAgreement.ProviderIsAccepted` | scripts/run_remote_reranker_request_smoke.py:239-289 | With keys that survive stripping every response of the provider is accepted |
| `RerankerAgreement.FavouriteIsReturned` | app/reranker_provider_service.py:121-124 | A candidate the model prefers is always returned |
| `RerankerAgreement.AcceptedFullResponseIsAPermutation` | scripts/run_remote_reranker_request_smoke.py:239-289 | An accepted response to a request with distinct keys and top_k >= candidate count is a permutation of the candidates |
| `RerankerPlan.PlanIsBuiltExactlyWhen` | scripts/run_remote_reranker_request_smoke.py:132-171 | A plan is built exactly when no field is blank, there are 1 to 100 texts that are not blank and top k is between 1 and 100; the built candidates never fail validation |
| `RerankerPlan.BuiltCandidates` | scripts/run_remote_reranker_request_smoke.py:324-350 | Built candidates are ranked from 1 and valid as they stand, with keys that all differ and survive stripping |
| `RerankerPlan.BuiltPlanHolds` | scripts/run_remote_reranker_request_smoke.py:132-171 | A built plan asks for the stripped query, profile, model, backend and device and the given top k; its candidates are exactly the texts that are not blank, stripped, in order, each with its place as rank |
| `RerankerPlan.EveryResponseToABuiltPlanIsAccepted` | scripts/run_remote_reranker_request_smoke.py:239-289 | Whatever the texts, top k and scores, the service's response to a built plan is accepted |
| `RerankerPlan.PaddedKeyIsRejected` | scripts/run_remote_reranker_request_smoke.py:263-267 | A concrete valid plan with the key " k" whose every response is rejected |
| `ProviderBenchmark.SendBatches` | scripts/benchmark_embedding_provider.py:154-187 | The batches, concatenated, are the pool repeated in order |
| `ProviderBenchmark.BatchReadsItsPositions` | scripts/benchmark_embedding_provider.py:186-187 | A batch holds the texts at its pool positions, in order |
| `ProviderBenchmark.PositionsGoRound` | scripts/benchmark_embedding_provider.py:186-187 | The positions that all batches read, one after the other, go round the pool |
| `ProviderBenchmark.CyclingIsFair` | scripts/benchmark_embedding_provider.py:154-187 | Among the positions that all batches read every pool position occurs floor(n/L) or ceil(n/L) times, n being the number of texts sent |
| `ProviderBenchmark.PercentileHasItsRank` | scripts/benchmark_embedding_provider.py:228-233 | The percentile is a member of the sample, fewer than rank values are below it and at least rank values are at most it |
| `ProviderBenchmark.PercentileExactlyWhen` | scripts/benchmark_embedding_provider.py:228-233 | The percentile is the one value of the sample whose rank, by count, is the larger of 1 and the nearest integer, ties to even, to percentile / 100 of the sample size |
| `ProviderBenchmark.MedianAndTail` | scripts/benchmark_embedding_provider.py:220-221 | By count: fewer than half of the times are below p50, at most half of one more than their number above it; at most 95.5 percent of a value below p95, at most 5 percent and half a value above it |
| `ProviderBenchmark.PercentilesAreMonotone` | scripts/benchmark_embedding_provider.py:220-233 | Percentiles are monotone, so p50 <= p95 |
| `CorpusBenchmark.ProvenExactlyWhenTheJobSucceeded` | scripts/run_dgx_remote_embedding_worker_e2e_smoke.py:804-826 | A result proves its target if and only if the call processed the target's own job of its own chunk, the job succeeded and its vector was found |
| `CorpusBenchmark.ResultTellsTheCall` | scripts/run_dgx_small_corpus_embedding_benchmark.py:833-888 | A result carries its call's job, status, provider and vector; it has no error if and only if it proves the target's own job, and otherwise passes on the exception or the failed job's own message |
| `CorpusBenchmark.SummaryCountsResults` | scripts/run_dgx_small_corpus_embedding_benchmark.py:897-901 | The counters of a summary are the numbers of results that were processed, succeeded, failed and have a vector |
| `CorpusBenchmark.SummaryNamesTheFirstProvider` | scripts/run_dgx_small_corpus_embedding_benchmark.py:908-915 | The provider of a summary is that of the first result with a vector or URL, none if there is no such result |
| `CorpusBenchmark.SummaryTellsErrors` | scripts/run_dgx_small_corpus_embedding_benchmark.py:916-928 | The errors of a summary are the texts of all results that have one, in order, followed by one line per shortfall of its counters |
| `CorpusBenchmark.PassesExactlyWhenEveryTargetIsProven` | scripts/run_dgx_small_corpus_embedding_benchmark.py:159-168 | A profile passes if and only if it has a target, every target has a processed, succeeded, error-free result with a vector, and the first result came from a remote provider |
| `CorpusBenchmark.PassingRunProvesEveryTarget` | scripts/run_dgx_small_corpus_embedding_benchmark.py:797-815 | In a passing run every target's own job was claimed, succeeded and left a vector |
| `CorpusBenchmark.PassingResultsMakeAPassingProfile` | scripts/run_dgx_small_corpus_embedding_benchmark.py:891-961 | If there is a target and all targets' results pass, the profile passes |
| `CorpusBenchmark.RunWorkerProfileBenchmark` | scripts/run_dgx_small_corpus_embedding_benchmark.py:783-879 | One result per target in order, cut short only by fail-fast after a result that did not pass, with the summary over exactly these; an exception of the vector lookup, which nothing catches, ends the run at the first target that meets it |
| `CorpusBenchmark.PassingProfilePassesThroughout` | scripts/run_dgx_small_corpus_embedding_benchmark.py:909-916 | In a passing run all results pass if and only if every call sent its job to a remote provider at a known URL: the verdict looks at the provider of the first result only |
| `CorpusBenchmark.PassingProfileWithFailingResult` | scripts/run_dgx_small_corpus_embedding_benchmark.py:159-168 | A concrete run -- two targets, their calls and results -- whose profile passes although its second result does not |
| `BenchmarkReport.MeasureProvider` | scripts/run_dgx_small_corpus_embedding_benchmark.py:571-585 | The loop over a provider's profiles: one summary per profile, each over its own run, cut short only by fail-fast after a profile that did not pass, and the runs flattened in order |
| `BenchmarkReport.GroupJobs` | scripts/run_dgx_small_corpus_embedding_benchmark.py:1211-1213 | The dictionary holds, for every profile, its results in order |
| `BenchmarkReport.BuildProfileInputs` | scripts/run_dgx_small_corpus_embedding_benchmark.py:1211-1252 | For every summary, its counters and verdict and the results of its profile |
| `BenchmarkReport.BuildBenchmarkInput` | scripts/run_dgx_small_corpus_embedding_benchmark.py:1203-1271 | The profile inputs of all providers in order, and the five stored totals as the sums of their fields |
| `BenchmarkReport.RegroupMultiplicity` | scripts/run_dgx_small_corpus_embedding_benchmark.py:1211-1221 | Each job result is kept once per summary of its profile |
| `BenchmarkReport.RegroupingKeepsEveryJobOnce` | scripts/run_dgx_small_corpus_embedding_benchmark.py:1211-1221 | Every job result is kept exactly once if and only if every result's profile has exactly one summary |
| `BenchmarkReport.PlannedJobsAreKeptOnce` | scripts/run_dgx_small_corpus_embedding_benchmark.py:571-583 | The measurement of a plan with different profiles always meets that: every job is kept once |
| `BenchmarkReport.RepeatedProfileKeepsJobsTwice` | scripts/run_dgx_small_corpus_embedding_benchmark.py:1211-1221 | A concrete plan that names a profile twice: regrouping its measurement keeps each job result twice |
| `BenchmarkReport.RegroupingUndoesFlattening` | scripts/run_dgx_small_corpus_embedding_benchmark.py:571-583 | Regrouping the flattened results of distinct profiles gives every profile its own run back |
| `BenchmarkReport.PersistedProfilesSpeakOfTheirJobs` | scripts/run_dgx_small_corpus_embedding_benchmark.py:1222-1252 | Every persisted profile of a measured provider carries the provider and exactly its own run; its stored counters, expected count, errors and verdict are those of the jobs stored with it |
| `BenchmarkReport.PersistedReportSpeaksOfItsJobs` | scripts/run_dgx_small_corpus_embedding_benchmark.py:1203-1252 | So does every profile of a report over many providers, stored after all profiles of the providers before its own |
| `BenchmarkReport.RegroupingKeepsTotals` | scripts/run_dgx_small_corpus_embedding_benchmark.py:1267-1271 | The stored totals over all providers and profiles are the counts over the report's own flat results, and the expected total is the number of all targets |

## Left out

- IndexRefresh.RefreshKeywordIndexes: the names listed from chunk_policies are assumed not blank and already stripped, and to be exactly the known policies in some order; the alphabetical order of that listing is not modelled.
- IndexRefresh.RunPolicies: the error messages of failed results are not modelled.
- IndexStore.IndexDatabase.InsertChunk: only the conditions on text and policy name and the foreign key to the policy are modelled, not the other chunk fields, the links between neighbouring chunks or the document table.
- IndexStore.IndexDatabase.ReplaceChunkTermsInConnection: the records read back by term order are given as the multiset of terms with their counts.
- CoverageSummary.SummarizeGroups: one summary per policy in some order; the sort by policy name is not modelled.
- CoverageSummary.BuildSummary: coverage_percent and the latest timestamps are not modelled.
- CoverageMatrix.MatrixMembers: the ORDER BY of the matrix query and the descriptive columns of documents and policies are not modelled; which documents and policies are selected is an input.
- Supervisor.RunSupervisor: a KeyboardInterrupt is modelled where the loop tests its guard -- one inside a worker cycle or a pause leaves the same report as one at the guard of that or the next round -- and a failing worker launch as an exception; the launch of the web process, the startup health wait, evidence files, PID files and messages are not modelled.
- Supervisor.RunWorkerCycle: reading the worker's output, and the time it takes, is not modelled.
- ForegroundSmoke.RunForegroundSmoke: the comparison of the health payload with the plan is one bit per probe; output tails, elapsed times and the command lines are not modelled.
- ProviderBenchmark.PercentileHasItsRank: percentile / 100 times the sample size is taken as the exact rational, not as a floating-point product.
- ProviderBenchmark.SendBatches: warm-up requests, measured times and throughput are not modelled.
- RerankerCheck.ResponseMismatches: a mismatch names its field or key; the text with the expected and the actual value is not modelled.
- CorpusBenchmark.PassesExactlyWhenEveryTargetIsProven: elapsed times and route evidence of a summary are not modelled, nor is the verdict over all providers, which is a conjunction.
- BenchmarkReport.BuildBenchmarkInput: of the persisted report only profiles, jobs and the five counters are modelled; elapsed times, payloads and identifiers are copied fields.
- RerankerPlan.PlanIsBuiltExactlyWhen: the base URL, the timeout and the provider name, which are validated besides, are not modelled.
- Reranker: scores are finite reals or not finite; conversion of a model's output to floats and elapsed times are not modelled, nor are the lexical mock and the skeleton provider.
- Tokenizer names are a closed set with one value for unsupported names; parsing the name is not modelled.
- The morphological tokenizer and the regular-expression engine themselves, PostgreSQL beyond the set meaning of the statements it runs, concurrent transactions.
- HTTP services and clients, SSH and shell commands, systemd templates, argument parsing, JSON and Markdown output, model loading: plumbing without a hard property.
- Embedding job claiming, leases and provider routes.
