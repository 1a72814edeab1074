/** Conservation laws of a refreshed slice: document frequencies, term frequencies and the
    average agree with one another and with the chunks. */
module CountingLaws {
  import opened Collections
  import opened TokenizerLaws
  import opened DecimalAverage
  import opened KeywordIndex
  import opened IndexStore
  import opened RefreshLaws

  // ---------------------------------------------------------------- double counting

  ghost function StoredDocumentFrequency(stats: StatTable, p: string, t: TokenizerName, x: string): int {
    if StatKey(p, t, x) in stats then stats[StatKey(p, t, x)].documentFrequency else 0
  }

  ghost function StoredFrequency(terms: TermTable, k: TermKey): int {
    if k in terms then terms[k].frequency else 0
  }

  lemma HoldersOfTerm(e: Engine, chunks: Chunks, ids: set<int>, t: TokenizerName, term: TermKey -> string, x: string)
    requires forall k: TermKey :: term(k) == k.term
    ensures |Fibre(TermKeys(e, chunks, ids, t), term, x)| == |Containing(e, chunks, ids, t, x)|
  {
    var keys := Fibre(TermKeys(e, chunks, ids, t), term, x);
    var holders := Containing(e, chunks, ids, t, x);
    var owner := (k: TermKey) => k.chunk;
    forall id | id in holders
      ensures exists k :: k in keys && owner(k) == id
    {
      assert TermKey(id, t, x) in keys && owner(TermKey(id, t, x)) == id;
    }
    BijectionPreservesSize(keys, holders, owner);
  }

  /** Counting (chunk, term) pairs by term: the sizes add up to the number of pairs. */
  lemma ContainingAddsUp(e: Engine, chunks: Chunks, ids: set<int>, t: TokenizerName)
    ensures SumOver(Vocabulary(e, chunks, ids, t), x => |Containing(e, chunks, ids, t, x)|)
      == |TermKeys(e, chunks, ids, t)|
  {
    var keys, terms := TermKeys(e, chunks, ids, t), Vocabulary(e, chunks, ids, t);
    var term := (k: TermKey) => k.term;
    forall x | x in terms
      ensures |Containing(e, chunks, ids, t, x)| == |Fibre(keys, term, x)|
    {
      HoldersOfTerm(e, chunks, ids, t, term, x);
    }
    forall k | k in keys
      ensures term(k) in terms
    {
      assert k.chunk in ids && k.term in ChunkTokens(e, chunks, t, k.chunk);
    }
    FibresAddUp(keys, term, terms, x => |Containing(e, chunks, ids, t, x)|);
  }

  /** Double counting over the stored rows: the document frequencies of a refreshed slice
      add up to its number of term rows, which is the number the refresh reports. */
  lemma DocumentFrequenciesAddUp(e: Engine, tb: Tables, p: string, t: TokenizerName, report: RefreshResult)
    requires Refreshable(e, tb.chunks, p, t) && IsReportOf(report, e, tb.chunks, p, t)
    ensures var after, terms := Refreshed(e, tb, p, t), Vocabulary(e, tb.chunks, PolicyIds(tb.chunks, p), t);
      && SumOver(terms, x => StoredDocumentFrequency(after.stats, p, t, x)) == |TermSlice(after.terms, p, t)|
      && |TermSlice(after.terms, p, t)| == report.termRowCount
      && |StatSlice(after.stats, p, t)| == report.statisticsRowCount
  {
    var after, ids := Refreshed(e, tb, p, t), PolicyIds(tb.chunks, p);
    var terms := Vocabulary(e, tb.chunks, ids, t);
    var stored := x => StoredDocumentFrequency(after.stats, p, t, x);
    var holders := x => |Containing(e, tb.chunks, ids, t, x)|;
    forall x | x in terms
      ensures stored(x) == holders(x)
    {
      RefreshedStatAt(e, tb, p, t, StatKey(p, t, x));
    }
    SumCongruent(terms, stored, holders);
    ContainingAddsUp(e, tb.chunks, ids, t);
    RefreshedSliceIsTheCount(e, tb, p, t);
    SliceSize(e, tb.chunks, ids, p, t);
    StatSliceSize(e, tb.chunks, p, t, PolicyAverage(e, tb.chunks, p, t).tenThousandths);
  }

  lemma StatSliceSize(e: Engine, chunks: Chunks, p: string, t: TokenizerName, average: nat)
    ensures |CountedStats(e, chunks, p, t, average)| == |Vocabulary(e, chunks, PolicyIds(chunks, p), t)|
  {
    var rows, terms := CountedStats(e, chunks, p, t, average), Vocabulary(e, chunks, PolicyIds(chunks, p), t);
    forall x | x in terms
      ensures exists k :: k in rows.Keys && k.term == x
    {
      assert StatKey(p, t, x) in rows.Keys;
    }
    BijectionPreservesSize(rows.Keys, terms, (k: StatKey) => k.term);
  }

  lemma SliceSize(e: Engine, chunks: Chunks, ids: set<int>, p: string, t: TokenizerName)
    ensures |CountedTerms(e, chunks, ids, p, t)| == |TermKeys(e, chunks, ids, t)|
  {
    assert CountedTerms(e, chunks, ids, p, t).Keys == TermKeys(e, chunks, ids, t);
  }

  /** Every stored document frequency is between one and the number of chunks. */
  lemma DocumentFrequencyInRange(e: Engine, tb: Tables, p: string, t: TokenizerName, k: StatKey)
    requires Refreshable(e, tb.chunks, p, t)
    requires k in StatSlice(Refreshed(e, tb, p, t).stats, p, t)
    ensures var row := Refreshed(e, tb, p, t).stats[k];
      1 <= row.documentFrequency <= row.corpusChunkCount == |PolicyIds(tb.chunks, p)|
  {
    RefreshedStatAt(e, tb, p, t, k);
    var ids := PolicyIds(tb.chunks, p);
    VocabularyHasHolders(e, tb.chunks, ids, t, k.term);
    SubsetSize(Containing(e, tb.chunks, ids, t, k.term), ids);
  }

  // ---------------------------------------------------------------- term frequencies

  lemma OneChunkFrequencies(e: Engine, chunks: Chunks, t: TokenizerName, id: int, count: TermKey -> int)
    requires forall k :: k in TermKeys(e, chunks, {id}, t) ==>
      count(k) == multiset(ChunkTokens(e, chunks, t, id))[k.term]
    ensures SumOver(TermKeys(e, chunks, {id}, t), count) == |ChunkTokens(e, chunks, t, id)|
  {
    var tokens := ChunkTokens(e, chunks, t, id);
    var own, terms := TermKeys(e, chunks, {id}, t), Elements(tokens);
    var term := (k: TermKey) => k.term;
    var multiplicity := x => multiset(tokens)[x];
    forall x | x in terms
      ensures exists k :: k in own && term(k) == x
    {
      assert TermKey(id, t, x) in own && term(TermKey(id, t, x)) == x;
    }
    SumReindex(own, terms, term, multiplicity, count);
    MultiplicitiesAddUp(multiset(tokens), terms);
    SumCongruent(terms, multiplicity, x => multiset(tokens)[x]);
  }

  lemma {:induction false} FrequenciesAddUpOver(e: Engine, chunks: Chunks, ids: set<int>, t: TokenizerName,
                                                count: TermKey -> int)
    requires forall k :: k in TermKeys(e, chunks, ids, t) ==>
      count(k) == multiset(ChunkTokens(e, chunks, t, k.chunk))[k.term]
    ensures SumOver(TermKeys(e, chunks, ids, t), count) == TotalLength(e, chunks, ids, t)
    decreases ids
  {
    if ids == {} {
      assert TermKeys(e, chunks, ids, t) == {};
    } else {
      var id := Pick(ids);
      var rest := ids - {id};
      var own, others := TermKeys(e, chunks, {id}, t), TermKeys(e, chunks, rest, t);
      SplitOneChunk(e, chunks, ids, t, id);
      SumUnion(own, others, count);
      OneChunkFrequencies(e, chunks, t, id, count);
      FrequenciesAddUpOver(e, chunks, rest, t, count);
    }
  }

  lemma SplitOneChunk(e: Engine, chunks: Chunks, ids: set<int>, t: TokenizerName, id: int)
    requires id in ids
    ensures var own, others := TermKeys(e, chunks, {id}, t), TermKeys(e, chunks, ids - {id}, t);
      TermKeys(e, chunks, ids, t) == own + others && own !! others
    ensures TotalLength(e, chunks, ids, t) == |ChunkTokens(e, chunks, t, id)| + TotalLength(e, chunks, ids - {id}, t)
  {
    SumTakeOut(ids, other => |ChunkTokens(e, chunks, t, other)|, id);
  }

  /** The stored term frequencies of a refreshed slice add up to the numerator of the
      average: the number of tokens of the policy. */
  lemma TermFrequenciesAddUp(e: Engine, tb: Tables, p: string, t: TokenizerName)
    requires Refreshable(e, tb.chunks, p, t)
    ensures var after, ids := Refreshed(e, tb, p, t), PolicyIds(tb.chunks, p);
      SumOver(TermKeys(e, tb.chunks, ids, t), k => StoredFrequency(after.terms, k)) == TotalLength(e, tb.chunks, ids, t)
  {
    var after, ids := Refreshed(e, tb, p, t), PolicyIds(tb.chunks, p);
    var count := k => StoredFrequency(after.terms, k);
    forall k | k in TermKeys(e, tb.chunks, ids, t)
      ensures count(k) == multiset(ChunkTokens(e, tb.chunks, t, k.chunk))[k.term]
    {
      RefreshedTermAt(e, tb, p, t, k);
    }
    FrequenciesAddUpOver(e, tb.chunks, ids, t, count);
  }

  // ---------------------------------------------------------------- the average

  lemma {:induction false} NoVocabularyNoTokens(e: Engine, chunks: Chunks, ids: set<int>, t: TokenizerName)
    requires Vocabulary(e, chunks, ids, t) == {}
    ensures TotalLength(e, chunks, ids, t) == 0
  {
    var length := id => |ChunkTokens(e, chunks, t, id)|;
    forall id | id in ids
      ensures length(id) == 0
    {
      var tokens := ChunkTokens(e, chunks, t, id);
      assert forall x :: x in tokens ==> x in Vocabulary(e, chunks, ids, t);
      HasElement(tokens);
    }
    SumBetween(ids, length, 0, 0);
  }

  /** Whenever a refresh commits, the average it computes is the exact quotient correctly
      rounded to four places, ties to even: the column types rule out the sizes at which
      the two roundings could differ. */
  lemma RefreshedAverageIsCorrectlyRounded(e: Engine, chunks: Chunks, p: string, t: TokenizerName)
    requires Refreshable(e, chunks, p, t)
    ensures var ids := PolicyIds(chunks, p);
      PolicyAverage(e, chunks, p, t) ==
        if ids == {} then Value(0)
        else Value(RoundHalfEven(10_000 * TotalLength(e, chunks, ids, t), |ids|))
  {
    var ids := PolicyIds(chunks, p);
    if ids != {} {
      var total := TotalLength(e, chunks, ids, t);
      if Vocabulary(e, chunks, ids, t) == {} {
        NoVocabularyNoTokens(e, chunks, ids, t);
      } else {
        SmallAverageSmallTotal(total, |ids|, PolicyAverage(e, chunks, p, t).tenThousandths);
      }
      AverageIsCorrectlyRounded(total, |ids|);
    }
  }

  /** What the report of a committed refresh says about the tables it leaves: the sizes of
      the slice, the number of the policy's chunks, and the average that every statistics row
      stores, correctly rounded. */
  lemma ReportTellsTheSlice(e: Engine, tb: Tables, p: string, t: TokenizerName, report: RefreshResult)
    requires Refreshable(e, tb.chunks, p, t) && IsReportOf(report, e, tb.chunks, p, t)
    ensures report.policy == p && report.tokenizer == t
    ensures var after, ids := Refreshed(e, tb, p, t), set id | id in tb.chunks && tb.chunks[id].policy == p;
      && report.chunkCount == |ids|
      && report.termRowCount == |TermSlice(after.terms, p, t)|
      && report.statisticsRowCount == |StatSlice(after.stats, p, t)|
      && (ids != {} ==> IsNearestEven(10_000 * TotalLength(e, tb.chunks, ids, t), |ids|, report.averageLength))
      && (ids == {} ==> report.averageLength == 0)
      && forall k :: k in StatSlice(after.stats, p, t) ==>
           && after.stats[k].corpusChunkCount == report.chunkCount
           && after.stats[k].averageLength == report.averageLength
  {
    var after := Refreshed(e, tb, p, t);
    assert (set id | id in tb.chunks && tb.chunks[id].policy == p) == PolicyIds(tb.chunks, p);
    DocumentFrequenciesAddUp(e, tb, p, t, report);
    StoredStatisticsAgree(e, tb, p, t);
    ReportedAverage(e, tb.chunks, p, t, report.averageLength);
  }

  lemma StoredStatisticsAgree(e: Engine, tb: Tables, p: string, t: TokenizerName)
    requires Refreshable(e, tb.chunks, p, t)
    ensures var after := Refreshed(e, tb, p, t);
      forall k :: k in StatSlice(after.stats, p, t) ==>
        && after.stats[k].corpusChunkCount == |PolicyIds(tb.chunks, p)|
        && after.stats[k].averageLength == PolicyAverage(e, tb.chunks, p, t).tenThousandths
  {
    forall k | k in StatSlice(Refreshed(e, tb, p, t).stats, p, t)
      ensures Refreshed(e, tb, p, t).stats[k].corpusChunkCount == |PolicyIds(tb.chunks, p)|
      ensures Refreshed(e, tb, p, t).stats[k].averageLength == PolicyAverage(e, tb.chunks, p, t).tenThousandths
    {
      RefreshedStatAt(e, tb, p, t, k);
    }
  }

  lemma ReportedAverage(e: Engine, chunks: Chunks, p: string, t: TokenizerName, average: nat)
    requires Refreshable(e, chunks, p, t) && PolicyAverage(e, chunks, p, t) == Value(average)
    ensures var ids := PolicyIds(chunks, p);
      && (ids != {} ==> IsNearestEven(10_000 * TotalLength(e, chunks, ids, t), |ids|, average))
      && (ids == {} ==> average == 0)
  {
    var ids := PolicyIds(chunks, p);
    if ids != {} {
      RefreshedAverageIsCorrectlyRounded(e, chunks, p, t);
      RoundHalfEvenIsCorrectRounding(10_000 * TotalLength(e, chunks, ids, t), |ids|, average);
    }
  }

  lemma TenThousandTimes(a: nat, n: nat)
    ensures (10_000 * a) * n == 10_000 * (a * n)
  {
  }

  /** The stored average lies between the shortest and the longest chunk. */
  lemma AverageBetweenShortestAndLongest(e: Engine, chunks: Chunks, p: string, t: TokenizerName, low: nat, high: nat)
    requires Refreshable(e, chunks, p, t) && PolicyIds(chunks, p) != {}
    requires forall id :: id in PolicyIds(chunks, p) ==> low <= |ChunkTokens(e, chunks, t, id)| <= high
    ensures 10_000 * low <= PolicyAverage(e, chunks, p, t).tenThousandths <= 10_000 * high
  {
    var ids := PolicyIds(chunks, p);
    RefreshedAverageIsCorrectlyRounded(e, chunks, p, t);
    SumBetween(ids, id => |ChunkTokens(e, chunks, t, id)|, low, high);
    var total, n := TotalLength(e, chunks, ids, t), |ids|;
    TenThousandTimes(low, n);
    TenThousandTimes(high, n);
    RoundHalfEvenBetween(10_000 * total, n, 10_000 * low, 10_000 * high);
  }

  // ---------------------------------------------------------------- comparing tokenizers

  /** Tokenizing the same policy with both built-in tokenizers: the same chunks yield no
      token, every count and document frequency under the n-gram tokenizer is at least that
      under the word tokenizer, and so is the average. */
  lemma KoreanIndexDominatesWordIndex(e: Engine, tb: Tables, p: string)
    requires Refreshable(e, tb.chunks, p, UnicodeWord) && Refreshable(e, tb.chunks, p, KoreanNgram)
    ensures var ids := PolicyIds(tb.chunks, p);
      && (forall id :: id in ids ==>
            (ChunkTokens(e, tb.chunks, UnicodeWord, id) == [] <==> ChunkTokens(e, tb.chunks, KoreanNgram, id) == []))
      && (forall id, x :: id in ids ==>
            multiset(ChunkTokens(e, tb.chunks, UnicodeWord, id))[x]
              <= multiset(ChunkTokens(e, tb.chunks, KoreanNgram, id))[x])
      && (forall x ::
            |Containing(e, tb.chunks, ids, UnicodeWord, x)| <= |Containing(e, tb.chunks, ids, KoreanNgram, x)|)
    ensures PolicyAverage(e, tb.chunks, p, UnicodeWord).tenThousandths
      <= PolicyAverage(e, tb.chunks, p, KoreanNgram).tenThousandths
  {
    var ids := PolicyIds(tb.chunks, p);
    forall id | id in ids
      ensures ChunkTokens(e, tb.chunks, UnicodeWord, id) == [] <==> ChunkTokens(e, tb.chunks, KoreanNgram, id) == []
      ensures multiset(ChunkTokens(e, tb.chunks, UnicodeWord, id))
        <= multiset(ChunkTokens(e, tb.chunks, KoreanNgram, id))
      ensures |ChunkTokens(e, tb.chunks, UnicodeWord, id)| <= |ChunkTokens(e, tb.chunks, KoreanNgram, id)|
    {
      KoreanTokensDominateWords(e.alphabet, tb.chunks[id].text);
    }
    forall x
      ensures |Containing(e, tb.chunks, ids, UnicodeWord, x)| <= |Containing(e, tb.chunks, ids, KoreanNgram, x)|
    {
      HoldersDominate(e, tb.chunks, ids, x);
    }
    if ids != {} {
      AveragesOrdered(e, tb.chunks, p);
    }
  }

  lemma HoldersDominate(e: Engine, chunks: Chunks, ids: set<int>, x: string)
    requires forall id :: id in ids ==>
      multiset(ChunkTokens(e, chunks, UnicodeWord, id)) <= multiset(ChunkTokens(e, chunks, KoreanNgram, id))
    ensures |Containing(e, chunks, ids, UnicodeWord, x)| <= |Containing(e, chunks, ids, KoreanNgram, x)|
  {
    var few, many := Containing(e, chunks, ids, UnicodeWord, x), Containing(e, chunks, ids, KoreanNgram, x);
    forall id | id in few
      ensures id in many
    {
      assert x in multiset(ChunkTokens(e, chunks, UnicodeWord, id));
      assert x in multiset(ChunkTokens(e, chunks, KoreanNgram, id));
    }
    SubsetSize(few, many);
  }

  lemma AveragesOrdered(e: Engine, chunks: Chunks, p: string)
    requires Refreshable(e, chunks, p, UnicodeWord) && Refreshable(e, chunks, p, KoreanNgram)
    requires PolicyIds(chunks, p) != {}
    requires forall id :: id in PolicyIds(chunks, p) ==>
      |ChunkTokens(e, chunks, UnicodeWord, id)| <= |ChunkTokens(e, chunks, KoreanNgram, id)|
    ensures PolicyAverage(e, chunks, p, UnicodeWord).tenThousandths
      <= PolicyAverage(e, chunks, p, KoreanNgram).tenThousandths
  {
    var ids := PolicyIds(chunks, p);
    SumMonotone(ids, id => |ChunkTokens(e, chunks, UnicodeWord, id)|, id => |ChunkTokens(e, chunks, KoreanNgram, id)|);
    RefreshedAverageIsCorrectlyRounded(e, chunks, p, UnicodeWord);
    RefreshedAverageIsCorrectlyRounded(e, chunks, p, KoreanNgram);
    RoundHalfEvenMonotone(10_000 * TotalLength(e, chunks, ids, UnicodeWord),
      10_000 * TotalLength(e, chunks, ids, KoreanNgram), |ids|);
  }
}
