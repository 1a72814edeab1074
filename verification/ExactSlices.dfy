/** Tables in which a slice is exactly the from-scratch count: what such a slice stores, what
    its coverage shows, how the two built-in tokenizers compare, and when a status that is
    not stale certifies one. */
module ExactSlices {
  import opened Collections
  import opened TokenizerLaws
  import opened KeywordIndex
  import opened RefreshLaws
  import opened RefreshOrder
  import opened CountingLaws
  import opened IndexStore
  import opened Coverage
  import opened CoverageRuns

  // ---------------------------------------------------------------- the two tokenizers, as stored

  lemma SameEmptyChunks(e: Engine, chunks: Chunks, id: int)
    requires id in chunks
    ensures ChunkTokens(e, chunks, UnicodeWord, id) == [] <==> ChunkTokens(e, chunks, KoreanNgram, id) == []
  {
    KoreanTokensDominateWords(e.alphabet, chunks[id].text);
  }

  /** Over slices that are exact for both built-in tokenizers the indexed chunks of a cell
      are the same if and only if its chunks without tokens have foreign rows under both
      tokenizers or under neither. */
  lemma SameIndexedExactlyWhen(e: Engine, tb: Tables, p: string, d: int)
    requires SliceExact(e, tb, p, UnicodeWord) && SliceExact(e, tb, p, KoreanNgram)
    ensures IndexedIds(tb, d, p, UnicodeWord) == IndexedIds(tb, d, p, KoreanNgram) <==>
      forall id :: id in CellIds(tb.chunks, d, p) && ChunkTokens(e, tb.chunks, UnicodeWord, id) == [] ==>
        (Foreign(tb, p, UnicodeWord, id) <==> Foreign(tb, p, KoreanNgram, id))
  {
    var ids := CellIds(tb.chunks, d, p);
    ExactIndexedIds(e, tb, p, UnicodeWord, d);
    ExactIndexedIds(e, tb, p, KoreanNgram, d);
    forall id | id in ids
      ensures (Covers(e, tb, p, UnicodeWord, id) <==> Covers(e, tb, p, KoreanNgram, id)) <==>
        (ChunkTokens(e, tb.chunks, UnicodeWord, id) == [] ==>
          (Foreign(tb, p, UnicodeWord, id) <==> Foreign(tb, p, KoreanNgram, id)))
    {
      SameEmptyChunks(e, tb.chunks, id);
    }
    SameCovered(e, tb, p, UnicodeWord, KoreanNgram, ids);
  }

  lemma SameCovered(e: Engine, tb: Tables, p: string, t: TokenizerName, u: TokenizerName, ids: set<int>)
    ensures Covered(e, tb, p, t, ids) == Covered(e, tb, p, u, ids)
      <==> forall id :: id in ids ==> (Covers(e, tb, p, t, id) <==> Covers(e, tb, p, u, id))
  {
    var a, b := Covered(e, tb, p, t, ids), Covered(e, tb, p, u, ids);
    assert forall id :: id in a <==> id in ids && Covers(e, tb, p, t, id);
    assert forall id :: id in b <==> id in ids && Covers(e, tb, p, u, id);
  }

  /** Over filed tables, where nothing is foreign, every cell has the same indexed chunks and
      the same status under both tokenizers. */
  lemma BothTokenizersCoverTheSame(e: Engine, tb: Tables, p: string, d: int)
    requires Filed(tb) && SliceExact(e, tb, p, UnicodeWord) && SliceExact(e, tb, p, KoreanNgram)
    ensures IndexedIds(tb, d, p, UnicodeWord) == IndexedIds(tb, d, p, KoreanNgram)
    ensures Cell(tb, d, p, UnicodeWord) == Cell(tb, d, p, KoreanNgram)
  {
    SameIndexedExactlyWhen(e, tb, p, d);
    ExactIndexedIds(e, tb, p, UnicodeWord, d);
    ExactIndexedIds(e, tb, p, KoreanNgram, d);
    ExactCell(e, tb, p, UnicodeWord, d);
    ExactCell(e, tb, p, KoreanNgram, d);
    SameEmptyVocabulary(e, tb.chunks, p);
  }

  lemma SameEmptyVocabulary(e: Engine, chunks: Chunks, p: string)
    ensures var ids := PolicyIds(chunks, p);
      Vocabulary(e, chunks, ids, UnicodeWord) == {} <==> Vocabulary(e, chunks, ids, KoreanNgram) == {}
  {
    var ids := PolicyIds(chunks, p);
    forall id | id in ids
      ensures ChunkTokens(e, chunks, UnicodeWord, id) == [] <==> ChunkTokens(e, chunks, KoreanNgram, id) == []
    {
      SameEmptyChunks(e, chunks, id);
    }
    NoVocabulary(e, chunks, ids, UnicodeWord);
    NoVocabulary(e, chunks, ids, KoreanNgram);
  }

  lemma NoVocabulary(e: Engine, chunks: Chunks, ids: set<int>, t: TokenizerName)
    ensures Vocabulary(e, chunks, ids, t) == {} <==> forall id :: id in ids ==> ChunkTokens(e, chunks, t, id) == []
  {
    if id :| id in ids && ChunkTokens(e, chunks, t, id) != [] { TokensMakeVocabulary(e, chunks, ids, t, id); }
    if x :| x in Vocabulary(e, chunks, ids, t) {
      var id :| id in ids && x in ChunkTokens(e, chunks, t, id);
    }
  }

  /** Every stored word row has an n-gram row at least as frequent. */
  lemma StoredFrequenciesDominate(e: Engine, tb: Tables, p: string, id: int, x: string)
    requires SliceExact(e, tb, p, UnicodeWord) && SliceExact(e, tb, p, KoreanNgram)
    requires id in PolicyIds(tb.chunks, p) && TermKey(id, UnicodeWord, x) in TermSlice(tb.terms, p, UnicodeWord)
    ensures TermKey(id, KoreanNgram, x) in TermSlice(tb.terms, p, KoreanNgram)
    ensures tb.terms[TermKey(id, UnicodeWord, x)].frequency <= tb.terms[TermKey(id, KoreanNgram, x)].frequency
  {
    ExactTermAt(e, tb, p, UnicodeWord, id, x);
    ExactTermAt(e, tb, p, KoreanNgram, id, x);
    KoreanTokensDominateWords(e.alphabet, tb.chunks[id].text);
    assert x in multiset(ChunkTokens(e, tb.chunks, UnicodeWord, id));
    assert x in multiset(ChunkTokens(e, tb.chunks, KoreanNgram, id));
  }

  /** Every stored word statistic has an n-gram statistic with at least its document
      frequency and average, over the same number of chunks. */
  lemma StoredStatisticsDominate(e: Engine, tb: Tables, p: string, x: string)
    requires SliceExact(e, tb, p, UnicodeWord) && SliceExact(e, tb, p, KoreanNgram)
    requires Refreshable(e, tb.chunks, p, UnicodeWord) && Refreshable(e, tb.chunks, p, KoreanNgram)
    requires StatKey(p, UnicodeWord, x) in tb.stats
    ensures StatKey(p, KoreanNgram, x) in tb.stats
    ensures var word, gram := tb.stats[StatKey(p, UnicodeWord, x)], tb.stats[StatKey(p, KoreanNgram, x)];
      && word.documentFrequency <= gram.documentFrequency
      && word.corpusChunkCount == gram.corpusChunkCount
      && word.averageLength <= gram.averageLength
  {
    var ids := PolicyIds(tb.chunks, p);
    ExactStatAt(e, tb, p, UnicodeWord, x);
    ExactStatAt(e, tb, p, KoreanNgram, x);
    KoreanIndexDominatesWordIndex(e, tb, p);
    VocabularyHasHolders(e, tb.chunks, ids, UnicodeWord, x);
    VocabularyHasHolders(e, tb.chunks, ids, KoreanNgram, x);
  }

  /** Refreshing with both built-in tokenizers makes both slices exact. */
  lemma BothRefreshed(e: Engine, tb: Tables, p: string) returns (now: Tables)
    requires Refreshable(e, tb.chunks, p, UnicodeWord) && Refreshable(e, tb.chunks, p, KoreanNgram)
    ensures now == Refreshed(e, Refreshed(e, tb, p, UnicodeWord), p, KoreanNgram)
    ensures now.chunks == tb.chunks && (WellFormed(tb) && Filed(tb) ==> Filed(now))
    ensures SliceExact(e, now, p, UnicodeWord) && SliceExact(e, now, p, KoreanNgram)
  {
    var word := Refreshed(e, tb, p, UnicodeWord);
    RefreshedSliceIsExact(e, tb, p, UnicodeWord);
    now := Refreshed(e, word, p, KoreanNgram);
    RefreshedSliceIsExact(e, word, p, KoreanNgram);
    ExactStaysExact(e, word, p, KoreanNgram, p, UnicodeWord);
    if WellFormed(tb) && Filed(tb) {
      RefreshKeepsInvariants(e, tb, p, UnicodeWord);
      RefreshKeepsInvariants(e, word, p, KoreanNgram);
    }
  }

  /** What the stored index of a policy refreshed with both tokenizers shows: every word
      count at most its n-gram counterpart and, over filed tables, the same coverage. */
  lemma KoreanRefreshCoversWordRefresh(e: Engine, tb: Tables, p: string) returns (now: Tables)
    requires Refreshable(e, tb.chunks, p, UnicodeWord) && Refreshable(e, tb.chunks, p, KoreanNgram)
    ensures now == Refreshed(e, Refreshed(e, tb, p, UnicodeWord), p, KoreanNgram)
    ensures forall id, x ::
      id in PolicyIds(now.chunks, p) && TermKey(id, UnicodeWord, x) in TermSlice(now.terms, p, UnicodeWord) ==>
        StoredFrequency(now.terms, TermKey(id, UnicodeWord, x))
          <= StoredFrequency(now.terms, TermKey(id, KoreanNgram, x))
    ensures forall x :: StatKey(p, UnicodeWord, x) in now.stats ==>
      StoredDocumentFrequency(now.stats, p, UnicodeWord, x) <= StoredDocumentFrequency(now.stats, p, KoreanNgram, x)
    ensures WellFormed(tb) && Filed(tb) ==> forall d ::
      && IndexedIds(now, d, p, UnicodeWord) == IndexedIds(now, d, p, KoreanNgram)
      && Cell(now, d, p, UnicodeWord) == Cell(now, d, p, KoreanNgram)
  {
    now := BothRefreshed(e, tb, p);
    forall id, x | id in PolicyIds(now.chunks, p) && TermKey(id, UnicodeWord, x) in TermSlice(now.terms, p, UnicodeWord)
      ensures StoredFrequency(now.terms, TermKey(id, UnicodeWord, x))
           <= StoredFrequency(now.terms, TermKey(id, KoreanNgram, x))
    {
      StoredFrequenciesDominate(e, now, p, id, x);
    }
    forall x | StatKey(p, UnicodeWord, x) in now.stats
      ensures StoredDocumentFrequency(now.stats, p, UnicodeWord, x)
           <= StoredDocumentFrequency(now.stats, p, KoreanNgram, x)
    {
      StoredStatisticsDominate(e, now, p, x);
    }
    if WellFormed(tb) && Filed(tb) { BothCoveredEverywhere(e, now, p); }
  }

  lemma BothCoveredEverywhere(e: Engine, tb: Tables, p: string)
    requires Filed(tb) && SliceExact(e, tb, p, UnicodeWord) && SliceExact(e, tb, p, KoreanNgram)
    ensures forall d ::
      && IndexedIds(tb, d, p, UnicodeWord) == IndexedIds(tb, d, p, KoreanNgram)
      && Cell(tb, d, p, UnicodeWord) == Cell(tb, d, p, KoreanNgram)
  {
    forall d
      ensures IndexedIds(tb, d, p, UnicodeWord) == IndexedIds(tb, d, p, KoreanNgram)
      ensures Cell(tb, d, p, UnicodeWord) == Cell(tb, d, p, KoreanNgram)
    {
      BothTokenizersCoverTheSame(e, tb, p, d);
    }
  }

  // ---------------------------------------------------------------- what a status certifies

  /** The run leaves the slice of p and t, with its chunks ids, to itself. */
  ghost predicate LeavesSlice(e: Engine, tb: Tables, ops: seq<Operation>, ids: set<int>, p: string, t: TokenizerName)
    decreases |ops|
  {
    ops == []
    || (LeavesSliceOnce(e, tb, ops[0], ids, p, t) && LeavesSlice(e, Apply(e, tb, ops[0]), ops[1..], ids, p, t))
  }

  /** No refresh of the slice, no delete of one of its chunks ids -- other chunks of the
      policy may come and go -- and rewrites under t only as a refresh would write them: rows
      filed under p are for chunks of p, and chunks of p keep their own text and policy. */
  ghost predicate LeavesSliceOnce(e: Engine, tb: Tables, op: Operation, ids: set<int>, p: string, t: TokenizerName) {
    match op
    case Insert(_, _) => true
    case DeleteChunks(d, q) => q == p ==> forall id :: id in ids && id in tb.chunks ==> tb.chunks[id].document != d
    case Rewrite(id, q, text, u) =>
      u == t && Writable(e, tb, id, q, text, t) ==>
        && (id in PolicyIds(tb.chunks, p) ==> text == tb.chunks[id].text && (Tokens(e, t, text) == [] || q == p))
        && (q == p ==> Tokens(e, t, text) == [] || id in PolicyIds(tb.chunks, p))
    case Refresh(q, u) => q != p || u != t
  }

  /** The rows of one chunk in the slice are its counted tokens. */
  ghost predicate RowsExact(e: Engine, tb: Tables, id: int, p: string, t: TokenizerName) {
    && id in PolicyIds(tb.chunks, p)
    && forall x :: RowExactAt(e, tb, id, p, t, x)
  }

  ghost predicate RowExactAt(e: Engine, tb: Tables, id: int, p: string, t: TokenizerName, x: string) {
    var k, tokens := TermKey(id, t, x), ChunkTokens(e, tb.chunks, t, id);
    && (k in TermSlice(tb.terms, p, t) <==> x in tokens)
    && (x in tokens ==> tb.terms[k] == TermRow(p, multiset(tokens)[x]))
  }

  /** Every row of the slice is for a chunk of the policy. */
  ghost predicate NoStrays(tb: Tables, p: string, t: TokenizerName) {
    forall k :: k in TermSlice(tb.terms, p, t) ==> k.chunk in PolicyIds(tb.chunks, p)
  }

  lemma RefreshLeavesRow(e: Engine, tb: Tables, q: string, u: TokenizerName, id: int, p: string, t: TokenizerName,
                         x: string)
    requires Refreshable(e, tb.chunks, q, u) && (q != p || u != t)
    requires id in PolicyIds(tb.chunks, p) && RowExactAt(e, tb, id, p, t, x)
    ensures RowExactAt(e, Refreshed(e, tb, q, u), id, p, t, x)
  {
    RefreshedTermAt(e, tb, q, u, TermKey(id, t, x));
  }

  lemma RewriteLeavesRow(e: Engine, tb: Tables, op: Operation, ids: set<int>, id: int, p: string, t: TokenizerName,
                         x: string)
    requires op.Rewrite? && Writable(e, tb, op.id, op.policy, op.text, op.tokenizer)
    requires LeavesSliceOnce(e, tb, op, ids, p, t)
    requires id in PolicyIds(tb.chunks, p) && RowExactAt(e, tb, id, p, t, x)
    ensures RowExactAt(e, Apply(e, tb, op), id, p, t, x)
  {
    WrittenAt(tb.terms, op.id, op.policy, op.tokenizer, Tokens(e, op.tokenizer, op.text), TermKey(id, t, x));
  }

  /** One operation that leaves the slice keeps every exact chunk exact, text and all. */
  lemma StepLeavesRows(e: Engine, tb: Tables, op: Operation, ids: set<int>, id: int, p: string, t: TokenizerName)
    requires id in ids && RowsExact(e, tb, id, p, t) && LeavesSliceOnce(e, tb, op, ids, p, t)
    ensures RowsExact(e, Apply(e, tb, op), id, p, t) && Apply(e, tb, op).chunks[id] == tb.chunks[id]
  {
    forall x
      ensures RowExactAt(e, Apply(e, tb, op), id, p, t, x)
    {
      assert RowExactAt(e, tb, id, p, t, x);
      match op
      case Insert(_, _) =>
      case DeleteChunks(_, _) =>
      case Rewrite(i, q, text, u) =>
        if Writable(e, tb, i, q, text, u) { RewriteLeavesRow(e, tb, op, ids, id, p, t, x); }
      case Refresh(q, u) =>
        if q != "" && !u.Unsupported? && Refreshable(e, tb.chunks, q, u) {
          CommittedRefresh(e, tb, q, u);
          RefreshLeavesRow(e, tb, q, u, id, p, t, x);
        }
    }
  }

  lemma StepMakesNoStrays(e: Engine, tb: Tables, op: Operation, ids: set<int>, p: string, t: TokenizerName)
    requires NoStrays(tb, p, t) && LeavesSliceOnce(e, tb, op, ids, p, t)
    ensures NoStrays(Apply(e, tb, op), p, t)
  {
    forall k | k in TermSlice(Apply(e, tb, op).terms, p, t)
      ensures k.chunk in PolicyIds(Apply(e, tb, op).chunks, p)
    {
      match op
      case Insert(_, _) => assert k in TermSlice(tb.terms, p, t);
      case DeleteChunks(_, _) => assert k in TermSlice(tb.terms, p, t);
      case Rewrite(i, q, text, u) => RewriteMakesNoStray(e, tb, op, ids, p, t, k);
      case Refresh(q, u) => RefreshMakesNoStray(e, tb, q, u, p, t, k);
    }
  }

  lemma RewriteMakesNoStray(e: Engine, tb: Tables, op: Operation, ids: set<int>, p: string, t: TokenizerName,
                            k: TermKey)
    requires op.Rewrite? && NoStrays(tb, p, t) && LeavesSliceOnce(e, tb, op, ids, p, t)
    requires k in TermSlice(Apply(e, tb, op).terms, p, t)
    ensures k.chunk in PolicyIds(tb.chunks, p)
  {
    var tokens := Tokens(e, op.tokenizer, op.text);
    WrittenAt(tb.terms, op.id, op.policy, op.tokenizer, tokens, k);
    if !(Writable(e, tb, op.id, op.policy, op.text, op.tokenizer) && k.chunk == op.id && op.tokenizer == t) {
      assert k in TermSlice(tb.terms, p, t);
    }
  }

  lemma RefreshMakesNoStray(e: Engine, tb: Tables, q: string, u: TokenizerName, p: string, t: TokenizerName, k: TermKey)
    requires NoStrays(tb, p, t) && (q != p || u != t)
    requires k in TermSlice(Apply(e, tb, Refresh(q, u)).terms, p, t)
    ensures k.chunk in PolicyIds(tb.chunks, p)
  {
    if q != "" && !u.Unsupported? && Refreshable(e, tb.chunks, q, u) {
      CommittedRefresh(e, tb, q, u);
      OtherSliceRow(e, tb, q, u, p, t, k);
    }
    assert k in TermSlice(tb.terms, p, t);
  }

  lemma {:induction false} RunLeavesRows(e: Engine, tb: Tables, ops: seq<Operation>, ids: set<int>, id: int, p: string,
                                         t: TokenizerName)
    requires id in ids && RowsExact(e, tb, id, p, t) && LeavesSlice(e, tb, ops, ids, p, t)
    ensures RowsExact(e, Run(e, tb, ops), id, p, t) && Run(e, tb, ops).chunks[id] == tb.chunks[id]
    decreases |ops|
  {
    if ops != [] {
      StepLeavesRows(e, tb, ops[0], ids, id, p, t);
      RunLeavesRows(e, Apply(e, tb, ops[0]), ops[1..], ids, id, p, t);
    }
  }

  lemma {:induction false} RunMakesNoStrays(e: Engine, tb: Tables, ops: seq<Operation>, ids: set<int>, p: string,
                                            t: TokenizerName)
    requires NoStrays(tb, p, t) && LeavesSlice(e, tb, ops, ids, p, t)
    ensures NoStrays(Run(e, tb, ops), p, t)
    decreases |ops|
  {
    if ops != [] {
      StepMakesNoStrays(e, tb, ops[0], ids, p, t);
      RunMakesNoStrays(e, Apply(e, tb, ops[0]), ops[1..], ids, p, t);
    }
  }

  lemma {:induction false} LeavingRunNeverRefreshes(e: Engine, tb: Tables, ops: seq<Operation>, ids: set<int>,
                                                    p: string,
                                                    t: TokenizerName)
    requires LeavesSlice(e, tb, ops, ids, p, t)
    ensures NeverRefreshes(ops, p, t)
    decreases |ops|
  {
    if ops != [] {
      LeavingRunNeverRefreshes(e, Apply(e, tb, ops[0]), ops[1..], ids, p, t);
      assert ops == [ops[0]] + ops[1..];
    }
  }

  /** Exact chunk by chunk and without strays is exact as a slice. */
  lemma ExactRowsMakeTheTermSlice(e: Engine, tb: Tables, p: string, t: TokenizerName)
    requires NoStrays(tb, p, t) && forall id :: id in PolicyIds(tb.chunks, p) ==> RowsExact(e, tb, id, p, t)
    ensures TermSlice(tb.terms, p, t) == CountedTerms(e, tb.chunks, PolicyIds(tb.chunks, p), p, t)
  {
    var ids := PolicyIds(tb.chunks, p);
    var slice, counted := TermSlice(tb.terms, p, t), CountedTerms(e, tb.chunks, ids, p, t);
    forall k: TermKey
      ensures k in slice <==> k in counted
      ensures k in slice ==> slice[k] == counted[k]
    {
      if k.chunk in ids && k.tokenizer == t {
        assert RowExactAt(e, tb, k.chunk, p, t, k.term);
        assert k == TermKey(k.chunk, t, k.term);
      }
    }
    SameTable(slice, counted);
  }

  /** The counts depend on the policy's chunks only. */
  lemma SameChunksSameCounts(e: Engine, chunks: Chunks, other: Chunks, p: string, t: TokenizerName, average: nat)
    requires PolicyIds(chunks, p) == PolicyIds(other, p)
    requires forall id :: id in PolicyIds(chunks, p) ==> chunks[id] == other[id]
    ensures PolicyAverage(e, chunks, p, t) == PolicyAverage(e, other, p, t)
    ensures CountedStats(e, chunks, p, t, average) == CountedStats(e, other, p, t, average)
  {
    var ids := PolicyIds(chunks, p);
    SumCongruent(ids, id => |ChunkTokens(e, chunks, t, id)|, id => |ChunkTokens(e, other, t, id)|);
    var a, b := CountedStats(e, chunks, p, t, average), CountedStats(e, other, p, t, average);
    forall k: StatKey
      ensures k in a <==> k in b
      ensures k in a ==> a[k] == b[k]
    {
      CountedStatAt(e, chunks, p, t, average, k);
      CountedStatAt(e, other, p, t, average, k);
      assert Containing(e, chunks, ids, t, k.term) == Containing(e, other, ids, t, k.term);
      VocabularyHasHolders(e, chunks, ids, t, k.term);
      VocabularyHasHolders(e, other, ids, t, k.term);
    }
    SameTable(a, b);
  }

  /** An exact slice is exact chunk by chunk. */
  lemma ExactSliceHasExactRows(e: Engine, tb: Tables, p: string, t: TokenizerName, id: int)
    requires SliceExact(e, tb, p, t)
    ensures NoStrays(tb, p, t)
    ensures id in PolicyIds(tb.chunks, p) ==> RowsExact(e, tb, id, p, t)
  {
    forall k | k in TermSlice(tb.terms, p, t)
      ensures k.chunk in PolicyIds(tb.chunks, p)
    {
      assert k in TermKeys(e, tb.chunks, PolicyIds(tb.chunks, p), t);
    }
    if id in PolicyIds(tb.chunks, p) {
      forall x
        ensures RowExactAt(e, tb, id, p, t, x)
      {
        ExactTermAt(e, tb, p, t, id, x);
      }
    }
  }

  /** Throughout such a run the chunks of the refresh are still there, unchanged and exact. */
  lemma RefreshedChunksStay(e: Engine, tb: Tables, ops: seq<Operation>, p: string, t: TokenizerName, id: int)
    requires Refreshable(e, tb.chunks, p, t) && id in PolicyIds(tb.chunks, p)
    requires LeavesSlice(e, Refreshed(e, tb, p, t), ops, PolicyIds(tb.chunks, p), p, t)
    ensures var now := Run(e, Refreshed(e, tb, p, t), ops);
      RowsExact(e, now, id, p, t) && now.chunks[id] == tb.chunks[id]
  {
    var after := Refreshed(e, tb, p, t);
    RefreshedSliceIsExact(e, tb, p, t);
    ExactSliceHasExactRows(e, after, p, t, id);
    RunLeavesRows(e, after, ops, PolicyIds(tb.chunks, p), id, p, t);
  }

  /** As long as the policy's chunks are those of the refresh, the slice is the exact count,
      whatever came and went in between. */
  lemma UnchangedChunksStayExact(e: Engine, tb: Tables, ops: seq<Operation>, p: string, t: TokenizerName)
    requires Refreshable(e, tb.chunks, p, t)
    requires LeavesSlice(e, Refreshed(e, tb, p, t), ops, PolicyIds(tb.chunks, p), p, t)
    requires PolicyIds(Run(e, Refreshed(e, tb, p, t), ops).chunks, p) == PolicyIds(tb.chunks, p)
    ensures SliceExact(e, Run(e, Refreshed(e, tb, p, t), ops), p, t)
  {
    var after, ids := Refreshed(e, tb, p, t), PolicyIds(tb.chunks, p);
    var now := Run(e, after, ops);
    forall id | id in ids
      ensures RowsExact(e, now, id, p, t) && now.chunks[id] == tb.chunks[id]
    {
      RefreshedChunksStay(e, tb, ops, p, t, id);
    }
    RefreshedTermsHaveNoStrays(e, tb, ops, p, t);
    ExactRowsMakeTheTermSlice(e, now, p, t);
    RefreshedStatisticsStay(e, tb, ops, p, t);
    SameChunksSameCounts(e, tb.chunks, now.chunks, p, t, PolicyAverage(e, tb.chunks, p, t).tenThousandths);
  }

  lemma RefreshedTermsHaveNoStrays(e: Engine, tb: Tables, ops: seq<Operation>, p: string, t: TokenizerName)
    requires Refreshable(e, tb.chunks, p, t)
    requires LeavesSlice(e, Refreshed(e, tb, p, t), ops, PolicyIds(tb.chunks, p), p, t)
    ensures NoStrays(Run(e, Refreshed(e, tb, p, t), ops), p, t)
  {
    RefreshedSliceIsExact(e, tb, p, t);
    ExactSliceHasExactRows(e, Refreshed(e, tb, p, t), p, t, 0);
    RunMakesNoStrays(e, Refreshed(e, tb, p, t), ops, PolicyIds(tb.chunks, p), p, t);
  }

  lemma RefreshedStatisticsStay(e: Engine, tb: Tables, ops: seq<Operation>, p: string, t: TokenizerName)
    requires Refreshable(e, tb.chunks, p, t)
    requires LeavesSlice(e, Refreshed(e, tb, p, t), ops, PolicyIds(tb.chunks, p), p, t)
    ensures StatSlice(Run(e, Refreshed(e, tb, p, t), ops).stats, p, t)
         == CountedStats(e, tb.chunks, p, t, PolicyAverage(e, tb.chunks, p, t).tenThousandths)
  {
    LeavingRunNeverRefreshes(e, Refreshed(e, tb, p, t), ops, PolicyIds(tb.chunks, p), p, t);
    StatisticsOnlyChangeInRefresh(e, Refreshed(e, tb, p, t), ops, p, t);
    RefreshedSliceIsTheCount(e, tb, p, t);
  }

  /** A chunked cell over an exact slice with a stored term is not stale. */
  lemma ExactSliceIsNotStale(e: Engine, tb: Tables, p: string, t: TokenizerName, d: int)
    requires SliceExact(e, tb, p, t) && StatSlice(tb.stats, p, t) != map[]
    ensures Cell(tb, d, p, t) != Stale
  {
    ExactStatistics(e, tb, p, t);
    StatusMeans(tb, d, p, t);
  }

  /** What a status certifies: after a refresh, of any tables, that found a term, at any
      point of any run that leaves the slice to itself, a chunked cell is not stale if and
      only if the stored slice is exactly the count of the policy's chunks. */
  lemma NotStaleExactlyWhenTheSliceIsExact(e: Engine, tb: Tables, ops: seq<Operation>, p: string, t: TokenizerName,
                                           d: int)
    requires Refreshable(e, tb.chunks, p, t)
    requires Vocabulary(e, tb.chunks, PolicyIds(tb.chunks, p), t) != {}
    requires LeavesSlice(e, Refreshed(e, tb, p, t), ops, PolicyIds(tb.chunks, p), p, t)
    ensures var now := Run(e, Refreshed(e, tb, p, t), ops);
      CellIds(now.chunks, d, p) != {} ==> (Cell(now, d, p, t) != Stale <==> SliceExact(e, now, p, t))
  {
    var after, ids := Refreshed(e, tb, p, t), PolicyIds(tb.chunks, p);
    var now := Run(e, after, ops);
    LeavingRunNeverRefreshes(e, after, ops, ids, p, t);
    StaleExactlyWhenCountsDiffer(e, tb, ops, p, t, d);
    StatisticsOnlyChangeInRefresh(e, after, ops, p, t);
    RefreshedStatistics(e, tb, p, t);
    if SliceExact(e, now, p, t) {
      ExactSliceIsNotStale(e, now, p, t, d);
    } else {
      InexactSliceHasOtherChunks(e, tb, ops, p, t);
    }
  }

  lemma InexactSliceHasOtherChunks(e: Engine, tb: Tables, ops: seq<Operation>, p: string, t: TokenizerName)
    requires Refreshable(e, tb.chunks, p, t)
    requires LeavesSlice(e, Refreshed(e, tb, p, t), ops, PolicyIds(tb.chunks, p), p, t)
    requires !SliceExact(e, Run(e, Refreshed(e, tb, p, t), ops), p, t)
    ensures |PolicyIds(Run(e, Refreshed(e, tb, p, t), ops).chunks, p)| != |PolicyIds(tb.chunks, p)|
  {
    var now, ids := Run(e, Refreshed(e, tb, p, t), ops), PolicyIds(tb.chunks, p);
    forall id | id in ids
      ensures id in PolicyIds(now.chunks, p)
    {
      RefreshedChunksStay(e, tb, ops, p, t, id);
    }
    SubsetSize(ids, PolicyIds(now.chunks, p));
    if PolicyIds(now.chunks, p) == ids { UnchangedChunksStayExact(e, tb, ops, p, t); }
  }
}
