/** The operations on the index tables, step by step as the program runs them. */
module IndexStore {
  import opened Collections
  import opened Tokenizer
  import opened DecimalAverage
  import opened KeywordIndex

  datatype IndexError =
    | InvalidChunkId
    | BlankPolicyName
    | UnsupportedTokenizer
    | TokenizerUnavailable
    | ForeignKeyViolation
    | BlankTerm
    | ValueOutOfRange
    | DecimalInvalidOperation

  datatype RefreshResult = RefreshResult(
    policy: string,
    tokenizer: TokenizerName,
    chunkCount: nat,
    termRowCount: nat,
    statisticsRowCount: nat,
    averageLength: nat)

  /** When rewriting one chunk's terms succeeds.  A text without tokens inserts nothing,
      so it never meets the foreign keys or the integer column. */
  ghost predicate Writable(e: Engine, tb: Tables, id: int, p: string, text: string, t: TokenizerName) {
    && id > 0 && p != "" && !t.Unsupported?
    && Tokenize(e, t, text).Some?
    && var tokens := Tokens(e, t, text);
       (tokens != [] ==> id in tb.chunks && p in tb.policies && forall x :: x in tokens ==>
         multiset(tokens)[x] <= MAX_INT)
  }

  /** What a committed refresh reports. */
  ghost predicate IsReportOf(r: RefreshResult, e: Engine, chunks: Chunks, p: string, t: TokenizerName) {
    var ids := PolicyIds(chunks, p);
    && r.policy == p && r.tokenizer == t
    && r.chunkCount == |ids|
    && r.termRowCount == |TermKeys(e, chunks, ids, t)|
    && r.statisticsRowCount == |Vocabulary(e, chunks, ids, t)|
    && PolicyAverage(e, chunks, p, t) == Value(r.averageLength)
  }

  class IndexDatabase {
    const engine: Engine
    var policies: set<string>
    var chunks: Chunks
    var terms: TermTable
    var stats: StatTable

    constructor (engine: Engine, policies: set<string>)
      ensures this.engine == engine && Now() == Tables(policies, map[], map[], map[])
    {
      this.engine, this.policies, this.chunks, this.terms, this.stats := engine, policies, map[], map[], map[];
    }

    ghost function Now(): Tables
      reads this
    {
      Tables(policies, chunks, terms, stats)
    }

    method InsertChunk(id: int, chunk: Chunk) returns (ok: bool)
      requires WellFormed(Now()) && id > 0 && id !in chunks
      modifies this`chunks
      ensures ok <==>
        && Strip(engine.alphabet, chunk.text) != "" && Strip(engine.alphabet, chunk.policy) != ""
        && chunk.policy in policies
      ensures chunks == if ok then old(chunks)[id := chunk] else old(chunks)
      ensures WellFormed(Now())
    {
      ok := Strip(engine.alphabet, chunk.text) != "" && Strip(engine.alphabet, chunk.policy) != ""
        && chunk.policy in policies;
      if ok {
        chunks := chunks[id := chunk];
      }
    }

    /** Deleting a document's chunks of one policy cascades to their term rows and leaves
        the statistics alone. */
    method DeleteDocumentChunks(document: int, p: string)
      requires WellFormed(Now())
      modifies this`chunks, this`terms
      ensures chunks == map id | id in old(chunks)
        && !(old(chunks)[id].document == document && old(chunks)[id].policy == p) :: old(chunks)[id]
      ensures terms == map k | k in old(terms) && k.chunk in chunks :: old(terms)[k]
      ensures WellFormed(Now())
    {
      chunks := map id | id in chunks && !(chunks[id].document == document && chunks[id].policy == p) :: chunks[id];
      terms := map k | k in terms && k.chunk in chunks :: terms[k];
    }

    method TokenizeText(text: string, t: TokenizerName) returns (r: Option<seq<string>>)
      ensures r == Tokenize(engine, t, text)
    {
      if t == KoreanNgram {
        var tokens := TokenizeWordsWithKoreanNgrams(engine.alphabet, text);
        r := Some(tokens);
      } else {
        r := Tokenize(engine, t, text);
      }
    }

    method ReplaceChunkTermsInConnection(id: int, policyName: string, text: string, t: TokenizerName)
      returns (r: Result<multiset<string>, IndexError>)
      modifies this`terms
      ensures r.Success? <==> Writable(engine, old(Now()), id, Strip(engine.alphabet, policyName), text, t)
      ensures r.Success? ==>
        var p := Strip(engine.alphabet, policyName);
        && r.value == multiset(Tokens(engine, t, text))
        && terms == WrittenTerms(old(terms), id, p, t, Tokens(engine, t, text))
    {
      if id <= 0 {
        return Failure(InvalidChunkId);
      }
      var p := Strip(engine.alphabet, policyName);
      if p == "" {
        return Failure(BlankPolicyName);
      }
      if t.Unsupported? {
        return Failure(UnsupportedTokenizer);
      }
      var tokenized := TokenizeText(text, t);
      if tokenized == None {
        return Failure(TokenizerUnavailable);
      }
      var tokens := tokenized.value;
      terms := DeleteChunkTerms(terms, id, t);
      if tokens == [] {
        return Success(multiset{});
      }
      TokensAreNotBlank(engine, t, text);
      r := InsertChunkTerms(id, p, t, tokens);
    }

    /** INSERT of one row per distinct term: the foreign keys, the check on the term and the
        column of the count must hold. */
    method InsertChunkTerms(id: int, p: string, t: TokenizerName, tokens: seq<string>)
      returns (r: Result<multiset<string>, IndexError>)
      modifies this`terms
      ensures r.Success? <==>
        id in chunks && p in policies && forall x :: x in tokens ==> !Blank(x) && multiset(tokens)[x] <= MAX_INT
      ensures r.Success? ==> r.value == multiset(tokens) && terms == old(terms) + ChunkTermRows(id, p, t, tokens)
    {
      var frequencies := multiset(tokens);
      if id !in chunks || p !in policies {
        return Failure(ForeignKeyViolation);
      }
      if exists x | x in tokens :: Blank(x) {
        return Failure(BlankTerm);
      }
      if exists x | x in tokens :: frequencies[x] > MAX_INT {
        return Failure(ValueOutOfRange);
      }
      terms := terms + ChunkTermRows(id, p, t, tokens);
      return Success(frequencies);
    }

    method SelectPolicyChunks(p: string) returns (ids: seq<int>)
      ensures Elements(ids) == PolicyIds(chunks, p) && Distinct(ids)
      ensures forall i, j :: 0 <= i < j < |ids| ==> ids[i] < ids[j]
      ensures forall i :: 0 <= i < |ids| ==> ids[i] in PolicyIds(chunks, p)
    {
      ids := Ascending(PolicyIds(chunks, p));
      assert forall i :: 0 <= i < |ids| ==> ids[i] in Elements(ids);
    }

    /** One iteration of a refresh: tokenize a chunk, count it, and rewrite its terms
        unless it has none. */
    method IndexChunk(ghost original: TermTable, ghost done: set<int>, id: int, p: string, t: TokenizerName,
                      lengths: seq<int>, counts: multiset<string>, rows: nat)
      returns (failure: Option<IndexError>, chunkLengths: seq<int>, termDocumentCounts: multiset<string>,
        termRowCount: nat)
      requires KnownChunks(policies, chunks) && p == Strip(engine.alphabet, p) && p != "" && !t.Unsupported?
      requires id in PolicyIds(chunks, p) && id !in done
      requires IndexedSoFar(engine, original, terms, chunks, done, p, t, lengths, counts, rows)
      modifies this`terms
      ensures failure == None <==> ChunkFits(engine, chunks, t, id)
      ensures failure == None ==>
        IndexedSoFar(engine, original, terms, chunks, done + {id}, p, t, chunkLengths, termDocumentCounts, termRowCount)
    {
      failure, chunkLengths, termDocumentCounts, termRowCount := None, lengths, counts, rows;
      var tokenized := TokenizeText(chunks[id].text, t);
      if tokenized == None {
        return Some(TokenizerUnavailable), chunkLengths, termDocumentCounts, termRowCount;
      }
      var tokens := tokenized.value;
      IndexOneMore(engine, original, terms, chunks, done, p, t, lengths, counts, rows, id, tokens);
      chunkLengths := lengths + [|multiset(tokens)|];
      termDocumentCounts := counts + multiset(Elements(tokens));
      if tokens != [] {
        var written := ReplaceChunkTermsInConnection(id, p, chunks[id].text, t);
        if written.Failure? {
          return Some(written.error), chunkLengths, termDocumentCounts, termRowCount;
        }
        termRowCount := rows + |Elements(tokens)|;
      }
    }

    /** The loop of a refresh over every chunk of the policy, in ascending id order. */
    method RewriteChunks(ghost original: TermTable, chunkRows: seq<int>, p: string, t: TokenizerName)
      returns (failure: Option<IndexError>, chunkLengths: seq<int>, termDocumentCounts: multiset<string>,
        termRowCount: nat)
      requires KnownChunks(policies, chunks) && p == Strip(engine.alphabet, p) && p != "" && !t.Unsupported?
      requires terms == DeletePolicyTerms(original, p, t)
      requires Distinct(chunkRows) && Elements(chunkRows) == PolicyIds(chunks, p)
      modifies this`terms
      ensures failure.Some? ==> exists id :: id in PolicyIds(chunks, p) && !ChunkFits(engine, chunks, t, id)
      ensures failure == None ==>
        && (forall id :: id in PolicyIds(chunks, p) ==> ChunkFits(engine, chunks, t, id))
        && IndexedSoFar(engine, original, terms, chunks, PolicyIds(chunks, p), p, t, chunkLengths,
          termDocumentCounts, termRowCount)
    {
      failure, chunkLengths, termDocumentCounts, termRowCount := None, [], multiset{}, 0;
      ghost var done: set<int> := {};
      RebuildNothing(engine, original, chunks, p, t);
      NothingAccumulated(engine, chunks, t);
      for i := 0 to |chunkRows|
        invariant done == Elements(chunkRows[..i])
        invariant IndexedSoFar(engine, original, terms, chunks, done, p, t, chunkLengths, termDocumentCounts,
          termRowCount)
        invariant forall id :: id in done ==> ChunkFits(engine, chunks, t, id)
        invariant failure == None
      {
        var id := chunkRows[i];
        assert id in Elements(chunkRows);
        ElementsSnoc(chunkRows, i);
        failure, chunkLengths, termDocumentCounts, termRowCount :=
          IndexChunk(original, done, id, p, t, chunkLengths, termDocumentCounts, termRowCount);
        if failure.Some? {
          return;
        }
        done := done + {id};
      }
      assert chunkRows[..|chunkRows|] == chunkRows;
    }

    method RefreshInConnection(policyName: string, t: TokenizerName) returns (r: Result<RefreshResult, IndexError>)
      requires WellFormed(Now())
      modifies this`terms, this`stats
      ensures var p := Strip(engine.alphabet, policyName);
        && (r.Success? <==> p != "" && !t.Unsupported? && Refreshable(engine, chunks, p, t))
        && (r.Success? ==> Now() == Refreshed(engine, old(Now()), p, t) && IsReportOf(r.value, engine, chunks, p, t))
    {
      var p := Strip(engine.alphabet, policyName);
      if p == "" {
        return Failure(BlankPolicyName);
      }
      if t.Unsupported? {
        return Failure(UnsupportedTokenizer);
      }
      StripIdempotent(engine.alphabet, policyName);
      ghost var before := Now();
      var chunkRows := SelectPolicyChunks(p);
      terms := DeletePolicyTerms(terms, p, t);
      stats := DeletePolicyStats(stats, p, t);
      var failure, chunkLengths, termDocumentCounts, termRowCount := RewriteChunks(before.terms, chunkRows, p, t);
      if failure.Some? {
        return Failure(failure.value);
      }
      DistinctSize(chunkRows);
      r := FinishRefresh(p, t, |chunkRows|, chunkLengths, termDocumentCounts, termRowCount);
    }

    /** After the loop: the average and then the statistics, from the exact accumulators. */
    method FinishRefresh(p: string, t: TokenizerName, chunkCount: nat, chunkLengths: seq<int>,
                         termDocumentCounts: multiset<string>, termRowCount: nat)
      returns (r: Result<RefreshResult, IndexError>)
      requires chunkCount == |PolicyIds(chunks, p)|
      requires Accumulated(engine, chunks, PolicyIds(chunks, p), t, chunkLengths, termDocumentCounts, termRowCount)
      modifies this`stats
      ensures r.Success? <==> StatisticsFit(engine, chunks, p, t)
      ensures r.Success? ==>
        && stats == old(stats) + CountedStats(engine, chunks, p, t, PolicyAverage(engine, chunks, p, t).tenThousandths)
        && IsReportOf(r.value, engine, chunks, p, t)
    {
      ghost var quotient := PolicyAverage(engine, chunks, p, t);
      var average := AverageLength(Sum(chunkLengths), chunkCount);
      assert average == quotient;
      if average == InvalidOperation {
        return Failure(DecimalInvalidOperation);
      }
      CountedStatistics(engine, chunks, termDocumentCounts, p, t, average.tenThousandths);
      var failure := InsertStatistics(p, t, chunkCount, termDocumentCounts, average.tenThousandths);
      if failure.Some? {
        return Failure(failure.value);
      }
      return Success(RefreshResult(p, t, chunkCount, termRowCount, |Terms(termDocumentCounts)|,
        average.tenThousandths));
    }

    /** INSERT of one statistics row per counted term, skipped for an empty counter: the check
        on the term and the columns of the counts and the average must hold; the document
        frequencies never exceed the chunk count. */
    method InsertStatistics(p: string, t: TokenizerName, chunkCount: nat, counts: multiset<string>, averageLength: nat)
      returns (failure: Option<IndexError>)
      requires forall x :: counts[x] <= chunkCount
      modifies this`stats
      ensures failure == None <==>
        && (forall x :: x in counts ==> !Blank(x))
        && (counts != multiset{} ==> chunkCount <= MAX_INT && averageLength < NUMERIC_12_4)
      ensures failure == None ==> stats == old(stats) + StatRows(counts, p, t, chunkCount, averageLength)
    {
      if counts == multiset{} {
        return None;
      }
      if exists x | x in counts :: Blank(x) {
        return Some(BlankTerm);
      }
      if chunkCount > MAX_INT || averageLength >= NUMERIC_12_4 {
        return Some(ValueOutOfRange);
      }
      stats := stats + StatRows(counts, p, t, chunkCount, averageLength);
      return None;
    }

    /** A refresh in its own connection: the transaction commits on success and rolls back
        when the refresh raises. */
    method RefreshPolicy(policyName: string, t: TokenizerName) returns (r: Result<RefreshResult, IndexError>)
      requires WellFormed(Now())
      modifies this`terms, this`stats
      ensures var p := Strip(engine.alphabet, policyName);
        && (r.Success? <==> p != "" && !t.Unsupported? && Refreshable(engine, chunks, p, t))
        && (r.Success? ==> Now() == Refreshed(engine, old(Now()), p, t) && IsReportOf(r.value, engine, chunks, p, t))
        && (r.Failure? ==> Now() == old(Now()))
    {
      var savedTerms, savedStats := terms, stats;
      r := RefreshInConnection(policyName, t);
      if r.Failure? {
        terms, stats := savedTerms, savedStats;
      }
    }

    /** Rewriting one chunk in its own connection. */
    method ReplaceChunkTerms(id: int, policyName: string, text: string, t: TokenizerName)
      returns (r: Result<multiset<string>, IndexError>)
      modifies this`terms
      ensures var p := Strip(engine.alphabet, policyName);
        if Writable(engine, old(Now()), id, p, text, t)
        then r == Success(multiset(Tokens(engine, t, text)))
          && terms == WrittenTerms(old(terms), id, p, t, Tokens(engine, t, text))
        else r.Failure? && terms == old(terms)
    {
      var savedTerms := terms;
      r := ReplaceChunkTermsInConnection(id, policyName, text, t);
      if r.Failure? {
        terms := savedTerms;
      }
    }
  }
}
