/** The index and its schema: an operation commits exactly when the rows it would write meet
    the schema's checks, and every run keeps all stored rows within them. */
module SchemaLaws {
  import opened Collections
  import opened KeywordIndex
  import opened IndexStore
  import opened RefreshLaws
  import opened Coverage
  import opened CoverageRuns

  // ---------------------------------------------------------------- what the schema asks

  /** chunk_keyword_terms: foreign keys, a term that is not blank, a positive INT. */
  ghost predicate TermRowFits(policies: set<string>, chunks: Chunks, k: TermKey, row: TermRow) {
    k.chunk in chunks && row.policy in policies && !Blank(k.term) && 0 < row.frequency <= MAX_INT
  }

  /** chunk_keyword_statistics: the foreign key, a term that is not blank, two INT and a
      NUMERIC(12, 4). */
  ghost predicate StatRowFits(policies: set<string>, k: StatKey, row: StatRow) {
    && k.policy in policies && !Blank(k.term)
    && row.documentFrequency <= MAX_INT && row.corpusChunkCount <= MAX_INT && row.averageLength < NUMERIC_12_4
  }

  ghost predicate TermRowsFit(policies: set<string>, chunks: Chunks, terms: TermTable) {
    forall k :: k in terms ==> TermRowFits(policies, chunks, k, terms[k])
  }

  ghost predicate StatRowsFit(policies: set<string>, stats: StatTable) {
    forall k :: k in stats ==> StatRowFits(policies, k, stats[k])
  }

  // ---------------------------------------------------------------- when operations commit

  lemma ChunkRowAt(id: int, p: string, t: TokenizerName, tokens: seq<string>, k: TermKey)
    ensures var rows := ChunkTermRows(id, p, t, tokens);
      && (k in rows <==> k.chunk == id && k.tokenizer == t && k.term in tokens)
      && (k in rows ==> rows[k] == TermRow(p, multiset(tokens)[k.term]) && rows[k].frequency > 0)
  {
    if k.chunk == id && k.tokenizer == t && k.term in tokens { assert k == TermKey(id, t, k.term); }
  }

  /** Rewriting a chunk commits exactly when its arguments validate, its text tokenizes and
      every row it would write meets the schema. */
  lemma RewriteCommitsExactlyWhenRowsFit(e: Engine, tb: Tables, id: int, p: string, text: string, t: TokenizerName)
    ensures Writable(e, tb, id, p, text, t) <==>
      && id > 0 && p != "" && !t.Unsupported? && Tokenize(e, t, text).Some?
      && TermRowsFit(tb.policies, tb.chunks, ChunkTermRows(id, p, t, Tokens(e, t, text)))
  {
    var tokens := Tokens(e, t, text);
    TokensAreNotBlank(e, t, text);
    ChunkRowsFitExactlyWhen(tb, id, p, t, tokens);
    if tokens != [] { assert tokens[0] in tokens; }
  }

  lemma ChunkRowsFitExactlyWhen(tb: Tables, id: int, p: string, t: TokenizerName, tokens: seq<string>)
    requires forall x :: x in tokens ==> !Blank(x)
    ensures TermRowsFit(tb.policies, tb.chunks, ChunkTermRows(id, p, t, tokens)) <==>
      forall x :: x in tokens ==> id in tb.chunks && p in tb.policies && multiset(tokens)[x] <= MAX_INT
  {
    var rows := ChunkTermRows(id, p, t, tokens);
    forall k
      ensures k in rows <==> k.chunk == id && k.tokenizer == t && k.term in tokens
      ensures k in rows ==> rows[k] == TermRow(p, multiset(tokens)[k.term]) && rows[k].frequency > 0
    {
      ChunkRowAt(id, p, t, tokens, k);
    }
    if TermRowsFit(tb.policies, tb.chunks, rows) {
      forall x | x in tokens
        ensures id in tb.chunks && p in tb.policies && multiset(tokens)[x] <= MAX_INT
      {
        assert TermKey(id, t, x) in rows;
      }
    }
  }

  lemma CountedTermsFitExactlyWhen(e: Engine, tb: Tables, p: string, t: TokenizerName)
    requires WellFormed(tb)
    ensures TermRowsFit(tb.policies, tb.chunks, CountedTerms(e, tb.chunks, PolicyIds(tb.chunks, p), p, t)) <==>
      forall id, x :: id in PolicyIds(tb.chunks, p) && x in ChunkTokens(e, tb.chunks, t, id) ==>
        multiset(ChunkTokens(e, tb.chunks, t, id))[x] <= MAX_INT
  {
    var ids := PolicyIds(tb.chunks, p);
    var rows := CountedTerms(e, tb.chunks, ids, p, t);
    forall id, x | id in ids && x in ChunkTokens(e, tb.chunks, t, id)
      ensures TermKey(id, t, x) in rows
      ensures TermRowFits(tb.policies, tb.chunks, TermKey(id, t, x), rows[TermKey(id, t, x)])
         <==> multiset(ChunkTokens(e, tb.chunks, t, id))[x] <= MAX_INT
    {
      TokensAreNotBlank(e, t, tb.chunks[id].text);
      assert TermKey(id, t, x) in TermKeys(e, tb.chunks, ids, t);
    }
    forall k | k in rows
      ensures k.chunk in ids && k.term in ChunkTokens(e, tb.chunks, t, k.chunk) && k == TermKey(k.chunk, t, k.term)
    {
      assert k in TermKeys(e, tb.chunks, ids, t);
    }
  }

  lemma CountedStatsFitExactlyWhen(e: Engine, tb: Tables, p: string, t: TokenizerName, average: nat)
    requires WellFormed(tb)
    ensures var ids := PolicyIds(tb.chunks, p);
      StatRowsFit(tb.policies, CountedStats(e, tb.chunks, p, t, average)) <==>
        (Vocabulary(e, tb.chunks, ids, t) != {} ==> |ids| <= MAX_INT && average < NUMERIC_12_4)
  {
    var ids := PolicyIds(tb.chunks, p);
    var rows := CountedStats(e, tb.chunks, p, t, average);
    forall k
      ensures k in rows <==> k.policy == p && k.tokenizer == t && k.term in Vocabulary(e, tb.chunks, ids, t)
      ensures k in rows ==> rows[k].corpusChunkCount == |ids| && rows[k].averageLength == average
      ensures k in rows ==> rows[k].documentFrequency <= |ids| && !Blank(k.term) && p in tb.policies
    {
      CountedStatAt(e, tb.chunks, p, t, average, k);
      if k in rows { CountedTermIsSound(e, tb, p, t, k.term); }
    }
    if x :| x in Vocabulary(e, tb.chunks, ids, t) { assert StatKey(p, t, x) in rows; }
  }

  lemma CountedTermIsSound(e: Engine, tb: Tables, p: string, t: TokenizerName, x: string)
    requires WellFormed(tb) && x in Vocabulary(e, tb.chunks, PolicyIds(tb.chunks, p), t)
    ensures |Containing(e, tb.chunks, PolicyIds(tb.chunks, p), t, x)| <= |PolicyIds(tb.chunks, p)|
    ensures !Blank(x) && p in tb.policies
  {
    var ids := PolicyIds(tb.chunks, p);
    SubsetSize(Containing(e, tb.chunks, ids, t, x), ids);
    var id :| id in ids && x in ChunkTokens(e, tb.chunks, t, id);
    TokensAreNotBlank(e, t, tb.chunks[id].text);
  }

  /** A refresh commits exactly when every chunk of the policy tokenizes, there is an
      average, and every row of the count meets the schema. */
  lemma RefreshCommitsExactlyWhenRowsFit(e: Engine, tb: Tables, p: string, t: TokenizerName)
    requires WellFormed(tb)
    ensures Refreshable(e, tb.chunks, p, t) <==>
      && (forall id :: id in PolicyIds(tb.chunks, p) ==> Tokenize(e, t, tb.chunks[id].text).Some?)
      && PolicyAverage(e, tb.chunks, p, t).Value?
      && TermRowsFit(tb.policies, tb.chunks, CountedTerms(e, tb.chunks, PolicyIds(tb.chunks, p), p, t))
      && StatRowsFit(tb.policies, CountedStats(e, tb.chunks, p, t, PolicyAverage(e, tb.chunks, p, t).tenThousandths))
  {
    ChunksFitExactlyWhen(e, tb, p, t);
    StatisticsFitExactlyWhen(e, tb, p, t);
  }

  lemma ChunksFitExactlyWhen(e: Engine, tb: Tables, p: string, t: TokenizerName)
    requires WellFormed(tb)
    ensures (forall id :: id in PolicyIds(tb.chunks, p) ==> ChunkFits(e, tb.chunks, t, id)) <==>
      && (forall id :: id in PolicyIds(tb.chunks, p) ==> Tokenize(e, t, tb.chunks[id].text).Some?)
      && TermRowsFit(tb.policies, tb.chunks, CountedTerms(e, tb.chunks, PolicyIds(tb.chunks, p), p, t))
  {
    CountedTermsFitExactlyWhen(e, tb, p, t);
    forall id | id in PolicyIds(tb.chunks, p)
      ensures ChunkFits(e, tb.chunks, t, id) <==>
        && Tokenize(e, t, tb.chunks[id].text).Some?
        && forall x :: x in ChunkTokens(e, tb.chunks, t, id) ==>
             multiset(ChunkTokens(e, tb.chunks, t, id))[x] <= MAX_INT
    {
    }
  }

  lemma StatisticsFitExactlyWhen(e: Engine, tb: Tables, p: string, t: TokenizerName)
    requires WellFormed(tb)
    ensures StatisticsFit(e, tb.chunks, p, t) <==>
      && PolicyAverage(e, tb.chunks, p, t).Value?
      && StatRowsFit(tb.policies, CountedStats(e, tb.chunks, p, t, PolicyAverage(e, tb.chunks, p, t).tenThousandths))
  {
    if PolicyAverage(e, tb.chunks, p, t).Value? {
      CountedStatsFitExactlyWhen(e, tb, p, t, PolicyAverage(e, tb.chunks, p, t).tenThousandths);
    }
  }

  // ---------------------------------------------------------------- over runs

  ghost predicate RowsFit(tb: Tables) {
    TermRowsFit(tb.policies, tb.chunks, tb.terms) && StatRowsFit(tb.policies, tb.stats)
  }

  lemma RefreshKeepsRowsFit(e: Engine, tb: Tables, p: string, t: TokenizerName)
    requires WellFormed(tb) && RowsFit(tb) && Refreshable(e, tb.chunks, p, t)
    ensures RowsFit(Refreshed(e, tb, p, t))
  {
    var after, ids := Refreshed(e, tb, p, t), PolicyIds(tb.chunks, p);
    RefreshCommitsExactlyWhenRowsFit(e, tb, p, t);
    forall k | k in after.terms
      ensures TermRowFits(tb.policies, tb.chunks, k, after.terms[k])
    {
      RefreshedTermAt(e, tb, p, t, k);
      if k in TermKeys(e, tb.chunks, ids, t) {
        assert after.terms[k] == CountedTerms(e, tb.chunks, ids, p, t)[k];
      }
    }
    RefreshKeepsStatsFit(e, tb, p, t);
  }

  lemma RefreshKeepsStatsFit(e: Engine, tb: Tables, p: string, t: TokenizerName)
    requires WellFormed(tb) && StatRowsFit(tb.policies, tb.stats) && Refreshable(e, tb.chunks, p, t)
    ensures StatRowsFit(tb.policies, Refreshed(e, tb, p, t).stats)
  {
    var after := Refreshed(e, tb, p, t);
    RefreshCommitsExactlyWhenRowsFit(e, tb, p, t);
    var counted := CountedStats(e, tb.chunks, p, t, PolicyAverage(e, tb.chunks, p, t).tenThousandths);
    forall k | k in after.stats
      ensures StatRowFits(tb.policies, k, after.stats[k])
    {
      assert after.stats == DeletePolicyStats(tb.stats, p, t) + counted;
      if k in counted { assert after.stats[k] == counted[k]; } else { assert after.stats[k] == tb.stats[k]; }
    }
  }

  lemma RewriteKeepsRowsFit(e: Engine, tb: Tables, id: int, p: string, text: string, t: TokenizerName)
    requires TermRowsFit(tb.policies, tb.chunks, tb.terms) && Writable(e, tb, id, p, text, t)
    ensures TermRowsFit(tb.policies, tb.chunks, WrittenTerms(tb.terms, id, p, t, Tokens(e, t, text)))
  {
    var tokens := Tokens(e, t, text);
    RewriteCommitsExactlyWhenRowsFit(e, tb, id, p, text, t);
    forall k | k in WrittenTerms(tb.terms, id, p, t, tokens)
      ensures TermRowFits(tb.policies, tb.chunks, k, WrittenTerms(tb.terms, id, p, t, tokens)[k])
    {
      WrittenAt(tb.terms, id, p, t, tokens, k);
      ChunkRowAt(id, p, t, tokens, k);
      if k.chunk == id && k.tokenizer == t { assert k in ChunkTermRows(id, p, t, tokens); }
    }
  }

  lemma StepKeepsRowsFit(e: Engine, tb: Tables, op: Operation)
    requires WellFormed(tb) && RowsFit(tb)
    ensures RowsFit(Apply(e, tb, op))
  {
    match op
    case Insert(_, _) =>
    case DeleteChunks(_, _) =>
    case Rewrite(id, p, text, t) =>
      if Writable(e, tb, id, p, text, t) { RewriteKeepsRowsFit(e, tb, id, p, text, t); }
    case Refresh(p, t) =>
      if p != "" && !t.Unsupported? && Refreshable(e, tb.chunks, p, t) {
        CommittedRefresh(e, tb, p, t);
        RefreshKeepsRowsFit(e, tb, p, t);
      }
  }

  /** Whatever a run does, every stored row meets the schema throughout. */
  lemma {:induction false} RunsKeepRowsFit(e: Engine, tb: Tables, ops: seq<Operation>)
    requires WellFormed(tb) && RowsFit(tb)
    ensures RowsFit(Run(e, tb, ops))
    decreases |ops|
  {
    if ops != [] {
      StepKeepsRowsFit(e, tb, ops[0]);
      StepStaysWellFormed(e, tb, ops[0]);
      RunsKeepRowsFit(e, Apply(e, tb, ops[0]), ops[1..]);
    }
  }
}
