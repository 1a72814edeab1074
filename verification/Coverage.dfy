/** The coverage read model: one status per document, policy and tokenizer, and what that
    status is worth over runs of inserts, deletes, per-chunk rewrites and refreshes. */
module Coverage {
  import opened Collections
  import opened Tokenizer
  import opened KeywordIndex
  import opened IndexStore
  import opened RefreshLaws
  import opened RefreshOrder

  datatype CellStatus = Complete | Partial | Missing | Stale | NotChunked

  function StatusForCell(policyChunkCount: nat, chunkCount: nat, indexedChunkCount: nat,
                         statisticsTermCount: nat, statisticsCorpusChunkCount: nat): CellStatus {
    if chunkCount == 0 then NotChunked
    else if statisticsTermCount == 0 && indexedChunkCount == 0 then Missing
    else if statisticsCorpusChunkCount != policyChunkCount then Stale
    else if indexedChunkCount >= chunkCount then Complete
    else if indexedChunkCount > 0 then Partial
    else Missing
  }

  // ---------------------------------------------------------------- the query

  /** chunk_stats: the chunks of a document under a policy. */
  ghost function CellIds(chunks: Chunks, d: int, p: string): set<int> {
    set id | id in chunks && chunks[id].document == d && chunks[id].policy == p
  }

  ghost predicate HasRows(terms: TermTable, id: int, t: TokenizerName) {
    exists k :: k in terms && k.chunk == id && k.tokenizer == t
  }

  /** term_stats: the chunks of the cell with at least one term row. */
  ghost function IndexedIds(tb: Tables, d: int, p: string, t: TokenizerName): set<int> {
    set id | id in CellIds(tb.chunks, d, p) && HasRows(tb.terms, id, t)
  }

  ghost function MaxOrZero(s: set<nat>): (m: nat)
    ensures s == {} ==> m == 0
    ensures s != {} ==> m in s
    ensures forall x :: x in s ==> x <= m
    decreases s
  {
    if s == {} then 0
    else var x :| x in s;
         var m := MaxOrZero(s - {x});
         assert forall y :: y in s ==> y == x || y in s - {x};
         if s == {x} || x > m then x else m
  }

  /** statistics: max(corpus_chunk_count), 0 when there is no row. */
  ghost function StatisticsCorpus(stats: StatTable, p: string, t: TokenizerName): nat {
    MaxOrZero(CorpusCounts(StatSlice(stats, p, t)))
  }

  ghost function CorpusCounts(slice: StatTable): set<nat> {
    set k | k in slice :: slice[k].corpusChunkCount
  }

  ghost function Cell(tb: Tables, d: int, p: string, t: TokenizerName): CellStatus {
    StatusForCell(|PolicyIds(tb.chunks, p)|, |CellIds(tb.chunks, d, p)|, |IndexedIds(tb, d, p, t)|,
                  |StatSlice(tb.stats, p, t)|, StatisticsCorpus(tb.stats, p, t))
  }

  lemma CellSizes(tb: Tables, d: int, p: string, t: TokenizerName)
    ensures IndexedIds(tb, d, p, t) <= CellIds(tb.chunks, d, p) <= PolicyIds(tb.chunks, p)
    ensures |IndexedIds(tb, d, p, t)| <= |CellIds(tb.chunks, d, p)| <= |PolicyIds(tb.chunks, p)|
    ensures |IndexedIds(tb, d, p, t)| == |CellIds(tb.chunks, d, p)| ==>
      IndexedIds(tb, d, p, t) == CellIds(tb.chunks, d, p)
  {
    SubsetSize(IndexedIds(tb, d, p, t), CellIds(tb.chunks, d, p));
    SubsetSize(CellIds(tb.chunks, d, p), PolicyIds(tb.chunks, p));
  }

  /** What every status means, for any tables: in sets of chunks and in the statistics. */
  lemma StatusMeans(tb: Tables, d: int, p: string, t: TokenizerName)
    ensures var cell, ids, indexed := Cell(tb, d, p, t), CellIds(tb.chunks, d, p), IndexedIds(tb, d, p, t);
      var current, unknown :=
        StatisticsCorpus(tb.stats, p, t) == |PolicyIds(tb.chunks, p)|, StatSlice(tb.stats, p, t) == map[];
      && (cell == NotChunked <==> ids == {})
      && (cell == Stale <==> ids != {} && !current && !(unknown && indexed == {}))
      && (cell == Complete <==> ids != {} && current && indexed == ids)
      && (cell == Partial <==> ids != {} && current && indexed != {} && indexed != ids)
      && (cell == Missing <==> ids != {} && (current || unknown) && indexed == {})
  {
    CellSizes(tb, d, p, t);
    assert |StatSlice(tb.stats, p, t)| == 0 <==> StatSlice(tb.stats, p, t) == map[];
  }

  // ---------------------------------------------------------------- the cells over an exact slice

  lemma ExactTermAt(e: Engine, tb: Tables, p: string, t: TokenizerName, id: int, x: string)
    requires SliceExact(e, tb, p, t) && id in PolicyIds(tb.chunks, p)
    ensures var k, tokens := TermKey(id, t, x), ChunkTokens(e, tb.chunks, t, id);
      && (k in TermSlice(tb.terms, p, t) <==> x in tokens)
      && (x in tokens ==> tb.terms[k] == TermRow(p, multiset(tokens)[x]))
  {
    var k, ids := TermKey(id, t, x), PolicyIds(tb.chunks, p);
    assert k in CountedTerms(e, tb.chunks, ids, p, t) <==> k in TermKeys(e, tb.chunks, ids, t);
  }

  lemma ExactStatAt(e: Engine, tb: Tables, p: string, t: TokenizerName, x: string)
    requires SliceExact(e, tb, p, t)
    ensures var k, ids := StatKey(p, t, x), PolicyIds(tb.chunks, p);
      && (k in tb.stats <==> x in Vocabulary(e, tb.chunks, ids, t))
      && (k in tb.stats ==> tb.stats[k] == StatRow(|Containing(e, tb.chunks, ids, t, x)|, |ids|,
                                                   PolicyAverage(e, tb.chunks, p, t).tenThousandths))
  {
    var k := StatKey(p, t, x);
    CountedStatAt(e, tb.chunks, p, t, PolicyAverage(e, tb.chunks, p, t).tenThousandths, k);
    assert k in tb.stats <==> k in StatSlice(tb.stats, p, t);
  }

  lemma UniformCorpus(stats: StatTable, p: string, t: TokenizerName, n: nat)
    requires StatSlice(stats, p, t) != map[]
    requires forall k :: k in stats && k.policy == p && k.tokenizer == t ==> stats[k].corpusChunkCount == n
    ensures StatisticsCorpus(stats, p, t) == n
  {
    var slice := StatSlice(stats, p, t);
    var k := Pick(slice.Keys);
    assert slice[k].corpusChunkCount in CorpusCounts(slice);
    assert forall n' :: n' in CorpusCounts(slice) ==> n' == n;
  }

  /** What the statistics of an exact slice say. */
  lemma ExactStatistics(e: Engine, tb: Tables, p: string, t: TokenizerName)
    requires SliceExact(e, tb, p, t)
    ensures var ids := PolicyIds(tb.chunks, p);
      && (StatSlice(tb.stats, p, t) == map[] <==> Vocabulary(e, tb.chunks, ids, t) == {})
      && (StatSlice(tb.stats, p, t) != map[] ==> StatisticsCorpus(tb.stats, p, t) == |ids|)
  {
    var slice, terms := StatSlice(tb.stats, p, t), Vocabulary(e, tb.chunks, PolicyIds(tb.chunks, p), t);
    if terms != {} {
      var x := Pick(terms);
      ExactStatAt(e, tb, p, t, x);
      assert StatKey(p, t, x) in slice;
    }
    if slice != map[] {
      ExactStatAt(e, tb, p, t, Pick(slice.Keys).term);
      forall k | k in tb.stats && k.policy == p && k.tokenizer == t
        ensures tb.stats[k].corpusChunkCount == |PolicyIds(tb.chunks, p)|
      {
        ExactStatAt(e, tb, p, t, k.term);
        assert k == StatKey(p, t, k.term);
      }
      UniformCorpus(tb.stats, p, t, |PolicyIds(tb.chunks, p)|);
    }
  }

  /** A chunk has a row of this tokenizer that is filed under another policy than p. */
  ghost predicate Foreign(tb: Tables, p: string, t: TokenizerName, id: int) {
    exists k :: k in tb.terms && k.chunk == id && k.tokenizer == t && tb.terms[k].policy != p
  }

  /** What makes a chunk count as indexed: a token, or a foreign row. */
  ghost predicate Covers(e: Engine, tb: Tables, p: string, t: TokenizerName, id: int) {
    ChunkTokens(e, tb.chunks, t, id) != [] || Foreign(tb, p, t, id)
  }

  ghost function Covered(e: Engine, tb: Tables, p: string, t: TokenizerName, ids: set<int>): set<int> {
    set id | id in ids && Covers(e, tb, p, t, id)
  }

  /** Over an exact slice a chunk has rows exactly when it has tokens or a foreign row. */
  lemma ExactRows(e: Engine, tb: Tables, p: string, t: TokenizerName, id: int)
    requires SliceExact(e, tb, p, t) && id in PolicyIds(tb.chunks, p)
    ensures HasRows(tb.terms, id, t) <==> Covers(e, tb, p, t, id)
  {
    var tokens := ChunkTokens(e, tb.chunks, t, id);
    if tokens != [] {
      ExactTermAt(e, tb, p, t, id, tokens[0]);
      assert TermKey(id, t, tokens[0]) in tb.terms;
    }
    if k :| k in tb.terms && k.chunk == id && k.tokenizer == t {
      ExactTermAt(e, tb, p, t, id, k.term);
      assert k == TermKey(id, t, k.term);
    }
  }

  lemma ExactIndexedIds(e: Engine, tb: Tables, p: string, t: TokenizerName, d: int)
    requires SliceExact(e, tb, p, t)
    ensures IndexedIds(tb, d, p, t) == Covered(e, tb, p, t, CellIds(tb.chunks, d, p))
  {
    forall id | id in CellIds(tb.chunks, d, p)
      ensures HasRows(tb.terms, id, t) <==> Covers(e, tb, p, t, id)
    {
      ExactRows(e, tb, p, t, id);
    }
  }

  /** The status of a cell over an exact slice: of its chunks some count as indexed; if the
      policy has no term at all, any that does reads as stale. */
  ghost function CellOver(ids: set<int>, indexed: set<int>, noTerms: bool): CellStatus {
    if ids == {} then NotChunked
    else if noTerms && indexed != {} then Stale
    else if indexed == ids then Complete
    else if indexed == {} then Missing
    else Partial
  }

  lemma NoRowsNoCorpus(stats: StatTable, p: string, t: TokenizerName)
    ensures StatSlice(stats, p, t) == map[] ==> StatisticsCorpus(stats, p, t) == 0
  {
    if StatSlice(stats, p, t) == map[] { assert CorpusCounts(StatSlice(stats, p, t)) == {}; }
  }

  lemma ExactCorpus(e: Engine, tb: Tables, p: string, t: TokenizerName)
    requires SliceExact(e, tb, p, t)
    ensures var ids := PolicyIds(tb.chunks, p);
      && (|StatSlice(tb.stats, p, t)| == 0 <==> Vocabulary(e, tb.chunks, ids, t) == {})
      && StatisticsCorpus(tb.stats, p, t) == if |StatSlice(tb.stats, p, t)| == 0 then 0 else |ids|
  {
    ExactStatistics(e, tb, p, t);
    NoRowsNoCorpus(tb.stats, p, t);
    assert |StatSlice(tb.stats, p, t)| == 0 <==> StatSlice(tb.stats, p, t) == map[];
  }

  lemma ExactCell(e: Engine, tb: Tables, p: string, t: TokenizerName, d: int)
    requires SliceExact(e, tb, p, t)
    ensures var ids := CellIds(tb.chunks, d, p);
      Cell(tb, d, p, t)
        == CellOver(ids, Covered(e, tb, p, t, ids), Vocabulary(e, tb.chunks, PolicyIds(tb.chunks, p), t) == {})
  {
    CellSizes(tb, d, p, t);
    ExactCorpus(e, tb, p, t);
    ExactIndexedIds(e, tb, p, t, d);
  }

  lemma TokensMakeVocabulary(e: Engine, chunks: Chunks, ids: set<int>, t: TokenizerName, id: int)
    requires id in ids && ChunkTokens(e, chunks, t, id) != []
    ensures Vocabulary(e, chunks, ids, t) != {}
  {
    assert ChunkTokens(e, chunks, t, id)[0] in Vocabulary(e, chunks, ids, t);
  }

  // ---------------------------------------------------------------- right after a refresh

  /** What the statistics of a refreshed slice say. */
  lemma RefreshedStatistics(e: Engine, tb: Tables, p: string, t: TokenizerName)
    requires Refreshable(e, tb.chunks, p, t)
    ensures var after, ids := Refreshed(e, tb, p, t), PolicyIds(tb.chunks, p);
      && (StatSlice(after.stats, p, t) == map[] <==> Vocabulary(e, tb.chunks, ids, t) == {})
      && (StatSlice(after.stats, p, t) != map[] ==> StatisticsCorpus(after.stats, p, t) == |ids|)
  {
    RefreshedSliceIsExact(e, tb, p, t);
    ExactStatistics(e, Refreshed(e, tb, p, t), p, t);
  }

  /** A refresh deletes the foreign rows of chunks with tokens and keeps the others, so it
      does not change which chunks count as indexed. */
  lemma CoversAfterRefresh(e: Engine, tb: Tables, p: string, t: TokenizerName, id: int)
    requires Refreshable(e, tb.chunks, p, t) && id in PolicyIds(tb.chunks, p)
    ensures Covers(e, Refreshed(e, tb, p, t), p, t, id) <==> Covers(e, tb, p, t, id)
  {
    var after := Refreshed(e, tb, p, t);
    if ChunkTokens(e, tb.chunks, t, id) == [] {
      forall k: TermKey | k.chunk == id && k.tokenizer == t
        ensures k in after.terms && after.terms[k].policy != p <==> k in tb.terms && tb.terms[k].policy != p
      {
        RefreshedTermAt(e, tb, p, t, k);
      }
    }
  }

  /** Right after a refresh, of any tables, a chunk has rows exactly when it has tokens or
      had a foreign row. */
  lemma RowsAfterRefresh(e: Engine, tb: Tables, p: string, t: TokenizerName, id: int)
    requires Refreshable(e, tb.chunks, p, t) && id in PolicyIds(tb.chunks, p)
    ensures HasRows(Refreshed(e, tb, p, t).terms, id, t)
      <==> ChunkTokens(e, tb.chunks, t, id) != [] || Foreign(tb, p, t, id)
  {
    RefreshedSliceIsExact(e, tb, p, t);
    ExactRows(e, Refreshed(e, tb, p, t), p, t, id);
    CoversAfterRefresh(e, tb, p, t, id);
  }

  /** Over filed tables: exactly when it has tokens. */
  lemma RowsAreTokens(e: Engine, tb: Tables, p: string, t: TokenizerName, id: int)
    requires Refreshable(e, tb.chunks, p, t) && Filed(tb) && id in PolicyIds(tb.chunks, p)
    ensures HasRows(Refreshed(e, tb, p, t).terms, id, t) <==> ChunkTokens(e, tb.chunks, t, id) != []
  {
    RowsAfterRefresh(e, tb, p, t, id);
  }

  lemma CellFromCovered(e: Engine, tb: Tables, p: string, t: TokenizerName, d: int)
    requires Refreshable(e, tb.chunks, p, t)
    ensures var ids := CellIds(tb.chunks, d, p);
      Cell(Refreshed(e, tb, p, t), d, p, t)
        == CellOver(ids, Covered(e, tb, p, t, ids), Vocabulary(e, tb.chunks, PolicyIds(tb.chunks, p), t) == {})
  {
    var after, ids := Refreshed(e, tb, p, t), CellIds(tb.chunks, d, p);
    RefreshedSliceIsExact(e, tb, p, t);
    ExactCell(e, after, p, t, d);
    CellSizes(tb, d, p, t);
    CoveredAfterRefresh(e, tb, p, t, ids);
  }

  lemma CoveredAfterRefresh(e: Engine, tb: Tables, p: string, t: TokenizerName, ids: set<int>)
    requires Refreshable(e, tb.chunks, p, t) && ids <= PolicyIds(tb.chunks, p)
    ensures Covered(e, Refreshed(e, tb, p, t), p, t, ids) == Covered(e, tb, p, t, ids)
  {
    forall id | id in ids
      ensures Covers(e, Refreshed(e, tb, p, t), p, t, id) <==> Covers(e, tb, p, t, id)
    {
      CoversAfterRefresh(e, tb, p, t, id);
    }
  }

  lemma AllOrNone(e: Engine, tb: Tables, p: string, t: TokenizerName, ids: set<int>)
    ensures var indexed := Covered(e, tb, p, t, ids);
      && (indexed == ids <==> forall id :: id in ids ==> Covers(e, tb, p, t, id))
      && (indexed == {} <==> forall id :: id in ids ==> !Covers(e, tb, p, t, id))
  {
    var indexed := Covered(e, tb, p, t, ids);
    assert forall id :: id in indexed <==> id in ids && Covers(e, tb, p, t, id);
    if id :| id in ids && !Covers(e, tb, p, t, id) { assert id !in indexed; }
    if id :| id in ids && Covers(e, tb, p, t, id) { assert id in indexed; }
  }

  /** Exactly what the cells of the policy read right after a refresh, of any tables.  A
      cell is stale if and only if the policy has no term at all and a chunk of the cell has
      a foreign row; it is complete if and only if it has a chunk, the policy has a term and
      every chunk of the cell has tokens or a foreign row. */
  lemma CellsAfterRefresh(e: Engine, tb: Tables, p: string, t: TokenizerName, d: int)
    requires Refreshable(e, tb.chunks, p, t)
    ensures var cell, ids := Cell(Refreshed(e, tb, p, t), d, p, t), CellIds(tb.chunks, d, p);
      var terms := Vocabulary(e, tb.chunks, PolicyIds(tb.chunks, p), t);
      && (cell == NotChunked <==> ids == {})
      && (cell == Stale <==> terms == {} && exists id :: id in ids && Foreign(tb, p, t, id))
      && (cell == Complete <==> ids != {} && terms != {} && forall id :: id in ids ==>
            ChunkTokens(e, tb.chunks, t, id) != [] || Foreign(tb, p, t, id))
      && (cell == Missing <==> ids != {} && forall id :: id in ids ==>
            ChunkTokens(e, tb.chunks, t, id) == [] && !Foreign(tb, p, t, id))
  {
    var ids := CellIds(tb.chunks, d, p);
    CellFromCovered(e, tb, p, t, d);
    AllOrNone(e, tb, p, t, ids);
    forall id | id in ids && ChunkTokens(e, tb.chunks, t, id) != []
      ensures Vocabulary(e, tb.chunks, PolicyIds(tb.chunks, p), t) != {}
    {
      TokensMakeVocabulary(e, tb.chunks, PolicyIds(tb.chunks, p), t, id);
    }
  }

  /** Over filed tables no cell of the policy is stale right after a refresh; a chunked cell
      is complete exactly when all its chunks yield a token and missing exactly when none
      does -- a chunk without tokens keeps its document incomplete for good. */
  lemma FiledCellsAfterRefresh(e: Engine, tb: Tables, p: string, t: TokenizerName, d: int)
    requires Refreshable(e, tb.chunks, p, t) && Filed(tb)
    ensures var cell, ids := Cell(Refreshed(e, tb, p, t), d, p, t), CellIds(tb.chunks, d, p);
      && cell != Stale
      && (cell == NotChunked <==> ids == {})
      && (cell == Complete <==> ids != {} && forall id :: id in ids ==> ChunkTokens(e, tb.chunks, t, id) != [])
      && (cell == Missing <==> ids != {} && forall id :: id in ids ==> ChunkTokens(e, tb.chunks, t, id) == [])
  {
    CellsAfterRefresh(e, tb, p, t, d);
    forall id | id in CellIds(tb.chunks, d, p) && ChunkTokens(e, tb.chunks, t, id) != []
      ensures Vocabulary(e, tb.chunks, PolicyIds(tb.chunks, p), t) != {}
    {
      TokensMakeVocabulary(e, tb.chunks, PolicyIds(tb.chunks, p), t, id);
    }
  }

  // ---------------------------------------------------------------- runs

  datatype Operation =
    | Insert(id: int, chunk: Chunk)
    | DeleteChunks(document: int, policy: string)
    | Rewrite(id: int, policy: string, text: string, tokenizer: TokenizerName)
    | Refresh(policy: string, tokenizer: TokenizerName)

  ghost predicate Insertable(e: Engine, tb: Tables, id: int, chunk: Chunk) {
    && id > 0 && id !in tb.chunks && chunk.policy in tb.policies
    && Strip(e.alphabet, chunk.text) != "" && Strip(e.alphabet, chunk.policy) != ""
  }

  /** One operation in its own transaction: rejected or failing ones change nothing. */
  ghost function Apply(e: Engine, tb: Tables, op: Operation): Tables {
    match op
    case Insert(id, chunk) =>
      if Insertable(e, tb, id, chunk) then tb.(chunks := tb.chunks[id := chunk]) else tb
    case DeleteChunks(d, p) =>
      var chunks := map id | id in tb.chunks && !(tb.chunks[id].document == d && tb.chunks[id].policy == p) ::
        tb.chunks[id];
      tb.(chunks := chunks, terms := map k | k in tb.terms && k.chunk in chunks :: tb.terms[k])
    case Rewrite(id, p, text, t) =>
      if Writable(e, tb, id, p, text, t) then tb.(terms := WrittenTerms(tb.terms, id, p, t, Tokens(e, t, text))) else tb
    case Refresh(p, t) =>
      if p != "" && !t.Unsupported? then Attempt(e, tb, p, t) else tb
  }

  /** The database does what the run model says: every operation, called with names that
      are already validated and a fresh serial id, takes the tables where Apply takes them. */
  method Perform(db: IndexDatabase, op: Operation)
    requires WellFormed(db.Now())
    requires op.Insert? ==> op.id > 0 && op.id !in db.chunks
    requires op.Rewrite? || op.Refresh? ==> Strip(db.engine.alphabet, op.policy) == op.policy
    modifies db
    ensures db.Now() == Apply(db.engine, old(db.Now()), op) && WellFormed(db.Now())
  {
    StepStaysWellFormed(db.engine, db.Now(), op);
    match op
    case Insert(id, chunk) => var _ := db.InsertChunk(id, chunk);
    case DeleteChunks(d, p) => db.DeleteDocumentChunks(d, p);
    case Rewrite(id, p, text, t) => var _ := db.ReplaceChunkTerms(id, p, text, t);
    case Refresh(p, t) => var _ := db.RefreshPolicy(p, t);
  }

  ghost function Run(e: Engine, tb: Tables, ops: seq<Operation>): Tables
    decreases |ops|
  {
    if ops == [] then tb else Run(e, Apply(e, tb, ops[0]), ops[1..])
  }

  /** No operation of the run refreshes this slice. */
  ghost predicate NeverRefreshes(ops: seq<Operation>, p: string, t: TokenizerName) {
    forall i :: 0 <= i < |ops| ==> ops[i] != Refresh(p, t)
  }

  ghost predicate NeverDeletes(ops: seq<Operation>, p: string) {
    forall i :: 0 <= i < |ops| ==> !(ops[i].DeleteChunks? && ops[i].policy == p)
  }

  /** Every run keeps serial ids and foreign keys, whatever it does. */
  lemma {:induction false} RunsStayWellFormed(e: Engine, tb: Tables, ops: seq<Operation>)
    requires WellFormed(tb)
    ensures WellFormed(Run(e, tb, ops))
    decreases |ops|
  {
    if ops != [] {
      StepStaysWellFormed(e, tb, ops[0]);
      RunsStayWellFormed(e, Apply(e, tb, ops[0]), ops[1..]);
    }
  }

  lemma StepStaysWellFormed(e: Engine, tb: Tables, op: Operation)
    requires WellFormed(tb)
    ensures WellFormed(Apply(e, tb, op))
  {
    match op
    case Insert(id, chunk) =>
    case DeleteChunks(d, p) =>
    case Rewrite(id, p, text, t) =>
      if Writable(e, tb, id, p, text, t) {
        var tokens := Tokens(e, t, text);
        forall k | k in WrittenTerms(tb.terms, id, p, t, tokens)
          ensures k.chunk in tb.chunks && WrittenTerms(tb.terms, id, p, t, tokens)[k].policy in tb.policies
        {
          WrittenAt(tb.terms, id, p, t, tokens, k);
        }
      }
    case Refresh(p, t) =>
      if Refreshable(e, tb.chunks, p, t) { RefreshKeepsInvariants(e, tb, p, t); }
  }

  /** Only a committed refresh touches the statistics. */
  lemma AppliedStatistics(e: Engine, tb: Tables, op: Operation)
    ensures Apply(e, tb, op).stats == tb.stats
      || (op.Refresh? && Refreshable(e, tb.chunks, op.policy, op.tokenizer)
          && Apply(e, tb, op).stats == Refreshed(e, tb, op.policy, op.tokenizer).stats)
  {
  }

  lemma StepKeepsStatistics(e: Engine, tb: Tables, op: Operation, p: string, t: TokenizerName)
    requires op != Refresh(p, t)
    ensures StatSlice(Apply(e, tb, op).stats, p, t) == StatSlice(tb.stats, p, t)
  {
    AppliedStatistics(e, tb, op);
    if Apply(e, tb, op).stats != tb.stats {
      assert op == Refresh(op.policy, op.tokenizer);
      OtherStatsKept(e, tb, op.policy, op.tokenizer, p, t);
    }
  }

  /** Statistics rows change only in a refresh of their own slice. */
  lemma {:induction false} StatisticsOnlyChangeInRefresh(e: Engine, tb: Tables, ops: seq<Operation>, p: string,
                                                         t: TokenizerName)
    requires NeverRefreshes(ops, p, t)
    ensures StatSlice(Run(e, tb, ops).stats, p, t) == StatSlice(tb.stats, p, t)
    decreases |ops|
  {
    if ops != [] {
      assert ops[0] != Refresh(p, t) && NeverRefreshes(ops[1..], p, t);
      StepKeepsStatistics(e, tb, ops[0], p, t);
      StatisticsOnlyChangeInRefresh(e, Apply(e, tb, ops[0]), ops[1..], p, t);
    }
  }

  /** Exactly when a chunked cell reads stale, at any point of any run after a refresh of
      its slice: if the refresh found a term, when the number of chunks of the policy
      differs from the number at the refresh; if it found none, when some chunk of the
      cell has a row -- written since, or foreign and older than the refresh. */
  lemma StaleExactlyWhenCountsDiffer(e: Engine, tb: Tables, ops: seq<Operation>, p: string, t: TokenizerName, d: int)
    requires Refreshable(e, tb.chunks, p, t) && NeverRefreshes(ops, p, t)
    ensures var now := Run(e, Refreshed(e, tb, p, t), ops);
      CellIds(now.chunks, d, p) != {} ==>
        (Cell(now, d, p, t) == Stale <==>
          if Vocabulary(e, tb.chunks, PolicyIds(tb.chunks, p), t) != {}
          then |PolicyIds(now.chunks, p)| != |PolicyIds(tb.chunks, p)|
          else IndexedIds(now, d, p, t) != {})
  {
    var start := Refreshed(e, tb, p, t);
    var now := Run(e, start, ops);
    StatisticsOnlyChangeInRefresh(e, start, ops, p, t);
    RefreshedStatistics(e, tb, p, t);
    CellSizes(now, d, p, t);
    NoRowsNoCorpus(now.stats, p, t);
  }
}
