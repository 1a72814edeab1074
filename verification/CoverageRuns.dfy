/** How far the coverage status can be trusted between refreshes. */
module CoverageRuns {
  import opened Collections
  import opened Tokenizer
  import opened TokenizerLaws
  import opened DecimalAverage
  import opened KeywordIndex
  import opened IndexStore
  import opened RefreshLaws
  import opened RefreshOrder
  import opened Coverage

  // ---------------------------------------------------------------- filing over runs

  /** An operation that files rows under a policy that is not the chunk's. */
  ghost predicate Misfiles(e: Engine, tb: Tables, op: Operation) {
    && op.Rewrite? && Writable(e, tb, op.id, op.policy, op.text, op.tokenizer)
    && Tokens(e, op.tokenizer, op.text) != [] && op.policy != tb.chunks[op.id].policy
  }

  /** One operation keeps the filing invariant unless it is a misfiling rewrite. */
  lemma StepKeepsFiling(e: Engine, tb: Tables, op: Operation)
    requires WellFormed(tb) && Filed(tb)
    ensures Filed(Apply(e, tb, op)) <==> !Misfiles(e, tb, op)
  {
    match op {
      case Insert(id, chunk) =>
      case DeleteChunks(d, p) =>
      case Rewrite(id, p, text, t) =>
        if Writable(e, tb, id, p, text, t) {
          if id in tb.chunks {
            RewriteKeepsFiling(e, tb, id, p, t, text);
          } else {
            forall k: TermKey
              ensures k in WrittenTerms(tb.terms, id, p, t, Tokens(e, t, text)) ==>
                k in tb.terms && WrittenTerms(tb.terms, id, p, t, Tokens(e, t, text))[k] == tb.terms[k]
            {
              WrittenAt(tb.terms, id, p, t, Tokens(e, t, text), k);
            }
          }
        }
      case Refresh(p, t) =>
        if Refreshable(e, tb.chunks, p, t) { RefreshKeepsInvariants(e, tb, p, t); }
    }
  }

  ghost predicate NeverMisfiles(e: Engine, tb: Tables, ops: seq<Operation>)
    decreases |ops|
  {
    ops == [] || (!Misfiles(e, tb, ops[0]) && NeverMisfiles(e, Apply(e, tb, ops[0]), ops[1..]))
  }

  /** Over any run of inserts, deletes, refreshes and rewrites under the chunks' own
      policies the index stays filed, so every refresh in it touches its own slice only. */
  lemma {:induction false} RunsStayFiled(e: Engine, tb: Tables, ops: seq<Operation>)
    requires WellFormed(tb) && Filed(tb) && NeverMisfiles(e, tb, ops)
    ensures WellFormed(Run(e, tb, ops)) && Filed(Run(e, tb, ops))
    decreases |ops|
  {
    if ops != [] {
      StepKeepsFiling(e, tb, ops[0]);
      StepStaysWellFormed(e, tb, ops[0]);
      RunsStayFiled(e, Apply(e, tb, ops[0]), ops[1..]);
    }
  }

  // ---------------------------------------------------------------- inserts

  lemma {:induction false} WithoutDeletesChunksStay(e: Engine, tb: Tables, ops: seq<Operation>, p: string)
    requires NeverDeletes(ops, p)
    ensures PolicyIds(tb.chunks, p) <= PolicyIds(Run(e, tb, ops).chunks, p)
    decreases |ops|
  {
    if ops != [] {
      assert NeverDeletes(ops[1..], p);
      WithoutDeletesChunksStay(e, Apply(e, tb, ops[0]), ops[1..], p);
    }
  }

  /** In a run without deletes, once a refresh has found a term, a chunked cell of the
      policy is stale exactly when a chunk has been inserted since -- and every chunked
      cell of the policy is stale at once. */
  lemma InsertMakesEveryCellStale(e: Engine, tb: Tables, ops: seq<Operation>, p: string, t: TokenizerName, d: int)
    requires Refreshable(e, tb.chunks, p, t) && NeverRefreshes(ops, p, t) && NeverDeletes(ops, p)
    requires Vocabulary(e, tb.chunks, PolicyIds(tb.chunks, p), t) != {}
    ensures var now := Run(e, Refreshed(e, tb, p, t), ops);
      CellIds(now.chunks, d, p) != {} ==>
        (Cell(now, d, p, t) == Stale <==> PolicyIds(now.chunks, p) != PolicyIds(tb.chunks, p))
  {
    var now := Run(e, Refreshed(e, tb, p, t), ops);
    StaleExactlyWhenCountsDiffer(e, tb, ops, p, t, d);
    WithoutDeletesChunksStay(e, Refreshed(e, tb, p, t), ops, p);
    SubsetSize(PolicyIds(tb.chunks, p), PolicyIds(now.chunks, p));
  }

  // ---------------------------------------------------------------- a delete cancels an insert

  /** Swapping one chunk for another after a refresh. */
  ghost function Swap(d: int, p: string, newId: int, chunk: Chunk): seq<Operation> {
    [DeleteChunks(d, p), Insert(newId, chunk)]
  }

  lemma SwappedTables(e: Engine, tb: Tables, d: int, p: string, oldId: int, newId: int, chunk: Chunk)
    requires CellIds(tb.chunks, d, p) == {oldId}
    requires Insertable(e, tb, newId, chunk) && chunk.policy == p
    ensures var now := Run(e, tb, Swap(d, p, newId, chunk));
      && now.stats == tb.stats
      && (forall id :: id in now.chunks <==> id == newId || (id in tb.chunks && id != oldId))
      && now.chunks[newId] == chunk
      && (forall id :: id in tb.chunks && id != oldId ==> now.chunks[id] == tb.chunks[id])
      && now.terms == map k | k in tb.terms && k.chunk in tb.chunks && k.chunk != oldId :: tb.terms[k]
  {
    var ops := Swap(d, p, newId, chunk);
    var mid := Apply(e, tb, ops[0]);
    assert forall id :: id in tb.chunks && tb.chunks[id].document == d && tb.chunks[id].policy == p ==>
      id in CellIds(tb.chunks, d, p);
    assert oldId in CellIds(tb.chunks, d, p);
    assert mid.terms == map k | k in tb.terms && k.chunk in tb.chunks && k.chunk != oldId :: tb.terms[k];
    assert Run(e, tb, ops) == Run(e, mid, ops[1..]);
    assert ops[1..] == [Insert(newId, chunk)] && ops[1..][1..] == [];
    assert Run(e, mid, ops[1..]) == Apply(e, mid, Insert(newId, chunk));
  }

  lemma SwapKeepsCount(e: Engine, tb: Tables, d: int, p: string, oldId: int, newId: int, chunk: Chunk)
    requires CellIds(tb.chunks, d, p) == {oldId}
    requires Insertable(e, tb, newId, chunk) && chunk.policy == p
    ensures var ids := PolicyIds(Run(e, tb, Swap(d, p, newId, chunk)).chunks, p);
      ids == PolicyIds(tb.chunks, p) - {oldId} + {newId} && |ids| == |PolicyIds(tb.chunks, p)|
  {
    SwappedTables(e, tb, d, p, oldId, newId, chunk);
    assert oldId in CellIds(tb.chunks, d, p);
    var before, ids := PolicyIds(tb.chunks, p), PolicyIds(Run(e, tb, Swap(d, p, newId, chunk)).chunks, p);
    forall id
      ensures id in ids <==> id in before - {oldId} + {newId}
    {
    }
    assert oldId in before && newId !in before;
  }

  lemma NewChunkHasNoRows(e: Engine, tb: Tables, d: int, p: string, t: TokenizerName, oldId: int, newId: int,
                          chunk: Chunk)
    requires WellFormed(tb) && CellIds(tb.chunks, d, p) == {oldId}
    requires Insertable(e, tb, newId, chunk) && chunk.policy == p
    ensures var now := Run(e, tb, Swap(d, p, newId, chunk));
      && !HasRows(now.terms, newId, t)
      && forall id :: id in tb.chunks && id != oldId ==> (HasRows(now.terms, id, t) <==> HasRows(tb.terms, id, t))
  {
    SwappedTables(e, tb, d, p, oldId, newId, chunk);
    var now := Run(e, tb, Swap(d, p, newId, chunk));
    forall id | id in tb.chunks && id != oldId
      ensures HasRows(now.terms, id, t) <==> HasRows(tb.terms, id, t)
    {
      if k :| k in tb.terms && k.chunk == id && k.tokenizer == t { assert k in now.terms; }
    }
  }

  /** The staleness test compares counts only: after a one-for-one swap no cell of the
      policy reads stale, although the new chunk has no term row and the statistics are
      still those of the old chunks. */
  lemma SwapHidesStaleness(e: Engine, tb: Tables, p: string, t: TokenizerName, d: int, oldId: int, newId: int,
                           chunk: Chunk)
    requires WellFormed(tb) && Refreshable(e, tb.chunks, p, t)
    requires Vocabulary(e, tb.chunks, PolicyIds(tb.chunks, p), t) != {}
    requires CellIds(tb.chunks, d, p) == {oldId}
    requires Insertable(e, tb, newId, chunk) && chunk.policy == p
    ensures var now := Run(e, Refreshed(e, tb, p, t), Swap(d, p, newId, chunk));
      && (forall d' :: Cell(now, d', p, t) != Stale)
      && !HasRows(now.terms, newId, t)
      && StatSlice(now.stats, p, t) == StatSlice(Refreshed(e, tb, p, t).stats, p, t)
  {
    var after, ops := Refreshed(e, tb, p, t), Swap(d, p, newId, chunk);
    var now := Run(e, after, ops);
    RefreshKeepsInvariants(e, tb, p, t);
    SwapKeepsCount(e, after, d, p, oldId, newId, chunk);
    NewChunkHasNoRows(e, after, d, p, t, oldId, newId, chunk);
    StatisticsOnlyChangeInRefresh(e, after, ops, p, t);
    forall d'
      ensures Cell(now, d', p, t) != Stale
    {
      StaleExactlyWhenCountsDiffer(e, tb, ops, p, t, d');
    }
  }

  // ---------------------------------------------------------------- a concrete run

  /** Two documents of one chunk each, every chunk one Hangul syllable. */
  ghost predicate TwoSyllables(chunks: Chunks, p: string) {
    && chunks.Keys == {1, 2}
    && (forall id :: id in chunks ==>
          chunks[id].document == id && chunks[id].policy == p && OneSyllable(chunks[id].text))
  }

  predicate OneSyllable(text: string) {
    |text| == 1 && IsHangul(text[0])
  }

  lemma SyllableChunk(e: Engine, chunks: Chunks, id: int)
    requires id in chunks && OneSyllable(chunks[id].text)
    ensures ChunkTokens(e, chunks, UnicodeWord, id) == [chunks[id].text]
    ensures ChunkFits(e, chunks, UnicodeWord, id)
  {
    HangulTextIsOneWord(e.alphabet, chunks[id].text);
  }

  lemma TwoSyllablesAverage(e: Engine, chunks: Chunks, p: string)
    requires TwoSyllables(chunks, p)
    ensures PolicyIds(chunks, p) == {1, 2}
    ensures PolicyAverage(e, chunks, p, UnicodeWord).Value?
    ensures PolicyAverage(e, chunks, p, UnicodeWord).tenThousandths <= 20_000
  {
    assert PolicyIds(chunks, p) == chunks.Keys;
    TwoSyllablesLength(e, chunks);
    AverageOfTwo();
    assert PolicyAverage(e, chunks, p, UnicodeWord) == AverageLength(2, 2);
  }

  lemma AverageOfTwo()
    ensures AverageLength(2, 2).Value? && AverageLength(2, 2).tenThousandths <= 20_000
  {
    AverageIsCorrectlyRounded(2, 2);
    RoundHalfEvenBetween(20_000, 2, 0, 20_000);
  }

  lemma TwoSyllablesLength(e: Engine, chunks: Chunks)
    requires chunks.Keys == {1, 2} && forall id :: id in chunks ==> OneSyllable(chunks[id].text)
    ensures TotalLength(e, chunks, {1, 2}, UnicodeWord) == 2
  {
    forall id | id in {1, 2}
      ensures |ChunkTokens(e, chunks, UnicodeWord, id)| == 1
    {
      assert id in chunks.Keys;
      SyllableChunk(e, chunks, id);
    }
    SumBetween({1, 2}, id => |ChunkTokens(e, chunks, UnicodeWord, id)|, 1, 1);
  }

  lemma TwoSyllablesAreRefreshable(e: Engine, chunks: Chunks, p: string)
    requires TwoSyllables(chunks, p)
    ensures Refreshable(e, chunks, p, UnicodeWord)
  {
    TwoSyllablesAverage(e, chunks, p);
    SyllableChunk(e, chunks, 1);
    SyllableChunk(e, chunks, 2);
  }

  lemma ReplacedChunks(e: Engine, tb: Tables, p: string, chunk: Chunk)
    requires TwoSyllables(tb.chunks, p) && Insertable(e, tb, 3, chunk) && chunk.document == 3 && chunk.policy == p
    ensures CellIds(tb.chunks, 2, p) == {2}
    ensures var now := Run(e, tb, Swap(2, p, 3, chunk));
      && now.chunks.Keys == {1, 3} && now.chunks[1] == tb.chunks[1] && now.chunks[3] == chunk
      && CellIds(now.chunks, 1, p) == {1} && CellIds(now.chunks, 3, p) == {3}
  {
    assert CellIds(tb.chunks, 2, p) == {2};
    SwappedTables(e, tb, 2, p, 2, 3, chunk);
    var now := Run(e, tb, Swap(2, p, 3, chunk));
    forall id
      ensures id in now.chunks <==> id == 1 || id == 3
    {
      assert id in tb.chunks.Keys <==> id == 1 || id == 2;
    }
    assert now.chunks.Keys == {1, 3};
  }

  lemma ReplacedRows(e: Engine, tb: Tables, p: string, chunk: Chunk)
    requires WellFormed(tb) && Filed(tb) && TwoSyllables(tb.chunks, p) && Insertable(e, tb, 3, chunk)
    requires chunk.document == 3 && chunk.policy == p && Refreshable(e, tb.chunks, p, UnicodeWord)
    ensures var now := Run(e, Refreshed(e, tb, p, UnicodeWord), Swap(2, p, 3, chunk));
      HasRows(now.terms, 1, UnicodeWord) && !HasRows(now.terms, 3, UnicodeWord)
  {
    var after := Refreshed(e, tb, p, UnicodeWord);
    assert 1 in tb.chunks.Keys && OneSyllable(tb.chunks[1].text);
    SyllableChunk(e, tb.chunks, 1);
    RefreshKeepsInvariants(e, tb, p, UnicodeWord);
    ReplacedChunks(e, after, p, chunk);
    NewChunkHasNoRows(e, after, 2, p, UnicodeWord, 2, 3, chunk);
    RowsAreTokens(e, tb, p, UnicodeWord, 1);
  }

  /** The second document is replaced by a third after a refresh: nothing reads stale, the
      first document is fully indexed, the third has no row, and the statistics keep a row
      for the term of the chunk that is gone. */
  lemma ReplacedSyllable(e: Engine, tb: Tables, p: string, chunk: Chunk)
    requires WellFormed(tb) && Filed(tb) && TwoSyllables(tb.chunks, p) && Insertable(e, tb, 3, chunk)
    requires chunk.document == 3 && chunk.policy == p
    ensures Refreshable(e, tb.chunks, p, UnicodeWord)
    ensures var now := Run(e, Refreshed(e, tb, p, UnicodeWord), Swap(2, p, 3, chunk));
      && (forall d :: Cell(now, d, p, UnicodeWord) != Stale)
      && now.chunks.Keys == {1, 3} && HasRows(now.terms, 1, UnicodeWord) && !HasRows(now.terms, 3, UnicodeWord)
      && StatKey(p, UnicodeWord, tb.chunks[2].text) in StatSlice(now.stats, p, UnicodeWord)
  {
    TwoSyllablesAreRefreshable(e, tb.chunks, p);
    ReplacedRows(e, tb, p, chunk);
    var after := Refreshed(e, tb, p, UnicodeWord);
    ReplacedChunks(e, after, p, chunk);
    TwoSyllablesAverage(e, tb.chunks, p);
    SyllableChunk(e, tb.chunks, 1);
    TokensMakeVocabulary(e, tb.chunks, PolicyIds(tb.chunks, p), UnicodeWord, 1);
    SwapHidesStaleness(e, tb, p, UnicodeWord, 2, 2, 3, chunk);
    KeptStatistic(e, tb, p, 2);
  }

  lemma KeptStatistic(e: Engine, tb: Tables, p: string, id: int)
    requires Refreshable(e, tb.chunks, p, UnicodeWord) && id in PolicyIds(tb.chunks, p)
      && OneSyllable(tb.chunks[id].text)
    ensures StatKey(p, UnicodeWord, tb.chunks[id].text) in StatSlice(Refreshed(e, tb, p, UnicodeWord).stats, p,
      UnicodeWord)
  {
    SyllableChunk(e, tb.chunks, id);
    RefreshedStatAt(e, tb, p, UnicodeWord, StatKey(p, UnicodeWord, tb.chunks[id].text));
  }

  lemma FullOrEmptyCell(tb: Tables, d: int, p: string, t: TokenizerName, id: int)
    requires CellIds(tb.chunks, d, p) == {id} && StatSlice(tb.stats, p, t) != map[] && Cell(tb, d, p, t) != Stale
    ensures Cell(tb, d, p, t) == if HasRows(tb.terms, id, t) then Complete else Missing
  {
    var indexed := IndexedIds(tb, d, p, t);
    assert indexed == if HasRows(tb.terms, id, t) then {id} else {};
  }

  /** One such run in full: documents GA and NA are chunked and refreshed, NA is deleted
      and DA inserted.  GA reads complete and DA missing although the statistics still
      count NA, and no cell asks for a refresh. */
  lemma CompleteCellOverOutdatedStatistics() returns (e: Engine, tb: Tables, p: string, da: Chunk)
    ensures WellFormed(tb) && Filed(tb) && Refreshable(e, tb.chunks, p, UnicodeWord) && 2 in tb.chunks
    ensures var now := Run(e, Refreshed(e, tb, p, UnicodeWord), Swap(2, p, 3, da));
      && (forall d :: Cell(now, d, p, UnicodeWord) != Stale)
      && Cell(now, 1, p, UnicodeWord) == Complete && Cell(now, 3, p, UnicodeWord) == Missing
      && StatKey(p, UnicodeWord, tb.chunks[2].text) in now.stats && 2 !in now.chunks
  {
    e, p := PlainEngine(), "p";
    tb := TwoDocuments({p}, p);
    da := Chunk(3, p, ['\U{B2E4}']);
    ReplacedCells(e, tb, p, da);
  }

  /** Every character but the space is a word character of its own; no optional tokenizer. */
  function PlainEngine(): Engine {
    var plain: Alphabet := CharacterTables(c => c != ' ', c => c == ' ', c => [c]);
    Engine(plain, text => None)
  }

  /** The documents GA and NA, not indexed yet. */
  function TwoDocuments(policies: set<string>, p: string): (tb: Tables)
    ensures TwoSyllables(tb.chunks, p) && Filed(tb)
    ensures p in policies ==> WellFormed(tb)
  {
    Tables(policies, map[1 := Chunk(1, p, ['\U{AC00}']), 2 := Chunk(2, p, ['\U{B098}'])], map[], map[])
  }

  lemma ReplacedCells(e: Engine, tb: Tables, p: string, chunk: Chunk)
    requires WellFormed(tb) && Filed(tb) && TwoSyllables(tb.chunks, p) && Insertable(e, tb, 3, chunk)
    requires chunk.document == 3 && chunk.policy == p
    ensures Refreshable(e, tb.chunks, p, UnicodeWord) && 2 in tb.chunks
    ensures var now := Run(e, Refreshed(e, tb, p, UnicodeWord), Swap(2, p, 3, chunk));
      && (forall d :: Cell(now, d, p, UnicodeWord) != Stale)
      && Cell(now, 1, p, UnicodeWord) == Complete && Cell(now, 3, p, UnicodeWord) == Missing
      && StatKey(p, UnicodeWord, tb.chunks[2].text) in now.stats && 2 !in now.chunks
  {
    ReplacedSyllable(e, tb, p, chunk);
    ReplacedChunks(e, Refreshed(e, tb, p, UnicodeWord), p, chunk);
    var now := Run(e, Refreshed(e, tb, p, UnicodeWord), Swap(2, p, 3, chunk));
    assert 2 in tb.chunks.Keys && 2 !in now.chunks.Keys;
    FullOrEmptyCell(now, 1, p, UnicodeWord, 1);
    FullOrEmptyCell(now, 3, p, UnicodeWord, 3);
  }

  /** The term row of chunk 1 for its one word, as a rewrite under policy q files it. */
  lemma MisfiledSyllable(e: Engine, tb: Tables, p: string, q: string)
    requires WellFormed(tb) && TwoSyllables(tb.chunks, p) && p != q && q != "" && q in tb.policies
    ensures var k, text := TermKey(1, UnicodeWord, tb.chunks[1].text), tb.chunks[1].text;
      var mid := Apply(e, tb, Rewrite(1, q, text, UnicodeWord));
      && mid.chunks == tb.chunks && mid.policies == tb.policies
      && k in mid.terms && mid.terms[k].policy == q && Misfiled(e, mid, p, UnicodeWord, k)
  {
    var text := tb.chunks[1].text;
    assert 1 in tb.chunks.Keys;
    SyllableChunk(e, tb.chunks, 1);
    assert multiset([text])[text] == 1;
    assert Writable(e, tb, 1, q, text, UnicodeWord);
    WrittenAt(tb.terms, 1, q, UnicodeWord, Tokens(e, UnicodeWord, text), TermKey(1, UnicodeWord, text));
  }

  /** Chunk 1 is rewritten under policy q, then policy p is refreshed. */
  ghost function MisfilingRun(chunks: Chunks, p: string, q: string): seq<Operation>
    requires 1 in chunks
  {
    [Rewrite(1, q, chunks[1].text, UnicodeWord), Refresh(p, UnicodeWord)]
  }

  lemma TwoSteps(e: Engine, tb: Tables, first: Operation, second: Operation)
    ensures Run(e, tb, [first]) == Apply(e, tb, first)
    ensures Run(e, tb, [first, second]) == Apply(e, Apply(e, tb, first), second)
  {
    var ops := [first, second];
    assert ops[1..] == [second] && [second][1..] == [] && [first][1..] == [];
    assert Run(e, tb, ops) == Run(e, Apply(e, tb, first), [second]);
  }

  lemma CommittedRefresh(e: Engine, tb: Tables, p: string, t: TokenizerName)
    requires Refreshable(e, tb.chunks, p, t) && p != "" && !t.Unsupported?
    ensures Apply(e, tb, Refresh(p, t)) == Refreshed(e, tb, p, t)
  {
    var op := Refresh(p, t);
    assert op.Refresh? && op.policy == p && op.tokenizer == t;
    assert Apply(e, tb, op) == Attempt(e, tb, p, t);
  }

  lemma MisfiledRowLeavesItsSlice(e: Engine, tb: Tables, p: string, t: TokenizerName, q: string, k: TermKey)
    requires Refreshable(e, tb.chunks, p, t) && p != q && Misfiled(e, tb, p, t, k)
    ensures k !in TermSlice(Refreshed(e, tb, p, t).terms, q, t)
  {
    MisfiledRowIsLost(e, tb, p, t, k);
  }

  /** The rewrite files a row under q; the refresh of p deletes it and files its own instead. */
  lemma RefreshTakesTheMisfiledRow(e: Engine, tb: Tables, p: string, q: string)
    requires WellFormed(tb) && TwoSyllables(tb.chunks, p) && p != q && p != "" && q != "" && q in tb.policies
    requires 1 in tb.chunks
    ensures var k, ops := TermKey(1, UnicodeWord, tb.chunks[1].text), MisfilingRun(tb.chunks, p, q);
      && k in TermSlice(Run(e, tb, ops[..1]).terms, q, UnicodeWord)
      && k !in TermSlice(Run(e, tb, ops).terms, q, UnicodeWord)
  {
    var k, ops := TermKey(1, UnicodeWord, tb.chunks[1].text), MisfilingRun(tb.chunks, p, q);
    var mid := Apply(e, tb, ops[0]);
    MisfiledSyllable(e, tb, p, q);
    TwoSteps(e, tb, ops[0], ops[1]);
    assert ops[..1] == [ops[0]];
    TwoSyllablesAreRefreshable(e, mid.chunks, p);
    CommittedRefresh(e, mid, p, UnicodeWord);
    MisfiledRowLeavesItsSlice(e, mid, p, UnicodeWord, q, k);
  }

  /** So a refresh can delete another policy's row, from filed tables, in two operations. */
  lemma RefreshTakesAnotherPolicysRow() returns (e: Engine, tb: Tables, k: TermKey)
    ensures WellFormed(tb) && Filed(tb) && 1 in tb.chunks && tb.chunks[1].policy == "p"
    ensures k in TermSlice(Run(e, tb, MisfilingRun(tb.chunks, "p", "q")[..1]).terms, "q", UnicodeWord)
    ensures k !in TermSlice(Run(e, tb, MisfilingRun(tb.chunks, "p", "q")).terms, "q", UnicodeWord)
  {
    e, tb := PlainEngine(), TwoDocuments({"p", "q"}, "p");
    k := TermKey(1, UnicodeWord, ['\U{AC00}']);
    RefreshTakesTheMisfiledRow(e, tb, "p", "q");
  }
}
