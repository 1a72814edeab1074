/** Concrete runs over tables with a misfiled row: a rewrite files a row of a chunk without
    tokens under another policy, and what the chunk's own policy reads after its refresh. */
module MisfiledRuns {
  import opened Collections
  import opened Tokenizer
  import opened DecimalAverage
  import opened KeywordIndex
  import opened IndexStore
  import opened RefreshLaws
  import opened RefreshOrder
  import opened Coverage
  import opened CoverageRuns

  // ---------------------------------------------------------------- small policies

  /** A policy of one or two chunks with at most one token each can be refreshed. */
  lemma SmallPolicyIsRefreshable(e: Engine, chunks: Chunks, p: string)
    requires 1 <= |PolicyIds(chunks, p)| <= 2
    requires forall id :: id in PolicyIds(chunks, p) ==> |ChunkTokens(e, chunks, UnicodeWord, id)| <= 1
    ensures Refreshable(e, chunks, p, UnicodeWord)
  {
    var ids := PolicyIds(chunks, p);
    SmallAverage(e, chunks, ids);
    forall id | id in ids
      ensures ChunkFits(e, chunks, UnicodeWord, id)
    {
      FewTokensFit(ChunkTokens(e, chunks, UnicodeWord, id));
    }
  }

  lemma SmallAverage(e: Engine, chunks: Chunks, ids: set<int>)
    requires 1 <= |ids| <= 2 && forall id :: id in ids ==> |ChunkTokens(e, chunks, UnicodeWord, id)| <= 1
    ensures var average := AverageLength(TotalLength(e, chunks, ids, UnicodeWord), |ids|);
      average.Value? && average.tenThousandths <= 10_000
  {
    SumBetween(ids, id => |ChunkTokens(e, chunks, UnicodeWord, id)|, 0, 1);
    var total := TotalLength(e, chunks, ids, UnicodeWord);
    AverageIsCorrectlyRounded(total, |ids|);
    RoundHalfEvenBetween(10_000 * total, |ids|, 0, 10_000);
  }

  lemma FewTokensFit(tokens: seq<string>)
    requires |tokens| <= 1
    ensures forall x :: multiset(tokens)[x] <= MAX_INT
  {
    if tokens != [] { assert tokens == [tokens[0]]; }
  }

  // ---------------------------------------------------------------- the misfiling rewrite

  const MARK := "!"
  const GA := ['\U{AC00}']

  /** Everything but the space and the exclamation mark is a word character. */
  function MarkEngine(): Engine {
    var marks: Alphabet := CharacterTables(c => c != ' ' && c != '!', c => c == ' ', c => [c]);
    Engine(marks, text => None)
  }

  lemma MarkHasNoTokens(chunks: Chunks, id: int)
    requires id in chunks && chunks[id].text == MARK
    ensures ChunkTokens(MarkEngine(), chunks, UnicodeWord, id) == []
  {
    NoWordsExactlyWithoutWordCharacters(MarkEngine().alphabet, MARK);
  }

  /** Chunk 1 is rewritten as the one syllable GA under policy q. */
  function Misfiling(q: string): Operation {
    Rewrite(1, q, GA, UnicodeWord)
  }

  /** The rewrite gives the chunk a foreign row. */
  lemma MisfilingIsForeign(e: Engine, tb: Tables, p: string, q: string)
    requires 1 in tb.chunks && p != q && q != "" && q in tb.policies
    ensures var mid := Apply(e, tb, Misfiling(q));
      mid.chunks == tb.chunks && Foreign(mid, p, UnicodeWord, 1)
  {
    OneSyllableTokens(e);
    WrittenAt(tb.terms, 1, q, UnicodeWord, [GA], TermKey(1, UnicodeWord, GA));
    assert Writable(e, tb, 1, q, GA, UnicodeWord);
    assert TermKey(1, UnicodeWord, GA) in Apply(e, tb, Misfiling(q)).terms;
  }

  lemma OneSyllableTokens(e: Engine)
    ensures Tokens(e, UnicodeWord, GA) == [GA] && multiset([GA])[GA] == 1
  {
    var chunks := map[1 := Chunk(1, "", GA)];
    SyllableChunk(e, chunks, 1);
  }

  // ---------------------------------------------------------------- refreshing again and again

  ghost function Refreshes(p: string, n: nat): seq<Operation> {
    seq(n, i => Refresh(p, UnicodeWord))
  }

  /** After one committed refresh any number of further ones changes nothing. */
  lemma {:induction false} MoreRefreshesChangeNothing(e: Engine, tb: Tables, p: string, n: nat)
    requires Refreshable(e, tb.chunks, p, UnicodeWord) && p != ""
    ensures Run(e, Refreshed(e, tb, p, UnicodeWord), Refreshes(p, n)) == Refreshed(e, tb, p, UnicodeWord)
  {
    if n > 0 {
      var once := Refreshed(e, tb, p, UnicodeWord);
      CommittedRefresh(e, once, p, UnicodeWord);
      RefreshIsIdempotent(e, tb, p, UnicodeWord);
      assert Refreshes(p, n)[1..] == Refreshes(p, n - 1);
      MoreRefreshesChangeNothing(e, tb, p, n - 1);
    }
  }

  /** A misfiling rewrite, then one or more refreshes of p. */
  lemma MisfiledThenRefreshed(e: Engine, tb: Tables, p: string, q: string, n: nat)
    requires Refreshable(e, tb.chunks, p, UnicodeWord) && p != "" && n > 0
    ensures Run(e, tb, [Misfiling(q)] + Refreshes(p, n)) == Refreshed(e, Apply(e, tb, Misfiling(q)), p, UnicodeWord)
  {
    var ops, mid := [Misfiling(q)] + Refreshes(p, n), Apply(e, tb, Misfiling(q));
    assert mid.chunks == tb.chunks;
    assert ops[1..] == Refreshes(p, n) && Refreshes(p, n)[1..] == Refreshes(p, n - 1);
    CommittedRefresh(e, mid, p, UnicodeWord);
    MoreRefreshesChangeNothing(e, mid, p, n - 1);
  }

  // ---------------------------------------------------------------- the two surprises

  /** Chunks of policies p and q without any row yet. */
  function NotIndexed(chunks: Chunks): (tb: Tables)
    requires KnownChunks({"p", "q"}, chunks)
    ensures tb.chunks == chunks && "q" in tb.policies && WellFormed(tb) && Filed(tb)
  {
    Tables({"p", "q"}, chunks, map[], map[])
  }

  /** A cell can read stale right after its refresh, and stay stale however often it is
      refreshed: the policy's only chunk has no token, but a row under another policy. */
  lemma StaleRightAfterRefresh() returns (e: Engine, tb: Tables)
    ensures WellFormed(tb) && Filed(tb) && Refreshable(e, tb.chunks, "p", UnicodeWord)
    ensures forall n :: n > 0 ==>
      Cell(Run(e, tb, [Misfiling("q")] + Refreshes("p", n)), 1, "p", UnicodeWord) == Stale
  {
    e, tb := MarkEngine(), NotIndexed(map[1 := Chunk(1, "p", MARK)]);
    LonelyMark(tb.chunks);
    ForeignRowMakesTheCellStale(e, tb, "p", "q", 1);
    forall n | n > 0
      ensures Cell(Run(e, tb, [Misfiling("q")] + Refreshes("p", n)), 1, "p", UnicodeWord) == Stale
    {
      MisfiledThenRefreshed(e, tb, "p", "q", n);
    }
  }

  /** The foreign row of chunk 1 makes its cell stale if the policy has no term. */
  lemma ForeignRowMakesTheCellStale(e: Engine, tb: Tables, p: string, q: string, d: int)
    requires 1 in tb.chunks && p != q && q != "" && q in tb.policies
    requires 1 in CellIds(tb.chunks, d, p) && Refreshable(e, tb.chunks, p, UnicodeWord)
    requires Vocabulary(e, tb.chunks, PolicyIds(tb.chunks, p), UnicodeWord) == {}
    ensures Cell(Refreshed(e, Apply(e, tb, Misfiling(q)), p, UnicodeWord), d, p, UnicodeWord) == Stale
  {
    MisfilingIsForeign(e, tb, p, q);
    CellsAfterRefresh(e, Apply(e, tb, Misfiling(q)), p, UnicodeWord, d);
  }

  lemma LonelyMark(chunks: Chunks)
    requires chunks == map[1 := Chunk(1, "p", MARK)]
    ensures 1 in CellIds(chunks, 1, "p")
    ensures Vocabulary(MarkEngine(), chunks, PolicyIds(chunks, "p"), UnicodeWord) == {}
    ensures Refreshable(MarkEngine(), chunks, "p", UnicodeWord)
  {
    assert PolicyIds(chunks, "p") == {1};
    MarkHasNoTokens(chunks, 1);
    SmallPolicyIsRefreshable(MarkEngine(), chunks, "p");
  }

  /** A document whose only chunk has no token can read complete right after a refresh: the
      chunk has a row under another policy, and another chunk of its own policy a term. */
  lemma CompleteWithoutTokens() returns (e: Engine, tb: Tables)
    ensures WellFormed(tb) && Filed(tb) && Refreshable(e, tb.chunks, "p", UnicodeWord)
    ensures CellIds(tb.chunks, 1, "p") == {1} && ChunkTokens(e, tb.chunks, UnicodeWord, 1) == []
    ensures Cell(Run(e, tb, [Misfiling("q")] + Refreshes("p", 1)), 1, "p", UnicodeWord) == Complete
  {
    e, tb := MarkEngine(), NotIndexed(map[1 := Chunk(1, "p", MARK), 2 := Chunk(2, "p", GA)]);
    MarkAndSyllable(tb.chunks);
    ForeignRowCompletesTheCell(e, tb, "p", "q", 1);
    MisfiledThenRefreshed(e, tb, "p", "q", 1);
  }

  /** The foreign row of chunk 1, the only one of its cell, makes the cell complete. */
  lemma ForeignRowCompletesTheCell(e: Engine, tb: Tables, p: string, q: string, d: int)
    requires 1 in tb.chunks && p != q && q != "" && q in tb.policies
    requires CellIds(tb.chunks, d, p) == {1} && Refreshable(e, tb.chunks, p, UnicodeWord)
    requires Vocabulary(e, tb.chunks, PolicyIds(tb.chunks, p), UnicodeWord) != {}
    ensures Cell(Refreshed(e, Apply(e, tb, Misfiling(q)), p, UnicodeWord), d, p, UnicodeWord) == Complete
  {
    MisfilingIsForeign(e, tb, p, q);
    CellsAfterRefresh(e, Apply(e, tb, Misfiling(q)), p, UnicodeWord, d);
  }

  lemma MarkAndSyllable(chunks: Chunks)
    requires chunks == map[1 := Chunk(1, "p", MARK), 2 := Chunk(2, "p", GA)]
    ensures CellIds(chunks, 1, "p") == {1} && ChunkTokens(MarkEngine(), chunks, UnicodeWord, 1) == []
    ensures Vocabulary(MarkEngine(), chunks, PolicyIds(chunks, "p"), UnicodeWord) != {}
    ensures Refreshable(MarkEngine(), chunks, "p", UnicodeWord)
  {
    assert PolicyIds(chunks, "p") == {1, 2};
    MarkHasNoTokens(chunks, 1);
    SyllableChunk(MarkEngine(), chunks, 2);
    TokensMakeVocabulary(MarkEngine(), chunks, PolicyIds(chunks, "p"), UnicodeWord, 2);
    SmallPolicyIsRefreshable(MarkEngine(), chunks, "p");
  }

  // ---------------------------------------------------------------- a run over many policies

  /** A run can change a slice it does not refresh: after a misfiling rewrite of filed tables
      the work list [p] takes the row filed under q. */
  lemma RunChangesASliceItDoesNotRefresh() returns (e: Engine, tb: Tables, first: Operation)
    ensures WellFormed(tb) && Filed(tb)
    ensures var before := Apply(e, tb, first);
      !SliceKept(before, AttemptAll(e, before, ["p"], UnicodeWord), "q", UnicodeWord)
  {
    var k;
    e, tb, k := RefreshTakesAnotherPolicysRow();
    var ops := MisfilingRun(tb.chunks, "p", "q");
    first := ops[0];
    TwoSteps(e, tb, ops[0], ops[1]);
    assert ops[..1] == [ops[0]] && ops == [ops[0], ops[1]];
    OneAttempt(e, Apply(e, tb, first), "p");
  }

  lemma OneAttempt(e: Engine, tb: Tables, p: string)
    requires p != ""
    ensures AttemptAll(e, tb, [p], UnicodeWord) == Apply(e, tb, Refresh(p, UnicodeWord))
  {
    assert [p][1..] == [];
    assert AttemptAll(e, tb, [p], UnicodeWord) == AttemptAll(e, Attempt(e, tb, p, UnicodeWord), [], UnicodeWord);
  }
}
