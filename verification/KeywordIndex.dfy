/** The tables behind the keyword index and the from-scratch description of what a
    refresh leaves in them. */
module KeywordIndex {
  import opened Collections
  import opened Tokenizer
  import opened TokenizerLaws
  import opened DecimalAverage

  // ---------------------------------------------------------------- tokenizers

  datatype TokenizerName = UnicodeWord | KoreanNgram | MecabKo | Unsupported(name: string)

  /** Everything the index borrows from outside: the character tables and the optional
      Mecab analyser, which may raise (None). */
  datatype Engine = Engine(alphabet: Alphabet, morphs: string -> Option<seq<string>>)

  /** Mecab morphs are folded; those that are not one whole word are dropped. */
  function WordMorphs(a: Alphabet, morphs: seq<string>): seq<string> {
    if morphs == [] then []
    else
      var folded := Fold(a, morphs[0]);
      (if IsWholeWord(a, folded) then [folded] else [])
      + WordMorphs(a, morphs[1..])
  }

  predicate IsWholeWord(a: Alphabet, s: string) {
    s != [] && forall k :: 0 <= k < |s| ==> a.isWord(s[k])
  }

  /** Morph by morph: what one morph yields is its folded form if that is one whole word. */
  lemma OneMorph(a: Alphabet, morph: string)
    ensures WordMorphs(a, [morph]) == if IsWholeWord(a, Fold(a, morph)) then [Fold(a, morph)] else []
  {
    assert [morph][1..] == [] && WordMorphs(a, []) == [];
  }

  lemma {:induction false} MorphsConcat(a: Alphabet, first: seq<string>, more: seq<string>)
    ensures WordMorphs(a, first + more) == WordMorphs(a, first) + WordMorphs(a, more)
  {
    if first == [] {
      assert first + more == more;
    } else {
      assert (first + more)[1..] == first[1..] + more;
      MorphsConcat(a, first[1..], more);
    }
  }

  lemma {:induction false} MorphMembers(a: Alphabet, morphs: seq<string>, x: string)
    ensures x in WordMorphs(a, morphs) <==>
      exists i :: 0 <= i < |morphs| && x == Fold(a, morphs[i]) && IsWholeWord(a, x)
  {
    if morphs != [] {
      MorphMembers(a, morphs[1..], x);
      assert forall i :: 0 < i < |morphs| ==> morphs[i] == morphs[1..][i - 1];
    }
  }

  /** Morphs that fold to whole words are all kept, in order. */
  lemma {:induction false} MorphsKept(a: Alphabet, morphs: seq<string>)
    requires forall i :: 0 <= i < |morphs| ==> IsWholeWord(a, Fold(a, morphs[i]))
    ensures WordMorphs(a, morphs) == Folded(a, morphs)
  {
    if morphs != [] {
      var rest := morphs[1..];
      assert forall i :: 0 <= i < |rest| ==> rest[i] == morphs[i + 1];
      MorphsKept(a, rest);
      assert Folded(a, morphs) == [Fold(a, morphs[0])] + Folded(a, rest);
    }
  }

  function Folded(a: Alphabet, morphs: seq<string>): seq<string> {
    seq(|morphs|, i requires 0 <= i < |morphs| => Fold(a, morphs[i]))
  }

  function Tokenize(e: Engine, t: TokenizerName, text: string): Option<seq<string>> {
    match t
    case UnicodeWord => Some(WordTokens(e.alphabet, text))
    case KoreanNgram => Some(KoreanTokens(e.alphabet, text))
    case MecabKo =>
      (match e.morphs(text)
       case None => None
       case Some(morphs) => Some(WordMorphs(e.alphabet, morphs)))
    case Unsupported(_) => None
  }

  function Tokens(e: Engine, t: TokenizerName, text: string): seq<string> {
    match Tokenize(e, t, text) case Some(tokens) => tokens case None => []
  }

  /** The word tokenizer never raises and yields the maximal word runs, folded, in order. */
  lemma WordTokenizerYields(e: Engine, text: string)
    ensures var words, runs := Tokenize(e, UnicodeWord, text), WordRuns(e.alphabet, text);
      && words.Some? && |words.value| == |runs|
      && forall i :: 0 <= i < |runs| ==>
           && IsMaximalRun(e.alphabet.isWord, text, runs[i])
           && words.value[i] == Fold(e.alphabet, text[runs[i].start..runs[i].end])
  {
    WordTokensAreTheMaximalWords(e.alphabet, text);
  }

  /** The n-gram tokenizer never raises and yields every word and as many more terms as the
      closed form says. */
  lemma GramTokenizerYields(e: Engine, text: string)
    ensures var words, terms := Tokens(e, UnicodeWord, text), Tokenize(e, KoreanNgram, text);
      terms.Some? && multiset(words) <= multiset(terms.value) && |terms.value| == TermTotal(e.alphabet, words)
  {
    KoreanLengthClosedForm(e.alphabet, WordTokens(e.alphabet, text));
    KoreanTokensDominateWords(e.alphabet, text);
  }

  /** The morphological tokenizer raises exactly when the analyser does; otherwise it yields
      the folded forms that are whole words, and all of them in order if all are. */
  lemma MorphTokenizerYields(e: Engine, text: string)
    ensures Tokenize(e, MecabKo, text).Some? <==> e.morphs(text).Some?
    ensures e.morphs(text).Some? ==> YieldsWholeWords(e.alphabet, e.morphs(text).value, Tokens(e, MecabKo, text))
  {
    if e.morphs(text).Some? { MorphsYieldWholeWords(e.alphabet, e.morphs(text).value); }
  }

  ghost predicate YieldsWholeWords(a: Alphabet, morphs: seq<string>, terms: seq<string>) {
    && (forall x :: x in terms <==> exists i :: 0 <= i < |morphs| && x == Fold(a, morphs[i]) && IsWholeWord(a, x))
    && ((forall i :: 0 <= i < |morphs| ==> IsWholeWord(a, Fold(a, morphs[i]))) ==>
          terms == Folded(a, morphs))
  }

  lemma MorphsYieldWholeWords(a: Alphabet, morphs: seq<string>)
    ensures YieldsWholeWords(a, morphs, WordMorphs(a, morphs))
  {
    if forall i :: 0 <= i < |morphs| ==> IsWholeWord(a, Fold(a, morphs[i])) { MorphsKept(a, morphs); }
    forall x
      ensures x in WordMorphs(a, morphs) <==>
        exists i :: 0 <= i < |morphs| && x == Fold(a, morphs[i]) && IsWholeWord(a, x)
    {
      MorphMembers(a, morphs, x);
    }
  }

  /** A name that is not supported never tokenizes. */
  lemma UnsupportedNeverTokenizes(e: Engine, name: string, text: string)
    ensures Tokenize(e, Unsupported(name), text) == None
  {
  }

  /** What the schema's check on a term refuses: nothing but spaces. */
  predicate Blank(term: string) {
    forall k :: 0 <= k < |term| ==> term[k] == ' '
  }

  lemma {:induction false} MorphIsNotBlank(a: Alphabet, morphs: seq<string>, x: string)
    requires x in WordMorphs(a, morphs)
    ensures !Blank(x)
  {
    var folded := Fold(a, morphs[0]);
    if folded != [] && x == folded && a.isWord(folded[0]) {
      assert folded[0] != ' ';
    } else {
      MorphIsNotBlank(a, morphs[1..], x);
    }
  }

  /** No tokenizer yields a term the schema refuses. */
  lemma TokensAreNotBlank(e: Engine, t: TokenizerName, text: string)
    ensures forall x :: x in Tokens(e, t, text) ==> !Blank(x)
  {
    forall x | x in Tokens(e, t, text)
      ensures !Blank(x)
    {
      match t
      case UnicodeWord => TermsAreSolid(e.alphabet, text, x); assert x[0] != ' ';
      case KoreanNgram => TermsAreSolid(e.alphabet, text, x); assert x[0] != ' ';
      case MecabKo => MorphIsNotBlank(e.alphabet, e.morphs(text).value, x);
      case Unsupported(_) =>
    }
  }

  // ---------------------------------------------------------------- tables

  const MAX_INT := 2_147_483_647
  /** NUMERIC(12, 4): twelve digits, four of them decimals. */
  const NUMERIC_12_4 := 1_000_000_000_000

  datatype Chunk = Chunk(document: int, policy: string, text: string)
  datatype TermKey = TermKey(chunk: int, tokenizer: TokenizerName, term: string)
  datatype TermRow = TermRow(policy: string, frequency: nat)
  datatype StatKey = StatKey(policy: string, tokenizer: TokenizerName, term: string)
  datatype StatRow = StatRow(documentFrequency: nat, corpusChunkCount: nat, averageLength: nat)

  type Chunks = map<int, Chunk>
  type TermTable = map<TermKey, TermRow>
  type StatTable = map<StatKey, StatRow>

  datatype Tables = Tables(policies: set<string>, chunks: Chunks, terms: TermTable, stats: StatTable)

  ghost predicate KnownChunks(policies: set<string>, chunks: Chunks) {
    forall id :: id in chunks ==> id > 0 && chunks[id].policy in policies
  }

  /** Serial ids and foreign keys: chunks and statistics name known policies, term rows
      name known chunks and policies. */
  ghost predicate WellFormed(tb: Tables) {
    && KnownChunks(tb.policies, tb.chunks)
    && (forall k :: k in tb.terms ==> k.chunk in tb.chunks && tb.terms[k].policy in tb.policies)
    && (forall k :: k in tb.stats ==> k.policy in tb.policies)
  }

  /** Every term row is filed under its chunk's own policy. */
  ghost predicate Filed(tb: Tables) {
    forall k :: k in tb.terms ==> k.chunk in tb.chunks && tb.terms[k].policy == tb.chunks[k.chunk].policy
  }

  function PolicyIds(chunks: Chunks, p: string): set<int> {
    set id | id in chunks && chunks[id].policy == p
  }

  // ---------------------------------------------------------------- the specification

  /** The tokens of a chunk. */
  function ChunkTokens(e: Engine, chunks: Chunks, t: TokenizerName, id: int): seq<string> {
    if id in chunks then Tokens(e, t, chunks[id].text) else []
  }

  /** Simple thing 1: one row per chunk and distinct token, with the exact count. */
  ghost function CountedTerms(e: Engine, chunks: Chunks, ids: set<int>, p: string, t: TokenizerName): TermTable {
    map k | k in TermKeys(e, chunks, ids, t) :: TermRow(p, multiset(ChunkTokens(e, chunks, t, k.chunk))[k.term])
  }

  ghost function TermKeys(e: Engine, chunks: Chunks, ids: set<int>, t: TokenizerName): (keys: set<TermKey>)
    ensures forall k :: k in keys <==>
      k.chunk in ids && k.tokenizer == t && k.term in ChunkTokens(e, chunks, t, k.chunk)
  {
    set id, x | id in ids && x in ChunkTokens(e, chunks, t, id) :: TermKey(id, t, x)
  }

  /** The chunks of `ids` that contain term x. */
  ghost function Containing(e: Engine, chunks: Chunks, ids: set<int>, t: TokenizerName, x: string): set<int> {
    set id | id in ids && x in ChunkTokens(e, chunks, t, id)
  }

  ghost function Vocabulary(e: Engine, chunks: Chunks, ids: set<int>, t: TokenizerName): (terms: set<string>)
    ensures forall x :: x in terms <==> exists id :: id in ids && x in ChunkTokens(e, chunks, t, id)
  {
    set id, x | id in ids && x in ChunkTokens(e, chunks, t, id) :: x
  }

  ghost function TotalLength(e: Engine, chunks: Chunks, ids: set<int>, t: TokenizerName): nat {
    LengthsAddUp(e, chunks, ids, t);
    SumOver(ids, id => |ChunkTokens(e, chunks, t, id)|)
  }

  /** Simple thing 2: one row per distinct term of the policy, with the exact number of
      chunks containing it, the number of chunks and the given average. */
  ghost function CountedStats(e: Engine, chunks: Chunks, p: string, t: TokenizerName, average: nat): StatTable {
    var ids := PolicyIds(chunks, p);
    map x | x in Vocabulary(e, chunks, ids, t) ::
      StatKey(p, t, x) := StatRow(|Containing(e, chunks, ids, t, x)|, |ids|, average)
  }

  /** The terms table after the first delete and the rewriting of the chunks `done`: the
      first delete goes by policy, the per-chunk deletes by chunk id only. */
  ghost function RebuiltTerms(e: Engine, terms: TermTable, chunks: Chunks, done: set<int>, p: string,
                              t: TokenizerName): TermTable
  {
    (map k | k in terms && !Overwritten(e, terms, chunks, done, p, t, k) :: terms[k])
    + CountedTerms(e, chunks, done, p, t)
  }

  ghost predicate Overwritten(e: Engine, terms: TermTable, chunks: Chunks, done: set<int>, p: string,
                              t: TokenizerName, k: TermKey)
    requires k in terms
  {
    k.tokenizer == t && (terms[k].policy == p || (k.chunk in done && ChunkTokens(e, chunks, t, k.chunk) != []))
  }

  // ---------------------------------------------------------------- single statements

  /** DELETE by chunk id and tokenizer. */
  function DeleteChunkTerms(terms: TermTable, id: int, t: TokenizerName): TermTable {
    map k | k in terms && !(k.chunk == id && k.tokenizer == t) :: terms[k]
  }

  /** INSERT of one row per distinct token of a chunk. */
  function ChunkTermRows(id: int, p: string, t: TokenizerName, tokens: seq<string>): TermTable {
    map x | x in tokens :: TermKey(id, t, x) := TermRow(p, multiset(tokens)[x])
  }

  /** Rows of one chunk replaced by the given tokens. */
  function WrittenTerms(terms: TermTable, id: int, p: string, t: TokenizerName, tokens: seq<string>): TermTable {
    DeleteChunkTerms(terms, id, t) + ChunkTermRows(id, p, t, tokens)
  }

  /** DELETE by policy name and tokenizer, from either table. */
  function DeletePolicyTerms(terms: TermTable, p: string, t: TokenizerName): TermTable {
    map k | k in terms && !(k.tokenizer == t && terms[k].policy == p) :: terms[k]
  }

  function DeletePolicyStats(stats: StatTable, p: string, t: TokenizerName): StatTable {
    map k | k in stats && !(k.policy == p && k.tokenizer == t) :: stats[k]
  }

  /** INSERT of one statistics row per counted term. */
  function StatRows(counts: multiset<string>, p: string, t: TokenizerName, chunkCount: nat, average: nat): StatTable {
    map x | x in counts :: StatKey(p, t, x) := StatRow(counts[x], chunkCount, average)
  }

  /** The average a refresh of this policy computes. */
  ghost function PolicyAverage(e: Engine, chunks: Chunks, p: string, t: TokenizerName): Quantized {
    var ids := PolicyIds(chunks, p);
    AverageLength(TotalLength(e, chunks, ids, t), |ids|)
  }

  lemma LengthsAddUp(e: Engine, chunks: Chunks, ids: set<int>, t: TokenizerName)
    ensures SumOver(ids, id => |ChunkTokens(e, chunks, t, id)|) >= 0
  {
    var f := id => |ChunkTokens(e, chunks, t, id)|;
    SumMonotone(ids, (id: int) => 0, f);
    SumBetween(ids, (id: int) => 0, 0, 0);
  }

  /** A chunk tokenizes and its counts fit the integer column. */
  ghost predicate ChunkFits(e: Engine, chunks: Chunks, t: TokenizerName, id: int) {
    && id in chunks
    && Tokenize(e, t, chunks[id].text).Some?
    && forall x :: x in ChunkTokens(e, chunks, t, id) ==> multiset(ChunkTokens(e, chunks, t, id))[x] <= MAX_INT
  }

  /** The average can be computed and, if there is a row to write, the values fit. */
  ghost predicate StatisticsFit(e: Engine, chunks: Chunks, p: string, t: TokenizerName) {
    var ids := PolicyIds(chunks, p);
    && PolicyAverage(e, chunks, p, t).Value?
    && (Vocabulary(e, chunks, ids, t) != {} ==>
          |ids| <= MAX_INT && PolicyAverage(e, chunks, p, t).tenThousandths < NUMERIC_12_4)
  }

  /** When a refresh commits: every chunk tokenizes and every value fits its column. */
  ghost predicate Refreshable(e: Engine, chunks: Chunks, p: string, t: TokenizerName) {
    && (forall id :: id in PolicyIds(chunks, p) ==> ChunkFits(e, chunks, t, id))
    && StatisticsFit(e, chunks, p, t)
  }

  /** The tables a committed refresh leaves. */
  ghost function Refreshed(e: Engine, tb: Tables, p: string, t: TokenizerName): Tables
    requires Refreshable(e, tb.chunks, p, t)
  {
    tb.(terms := RebuiltTerms(e, tb.terms, tb.chunks, PolicyIds(tb.chunks, p), p, t),
        stats := DeletePolicyStats(tb.stats, p, t)
               + CountedStats(e, tb.chunks, p, t, PolicyAverage(e, tb.chunks, p, t).tenThousandths))
  }

  // ---------------------------------------------------------------- loop steps

  lemma RebuiltAt(e: Engine, terms: TermTable, chunks: Chunks, done: set<int>, p: string, t: TokenizerName, k: TermKey)
    ensures var r := RebuiltTerms(e, terms, chunks, done, p, t);
      if k in TermKeys(e, chunks, done, t) then
        k in r && r[k] == TermRow(p, multiset(ChunkTokens(e, chunks, t, k.chunk))[k.term])
      else
        && (k in r <==> k in terms && !Overwritten(e, terms, chunks, done, p, t, k))
        && (k in r ==> r[k] == terms[k])
  {
  }

  lemma WrittenAt(terms: TermTable, id: int, p: string, t: TokenizerName, tokens: seq<string>, k: TermKey)
    ensures var r := WrittenTerms(terms, id, p, t, tokens);
      if k.chunk == id && k.tokenizer == t then
        && (k in r <==> k.term in tokens)
        && (k in r ==> r[k] == TermRow(p, multiset(tokens)[k.term]))
      else
        (k in r <==> k in terms) && (k in r ==> r[k] == terms[k])
  {
    var own := ChunkTermRows(id, p, t, tokens);
    assert k in own <==> k.chunk == id && k.tokenizer == t && k.term in tokens by {
      if k.chunk == id && k.tokenizer == t { assert k == TermKey(id, t, k.term); }
    }
  }

  lemma RebuildStepAt(e: Engine, terms: TermTable, chunks: Chunks, done: set<int>, p: string, t: TokenizerName, id: int,
                      before: TermTable, after: TermTable, goal: TermTable, k: TermKey)
    requires id !in done
    requires before == RebuiltTerms(e, terms, chunks, done, p, t)
    requires after == RebuiltTerms(e, terms, chunks, done + {id}, p, t)
    requires var tokens := ChunkTokens(e, chunks, t, id);
      goal == if tokens == [] then before else WrittenTerms(before, id, p, t, tokens)
    ensures k in after <==> k in goal
    ensures k in after ==> after[k] == goal[k]
  {
    RebuiltAt(e, terms, chunks, done, p, t, k);
    RebuiltAt(e, terms, chunks, done + {id}, p, t, k);
    WrittenAt(before, id, p, t, ChunkTokens(e, chunks, t, id), k);
  }

  /** Rewriting one more chunk: a no-op for a chunk without tokens, otherwise the rows of
      that chunk under this tokenizer are replaced whatever policy they were filed under. */
  lemma RebuildStep(e: Engine, terms: TermTable, chunks: Chunks, done: set<int>, p: string, t: TokenizerName, id: int)
    requires id !in done
    ensures var tokens := ChunkTokens(e, chunks, t, id);
      RebuiltTerms(e, terms, chunks, done + {id}, p, t) ==
        if tokens == [] then RebuiltTerms(e, terms, chunks, done, p, t)
        else WrittenTerms(RebuiltTerms(e, terms, chunks, done, p, t), id, p, t, tokens)
  {
    var tokens := ChunkTokens(e, chunks, t, id);
    var before := RebuiltTerms(e, terms, chunks, done, p, t);
    var after := RebuiltTerms(e, terms, chunks, done + {id}, p, t);
    var goal := if tokens == [] then before else WrittenTerms(before, id, p, t, tokens);
    forall k: TermKey
      ensures k in after <==> k in goal
      ensures k in after ==> after[k] == goal[k]
    {
      RebuildStepAt(e, terms, chunks, done, p, t, id, before, after, goal, k);
    }
    SameTable(after, goal);
  }

  lemma SameTable<K, V>(a: map<K, V>, b: map<K, V>)
    requires forall k :: k in a <==> k in b
    requires forall k :: k in a ==> a[k] == b[k]
    ensures a == b
  {
    assert a.Keys == b.Keys;
  }

  lemma ContainingStep(e: Engine, chunks: Chunks, done: set<int>, t: TokenizerName, id: int, x: string)
    requires id !in done
    ensures |Containing(e, chunks, done + {id}, t, x)|
         == |Containing(e, chunks, done, t, x)| + if x in ChunkTokens(e, chunks, t, id) then 1 else 0
  {
    var before, after := Containing(e, chunks, done, t, x), Containing(e, chunks, done + {id}, t, x);
    assert after == if x in ChunkTokens(e, chunks, t, id) then before + {id} else before;
  }

  lemma OwnTermKeys(e: Engine, chunks: Chunks, t: TokenizerName, id: int)
    ensures |TermKeys(e, chunks, {id}, t)| == |Elements(ChunkTokens(e, chunks, t, id))|
  {
    var own, terms := TermKeys(e, chunks, {id}, t), Elements(ChunkTokens(e, chunks, t, id));
    var term := (k: TermKey) => k.term;
    forall x | x in terms
      ensures exists k :: k in own && term(k) == x
    {
      assert TermKey(id, t, x) in own && term(TermKey(id, t, x)) == x;
    }
    BijectionPreservesSize(own, terms, term);
  }

  lemma TermKeysStep(e: Engine, chunks: Chunks, done: set<int>, t: TokenizerName, id: int)
    requires id !in done
    ensures |TermKeys(e, chunks, done + {id}, t)|
         == |TermKeys(e, chunks, done, t)| + |Elements(ChunkTokens(e, chunks, t, id))|
  {
    var before, own := TermKeys(e, chunks, done, t), TermKeys(e, chunks, {id}, t);
    assert TermKeys(e, chunks, done + {id}, t) == before + own && before !! own;
    OwnTermKeys(e, chunks, t, id);
  }

  /** Nothing rewritten yet: only the delete by policy has happened. */
  lemma RebuildNothing(e: Engine, terms: TermTable, chunks: Chunks, p: string, t: TokenizerName)
    ensures DeletePolicyTerms(terms, p, t) == RebuiltTerms(e, terms, chunks, {}, p, t)
  {
  }

  // ---------------------------------------------------------------- the accumulators

  /** What the refresh loop has accumulated after the chunks `done`. */
  ghost predicate Accumulated(e: Engine, chunks: Chunks, done: set<int>, t: TokenizerName,
                              lengths: seq<int>, counts: multiset<string>, rows: int) {
    && Sum(lengths) == TotalLength(e, chunks, done, t)
    && (forall x :: counts[x] == |Containing(e, chunks, done, t, x)|)
    && rows == |TermKeys(e, chunks, done, t)|
  }

  lemma NothingAccumulated(e: Engine, chunks: Chunks, t: TokenizerName)
    ensures Accumulated(e, chunks, {}, t, [], multiset{}, 0)
  {
  }

  lemma AccumulateChunk(e: Engine, chunks: Chunks, done: set<int>, t: TokenizerName,
                        lengths: seq<int>, counts: multiset<string>, rows: int, id: int)
    requires id !in done && Accumulated(e, chunks, done, t, lengths, counts, rows)
    ensures var tokens := ChunkTokens(e, chunks, t, id);
      Accumulated(e, chunks, done + {id}, t, lengths + [|multiset(tokens)|],
                  counts + multiset(Elements(tokens)), rows + |Elements(tokens)|)
  {
    var tokens := ChunkTokens(e, chunks, t, id);
    SumSnoc(lengths, |multiset(tokens)|);
    SumAdd(done, other => |ChunkTokens(e, chunks, t, other)|, id);
    forall x
      ensures (counts + multiset(Elements(tokens)))[x] == |Containing(e, chunks, done + {id}, t, x)|
    {
      ContainingStep(e, chunks, done, t, id, x);
    }
    TermKeysStep(e, chunks, done, t, id);
  }

  /** The state of a refresh after the chunks in `done`: the term table is rebuilt for them
      and the accumulators count them. */
  ghost predicate IndexedSoFar(e: Engine, original: TermTable, terms: TermTable, chunks: Chunks, done: set<int>,
                               p: string, t: TokenizerName,
                               lengths: seq<int>, counts: multiset<string>, rows: int) {
    terms == RebuiltTerms(e, original, chunks, done, p, t) && Accumulated(e, chunks, done, t, lengths, counts, rows)
  }

  lemma IndexOneMore(e: Engine, original: TermTable, terms: TermTable, chunks: Chunks, done: set<int>, p: string,
                     t: TokenizerName,
                     lengths: seq<int>, counts: multiset<string>, rows: int, id: int, tokens: seq<string>)
    requires IndexedSoFar(e, original, terms, chunks, done, p, t, lengths, counts, rows)
    requires id !in done && tokens == ChunkTokens(e, chunks, t, id)
    ensures IndexedSoFar(e, original, if tokens == [] then terms
      else WrittenTerms(terms, id, p, t, tokens), chunks, done + {id}, p, t,
                         lengths + [|multiset(tokens)|], counts + multiset(Elements(tokens)), rows + |Elements(tokens)|)
  {
    RebuildStep(e, original, chunks, done, p, t, id);
    AccumulateChunk(e, chunks, done, t, lengths, counts, rows, id);
  }

  lemma VocabularyHasHolders(e: Engine, chunks: Chunks, ids: set<int>, t: TokenizerName, x: string)
    ensures x in Vocabulary(e, chunks, ids, t) <==> |Containing(e, chunks, ids, t, x)| > 0
  {
    var holders := Containing(e, chunks, ids, t, x);
    if id :| id in ids && x in ChunkTokens(e, chunks, t, id) {
      assert id in holders;
    }
    if holders != {} {
      var id := Pick(holders);
      assert id in ids && x in ChunkTokens(e, chunks, t, id);
    }
  }

  /** The counter's terms are the policy's vocabulary. */
  lemma CountedTermsAreTheVocabulary(e: Engine, chunks: Chunks, ids: set<int>, counts: multiset<string>,
                                     t: TokenizerName)
    requires forall x :: counts[x] == |Containing(e, chunks, ids, t, x)|
    ensures Vocabulary(e, chunks, ids, t) == set x | x in counts
  {
    forall x
      ensures x in counts <==> x in Vocabulary(e, chunks, ids, t)
    {
      VocabularyHasHolders(e, chunks, ids, t, x);
    }
  }

  /** Counted terms are never blank, nor counted in more chunks than there are. */
  lemma CountedTermsAreInsertable(e: Engine, chunks: Chunks, ids: set<int>, counts: multiset<string>, t: TokenizerName)
    requires forall x :: counts[x] == |Containing(e, chunks, ids, t, x)|
    ensures forall x :: counts[x] <= |ids| && (x in counts ==> !Blank(x))
  {
    forall x
      ensures counts[x] <= |ids| && (x in counts ==> !Blank(x))
    {
      var holders := Containing(e, chunks, ids, t, x);
      SubsetSize(holders, ids);
      if x in counts {
        var id := Pick(holders);
        TokensAreNotBlank(e, t, chunks[id].text);
      }
    }
  }

  lemma StatRowAt(counts: multiset<string>, p: string, t: TokenizerName, n: nat, average: nat, k: StatKey)
    ensures var r := StatRows(counts, p, t, n, average);
      && (k in r <==> k.policy == p && k.tokenizer == t && k.term in counts)
      && (k in r ==> r[k] == StatRow(counts[k.term], n, average))
  {
    if k.policy == p && k.tokenizer == t { assert k == StatKey(p, t, k.term); }
  }

  lemma CountedStatAt(e: Engine, chunks: Chunks, p: string, t: TokenizerName, average: nat, k: StatKey)
    ensures var r, ids := CountedStats(e, chunks, p, t, average), PolicyIds(chunks, p);
      && (k in r <==> k.policy == p && k.tokenizer == t && k.term in Vocabulary(e, chunks, ids, t))
      && (k in r ==> r[k] == StatRow(|Containing(e, chunks, ids, t, k.term)|, |ids|, average))
  {
    if k.policy == p && k.tokenizer == t { assert k == StatKey(p, t, k.term); }
  }

  lemma CountedRows(e: Engine, chunks: Chunks, counts: multiset<string>, p: string, t: TokenizerName, average: nat)
    requires forall x :: counts[x] == |Containing(e, chunks, PolicyIds(chunks, p), t, x)|
    ensures StatRows(counts, p, t, |PolicyIds(chunks, p)|, average) == CountedStats(e, chunks, p, t, average)
  {
    var a, b := StatRows(counts, p, t, |PolicyIds(chunks, p)|, average), CountedStats(e, chunks, p, t, average);
    CountedTermsAreTheVocabulary(e, chunks, PolicyIds(chunks, p), counts, t);
    forall k: StatKey
      ensures k in a <==> k in b
      ensures k in a ==> a[k] == b[k]
    {
      StatRowAt(counts, p, t, |PolicyIds(chunks, p)|, average, k);
      CountedStatAt(e, chunks, p, t, average, k);
    }
    SameTable(a, b);
  }

  function Terms(counts: multiset<string>): set<string> {
    set x | x in counts
  }

  /** What the exact counter makes of the statistics: its terms are the vocabulary and can be
      inserted, and its rows are the counted ones. */
  lemma CountedStatistics(e: Engine, chunks: Chunks, counts: multiset<string>, p: string, t: TokenizerName,
                          average: nat)
    requires forall x :: counts[x] == |Containing(e, chunks, PolicyIds(chunks, p), t, x)|
    ensures var ids := PolicyIds(chunks, p);
      && Terms(counts) == Vocabulary(e, chunks, ids, t)
      && (counts == multiset{} <==> Vocabulary(e, chunks, ids, t) == {})
      && (forall x :: counts[x] <= |ids| && (x in counts ==> !Blank(x)))
      && StatRows(counts, p, t, |ids|, average) == CountedStats(e, chunks, p, t, average)
  {
    CountedTermsAreTheVocabulary(e, chunks, PolicyIds(chunks, p), counts, t);
    CountedTermsAreInsertable(e, chunks, PolicyIds(chunks, p), counts, t);
    CountedRows(e, chunks, counts, p, t, average);
    assert counts == multiset{} <==> forall x :: x !in counts;
  }
}
