/** What the tokenizers promise: Korean recall, the exact number of n-grams, and how the
    n-gram tokenizer compares with the word tokenizer. */
module TokenizerLaws {
  import opened Tokenizer

  // ---------------------------------------------------------------- recall

  lemma {:induction false} PieceInRuns(s: string, spans: seq<Span>, k: nat, g: string)
    requires Within(spans, |s|) && k < |spans|
    requires g in GramsOfRun(s[spans[k].start..spans[k].end])
    ensures g in GramsOfRuns(s, spans)
  {
    if k > 0 {
      PieceInRuns(s, spans[1..], k - 1, g);
    }
  }

  lemma {:induction false} WithoutKeepsOthers(xs: seq<string>, x: string, skip: string)
    ensures x in Without(xs, skip) <==> x in xs && x != skip
  {
    if xs != [] {
      WithoutKeepsOthers(xs[1..], x, skip);
      assert xs == [xs[0]] + xs[1..];
    }
  }

  lemma SliceOfSlice(s: string, from: nat, to: nat, x: nat, y: nat)
    requires from <= to <= |s| && x <= y <= to - from
    ensures s[from..to][x..y] == s[from + x..from + y]
  {
    var inner, outer := s[from..to][x..y], s[from + x..from + y];
    assert |inner| == |outer|;
    assert forall k :: 0 <= k < |inner| ==> inner[k] == outer[k];
  }

  /** The pieces of a slice are slices of the whole. */
  lemma PieceOfSlice(s: string, from: nat, to: nat, n: nat, x: nat)
    requires from <= to <= |s| && 0 < n && x + n <= to - from
    ensures x < |Pieces(s[from..to], n)| == to - from - n + 1
    ensures Pieces(s[from..to], n)[x] == s[from + x..from + x + n]
  {
    SliceOfSlice(s, from, to, x, x + n);
  }

  lemma GramOfRunContaining(s: string, r: Span, p: nat, n: nat)
    requires r.start <= p && p + n <= r.end <= |s| && 2 <= n <= 3
    ensures s[p..p + n] in GramsOfRun(s[r.start..r.end])
  {
    PieceOfSlice(s, r.start, r.end, n, p - r.start);
    assert Pieces(s[r.start..r.end], n)[p - r.start] == s[p..p + n];
  }

  /** A Hangul 2- or 3-gram of a string is a piece of one of its Hangul runs. */
  lemma GramInsideRun(s: string, p: nat, n: nat)
    requires 2 <= n <= 3 && p + n <= |s| && forall k :: p <= k < p + n ==> IsHangul(s[k])
    ensures s[p..p + n] in GramsOfRuns(s, HangulRuns(s))
  {
    var r := StretchInsideOneRun(IsHangul, s, p, p + n);
    var spans := HangulRuns(s);
    var k :| 0 <= k < |spans| && spans[k] == r;
    GramOfRunContaining(s, r, p, n);
    PieceInRuns(s, spans, k, s[p..p + n]);
  }

  /** Folding keeps a Hangul substring, and shifts it to after the folded prefix. */
  lemma FoldKeepsHangulSubstring(a: Alphabet, token: string, at: nat, g: string)
    requires AllHangul(g) && at + |g| <= |token| && token[at..at + |g|] == g
    ensures var p := |Fold(a, token[..at])|;
      p + |g| <= |Fold(a, token)| && Fold(a, token)[p..p + |g|] == g
    ensures Fold(a, token) == g ==> token == g
  {
    var pre, post := token[..at], token[at + |g|..];
    assert token == pre + g + post;
    FoldConcat(a, pre + g, post);
    FoldConcat(a, pre, g);
    FoldFixesHangul(a, g);
    FoldNeverShrinks(a, pre);
    FoldNeverShrinks(a, post);
  }

  /** A Hangul 2- or 3-gram standing anywhere in a token is a term of that token: either
      it is the token, or it is one of its n-grams -- the skip rule never loses it. */
  lemma TokenRecall(a: Alphabet, token: string, at: nat, g: string)
    requires AllHangul(g) && 2 <= |g| <= 3
    requires at + |g| <= |token| && token[at..at + |g|] == g
    ensures g == token || g in KoreanGrams(a, token)
  {
    FoldKeepsHangulSubstring(a, token, at, g);
    var normalized := Fold(a, token);
    var p := |Fold(a, token[..at])|;
    assert forall k :: p <= k < p + |g| ==> normalized[k] == g[k - p];
    GramInsideRun(normalized, p, |g|);
    WithoutKeepsOthers(GramsOfRuns(normalized, HangulRuns(normalized)), g, normalized);
  }

  lemma {:induction false} WordTermsAreTerms(a: Alphabet, words: seq<string>, i: nat, g: string)
    requires i < |words| && (g == words[i] || g in KoreanGrams(a, words[i]))
    ensures g in WithGrams(a, words)
  {
    if i > 0 {
      WordTermsAreTerms(a, words[1..], i - 1, g);
    }
  }

  /** A Hangul gram of the text survives folding inside the word that holds it. */
  lemma HangulGramInSomeWord(a: Alphabet, text: string, from: nat, n: nat) returns (j: nat, p: nat)
    requires 0 < n && from + n <= |text| && AllHangul(text[from..from + n])
    ensures j < |WordTokens(a, text)| && p + n <= |WordTokens(a, text)[j]|
    ensures WordTokens(a, text)[j][p..p + n] == text[from..from + n]
  {
    var g := text[from..from + n];
    assert forall k :: from <= k < from + n ==> text[k] == g[k - from];
    var r := StretchInsideOneRun(a.isWord, text, from, from + n);
    j := WordOfRun(a, text, r);
    p := FoldedOffset(a, text, r, from, n);
  }

  lemma WordOfRun(a: Alphabet, text: string, r: Span) returns (j: nat)
    requires IsMaximalRun(a.isWord, text, r)
    ensures j < |WordTokens(a, text)| && WordTokens(a, text)[j] == Fold(a, text[r.start..r.end])
  {
    WordTokensAreTheMaximalWords(a, text);
    j :| 0 <= j < |WordRuns(a, text)| && WordRuns(a, text)[j] == r;
  }

  lemma FoldedOffset(a: Alphabet, text: string, r: Span, from: nat, n: nat) returns (p: nat)
    requires r.start <= from && from + n <= r.end <= |text| && AllHangul(text[from..from + n])
    ensures var token := Fold(a, text[r.start..r.end]);
      p + n <= |token| && token[p..p + n] == text[from..from + n]
  {
    var word := text[r.start..r.end];
    SliceOfSlice(text, r.start, r.end, from - r.start, from - r.start + n);
    FoldKeepsHangulSubstring(a, word, from - r.start, text[from..from + n]);
    p := |Fold(a, word[..from - r.start])|;
  }

  /** Korean recall at the level of the text: if a Hangul string w of two or more
      syllables occurs anywhere in the text, inside however long a word, every 2- and
      3-gram of w is an index term of that text. */
  lemma KoreanRecall(a: Alphabet, text: string, at: nat, w: string, i: nat, n: nat)
    requires AllHangul(w) && at + |w| <= |text| && text[at..at + |w|] == w
    requires 2 <= n <= 3 && i + n <= |w|
    ensures w[i..i + n] in KoreanTokens(a, text)
  {
    SliceOfSlice(text, at, at + |w|, i, i + n);
    var j, p := HangulGramInSomeWord(a, text, at + i, n);
    TokenRecall(a, WordTokens(a, text)[j], p, w[i..i + n]);
    WordTermsAreTerms(a, WordTokens(a, text), j, w[i..i + n]);
  }

  /** An all-Hangul text is one word, and its own only word token. */
  lemma HangulTextIsOneWord(a: Alphabet, w: string)
    requires AllHangul(w) && w != []
    ensures WordTokens(a, w) == [w]
  {
    FoldFixesHangul(a, w);
    assert Runs(a.isWord, w, |w|) == [];
    assert forall k :: 0 <= k < |w| ==> IsHangul(w[k]);
    assert RunEnd(a.isWord, w, 0) == |w|;
    assert WordRuns(a, w) == [Span(0, |w|)];
    assert w[0..|w|] == w;
  }

  /** A query of two or three Hangul syllables: every one of its own terms is a term of
      any text it occurs in. */
  lemma ShortKoreanQueryMatchesFully(a: Alphabet, text: string, at: nat, w: string, term: string)
    requires AllHangul(w) && 2 <= |w| <= 3
    requires at + |w| <= |text| && text[at..at + |w|] == w
    requires term in KoreanTokens(a, w)
    ensures term in KoreanTokens(a, text)
  {
    var i, n := QueryTermPosition(a, w, term);
    KoreanRecall(a, text, at, w, i, n);
  }

  /** Every term of such a query is one of its contiguous pieces. */
  lemma QueryTermPosition(a: Alphabet, w: string, term: string) returns (i: nat, n: nat)
    requires AllHangul(w) && 2 <= |w| <= 3 && term in KoreanTokens(a, w)
    ensures 2 <= n <= 3 && i + n <= |w| && w[i..i + n] == term
  {
    HangulTextIsOneWord(a, w);
    assert [w][1..] == [] && WithGrams(a, []) == [];
    assert WithGrams(a, [w]) == [w] + KoreanGrams(a, w);
    if term == w {
      i, n := 0, |w|;
      assert w[0..|w|] == w;
    } else {
      i, n := HangulGramPosition(a, w, term);
    }
  }

  lemma HangulGramPosition(a: Alphabet, w: string, term: string) returns (i: nat, n: nat)
    requires AllHangul(w) && term in KoreanGrams(a, w)
    ensures 2 <= n <= 3 && i + n <= |w| && w[i..i + n] == term
  {
    FoldFixesHangul(a, w);
    WithoutKeepsOthers(GramsOfRuns(w, HangulRuns(w)), term, w);
    i, n := GramPosition(w, term);
  }

  /** Every n-gram of a string is one of its contiguous pieces. */
  lemma GramPosition(w: string, term: string) returns (i: nat, n: nat)
    requires term in GramsOfRuns(w, HangulRuns(w))
    ensures 2 <= n <= 3 && i + n <= |w| && term == w[i..i + n]
  {
    var k := RunOfGram(w, HangulRuns(w), term);
    var r := HangulRuns(w)[k];
    var x;
    assert r.start <= r.end <= |w|;
    x, n := GramOfRunPosition(w, r, term);
    i := r.start + x;
  }

  lemma GramOfRunPosition(w: string, r: Span, term: string) returns (x: nat, n: nat)
    requires r.start <= r.end <= |w| && term in GramsOfRun(w[r.start..r.end])
    ensures 2 <= n <= 3 && r.start + x + n <= r.end && term == w[r.start + x..r.start + x + n]
  {
    var run := w[r.start..r.end];
    n := if term in Pieces(run, 2) then 2 else 3;
    x := PiecePosition(run, n, term);
    PieceOfSlice(w, r.start, r.end, n, x);
  }

  lemma PiecePosition(run: string, n: nat, term: string) returns (x: nat)
    requires term in Pieces(run, n)
    ensures x + n <= |run| && x < |Pieces(run, n)| && Pieces(run, n)[x] == term
  {
    x :| 0 <= x < |Pieces(run, n)| && Pieces(run, n)[x] == term;
  }

  lemma {:induction false} RunOfGram(s: string, spans: seq<Span>, g: string) returns (k: nat)
    requires Within(spans, |s|) && g in GramsOfRuns(s, spans)
    ensures k < |spans| && g in GramsOfRun(s[spans[k].start..spans[k].end])
  {
    var first, later := GramsOfRun(s[spans[0].start..spans[0].end]), GramsOfRuns(s, spans[1..]);
    assert GramsOfRuns(s, spans) == first + later;
    if g in first {
      k := 0;
    } else {
      assert g in later;
      var j := RunOfGram(s, spans[1..], g);
      k := j + 1;
      assert spans[k] == spans[1..][j];
    }
  }

  // ---------------------------------------------------------------- counting n-grams

  function Less(n: nat, k: nat): nat {
    if n < k then 0 else n - k
  }

  /** Grams contributed by runs of the given lengths, before the skip rule. */
  function GramTotal(spans: seq<Span>): nat
    requires forall i :: 0 <= i < |spans| ==> spans[i].start <= spans[i].end
  {
    if spans == [] then 0
    else var n := spans[0].end - spans[0].start;
         Less(n, 1) + Less(n, 2) + GramTotal(spans[1..])
  }

  lemma {:induction false} GramTotalIsLength(s: string, spans: seq<Span>)
    requires Within(spans, |s|)
    ensures |GramsOfRuns(s, spans)| == GramTotal(spans)
  {
    if spans != [] { GramTotalIsLength(s, spans[1..]); }
  }

  lemma {:induction false} WithoutLength(xs: seq<string>, skip: string)
    ensures |Without(xs, skip)| == |xs| - multiset(xs)[skip]
  {
    if xs != [] {
      WithoutLength(xs[1..], skip);
      assert xs == [xs[0]] + xs[1..];
    }
  }

  lemma {:induction false} ShortRunsNeverSkip(s: string, spans: seq<Span>, skip: string)
    requires Within(spans, |s|)
    requires forall i :: 0 <= i < |spans| ==> spans[i].end - spans[i].start < |skip|
    ensures skip !in GramsOfRuns(s, spans)
  {
    if spans != [] { ShortRunsNeverSkip(s, spans[1..], skip); }
  }

  lemma OneRunWhenAllHangul(s: string)
    requires AllHangul(s) && s != []
    ensures HangulRuns(s) == [Span(0, |s|)]
  {
    assert Runs(IsHangul, s, |s|) == [];
  }

  lemma SelfGramOfRun(s: string)
    ensures multiset(GramsOfRun(s))[s] == if 2 <= |s| <= 3 then 1 else 0
  {
    if |s| == 2 {
      PieceOfSlice(s, 0, 2, 2, 0);
      assert s[0..2] == s && Pieces(s, 2) == [s] && Pieces(s, 3) == [];
    } else if |s| == 3 {
      PieceOfSlice(s, 0, 3, 3, 0);
      assert s[0..3] == s && Pieces(s, 3) == [s];
      assert s !in Pieces(s, 2);
    } else {
      assert s !in Pieces(s, 2) && s !in Pieces(s, 3);
    }
  }

  /** A string stands among its own Hangul grams at most once, and only when it is one
      Hangul run of length 2 or 3. */
  lemma SelfGramCount(s: string)
    ensures multiset(GramsOfRuns(s, HangulRuns(s)))[s] == if AllHangul(s) && 2 <= |s| <= 3 then 1 else 0
  {
    var spans := HangulRuns(s);
    if AllHangul(s) && s != [] {
      OneRunWhenAllHangul(s);
      assert s[0..|s|] == s && GramsOfRuns(s, spans[1..]) == [];
      assert GramsOfRuns(s, spans) == GramsOfRun(s);
      SelfGramOfRun(s);
    } else {
      forall i | 0 <= i < |spans|
        ensures spans[i].end - spans[i].start < |s|
      {
        assert spans[i] in spans;
      }
      ShortRunsNeverSkip(s, spans, s);
    }
  }

  /** Exactly one gram is skipped, and only when the whole folded token is one Hangul run
      of length 2 or 3. */
  lemma KoreanGramCount(a: Alphabet, token: string)
    ensures var normalized := Fold(a, token);
      |KoreanGrams(a, token)| ==
        GramTotal(HangulRuns(normalized)) - if AllHangul(normalized) && 2 <= |normalized| <= 3 then 1 else 0
  {
    var s := Fold(a, token);
    GramTotalIsLength(s, HangulRuns(s));
    WithoutLength(GramsOfRuns(s, HangulRuns(s)), s);
    SelfGramCount(s);
  }

  function TermTotal(a: Alphabet, words: seq<string>): nat {
    if words == [] then 0 else
      KoreanGramCount(a, words[0]);
      var s := Fold(a, words[0]);
      1 + (GramTotal(HangulRuns(s)) - if AllHangul(s) && 2 <= |s| <= 3 then 1 else 0) + TermTotal(a, words[1..])
  }

  /** A chunk's length under the n-gram tokenizer is a sum over its words' Hangul runs. */
  lemma {:induction false} KoreanLengthClosedForm(a: Alphabet, words: seq<string>)
    ensures |WithGrams(a, words)| == TermTotal(a, words)
  {
    if words != [] {
      KoreanGramCount(a, words[0]);
      KoreanLengthClosedForm(a, words[1..]);
    }
  }

  // ---------------------------------------------------------------- comparing tokenizers

  lemma {:induction false} WordsAreAmongTheTerms(a: Alphabet, words: seq<string>)
    ensures multiset(words) <= multiset(WithGrams(a, words))
    ensures words == [] <==> WithGrams(a, words) == []
  {
    if words != [] {
      WordsAreAmongTheTerms(a, words[1..]);
      assert words == [words[0]] + words[1..];
      MoreInBetween(words[0], words[1..], KoreanGrams(a, words[0]), WithGrams(a, words[1..]));
    }
  }

  lemma MoreInBetween(word: string, words: seq<string>, grams: seq<string>, terms: seq<string>)
    requires multiset(words) <= multiset(terms)
    ensures multiset([word] + words) <= multiset([word] + grams + terms)
  {
    assert multiset([word] + grams + terms) == multiset{word} + multiset(grams) + multiset(terms);
  }

  /** Pointwise, the n-gram tokenizer counts every word at least as often; both leave the
      same texts without a term. */
  lemma KoreanTokensDominateWords(a: Alphabet, text: string)
    ensures multiset(WordTokens(a, text)) <= multiset(KoreanTokens(a, text))
    ensures |WordTokens(a, text)| <= |KoreanTokens(a, text)|
    ensures WordTokens(a, text) == [] <==> KoreanTokens(a, text) == []
  {
    WordsAreAmongTheTerms(a, WordTokens(a, text));
    var m, n := multiset(WordTokens(a, text)), multiset(KoreanTokens(a, text));
    assert n == m + (n - m);
  }

  // ---------------------------------------------------------------- no blank terms

  /** Not empty and without white space. */
  predicate Solid(a: Alphabet, s: string) {
    s != [] && forall k :: 0 <= k < |s| ==> !a.isSpace(s[k])
  }

  lemma {:induction false} FoldStaysSolid(a: Alphabet, s: string)
    requires Solid(a, s)
    ensures Solid(a, Fold(a, s))
  {
    var first := a.fold(s[0]);
    forall k | 0 <= k < |first|
      ensures !a.isSpace(first[k])
    {
      assert first[k] in first;
    }
    if |s| > 1 {
      FoldStaysSolid(a, s[1..]);
    } else {
      assert Fold(a, s[1..]) == [];
    }
  }

  lemma WordTokenIsSolid(a: Alphabet, text: string, i: nat)
    requires i < |WordTokens(a, text)|
    ensures Solid(a, WordTokens(a, text)[i])
  {
    WordTokensAreTheMaximalWords(a, text);
    var r := WordRuns(a, text)[i];
    FoldStaysSolid(a, text[r.start..r.end]);
  }

  lemma KoreanGramIsSolid(a: Alphabet, token: string, g: string)
    requires Solid(a, token) && g in KoreanGrams(a, token)
    ensures Solid(a, g)
  {
    var normalized := Fold(a, token);
    FoldStaysSolid(a, token);
    WithoutKeepsOthers(GramsOfRuns(normalized, HangulRuns(normalized)), g, normalized);
    var i, n := GramPosition(normalized, g);
  }

  lemma {:induction false} TermIsSolid(a: Alphabet, words: seq<string>, g: string)
    requires forall i :: 0 <= i < |words| ==> Solid(a, words[i])
    requires g in WithGrams(a, words)
    ensures Solid(a, g)
  {
    if g in KoreanGrams(a, words[0]) {
      KoreanGramIsSolid(a, words[0], g);
    } else if g != words[0] {
      TermIsSolid(a, words[1..], g);
    }
  }

  /** Neither tokenizer ever yields an empty term or one with white space in it. */
  lemma TermsAreSolid(a: Alphabet, text: string, g: string)
    requires g in WordTokens(a, text) || g in KoreanTokens(a, text)
    ensures Solid(a, g)
  {
    forall i | 0 <= i < |WordTokens(a, text)|
      ensures Solid(a, WordTokens(a, text)[i])
    {
      WordTokenIsSolid(a, text, i);
    }
    if g in KoreanTokens(a, text) { TermIsSolid(a, WordTokens(a, text), g); }
  }

  // ---------------------------------------------------------------- case

  /** Case does not matter: texts of which every character folds alike and is a word
      character alike have the same terms under both tokenizers. */
  lemma TextsThatFoldAlikeHaveTheSameTerms(a: Alphabet, s: string, t: string)
    requires |s| == |t|
    requires forall k :: 0 <= k < |s| ==> a.fold(s[k]) == a.fold(t[k]) && a.isWord(s[k]) == a.isWord(t[k])
    ensures WordTokens(a, s) == WordTokens(a, t) && KoreanTokens(a, s) == KoreanTokens(a, t)
  {
    RunsDependOnMatches(a.isWord, s, t, 0);
    WordTokensAreTheMaximalWords(a, s);
    WordTokensAreTheMaximalWords(a, t);
    forall i | 0 <= i < |WordRuns(a, s)|
      ensures WordTokens(a, s)[i] == WordTokens(a, t)[i]
    {
      var r := WordRuns(a, s)[i];
      FoldDependsOnCharacters(a, s[r.start..r.end], t[r.start..r.end]);
    }
  }
}
