/** The two built-in tokenizers of the BM25 keyword index: maximal runs of word
    characters, and the same words followed by the 2-grams and 3-grams of their
    Hangul runs.  Which characters are word characters, which are white space and how
    one character case-folds are parameters; the Hangul syllable block is concrete. */
module Tokenizer {

  datatype CharacterTables = CharacterTables(
    isWord: char -> bool,
    isSpace: char -> bool,
    fold: char -> string)

  /** A space is white space, word characters are not, and ASCII letters and digits are
      word characters.  Case folding never deletes a character and never makes white space,
      and Hangul syllables are word characters that it leaves alone. */
  ghost predicate Lawful(a: CharacterTables) {
    && a.isSpace(' ')
    && (forall c :: a.isWord(c) ==> !a.isSpace(c))
    && (forall c :: 'a' <= c <= 'z' || '0' <= c <= '9' ==> a.isWord(c))
    && (forall c :: a.fold(c) != [])
    && (forall c, x :: x in a.fold(c) && !a.isSpace(c) ==> !a.isSpace(x))
    && (forall c :: IsHangul(c) ==> a.isWord(c) && a.fold(c) == [c])
  }

  type Alphabet = a: CharacterTables | Lawful(a)
    witness CharacterTables(c => c != ' ', c => c == ' ', c => [c])

  predicate IsHangul(c: char) {
    '\U{AC00}' <= c <= '\U{D7A3}'
  }

  // ---------------------------------------------------------------- runs

  /** Half-open span of a text. */
  datatype Span = Span(start: nat, end: nat)

  ghost predicate Within(spans: seq<Span>, n: nat) {
    forall i :: 0 <= i < |spans| ==> spans[i].start <= spans[i].end <= n
  }

  function RunEnd(p: char -> bool, s: string, i: nat): (j: nat)
    requires i <= |s|
    ensures i <= j <= |s|
    ensures forall k :: i <= k < j ==> p(s[k])
    ensures j < |s| ==> !p(s[j])
    decreases |s| - i
  {
    if i < |s| && p(s[i]) then RunEnd(p, s, i + 1) else i
  }

  /** Left-to-right scan from position i: greedy match, continue after it. */
  function Runs(p: char -> bool, s: string, i: nat): (spans: seq<Span>)
    requires i <= |s|
    decreases |s| - i
  {
    if i == |s| then []
    else if p(s[i]) then
      var j := RunEnd(p, s, i);
      [Span(i, j)] + Runs(p, s, j)
    else Runs(p, s, i + 1)
  }

  /** What a match must be: a non-empty stretch of p characters that cannot be extended. */
  predicate IsMaximalRun(p: char -> bool, s: string, r: Span) {
    && r.start < r.end <= |s|
    && (forall k :: r.start <= k < r.end ==> p(s[k]))
    && (r.start > 0 ==> !p(s[r.start - 1]))
    && (r.end < |s| ==> !p(s[r.end]))
  }

  /** A maximal run that starts within the stretch from i to j is that stretch. */
  lemma FirstRun(p: char -> bool, s: string, i: nat, j: nat, r: Span)
    requires i < j <= |s| && (forall k :: i <= k < j ==> p(s[k])) && (j < |s| ==> !p(s[j]))
    requires IsMaximalRun(p, s, r) && i <= r.start < j
    ensures r == Span(i, j)
  {
  }

  lemma LaterRun(p: char -> bool, s: string, j: nat, r: Span)
    requires j <= |s| && (j < |s| ==> !p(s[j])) && IsMaximalRun(p, s, r) && j <= r.start
    ensures j < r.start
  {
  }

  /** A run at i and then all maximal runs from its end on are all maximal runs from i on. */
  lemma RunThenRest(p: char -> bool, s: string, i: nat, rest: seq<Span>)
    requires i < |s| && p(s[i]) && (i > 0 ==> !p(s[i - 1]))
    requires forall r :: r in rest <==> IsMaximalRun(p, s, r) && RunEnd(p, s, i) <= r.start
    requires forall x, y :: 0 <= x < y < |rest| ==> rest[x].end < rest[y].start
    ensures var all := [Span(i, RunEnd(p, s, i))] + rest;
      && (forall r :: r in all <==> IsMaximalRun(p, s, r) && i <= r.start)
      && forall x, y :: 0 <= x < y < |all| ==> all[x].end < all[y].start
  {
    var j := RunEnd(p, s, i);
    forall r | IsMaximalRun(p, s, r) && i <= r.start
      ensures r == Span(i, j) || r in rest
    {
      if r.start < j { FirstRun(p, s, i, j, r); }
    }
    forall y | 0 <= y < |rest|
      ensures j < rest[y].start
    {
      assert rest[y] in rest;
      LaterRun(p, s, j, rest[y]);
    }
  }

  /** The scan finds every maximal run, nothing else, each once and in text order. */
  lemma {:induction false} RunsAreTheMaximalRuns(p: char -> bool, s: string, i: nat)
    requires i <= |s|
    requires i > 0 && i < |s| && p(s[i]) ==> !p(s[i - 1])
    ensures forall r :: r in Runs(p, s, i) <==> IsMaximalRun(p, s, r) && i <= r.start
    ensures forall x, y :: 0 <= x < y < |Runs(p, s, i)| ==> Runs(p, s, i)[x].end < Runs(p, s, i)[y].start
    decreases |s| - i
  {
    if i == |s| {
    } else if p(s[i]) {
      RunsAreTheMaximalRuns(p, s, RunEnd(p, s, i));
      RunThenRest(p, s, i, Runs(p, s, RunEnd(p, s, i)));
    } else {
      RunsAreTheMaximalRuns(p, s, i + 1);
    }
  }

  // ---------------------------------------------------------------- folding and stripping

  function Fold(a: Alphabet, s: string): string {
    if s == [] then [] else a.fold(s[0]) + Fold(a, s[1..])
  }

  lemma {:induction false} FoldConcat(a: Alphabet, s: string, t: string)
    ensures Fold(a, s + t) == Fold(a, s) + Fold(a, t)
  {
    if s == [] {
      assert s + t == t;
    } else {
      assert (s + t)[1..] == s[1..] + t;
      FoldConcat(a, s[1..], t);
    }
  }

  lemma {:induction false} FoldNeverShrinks(a: Alphabet, s: string)
    ensures |Fold(a, s)| >= |s|
  {
    if s != [] { FoldNeverShrinks(a, s[1..]); }
  }

  /** Folding is character by character: after the folded prefix stands what the character
      folds to. */
  lemma FoldAt(a: Alphabet, s: string, k: nat)
    requires k < |s|
    ensures var at := |Fold(a, s[..k])|;
      at + |a.fold(s[k])| <= |Fold(a, s)| && Fold(a, s)[at..at + |a.fold(s[k])|] == a.fold(s[k])
  {
    assert s == s[..k] + s[k..] && s[k..] == [s[k]] + s[k + 1..];
    FoldConcat(a, s[..k], s[k..]);
    assert Fold(a, s[k..]) == a.fold(s[k]) + Fold(a, s[k + 1..]);
  }

  /** Strings whose characters fold alike, one by one, fold to the same string. */
  lemma {:induction false} FoldDependsOnCharacters(a: Alphabet, s: string, t: string)
    requires |s| == |t| && forall k :: 0 <= k < |s| ==> a.fold(s[k]) == a.fold(t[k])
    ensures Fold(a, s) == Fold(a, t)
  {
    if s != [] { FoldDependsOnCharacters(a, s[1..], t[1..]); }
  }

  lemma {:induction false} FoldFixesHangul(a: Alphabet, w: string)
    requires AllHangul(w)
    ensures Fold(a, w) == w
  {
    if w != [] {
      assert AllHangul(w[1..]);
      FoldFixesHangul(a, w[1..]);
    }
  }

  predicate AllHangul(w: string) {
    forall k :: 0 <= k < |w| ==> IsHangul(w[k])
  }

  function StripLeft(a: Alphabet, s: string): string {
    if s != [] && a.isSpace(s[0]) then StripLeft(a, s[1..]) else s
  }

  function StripRight(a: Alphabet, s: string): string {
    if s != [] && a.isSpace(s[|s| - 1]) then StripRight(a, s[..|s| - 1]) else s
  }

  function Strip(a: Alphabet, s: string): string {
    StripRight(a, StripLeft(a, s))
  }

  lemma {:induction false} StripLeftEnds(a: Alphabet, s: string)
    ensures var r := StripLeft(a, s); r != [] ==> !a.isSpace(r[0])
  {
    if s != [] && a.isSpace(s[0]) { StripLeftEnds(a, s[1..]); }
  }

  lemma {:induction false} StripRightEnds(a: Alphabet, s: string)
    ensures var r := StripRight(a, s); r <= s && (r != [] ==> !a.isSpace(r[|r| - 1]))
  {
    if s != [] && a.isSpace(s[|s| - 1]) { StripRightEnds(a, s[..|s| - 1]); }
  }

  lemma {:induction false} StripLeftCuts(a: Alphabet, s: string) returns (i: nat)
    ensures i <= |s| && StripLeft(a, s) == s[i..] && forall k :: 0 <= k < i ==> a.isSpace(s[k])
    ensures i < |s| ==> !a.isSpace(s[i])
  {
    if s != [] && a.isSpace(s[0]) {
      var j := StripLeftCuts(a, s[1..]);
      i := j + 1;
      assert s[1..][j..] == s[i..];
      assert forall k :: 1 <= k < i ==> s[k] == s[1..][k - 1];
    } else {
      i := 0;
    }
  }

  lemma {:induction false} StripRightCuts(a: Alphabet, s: string) returns (j: nat)
    ensures j <= |s| && StripRight(a, s) == s[..j] && forall k :: j <= k < |s| ==> a.isSpace(s[k])
    ensures j > 0 ==> !a.isSpace(s[j - 1])
  {
    if s != [] && a.isSpace(s[|s| - 1]) {
      j := StripRightCuts(a, s[..|s| - 1]);
    } else {
      j := |s|;
    }
  }

  /** Stripping cuts off white space at both ends and nothing else, and leaves none there. */
  lemma StripCutsWhiteSpace(a: Alphabet, s: string) returns (i: nat, j: nat)
    ensures i <= j <= |s| && Strip(a, s) == s[i..j]
    ensures forall k :: 0 <= k < i || j <= k < |s| ==> a.isSpace(s[k])
    ensures i < j ==> !a.isSpace(s[i]) && !a.isSpace(s[j - 1])
  {
    i := StripLeftCuts(a, s);
    var n := StripRightCuts(a, s[i..]);
    j := i + n;
    assert s[i..][..n] == s[i..j];
    assert forall k :: j <= k < |s| ==> s[k] == s[i..][k - i];
    assert n > 0 ==> s[i..][n - 1] == s[j - 1];
  }

  /** What is blank: exactly what consists of white space. */
  lemma BlankExactlyWhenWhite(a: Alphabet, s: string)
    ensures Strip(a, s) == "" <==> forall k :: 0 <= k < |s| ==> a.isSpace(s[k])
  {
    var i, j := StripCutsWhiteSpace(a, s);
    if i < j { assert !a.isSpace(s[i]); }
  }

  /** Validating an already validated name changes nothing. */
  lemma StripIdempotent(a: Alphabet, s: string)
    ensures Strip(a, Strip(a, s)) == Strip(a, s)
  {
    StripLeftEnds(a, s);
    StripRightEnds(a, StripLeft(a, s));
  }

  lemma {:induction false} RunEndDependsOnMatches(p: char -> bool, s: string, t: string, i: nat)
    requires |s| == |t| && i <= |s| && forall k :: 0 <= k < |s| ==> p(s[k]) == p(t[k])
    ensures RunEnd(p, s, i) == RunEnd(p, t, i)
    decreases |s| - i
  {
    if i < |s| && p(s[i]) { RunEndDependsOnMatches(p, s, t, i + 1); }
  }

  /** Texts that match at the same positions have the same runs. */
  lemma {:induction false} RunsDependOnMatches(p: char -> bool, s: string, t: string, i: nat)
    requires |s| == |t| && i <= |s| && forall k :: 0 <= k < |s| ==> p(s[k]) == p(t[k])
    ensures Runs(p, s, i) == Runs(p, t, i)
    decreases |s| - i
  {
    if i < |s| {
      RunEndDependsOnMatches(p, s, t, i);
      RunsDependOnMatches(p, s, t, if p(s[i]) then RunEnd(p, s, i) else i + 1);
    }
  }

  // ---------------------------------------------------------------- words

  function WordRuns(a: Alphabet, text: string): seq<Span> {
    Runs(a.isWord, text, 0)
  }

  /** The folded words of a list of spans. */
  function WordsAt(a: Alphabet, text: string, spans: seq<Span>): seq<string>
    requires Within(spans, |text|)
  {
    seq(|spans|, i requires 0 <= i < |spans| => Fold(a, text[spans[i].start..spans[i].end]))
  }

  function WordTokens(a: Alphabet, text: string): seq<string> {
    RunsAreTheMaximalRuns(a.isWord, text, 0);
    assert forall i :: 0 <= i < |WordRuns(a, text)| ==> WordRuns(a, text)[i] in WordRuns(a, text);
    WordsAt(a, text, WordRuns(a, text))
  }

  /** Word tokenization keeps exactly the maximal word runs, in text order, folded. */
  lemma WordTokensAreTheMaximalWords(a: Alphabet, text: string)
    ensures |WordTokens(a, text)| == |WordRuns(a, text)|
    ensures forall i :: 0 <= i < |WordRuns(a, text)| ==>
      && IsMaximalRun(a.isWord, text, WordRuns(a, text)[i])
      && WordTokens(a, text)[i] == Fold(a, text[WordRuns(a, text)[i].start..WordRuns(a, text)[i].end])
    ensures forall r :: IsMaximalRun(a.isWord, text, r) ==> r in WordRuns(a, text)
    ensures forall i, j :: 0 <= i < j < |WordRuns(a, text)| ==> WordRuns(a, text)[i].end < WordRuns(a, text)[j].start
  {
    RunsAreTheMaximalRuns(a.isWord, text, 0);
    forall i | 0 <= i < |WordRuns(a, text)|
      ensures IsMaximalRun(a.isWord, text, WordRuns(a, text)[i])
    {
      assert WordRuns(a, text)[i] in WordRuns(a, text);
    }
  }

  /** A text yields no word exactly when it has no word character. */
  lemma NoWordsExactlyWithoutWordCharacters(a: Alphabet, text: string)
    ensures WordTokens(a, text) == [] <==> forall k :: 0 <= k < |text| ==> !a.isWord(text[k])
  {
    WordTokensAreTheMaximalWords(a, text);
    if k :| 0 <= k < |text| && a.isWord(text[k]) {
      var r := RunAround(a.isWord, text, k);
      assert r in WordRuns(a, text);
    }
    assert WordTokens(a, text) != [] ==> a.isWord(text[WordRuns(a, text)[0].start]);
  }

  /** The maximal run around a position. */
  lemma RunAround(p: char -> bool, s: string, k: nat) returns (r: Span)
    requires k < |s| && p(s[k])
    ensures IsMaximalRun(p, s, r) && r.start <= k < r.end
  {
    var i := k;
    while i > 0 && p(s[i - 1])
      invariant 0 <= i <= k
      invariant forall x :: i <= x <= k ==> p(s[x])
    {
      i := i - 1;
    }
    r := Span(i, RunEnd(p, s, k));
    assert k < r.end by { assert RunEnd(p, s, k) >= k; if RunEnd(p, s, k) == k { assert p(s[k]); } }
  }

  /** Two positions joined by p characters lie in the same maximal run. */
  lemma StretchInsideOneRun(p: char -> bool, s: string, i: nat, j: nat) returns (r: Span)
    requires i < j <= |s| && forall k :: i <= k < j ==> p(s[k])
    ensures r in Runs(p, s, 0) && IsMaximalRun(p, s, r) && r.start <= i && j <= r.end
  {
    r := RunAround(p, s, i);
    RunsAreTheMaximalRuns(p, s, 0);
    if r.end < |s| { assert !p(s[r.end]); }
  }

  // ---------------------------------------------------------------- Korean n-grams

  /** All contiguous pieces of the given size, left to right. */
  function Pieces(s: string, size: nat): (r: seq<string>) {
    if |s| < size then []
    else seq(|s| - size + 1, i requires 0 <= i < |s| - size + 1 => s[i..i + size])
  }

  function Without(xs: seq<string>, skip: string): seq<string> {
    if xs == [] then []
    else if xs[0] == skip then Without(xs[1..], skip)
    else [xs[0]] + Without(xs[1..], skip)
  }

  function GramsOfRun(run: string): seq<string> {
    Pieces(run, 2) + Pieces(run, 3)
  }

  function GramsOfRuns(s: string, spans: seq<Span>): seq<string>
    requires Within(spans, |s|)
  {
    if spans == [] then []
    else GramsOfRun(s[spans[0].start..spans[0].end]) + GramsOfRuns(s, spans[1..])
  }

  function HangulRuns(s: string): (spans: seq<Span>)
    ensures forall r :: r in spans ==> IsMaximalRun(IsHangul, s, r)
    ensures Within(spans, |s|)
  {
    RunsAreTheMaximalRuns(IsHangul, s, 0);
    var spans := Runs(IsHangul, s, 0);
    assert forall i :: 0 <= i < |spans| ==> spans[i] in spans;
    spans
  }

  /** The n-grams of a token: every 2- and 3-gram of every Hangul run of the folded
      token, except grams equal to the whole folded token. */
  function KoreanGrams(a: Alphabet, token: string): seq<string> {
    var normalized := Fold(a, token);
    Without(GramsOfRuns(normalized, HangulRuns(normalized)), normalized)
  }

  lemma {:induction false} WithoutConcat(xs: seq<string>, ys: seq<string>, skip: string)
    ensures Without(xs + ys, skip) == Without(xs, skip) + Without(ys, skip)
  {
    if xs == [] {
      assert xs + ys == ys;
    } else {
      assert (xs + ys)[1..] == xs[1..] + ys;
      WithoutConcat(xs[1..], ys, skip);
    }
  }

  lemma {:induction false} GramsOfRunsSnoc(s: string, spans: seq<Span>, last: Span)
    requires Within(spans, |s|) && last.start <= last.end <= |s|
    ensures GramsOfRuns(s, spans + [last]) == GramsOfRuns(s, spans) + GramsOfRun(s[last.start..last.end])
  {
    if spans == [] {
      assert spans + [last] == [last];
      assert GramsOfRuns(s, [last][1..]) == [];
    } else {
      assert (spans + [last])[1..] == spans[1..] + [last];
      GramsOfRunsSnoc(s, spans[1..], last);
    }
  }

  /** The innermost loop: start positions of one n-gram size in one Hangul run. */
  method AppendPieces(ngrams: seq<string>, sequence: string, size: nat, normalized: string)
    returns (extended: seq<string>)
    requires 0 < size
    ensures extended == ngrams + Without(Pieces(sequence, size), normalized)
  {
    extended := ngrams;
    if |sequence| < size {
      return;
    }
    ghost var all := Pieces(sequence, size);
    for start := 0 to |sequence| - size + 1
      invariant extended == ngrams + Without(all[..start], normalized)
    {
      var term := sequence[start..start + size];
      assert all[..start + 1] == all[..start] + [term];
      WithoutConcat(all[..start], [term], normalized);
      assert [term][1..] == [];
      if term == normalized {
        continue;
      }
      extended := extended + [term];
    }
    assert all[..|sequence| - size + 1] == all;
  }

  /** One Hangul run adds its own grams. */
  lemma RunStep(s: string, spans: seq<Span>, r: nat, skip: string)
    requires Within(spans, |s|) && r < |spans|
    ensures Without(GramsOfRuns(s, spans[..r + 1]), skip)
         == Without(GramsOfRuns(s, spans[..r]), skip)
          + Without(Pieces(s[spans[r].start..spans[r].end], 2), skip)
          + Without(Pieces(s[spans[r].start..spans[r].end], 3), skip)
  {
    var run := s[spans[r].start..spans[r].end];
    assert spans[..r + 1] == spans[..r] + [spans[r]];
    GramsOfRunsSnoc(s, spans[..r], spans[r]);
    WithoutConcat(GramsOfRuns(s, spans[..r]), GramsOfRun(run), skip);
    WithoutConcat(Pieces(run, 2), Pieces(run, 3), skip);
  }

  /** The loop over the sizes 2 and 3 for one Hangul run. */
  method AppendGrams(before: seq<string>, sequence: string, normalized: string) returns (ngrams: seq<string>)
    ensures ngrams == before + Without(Pieces(sequence, 2), normalized) + Without(Pieces(sequence, 3), normalized)
  {
    ngrams := before;
    for size := 2 to 4
      invariant size == 2 ==> ngrams == before
      invariant size == 3 ==> ngrams == before + Without(Pieces(sequence, 2), normalized)
      invariant size == 4 ==>
        ngrams == before + Without(Pieces(sequence, 2), normalized) + Without(Pieces(sequence, 3), normalized)
    {
      ngrams := AppendPieces(ngrams, sequence, size, normalized);
    }
  }

  /** The loop over Hangul runs. */
  method IterKoreanNgrams(a: Alphabet, token: string) returns (ngrams: seq<string>)
    ensures ngrams == KoreanGrams(a, token)
  {
    ngrams := [];
    var normalized := Fold(a, token);
    var spans := HangulRuns(normalized);
    for r := 0 to |spans|
      invariant ngrams == Without(GramsOfRuns(normalized, spans[..r]), normalized)
    {
      var sequence := normalized[spans[r].start..spans[r].end];
      RunStep(normalized, spans, r, normalized);
      ngrams := AppendGrams(ngrams, sequence, normalized);
    }
    assert spans[..|spans|] == spans;
  }

  /** Each word followed by its n-grams. */
  function WithGrams(a: Alphabet, words: seq<string>): seq<string> {
    if words == [] then []
    else [words[0]] + KoreanGrams(a, words[0]) + WithGrams(a, words[1..])
  }

  function KoreanTokens(a: Alphabet, text: string): seq<string> {
    WithGrams(a, WordTokens(a, text))
  }

  lemma {:induction false} WithGramsSnoc(a: Alphabet, words: seq<string>, w: string)
    ensures WithGrams(a, words + [w]) == WithGrams(a, words) + [w] + KoreanGrams(a, w)
  {
    if words == [] {
      assert words + [w] == [w] && [w][1..] == [];
    } else {
      assert (words + [w])[1..] == words[1..] + [w];
      WithGramsSnoc(a, words[1..], w);
    }
  }

  lemma NextWord(a: Alphabet, words: seq<string>, i: nat)
    requires i < |words|
    ensures WithGrams(a, words[..i + 1]) == WithGrams(a, words[..i]) + [words[i]] + KoreanGrams(a, words[i])
  {
    assert words[..i + 1] == words[..i] + [words[i]];
    WithGramsSnoc(a, words[..i], words[i]);
  }

  method TokenizeWordsWithKoreanNgrams(a: Alphabet, text: string) returns (terms: seq<string>)
    ensures terms == KoreanTokens(a, text)
  {
    terms := [];
    var words := WordTokens(a, text);
    for i := 0 to |words|
      invariant terms == WithGrams(a, words[..i])
    {
      NextWord(a, words, i);
      terms := terms + [words[i]];
      var grams := IterKoreanNgrams(a, words[i]);
      terms := terms + grams;
    }
    assert words[..|words|] == words;
  }
}
