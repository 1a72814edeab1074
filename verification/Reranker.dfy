/** The cross-encoder reranker: validate, score, order, cut to top k and number. */
module Reranker {
  import opened Collections
  import opened Tokenizer

  const MAX_TOP_K := 100

  /** A float as the service sees it. */
  datatype Score = Finite(value: real) | NotFinite

  datatype Candidate = Candidate(key: string, rank: int, text: string, sourceProfile: string, sourceStrategy: string)

  datatype Request = Request(query: string, candidates: seq<Candidate>, topK: int, profile: string, model: string)

  datatype ResultItem = ResultItem(candidate: Candidate, rank: int, score: Score)

  datatype Metadata = Metadata(service: string, backend: string, device: string)

  datatype Response = Response(
    profile: string,
    model: string,
    providerType: string,
    strategy: string,
    candidateCount: int,
    returnedCount: int,
    topK: int,
    results: seq<ResultItem>,
    metadata: Metadata)

  datatype Settings = Settings(profile: string, model: string, device: string)

  datatype RerankError = InvalidRequest | UnsupportedProfile | UnsupportedModel | ScoreCountMismatch | ScoreNotFinite

  // ---------------------------------------------------------------- validation

  function StripCandidate(a: Alphabet, c: Candidate): Candidate {
    Candidate(Strip(a, c.key), c.rank, Strip(a, c.text), Strip(a, c.sourceProfile), Strip(a, c.sourceStrategy))
  }

  predicate ValidCandidate(c: Candidate) {
    c.rank > 0 && c.key != "" && c.text != "" && c.sourceProfile != "" && c.sourceStrategy != ""
  }

  function StripCandidates(a: Alphabet, cs: seq<Candidate>): (r: seq<Candidate>)
    ensures |r| == |cs| && forall i :: 0 <= i < |cs| ==> r[i] == StripCandidate(a, cs[i])
  {
    seq(|cs|, i requires 0 <= i < |cs| => StripCandidate(a, cs[i]))
  }

  ghost predicate DistinctKeys(cs: seq<Candidate>) {
    forall i, j :: 0 <= i < j < |cs| ==> cs[i].key != cs[j].key
  }

  function Min(a: int, b: int): int { if a < b then a else b }

  /** validate_rerank_request. */
  function ValidateRequest(a: Alphabet, r: Request): Result<Request, RerankError> {
    var candidates := StripCandidates(a, r.candidates);
    if r.candidates == [] || |r.candidates| > MAX_TOP_K || r.topK <= 0 || r.topK > MAX_TOP_K
      || (exists i :: 0 <= i < |candidates| && !ValidCandidate(candidates[i]))
      || (exists i, j :: 0 <= i < j < |candidates| && candidates[i].key == candidates[j].key)
      || Strip(a, r.query) == "" || Strip(a, r.profile) == "" || Strip(a, r.model) == ""
    then Failure(InvalidRequest)
    else Success(Request(Strip(a, r.query), candidates, Min(r.topK, |candidates|),
                         Strip(a, r.profile), Strip(a, r.model)))
  }

  // ---------------------------------------------------------------- order

  /** A candidate with its score and its place in the request. */
  datatype Item = Item(candidate: Candidate, score: real, position: nat)

  /** Score descending, then source rank, then -- the sort is stable -- request order. */
  predicate Before(x: Item, y: Item) {
    || x.score > y.score
    || (x.score == y.score && x.candidate.rank < y.candidate.rank)
    || (x.score == y.score && x.candidate.rank == y.candidate.rank && x.position < y.position)
  }

  function Insert(x: Item, s: seq<Item>): seq<Item> {
    if s == [] || Before(x, s[0]) then [x] + s else [s[0]] + Insert(x, s[1..])
  }

  function Sort(items: seq<Item>): seq<Item> {
    if items == [] then [] else Insert(items[|items| - 1], Sort(items[..|items| - 1]))
  }

  ghost predicate Sorted(s: seq<Item>) {
    forall i, j :: 0 <= i < j < |s| ==> Before(s[i], s[j])
  }

  ghost predicate DistinctPositions(s: seq<Item>) {
    forall i, j :: 0 <= i < j < |s| ==> s[i].position != s[j].position
  }

  lemma {:induction false} InsertKeepsItems(x: Item, s: seq<Item>)
    ensures multiset(Insert(x, s)) == multiset(s) + multiset{x}
  {
    if !(s == [] || Before(x, s[0])) {
      InsertKeepsItems(x, s[1..]);
      assert s == [s[0]] + s[1..];
    }
  }

  lemma {:induction false} InsertKeepsOrder(x: Item, s: seq<Item>)
    requires Sorted(s) && forall i :: 0 <= i < |s| ==> s[i].position != x.position
    ensures Sorted(Insert(x, s))
  {
    if !(s == [] || Before(x, s[0])) {
      InsertKeepsOrder(x, s[1..]);
      InsertKeepsItems(x, s[1..]);
      var rest := Insert(x, s[1..]);
      forall i | 0 <= i < |rest|
        ensures Before(s[0], rest[i])
      {
        assert rest[i] in multiset(rest);
        if rest[i] != x { assert rest[i] in s[1..]; }
      }
    }
  }

  lemma {:induction false} SortSorts(items: seq<Item>)
    requires DistinctPositions(items)
    ensures Sorted(Sort(items)) && multiset(Sort(items)) == multiset(items)
  {
    if items != [] {
      var init, last := items[..|items| - 1], items[|items| - 1];
      SortSorts(init);
      InsertKeepsItems(last, Sort(init));
      assert items == init + [last];
      forall i | 0 <= i < |Sort(init)|
        ensures Sort(init)[i].position != last.position
      {
        assert Sort(init)[i] in multiset(Sort(init));
        assert Sort(init)[i] in init;
      }
      InsertKeepsOrder(last, Sort(init));
    }
  }

  // ---------------------------------------------------------------- rerank

  /** _coerce_scores, then zip with the candidates. */
  function ScoredItems(cs: seq<Candidate>, scores: seq<Score>): (items: seq<Item>)
    requires |scores| == |cs| && forall i :: 0 <= i < |scores| ==> scores[i].Finite?
    ensures |items| == |cs| && DistinctPositions(items)
    ensures forall i :: 0 <= i < |cs| ==> items[i] == Item(cs[i], scores[i].value, i)
  {
    seq(|cs|, i requires 0 <= i < |cs| => Item(cs[i], scores[i].value, i))
  }

  function NumberedResults(top: seq<Item>): (results: seq<ResultItem>)
    ensures |results| == |top|
    ensures forall i :: 0 <= i < |top| ==> results[i] == ResultItem(top[i].candidate, i + 1, Finite(top[i].score))
  {
    seq(|top|, i requires 0 <= i < |top| => ResultItem(top[i].candidate, i + 1, Finite(top[i].score)))
  }

  lemma SortLength(items: seq<Item>)
    requires DistinctPositions(items)
    ensures |Sort(items)| == |items|
  {
    SortSorts(items);
    assert |multiset(Sort(items))| == |multiset(items)|;
  }

  /** What the model is asked to score for a validated request. */
  function Prediction(v: Request, predict: (string, seq<string>) -> seq<Score>): seq<Score> {
    predict(v.query, seq(|v.candidates|, i requires 0 <= i < |v.candidates| => v.candidates[i].text))
  }

  function Rerank(a: Alphabet, settings: Settings, request: Request,
                  predict: (string, seq<string>) -> seq<Score>): Result<Response, RerankError>
  {
    match ValidateRequest(a, request)
    case Failure(error) => Failure(error)
    case Success(v) =>
      if v.profile != settings.profile then Failure(UnsupportedProfile)
      else if v.model != settings.model then Failure(UnsupportedModel)
      else
        var n := |v.candidates|;
        var scores := Prediction(v, predict);
        if |scores| != n then Failure(ScoreCountMismatch)
        else if exists i :: 0 <= i < |scores| && scores[i].NotFinite? then Failure(ScoreNotFinite)
        else
          var items := ScoredItems(v.candidates, scores);
          SortLength(items);
          var top := Sort(items)[..v.topK];
          Success(Response(v.profile, v.model, "remote", "reranked", n, |top|, v.topK, NumberedResults(top),
                           Metadata("nex_pcx_reranker_provider_service", "qwen_reranker", settings.device)))
  }

  // ---------------------------------------------------------------- what top k means

  /** The k best items in order: nothing left out comes before anything kept. */
  ghost predicate IsTopK(items: seq<Item>, top: seq<Item>, k: nat) {
    && |top| == k && Sorted(top)
    && (forall x :: x in top ==> x in items)
    && (forall x, y :: x in items && x !in top && y in top ==> Before(y, x))
  }

  lemma FrontElement(s: seq<Item>, i: nat, k: nat)
    requires i < |s| && k <= |s|
    ensures i < k ==> s[i] in s[..k]
  {
    if i < k { assert s[..k][i] == s[i]; }
  }

  /** The prefix of the sorted items is the top k. */
  lemma SortedPrefixIsTopK(items: seq<Item>, k: nat)
    requires DistinctPositions(items) && k <= |items|
    ensures |Sort(items)| == |items| && IsTopK(items, Sort(items)[..k], k)
  {
    SortSorts(items);
    SortLength(items);
    var s := Sort(items);
    forall x | x in s[..k]
      ensures x in items
    {
      assert x in multiset(s);
    }
    forall x, y | x in items && x !in s[..k] && y in s[..k]
      ensures Before(y, x)
    {
      assert x in multiset(s);
      var i :| 0 <= i < |s| && s[i] == x;
      var j :| 0 <= j < k && s[j] == y;
      FrontElement(s, i, k);
    }
  }

  lemma BeforeIsAsymmetric(x: Item, y: Item)
    ensures !(Before(x, y) && Before(y, x))
  {
  }

  /** There is only one top k: the specification leaves no freedom. */
  lemma {:induction false} TopKIsUnique(items: seq<Item>, top: seq<Item>, other: seq<Item>, k: nat)
    requires IsTopK(items, top, k) && IsTopK(items, other, k)
    ensures top == other
  {
    SortedIsDistinct(top);
    SortedIsDistinct(other);
    DistinctSize(top);
    DistinctSize(other);
    if Elements(top) != Elements(other) {
      if Elements(top) <= Elements(other) { SubsetSize(Elements(top), Elements(other)); }
      if Elements(other) <= Elements(top) { SubsetSize(Elements(other), Elements(top)); }
      var x :| x in Elements(top) && x !in Elements(other);
      var y :| y in Elements(other) && y !in Elements(top);
      BeforeIsAsymmetric(x, y);
      assert false;
    }
    SameSortedElements(top, other);
  }

  lemma SortedIsDistinct(s: seq<Item>)
    requires Sorted(s)
    ensures Distinct(s)
  {
    forall i, j | 0 <= i < j < |s|
      ensures s[i] != s[j]
    {
      BeforeIsAsymmetric(s[i], s[j]);
    }
  }

  lemma {:induction false} SameSortedElements(s: seq<Item>, t: seq<Item>)
    requires Sorted(s) && Sorted(t) && Elements(s) == Elements(t) && |s| == |t|
    ensures s == t
  {
    if s != [] {
      assert s[0] in Elements(t) && t[0] in Elements(s);
      BeforeIsAsymmetric(s[0], t[0]);
      assert s[0] == t[0];
      SortedIsDistinct(s);
      SortedIsDistinct(t);
      forall x
        ensures x in Elements(s[1..]) <==> x in Elements(t[1..])
      {
        assert x in Elements(s[1..]) <==> x in Elements(s) && x != s[0];
        assert x in Elements(t[1..]) <==> x in Elements(t) && x != t[0];
      }
      SameSortedElements(s[1..], t[1..]);
    }
  }
}
