/** Provider and checker agree: what the provider returns is the top k, the checker accepts
    it exactly when the requested keys survive normalisation, and what the checker accepts
    in full is a permutation of the request. */
module RerankerAgreement {
  import opened Collections
  import opened Tokenizer
  import opened Reranker
  import opened RerankerCheck

  /** A successful rerank returns exactly the top k of the validated candidates under
      their finite scores, numbered from one. */
  lemma RerankReturnsTheTopK(a: Alphabet, settings: Settings, request: Request,
                             predict: (string, seq<string>) -> seq<Score>)
    returns (top: seq<Item>)
    requires Rerank(a, settings, request, predict).Success?
    ensures ValidateRequest(a, request).Success?
    ensures var v := ValidateRequest(a, request).value; var scores := Prediction(v, predict);
      && |scores| == |v.candidates| && (forall i :: 0 <= i < |scores| ==> scores[i].Finite?)
      && v.topK == Min(request.topK, |v.candidates|)
      && IsTopK(ScoredItems(v.candidates, scores), top, v.topK)
      && Rerank(a, settings, request, predict).value.results == NumberedResults(top)
  {
    var v := ValidateRequest(a, request).value;
    var items := ScoredItems(v.candidates, Prediction(v, predict));
    SortedPrefixIsTopK(items, v.topK);
    top := Sort(items)[..v.topK];
  }

  lemma ValidatedKeysAreDistinct(a: Alphabet, request: Request)
    requires ValidateRequest(a, request).Success?
    ensures DistinctKeys(ValidateRequest(a, request).value.candidates)
  {
  }

  lemma TopHasDistinctKeys(cs: seq<Candidate>, scores: seq<Score>, top: seq<Item>, k: nat)
    requires DistinctKeys(cs) && |scores| == |cs| && forall i :: 0 <= i < |scores| ==> scores[i].Finite?
    requires IsTopK(ScoredItems(cs, scores), top, k)
    ensures forall i, j :: 0 <= i < j < |top| ==> top[i].candidate.key != top[j].candidate.key
  {
    var items := ScoredItems(cs, scores);
    SortedIsDistinct(top);
    forall i, j | 0 <= i < j < |top|
      ensures top[i].candidate.key != top[j].candidate.key
    {
      assert top[i] in top && top[j] in top;
      var x :| 0 <= x < |items| && items[x] == top[i];
      var y :| 0 <= y < |items| && items[y] == top[j];
      assert x != y;
    }
  }

  /** The provider's own response passes the checker if and only if every returned
      candidate's key -- stripped by the validation -- is a key of the request. */
  lemma ProviderAcceptedExactlyWhenKeysSurvive(a: Alphabet, settings: Settings, plan: Plan,
                                               predict: (string, seq<string>) -> seq<Score>)
    requires Rerank(a, settings, plan.request, predict).Success?
    requires SameService(settings, plan)
    ensures var r := Rerank(a, settings, plan.request, predict).value;
      Mismatches(plan, r) == [] <==> forall i :: 0 <= i < |r.results| ==> r.results[i].candidate.key in KnownKeys(plan)
  {
    var r := Rerank(a, settings, plan.request, predict).value;
    ResponseHeader(a, settings, plan, predict);
    ReturnedKeysAreDistinct(a, settings, plan.request, predict);
    AcceptedExactlyWhenSound(plan, r);
  }

  lemma ResponseHeader(a: Alphabet, settings: Settings, plan: Plan, predict: (string, seq<string>) -> seq<Score>)
    requires Rerank(a, settings, plan.request, predict).Success? && SameService(settings, plan)
    ensures HeaderAccepted(plan, Rerank(a, settings, plan.request, predict).value)
  {
    var top := RerankReturnsTheTopK(a, settings, plan.request, predict);
  }

  lemma ReturnedKeysAreDistinct(a: Alphabet, settings: Settings, request: Request,
                                predict: (string, seq<string>) -> seq<Score>)
    requires Rerank(a, settings, request, predict).Success?
    ensures var results := Rerank(a, settings, request, predict).value.results;
      && Ranked(results)
      && (forall i :: 0 <= i < |results| ==> results[i].score.Finite?)
      && forall i, j :: 0 <= i < j < |results| ==> results[i].candidate.key != results[j].candidate.key
  {
    var top := RerankReturnsTheTopK(a, settings, request, predict);
    var v := ValidateRequest(a, request).value;
    ValidatedKeysAreDistinct(a, request);
    TopHasDistinctKeys(v.candidates, Prediction(v, predict), top, v.topK);
  }

  /** Every returned candidate is a validated one. */
  lemma ReturnedCandidate(a: Alphabet, settings: Settings, request: Request,
                          predict: (string, seq<string>) -> seq<Score>, i: nat)
    returns (x: nat)
    requires Rerank(a, settings, request, predict).Success?
    requires i < |Rerank(a, settings, request, predict).value.results|
    ensures x < |request.candidates|
    ensures Rerank(a, settings, request, predict).value.results[i].candidate == StripCandidate(a, request.candidates[x])
  {
    var top := RerankReturnsTheTopK(a, settings, request, predict);
    var v := ValidateRequest(a, request).value;
    x := Position(ScoredItems(v.candidates, Prediction(v, predict)), top[i]);
  }

  /** If every key survives stripping, the provider's response is accepted. */
  lemma ProviderIsAccepted(a: Alphabet, settings: Settings, plan: Plan, predict: (string, seq<string>) -> seq<Score>)
    requires Rerank(a, settings, plan.request, predict).Success?
    requires SameService(settings, plan)
    requires KeysSurvive(a, plan)
    ensures Mismatches(plan, Rerank(a, settings, plan.request, predict).value) == []
  {
    var r := Rerank(a, settings, plan.request, predict).value;
    forall i | 0 <= i < |r.results|
      ensures r.results[i].candidate.key in KnownKeys(plan)
    {
      var x := ReturnedCandidate(a, settings, plan.request, predict, i);
    }
    ProviderAcceptedExactlyWhenKeysSurvive(a, settings, plan, predict);
  }

  ghost predicate SameService(settings: Settings, plan: Plan) {
    && plan.profile == settings.profile && plan.model == settings.model && plan.expectedBackend == "qwen_reranker"
    && (plan.expectedDevice.Some? ==> plan.expectedDevice.value == settings.device)
  }

  ghost predicate AcceptedWith(a: Alphabet, settings: Settings, plan: Plan,
                               predict: (string, seq<string>) -> seq<Score>)
  {
    var r := Rerank(a, settings, plan.request, predict);
    r.Success? ==> Mismatches(plan, r.value) == []
  }

  /** Every stripped key is a key of the request. */
  ghost predicate KeysSurvive(a: Alphabet, plan: Plan) {
    var cs := plan.request.candidates;
    forall i :: 0 <= i < |cs| ==> Strip(a, cs[i].key) in KnownKeys(plan)
  }

  /** A model that prefers one candidate. */
  function Favouring(i: nat): (string, seq<string>) -> seq<Score> {
    (query: string, texts: seq<string>) => seq(|texts|, j => Finite(if j == i then 1.0 else 0.0))
  }

  lemma FavouriteIsReturned(a: Alphabet, settings: Settings, request: Request, i: nat) returns (place: nat)
    requires ValidateRequest(a, request).Success? && i < |request.candidates|
    requires Strip(a, request.profile) == settings.profile && Strip(a, request.model) == settings.model
    ensures Rerank(a, settings, request, Favouring(i)).Success?
    ensures var results := Rerank(a, settings, request, Favouring(i)).value.results;
      place < |results| && results[place].candidate.key == Strip(a, request.candidates[i].key)
  {
    var v := ValidateRequest(a, request).value;
    FavouringSucceeds(a, settings, request, i);
    FavouringScores(v, i);
    var top := RerankReturnsTheTopK(a, settings, request, Favouring(i));
    place := FavouritePlace(v.candidates, Prediction(v, Favouring(i)), top, v.topK, i);
  }

  lemma FavouritePlace(cs: seq<Candidate>, scores: seq<Score>, top: seq<Item>, k: nat, i: nat) returns (place: nat)
    requires |scores| == |cs| && i < |cs| && k > 0
    requires forall j :: 0 <= j < |scores| ==> scores[j] == Finite(if j == i then 1.0 else 0.0)
    requires IsTopK(ScoredItems(cs, scores), top, k)
    ensures place < |top| && top[place].candidate == cs[i]
  {
    var items := ScoredItems(cs, scores);
    FavouriteIsInTop(items, top, k, i);
    place := Position(top, items[i]);
  }

  lemma FavouringScores(v: Request, i: nat)
    ensures var scores := Prediction(v, Favouring(i));
      |scores| == |v.candidates| && forall j :: 0 <= j < |scores| ==> scores[j] == Finite(if j == i then 1.0 else 0.0)
  {
  }

  lemma FavouringSucceeds(a: Alphabet, settings: Settings, request: Request, i: nat)
    requires ValidateRequest(a, request).Success?
    requires Strip(a, request.profile) == settings.profile && Strip(a, request.model) == settings.model
    ensures Rerank(a, settings, request, Favouring(i)).Success?
  {
    FavouringScores(ValidateRequest(a, request).value, i);
  }

  lemma FavouriteIsInTop(items: seq<Item>, top: seq<Item>, k: nat, i: nat)
    requires IsTopK(items, top, k) && k > 0 && i < |items|
    requires forall j :: 0 <= j < |items| ==> items[j].score == if j == i then 1.0 else 0.0
    ensures items[i] in top
  {
    assert top[0] in top;
    var j :| 0 <= j < |items| && items[j] == top[0];
    assert items[i] !in top ==> Before(top[0], items[i]);
  }

  /** Whatever the model scores, the response is accepted -- if and only if every key is
      still a key of the request once it is stripped.  A key with blanks around it, under
      distinct keys, is rejected as unknown as soon as its candidate is returned. */
  lemma EveryModelIsAcceptedExactlyWhenKeysSurvive(a: Alphabet, settings: Settings, plan: Plan)
    requires ValidateRequest(a, plan.request).Success? && SameService(settings, plan)
    requires Strip(a, plan.request.profile) == settings.profile && Strip(a, plan.request.model) == settings.model
    ensures (forall predict :: AcceptedWith(a, settings, plan, predict)) <==> KeysSurvive(a, plan)
  {
    var cs := plan.request.candidates;
    if i :| 0 <= i < |cs| && Strip(a, cs[i].key) !in KnownKeys(plan) {
      var place := FavouriteIsReturned(a, settings, plan.request, i);
      ProviderAcceptedExactlyWhenKeysSurvive(a, settings, plan, Favouring(i));
      assert !AcceptedWith(a, settings, plan, Favouring(i));
    } else {
      forall predict
        ensures AcceptedWith(a, settings, plan, predict)
      {
        if Rerank(a, settings, plan.request, predict).Success? { ProviderIsAccepted(a, settings, plan, predict); }
      }
    }
  }

  // ---------------------------------------------------------------- acceptance is a permutation

  function ResultKeys(items: seq<ResultItem>): seq<string> {
    seq(|items|, i requires 0 <= i < |items| => items[i].candidate.key)
  }

  function CandidateKeys(cs: seq<Candidate>): seq<string> {
    seq(|cs|, i requires 0 <= i < |cs| => cs[i].key)
  }

  lemma {:induction false} DistinctMultiset(s: seq<string>, x: string)
    requires Distinct(s)
    ensures multiset(s)[x] == if x in s then 1 else 0
  {
    if s != [] {
      var n := |s| - 1;
      DistinctMultiset(s[..n], x);
      assert s == s[..n] + [s[n]];
      ElementsSnoc(s, n);
    }
  }

  lemma SameElementsSameMultiset(s: seq<string>, t: seq<string>)
    requires Distinct(s) && Distinct(t) && Elements(s) == Elements(t)
    ensures multiset(s) == multiset(t)
  {
    forall x
      ensures multiset(s)[x] == multiset(t)[x]
    {
      DistinctMultiset(s, x);
      DistinctMultiset(t, x);
      assert x in Elements(s) <==> x in Elements(t);
    }
  }

  /** An accepted response to a request that asks for at least as many results as it has
      candidates, all with different keys, is a permutation of the candidates. */
  lemma AcceptedFullResponseIsAPermutation(plan: Plan, r: Response)
    requires Mismatches(plan, r) == [] && DistinctKeys(plan.request.candidates)
    requires plan.request.topK >= |plan.request.candidates|
    ensures multiset(ResultKeys(r.results)) == multiset(CandidateKeys(plan.request.candidates))
  {
    AcceptedExactlyWhenSound(plan, r);
    var got, asked := ResultKeys(r.results), CandidateKeys(plan.request.candidates);
    KnownKeysAreAsked(plan);
    AcceptedKeys(r.results, KnownKeys(plan));
    SameSizeSameMultiset(got, asked);
  }

  lemma AcceptedKeys(items: seq<ResultItem>, known: set<string>)
    requires ResultsAccepted(items, known)
    ensures Distinct(ResultKeys(items)) && Elements(ResultKeys(items)) <= known
  {
    var keys := ResultKeys(items);
    assert forall i :: 0 <= i < |items| ==> keys[i] == items[i].candidate.key;
  }

  lemma KnownKeysAreAsked(plan: Plan)
    ensures KnownKeys(plan) == Elements(CandidateKeys(plan.request.candidates))
  {
    var cs := plan.request.candidates;
    assert forall i :: 0 <= i < |cs| ==> CandidateKeys(cs)[i] == cs[i].key;
  }

  /** Distinct sequences of the same length, one within the other, have the same elements. */
  lemma SameSizeSameMultiset(s: seq<string>, t: seq<string>)
    requires Distinct(s) && Distinct(t) && |s| == |t| && Elements(s) <= Elements(t)
    ensures multiset(s) == multiset(t)
  {
    DistinctSize(s);
    DistinctSize(t);
    SubsetSize(Elements(s), Elements(t));
    SameElementsSameMultiset(s, t);
  }
}
