/** What a rerank response promises a caller who knows only the request and how the model
    scores one text, and what the checker's mismatches tell. */
module RerankerLaws {
  import opened Collections
  import opened Tokenizer
  import opened Reranker
  import opened RerankerCheck
  import opened RerankerAgreement

  // ---------------------------------------------------------------- validation

  /** Some character is not white space. */
  ghost predicate HasInk(a: Alphabet, s: string) {
    exists k :: 0 <= k < |s| && !a.isSpace(s[k])
  }

  lemma InkExactlyWhenNotBlank(a: Alphabet, s: string)
    ensures Strip(a, s) != "" <==> HasInk(a, s)
  {
    BlankExactlyWhenWhite(a, s);
  }

  ghost predicate SoundCandidate(a: Alphabet, c: Candidate) {
    c.rank > 0 && HasInk(a, c.key) && HasInk(a, c.text) && HasInk(a, c.sourceProfile) && HasInk(a, c.sourceStrategy)
  }

  lemma SoundExactlyWhenValid(a: Alphabet, c: Candidate)
    ensures ValidCandidate(StripCandidate(a, c)) <==> SoundCandidate(a, c)
  {
    InkExactlyWhenNotBlank(a, c.key);
    InkExactlyWhenNotBlank(a, c.text);
    InkExactlyWhenNotBlank(a, c.sourceProfile);
    InkExactlyWhenNotBlank(a, c.sourceStrategy);
  }

  /** A request is valid exactly when it has 1 to 100 candidates and a top k from 1 to 100,
      every rank is positive, no field is blank and no two keys are the same once stripped. */
  lemma RequestIsValidExactlyWhen(a: Alphabet, r: Request)
    ensures ValidateRequest(a, r).Success? <==>
      && 0 < |r.candidates| <= 100 && 0 < r.topK <= 100
      && (forall i :: 0 <= i < |r.candidates| ==> SoundCandidate(a, r.candidates[i]))
      && (forall i, j :: 0 <= i < j < |r.candidates| ==> Strip(a, r.candidates[i].key) != Strip(a, r.candidates[j].key))
      && HasInk(a, r.query) && HasInk(a, r.profile) && HasInk(a, r.model)
  {
    forall i | 0 <= i < |r.candidates|
      ensures ValidCandidate(StripCandidate(a, r.candidates[i])) <==> SoundCandidate(a, r.candidates[i])
    {
      SoundExactlyWhenValid(a, r.candidates[i]);
    }
    InkExactlyWhenNotBlank(a, r.query);
    InkExactlyWhenNotBlank(a, r.profile);
    InkExactlyWhenNotBlank(a, r.model);
  }

  // ---------------------------------------------------------------- success

  /** The texts the model is asked to score, in request order. */
  function StrippedTexts(a: Alphabet, r: Request): seq<string> {
    seq(|r.candidates|, i requires 0 <= i < |r.candidates| => Strip(a, r.candidates[i].text))
  }

  lemma ModelIsAskedForTheTexts(a: Alphabet, r: Request, predict: (string, seq<string>) -> seq<Score>)
    requires ValidateRequest(a, r).Success?
    ensures Prediction(ValidateRequest(a, r).value, predict) == predict(Strip(a, r.query), StrippedTexts(a, r))
  {
    var v := ValidateRequest(a, r).value;
    assert seq(|v.candidates|, i requires 0 <= i < |v.candidates| => v.candidates[i].text) == StrippedTexts(a, r);
  }

  /** A rerank succeeds exactly when the request is valid and names the service's profile and
      model, and the model gives one finite score for every text. */
  lemma RerankSucceedsExactlyWhen(a: Alphabet, settings: Settings, r: Request,
                                  predict: (string, seq<string>) -> seq<Score>)
    ensures Rerank(a, settings, r, predict).Success? <==>
      && ValidateRequest(a, r).Success?
      && Strip(a, r.profile) == settings.profile && Strip(a, r.model) == settings.model
      && var scores := predict(Strip(a, r.query), StrippedTexts(a, r));
         |scores| == |r.candidates| && forall i :: 0 <= i < |scores| ==> scores[i].Finite?
  {
    if ValidateRequest(a, r).Success? { ModelIsAskedForTheTexts(a, r, predict); }
  }

  /** Which error a failing rerank reports: what is wrong with the request before what is
      wrong with the service's names, and both before what is wrong with the scores. */
  lemma RerankReportsTheFirstError(a: Alphabet, settings: Settings, r: Request,
                                   predict: (string, seq<string>) -> seq<Score>)
    ensures var outcome, valid := Rerank(a, settings, r, predict), ValidateRequest(a, r).Success?;
      var profile, model := Strip(a, r.profile) == settings.profile, Strip(a, r.model) == settings.model;
      var count := |predict(Strip(a, r.query), StrippedTexts(a, r))|;
      && (outcome == Failure(InvalidRequest) <==> !valid)
      && (outcome == Failure(UnsupportedProfile) <==> valid && !profile)
      && (outcome == Failure(UnsupportedModel) <==> valid && profile && !model)
      && (outcome == Failure(ScoreCountMismatch) <==> valid && profile && model && count != |r.candidates|)
  {
    if ValidateRequest(a, r).Success? { ModelIsAskedForTheTexts(a, r, predict); }
  }

  // ---------------------------------------------------------------- what is returned

  /** The model scores every text by itself. */
  ghost predicate ScoresBy(predict: (string, seq<string>) -> seq<Score>, s: (string, string) -> real) {
    forall query, texts :: ScoresEach(query, texts, predict(query, texts), s)
  }

  ghost predicate ScoresEach(query: string, texts: seq<string>, scores: seq<Score>, s: (string, string) -> real) {
    |scores| == |texts| && forall i :: 0 <= i < |texts| ==> scores[i] == Finite(s(query, texts[i]))
  }

  /** The score the candidate at place x gets. */
  function ScoreOf(a: Alphabet, r: Request, s: (string, string) -> real, x: nat): real
    requires x < |r.candidates|
  {
    s(Strip(a, r.query), Strip(a, r.candidates[x].text))
  }

  /** The candidate at place x goes before that at place y: a higher score, then the smaller
      source rank, then the earlier place. */
  ghost predicate GoesBefore(a: Alphabet, r: Request, s: (string, string) -> real, x: nat, y: nat)
    requires x < |r.candidates| && y < |r.candidates|
  {
    var sx, sy, cx, cy := ScoreOf(a, r, s, x), ScoreOf(a, r, s, y), r.candidates[x], r.candidates[y];
    sx > sy || (sx == sy && (cx.rank < cy.rank || (cx.rank == cy.rank && x < y)))
  }

  /** The item is the candidate at place x: stripped, with its own rank and its score. */
  ghost predicate IsItemOf(a: Alphabet, r: Request, s: (string, string) -> real, item: ResultItem, x: nat)
    requires x < |r.candidates|
  {
    var c := r.candidates[x];
    && item.candidate.key == Strip(a, c.key) && item.candidate.text == Strip(a, c.text)
    && item.candidate.rank == c.rank
    && item.candidate.sourceProfile == Strip(a, c.sourceProfile)
    && item.candidate.sourceStrategy == Strip(a, c.sourceStrategy)
    && item.score == Finite(ScoreOf(a, r, s, x))
  }

  lemma ItemsOfTheRequest(a: Alphabet, r: Request, predict: (string, seq<string>) -> seq<Score>,
                          s: (string, string) -> real)
    requires ValidateRequest(a, r).Success? && ScoresBy(predict, s)
    ensures var v := ValidateRequest(a, r).value; var scores := Prediction(v, predict);
      && |scores| == |v.candidates| == |r.candidates| && (forall i :: 0 <= i < |scores| ==> scores[i].Finite?)
      && forall x :: 0 <= x < |r.candidates| ==>
           ScoredItems(v.candidates, scores)[x] == Item(StripCandidate(a, r.candidates[x]), ScoreOf(a, r, s, x), x)
  {
    ModelIsAskedForTheTexts(a, r, predict);
    var query, texts := Strip(a, r.query), StrippedTexts(a, r);
    assert ScoresEach(query, texts, predict(query, texts), s);
  }

  /** The places of the request that a response returns, best first. */
  ghost predicate ReturnsPlaces(a: Alphabet, r: Request, s: (string, string) -> real, results: seq<ResultItem>,
                                places: seq<nat>) {
    && |places| == |results| == Min(r.topK, |r.candidates|)
    && (forall i :: 0 <= i < |places| ==>
          places[i] < |r.candidates| && IsItemOf(a, r, s, results[i], places[i]) && results[i].rank == i + 1)
    && (forall i, j :: 0 <= i < j < |places| ==> GoesBefore(a, r, s, places[i], places[j]))
    && (forall x, i :: 0 <= x < |r.candidates| && x !in places && 0 <= i < |places| ==>
          GoesBefore(a, r, s, places[i], x))
  }

  function PlacesOf(top: seq<Item>): seq<nat> {
    seq(|top|, i requires 0 <= i < |top| => top[i].position)
  }

  lemma ItemsHavePlaces(top: seq<Item>, item: Item)
    ensures item in top ==> item.position in PlacesOf(top)
  {
    if item in top {
      var i :| 0 <= i < |top| && top[i] == item;
      assert PlacesOf(top)[i] == item.position;
    }
  }

  /** With a model that scores every text by itself, a successful response returns as many
      candidates as asked for: each with its own score, numbered from 1, each going before
      the next, and all of them before every candidate left out. */
  lemma ResponseReturnsTheBestTexts(a: Alphabet, settings: Settings, r: Request,
                                    predict: (string, seq<string>) -> seq<Score>, s: (string, string) -> real)
    returns (places: seq<nat>)
    requires Rerank(a, settings, r, predict).Success? && ScoresBy(predict, s)
    ensures ReturnsPlaces(a, r, s, Rerank(a, settings, r, predict).value.results, places)
  {
    var top := RerankReturnsTheTopK(a, settings, r, predict);
    var v := ValidateRequest(a, r).value;
    ItemsOfTheRequest(a, r, predict, s);
    places := PlacesOf(top);
    TopItemsArePlaces(a, r, s, ScoredItems(v.candidates, Prediction(v, predict)), top, v.topK);
  }

  /** The items are the candidates of the request, each at its place. */
  ghost predicate AreItemsOf(a: Alphabet, r: Request, s: (string, string) -> real, items: seq<Item>) {
    && |items| == |r.candidates|
    && forall x :: 0 <= x < |items| ==>
         items[x] == Item(StripCandidate(a, r.candidates[x]), ScoreOf(a, r, s, x), x)
  }

  lemma MemberHasItsPlace(a: Alphabet, r: Request, s: (string, string) -> real, items: seq<Item>, item: Item)
    requires AreItemsOf(a, r, s, items) && item in items
    ensures item.position < |r.candidates| && item == items[item.position]
  {
    var x := Position(items, item);
  }

  lemma BeforeIsGoesBefore(a: Alphabet, r: Request, s: (string, string) -> real, items: seq<Item>, x: nat, y: nat)
    requires AreItemsOf(a, r, s, items) && x < |items| && y < |items|
    ensures Before(items[x], items[y]) <==> GoesBefore(a, r, s, x, y)
  {
  }

  lemma TopItemsArePlaces(a: Alphabet, r: Request, s: (string, string) -> real, items: seq<Item>, top: seq<Item>,
                          k: nat)
    requires AreItemsOf(a, r, s, items) && k == Min(r.topK, |r.candidates|) && IsTopK(items, top, k)
    ensures ReturnsPlaces(a, r, s, NumberedResults(top), PlacesOf(top))
  {
    var places := PlacesOf(top);
    forall i | 0 <= i < |top|
      ensures places[i] < |items| && top[i] == items[places[i]]
    {
      assert top[i] in top;
      MemberHasItsPlace(a, r, s, items, top[i]);
    }
    forall i, j | 0 <= i < j < |top|
      ensures GoesBefore(a, r, s, places[i], places[j])
    {
      BeforeIsGoesBefore(a, r, s, items, places[i], places[j]);
    }
    forall x, i | 0 <= x < |items| && x !in places && 0 <= i < |places|
      ensures GoesBefore(a, r, s, places[i], x)
    {
      LeftOutGoesLater(items, top, k, x, i);
      BeforeIsGoesBefore(a, r, s, items, places[i], x);
    }
  }

  lemma LeftOutGoesLater(items: seq<Item>, top: seq<Item>, k: nat, x: nat, i: nat)
    requires IsTopK(items, top, k) && i < |top| && x < |items| && items[x].position !in PlacesOf(top)
    ensures Before(top[i], items[x])
  {
    ItemsHavePlaces(top, items[x]);
    assert top[i] in top && items[x] in items;
  }

  // ---------------------------------------------------------------- what mismatches tell

  /** Some result has the key. */
  ghost predicate HasKey(items: seq<ResultItem>, key: string) {
    exists i :: 0 <= i < |items| && items[i].candidate.key == key
  }

  /** Two results have the key. */
  ghost predicate RepeatsKey(items: seq<ResultItem>, key: string) {
    exists i, j :: 0 <= i < j < |items| && items[i].candidate.key == key && items[j].candidate.key == key
  }

  /** Some result with the key has a score that is not finite. */
  ghost predicate HasBadScore(items: seq<ResultItem>, key: string) {
    exists i :: 0 <= i < |items| && IsBad(items[i], key)
  }

  predicate IsBad(item: ResultItem, key: string) {
    item.candidate.key == key && item.score.NotFinite?
  }

  lemma HasKeySnoc(init: seq<ResultItem>, last: ResultItem, key: string)
    ensures HasKey(init + [last], key) <==> HasKey(init, key) || last.candidate.key == key
    ensures HasBadScore(init + [last], key) <==> HasBadScore(init, key) || IsBad(last, key)
  {
    var items := init + [last];
    assert items[|init|] == last;
    assert forall i :: 0 <= i < |init| ==> items[i] == init[i];
  }

  lemma RepeatsKeySnoc(init: seq<ResultItem>, last: ResultItem, key: string)
    ensures RepeatsKey(init + [last], key) <==>
      RepeatsKey(init, key) || (HasKey(init, key) && last.candidate.key == key)
  {
    var items := init + [last];
    assert items[|init|] == last;
    assert forall i :: 0 <= i < |init| ==> items[i] == init[i];
    if RepeatsKey(init, key) {
      var i, j :| 0 <= i < j < |init| && init[i].candidate.key == key && init[j].candidate.key == key;
      assert items[i].candidate.key == key && items[j].candidate.key == key;
    }
    if HasKey(init, key) && last.candidate.key == key {
      var i :| 0 <= i < |init| && init[i].candidate.key == key;
      assert items[i].candidate.key == key && items[|init|].candidate.key == key;
    }
  }

  lemma KeysAreSeen(items: seq<ResultItem>, key: string)
    ensures key in KeysOf(items) <==> HasKey(items, key)
  {
  }

  lemma MismatchesSnoc(init: seq<ResultItem>, last: ResultItem, known: set<string>)
    ensures ItemsMismatches(init + [last], known)
         == ItemsMismatches(init, known) + ItemMismatches(last, known, KeysOf(init))
  {
    assert (init + [last])[..|init|] == init;
  }

  lemma OneItemTells(item: ResultItem, known: set<string>, seen: set<string>, key: string)
    ensures UnknownKey(key) in ItemMismatches(item, known, seen) <==> item.candidate.key == key && key !in known
    ensures DuplicateKey(key) in ItemMismatches(item, known, seen) <==> item.candidate.key == key && key in seen
    ensures BadScore(key) in ItemMismatches(item, known, seen) <==> IsBad(item, key)
  {
  }

  lemma {:induction false} ItemMismatchesTell(items: seq<ResultItem>, known: set<string>, key: string)
    ensures UnknownKey(key) in ItemsMismatches(items, known) <==> HasKey(items, key) && key !in known
    ensures DuplicateKey(key) in ItemsMismatches(items, known) <==> RepeatsKey(items, key)
    ensures BadScore(key) in ItemsMismatches(items, known) <==> HasBadScore(items, key)
  {
    if items != [] {
      var init, last := items[..|items| - 1], items[|items| - 1];
      assert items == init + [last];
      ItemMismatchesTell(init, known, key);
      MismatchesSnoc(init, last, known);
      OneItemTells(last, known, KeysOf(init), key);
      KeysAreSeen(init, key);
      HasKeySnoc(init, last, key);
      RepeatsKeySnoc(init, last, key);
    }
  }

  /** The mismatches about items name exactly the unknown keys, the repeated ones and those
      of scores that are not finite. */
  lemma MismatchesNameTheKeys(plan: Plan, r: Response, key: string)
    ensures UnknownKey(key) in Mismatches(plan, r) <==> HasKey(r.results, key) && key !in KnownKeys(plan)
    ensures DuplicateKey(key) in Mismatches(plan, r) <==> RepeatsKey(r.results, key)
    ensures BadScore(key) in Mismatches(plan, r) <==> HasBadScore(r.results, key)
  {
    ItemMismatchesTell(r.results, KnownKeys(plan), key);
    OtherPartsAreFields(plan, r, UnknownKey(key));
    OtherPartsAreFields(plan, r, BadScore(key));
    OtherPartsAreFields(plan, r, DuplicateKey(key));
  }

  predicate AboutAnItem(m: Mismatch) {
    m.UnknownKey? || m.BadScore? || m.DuplicateKey?
  }

  lemma {:induction false} HeadersAreFields(checks: seq<(string, bool)>, m: Mismatch)
    ensures m in FailedHeaders(checks) <==>
      m.FieldMismatch? && exists i :: 0 <= i < |checks| && checks[i].0 == m.name && !checks[i].1
  {
    if checks != [] {
      HeadersAreFields(checks[1..], m);
      assert forall i :: 0 < i < |checks| ==> checks[i] == checks[1..][i - 1];
    }
  }

  lemma {:induction false} ItemPartsAreAboutItems(items: seq<ResultItem>, known: set<string>, m: Mismatch)
    ensures m in ItemsMismatches(items, known) ==> AboutAnItem(m)
  {
    if items != [] { ItemPartsAreAboutItems(items[..|items| - 1], known, m); }
  }

  lemma OtherPartsAreFields(plan: Plan, r: Response, m: Mismatch)
    ensures AboutAnItem(m) ==> (m in Mismatches(plan, r) <==> m in ItemsMismatches(r.results, KnownKeys(plan)))
    ensures m.FieldMismatch? ==> (m in Mismatches(plan, r) <==> m in FailedHeaders(HeaderChecks(plan, r)))
    ensures m.MetadataMismatch? ==> (m in Mismatches(plan, r) <==> m in MetadataMismatches(plan, r.metadata))
  {
    HeadersAreFields(HeaderChecks(plan, r), m);
    ItemPartsAreAboutItems(r.results, KnownKeys(plan), m);
  }

  /** The other mismatches name exactly the fields that are not as expected. */
  lemma MismatchesNameTheFields(plan: Plan, r: Response)
    ensures var found, n := Mismatches(plan, r), |plan.request.candidates|;
      && (FieldMismatch("provider_type") in found <==> r.providerType != "remote")
      && (FieldMismatch("reranker_model_id") in found <==> r.model != plan.model)
      && (FieldMismatch("reranker_profile_name") in found <==> r.profile != plan.profile)
      && (FieldMismatch("retrieval_strategy") in found <==> r.strategy != "reranked")
      && (FieldMismatch("candidate_count") in found <==> r.candidateCount != n)
      && (FieldMismatch("returned_count") in found <==> r.returnedCount != Min(plan.request.topK, n))
      && (FieldMismatch("top_k") in found <==> r.topK != Min(plan.request.topK, n))
  {
    var checks := HeaderChecks(plan, r);
    HeaderNames(plan, r);
    forall i | 0 <= i < |checks|
      ensures FieldMismatch(checks[i].0) in Mismatches(plan, r) <==> !checks[i].1
    {
      FieldIsNamed(plan, r, i);
    }
  }

  lemma FieldIsNamed(plan: Plan, r: Response, i: nat)
    requires i < |HeaderChecks(plan, r)|
    requires var checks := HeaderChecks(plan, r);
      forall i, j :: 0 <= i < j < |checks| ==> checks[i].0 != checks[j].0
    ensures var check := HeaderChecks(plan, r)[i]; FieldMismatch(check.0) in Mismatches(plan, r) <==> !check.1
  {
    var check := HeaderChecks(plan, r)[i];
    OtherPartsAreFields(plan, r, FieldMismatch(check.0));
    HeadersAreFields(HeaderChecks(plan, r), FieldMismatch(check.0));
  }

  lemma HeaderNames(plan: Plan, r: Response)
    ensures var checks := HeaderChecks(plan, r);
      && |checks| == 7
      && (forall i, j :: 0 <= i < j < 7 ==> checks[i].0 != checks[j].0)
      && checks[0].0 == "provider_type" && checks[1].0 == "reranker_model_id"
      && checks[2].0 == "reranker_profile_name" && checks[3].0 == "retrieval_strategy"
      && checks[4].0 == "candidate_count" && checks[5].0 == "returned_count" && checks[6].0 == "top_k"
  {
    var checks := HeaderChecks(plan, r);
    assert forall i :: 0 <= i < 7 ==> |checks[i].0| > 0;
    assert |checks[0].0| == 13 && |checks[1].0| == 17 && |checks[2].0| == 21 && |checks[3].0| == 18;
    assert |checks[4].0| == 15 && |checks[5].0| == 14 && |checks[6].0| == 5;
  }

  /** So do those about the number and the ranks of the results and the metadata. */
  lemma MismatchesNameTheRest(plan: Plan, r: Response)
    ensures ResultCountMismatch in Mismatches(plan, r) <==> |r.results| != r.returnedCount
    ensures ResultRanksMismatch in Mismatches(plan, r) <==> !Ranked(r.results)
    ensures MetadataMismatch("service") in Mismatches(plan, r) <==>
      r.metadata.service != "nex_pcx_reranker_provider_service"
    ensures MetadataMismatch("backend") in Mismatches(plan, r) <==> r.metadata.backend != plan.expectedBackend
    ensures MetadataMismatch("device") in Mismatches(plan, r) <==>
      plan.expectedDevice.Some? && r.metadata.device != plan.expectedDevice.value
  {
    CountMismatchTells(plan, r);
    RanksMismatchTells(plan, r);
    OtherPartsAreFields(plan, r, MetadataMismatch("service"));
    OtherPartsAreFields(plan, r, MetadataMismatch("backend"));
    OtherPartsAreFields(plan, r, MetadataMismatch("device"));
    MetadataTells(plan, r.metadata);
  }

  lemma CountMismatchTells(plan: Plan, r: Response)
    ensures ResultCountMismatch in Mismatches(plan, r) <==> |r.results| != r.returnedCount
  {
    HeadersAreFields(HeaderChecks(plan, r), ResultCountMismatch);
    ItemPartsAreAboutItems(r.results, KnownKeys(plan), ResultCountMismatch);
  }

  lemma RanksMismatchTells(plan: Plan, r: Response)
    ensures ResultRanksMismatch in Mismatches(plan, r) <==> !Ranked(r.results)
  {
    RanksAccepted(r.results);
    HeadersAreFields(HeaderChecks(plan, r), ResultRanksMismatch);
    ItemPartsAreAboutItems(r.results, KnownKeys(plan), ResultRanksMismatch);
  }

  lemma MetadataTells(plan: Plan, m: Metadata)
    ensures MetadataMismatch("service") in MetadataMismatches(plan, m) <==>
      m.service != "nex_pcx_reranker_provider_service"
    ensures MetadataMismatch("backend") in MetadataMismatches(plan, m) <==> m.backend != plan.expectedBackend
    ensures MetadataMismatch("device") in MetadataMismatches(plan, m) <==>
      plan.expectedDevice.Some? && m.device != plan.expectedDevice.value
  {
    assert "service"[0] != "backend"[0] && "service"[0] != "device"[0] && "backend"[0] != "device"[0];
  }
}
