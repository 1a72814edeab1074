/** The plan of the reranker smoke: candidates built from texts, and why every response to a
    built plan is accepted -- unlike to a plan with blanks around a key. */
module RerankerPlan {
  import opened Collections
  import opened Tokenizer
  import opened Reranker
  import opened RerankerCheck
  import opened RerankerAgreement

  // ---------------------------------------------------------------- decimal numerals

  function Digit(d: nat): char
    requires d < 10
  {
    "0123456789"[d]
  }

  function Decimal(n: nat): (s: string)
    ensures s != [] && '0' <= s[|s| - 1] <= '9'
  {
    if n < 10 then [Digit(n)] else Decimal(n / 10) + [Digit(n % 10)]
  }

  /** Different numbers have different numerals. */
  lemma {:induction false} DecimalIsInjective(m: nat, n: nat)
    requires Decimal(m) == Decimal(n)
    ensures m == n
    decreases m + n
  {
    var s := Decimal(m);
    assert Digit(m % 10) == s[|s| - 1] == Digit(n % 10);
    if m >= 10 && n >= 10 {
      assert Decimal(m / 10) == s[..|s| - 1] == Decimal(n / 10);
      DecimalIsInjective(m / 10, n / 10);
    }
  }

  function Key(index: nat): string {
    "candidate-" + Decimal(index)
  }

  lemma KeyIsInjective(i: nat, j: nat)
    requires Key(i) == Key(j)
    ensures i == j
  {
    assert Decimal(i) == Key(i)[10..] && Decimal(j) == Key(j)[10..];
    DecimalIsInjective(i, j);
  }

  /** A built key begins and ends with a word character, so stripping leaves it alone. */
  lemma KeySurvivesStripping(a: Alphabet, index: nat)
    ensures Strip(a, Key(index)) == Key(index)
  {
    var key := Key(index);
    assert key[0] == 'c' && a.isWord(key[0]);
    assert key[|key| - 1] == Decimal(index)[|Decimal(index)| - 1] && a.isWord(key[|key| - 1]);
  }

  // ---------------------------------------------------------------- building the plan

  /** The stripped texts that are not blank, in order. */
  function NormalizedTexts(a: Alphabet, texts: seq<string>): (r: seq<string>)
    ensures forall i :: 0 <= i < |r| ==> r[i] != "" && Strip(a, r[i]) == r[i]
  {
    if texts == [] then []
    else
      StripIdempotent(a, texts[0]);
      (if Strip(a, texts[0]) == "" then [] else [Strip(a, texts[0])]) + NormalizedTexts(a, texts[1..])
  }

  function BuildCandidates(a: Alphabet, texts: seq<string>, profile: string, strategy: string): (r: seq<Candidate>)
    ensures |r| == |NormalizedTexts(a, texts)|
  {
    var normalized := NormalizedTexts(a, texts);
    seq(|normalized|, i requires 0 <= i < |normalized| =>
      Candidate(Key(i + 1), i + 1, normalized[i], Strip(a, profile), Strip(a, strategy)))
  }

  datatype Options = Options(
    query: string,
    texts: seq<string>,
    sourceProfile: string,
    sourceStrategy: string,
    topK: int,
    profile: string,
    model: string,
    backend: string,
    device: Option<string>)

  datatype PlanError = BlankField | NoTexts | InvalidShape(error: RerankError)

  function BuildPlan(a: Alphabet, o: Options): Result<Plan, PlanError> {
    if Strip(a, o.query) == "" then Failure(BlankField)
    else if NormalizedTexts(a, o.texts) == [] then Failure(NoTexts)
    else if Strip(a, o.sourceProfile) == "" || Strip(a, o.sourceStrategy) == "" then Failure(BlankField)
    else if Strip(a, o.profile) == "" || Strip(a, o.model) == "" then Failure(BlankField)
    else
      var candidates := BuildCandidates(a, o.texts, o.sourceProfile, o.sourceStrategy);
      var request := Request(Strip(a, o.query), candidates, o.topK, Strip(a, o.profile), Strip(a, o.model));
      match ValidateRequest(a, request)
      case Failure(error) => Failure(InvalidShape(error))
      case Success(_) =>
        if Strip(a, o.backend) == "" then Failure(BlankField)
        else
          var device := if o.device == None || o.device.value == "" then None else Some(Strip(a, o.device.value));
          Success(Plan(request, request.profile, request.model, Strip(a, o.backend), device))
  }

  // ---------------------------------------------------------------- what a built plan holds

  function IsText(a: Alphabet): string -> bool {
    text => Strip(a, text) != ""
  }

  lemma {:induction false} NormalizedSnoc(a: Alphabet, texts: seq<string>, last: string)
    ensures NormalizedTexts(a, texts + [last])
         == NormalizedTexts(a, texts) + if Strip(a, last) == "" then [] else [Strip(a, last)]
  {
    if texts == [] {
      assert [last][1..] == [] && texts + [last] == [last];
    } else {
      assert (texts + [last])[1..] == texts[1..] + [last];
      NormalizedSnoc(a, texts[1..], last);
    }
  }

  /** Each text that is not blank is kept, at the place that its predecessors leave it. */
  lemma {:induction false} TextsKeepTheirOrder(a: Alphabet, texts: seq<string>, i: nat)
    ensures |NormalizedTexts(a, texts)| == |PlacesWhere(texts, IsText(a))|
    ensures i < |texts| && Strip(a, texts[i]) != "" ==>
      var k := |PlacesWhere(texts[..i], IsText(a))|;
      k < |NormalizedTexts(a, texts)| && NormalizedTexts(a, texts)[k] == Strip(a, texts[i])
    decreases |texts|
  {
    if texts != [] {
      var n := |texts| - 1;
      TextsKeepTheirOrder(a, texts[..n], i);
      NormalizedSnoc(a, texts[..n], texts[n]);
      PlacesWhereSnoc(texts, IsText(a));
      assert texts == texts[..n] + [texts[n]];
      if i < n { assert texts[..n][..i] == texts[..i]; }
    }
  }

  /** A built plan asks for the stripped query, profile and model and the given top k, and
      its candidates are the stripped texts that are not blank, in order. */
  lemma BuiltPlanHolds(a: Alphabet, o: Options, i: nat)
    requires BuildPlan(a, o).Success?
    ensures var plan := BuildPlan(a, o).value; var r := plan.request;
      && r.query == Strip(a, o.query) && r.topK == o.topK
      && r.profile == plan.profile == Strip(a, o.profile) && r.model == plan.model == Strip(a, o.model)
      && plan.expectedBackend == Strip(a, o.backend)
      && (o.device.Some? && o.device.value != "" ==> plan.expectedDevice == Some(Strip(a, o.device.value)))
      && (o.device == None || o.device == Some("") ==> plan.expectedDevice == None)
      && |r.candidates| == |PlacesWhere(o.texts, IsText(a))|
      && (i < |o.texts| && Strip(a, o.texts[i]) != "" ==>
            var k := |PlacesWhere(o.texts[..i], IsText(a))|;
            k < |r.candidates| && r.candidates[k].rank == k + 1 && r.candidates[k].text == Strip(a, o.texts[i])
            && r.candidates[k].sourceProfile == Strip(a, o.sourceProfile)
            && r.candidates[k].sourceStrategy == Strip(a, o.sourceStrategy))
  {
    TextsKeepTheirOrder(a, o.texts, i);
  }

  // ---------------------------------------------------------------- what a built plan is worth

  lemma BuiltCandidate(a: Alphabet, texts: seq<string>, profile: string, strategy: string, i: nat)
    requires Strip(a, profile) != "" && Strip(a, strategy) != "" && i < |NormalizedTexts(a, texts)|
    ensures var c := BuildCandidates(a, texts, profile, strategy)[i];
      c.key == Key(i + 1) && c.rank == i + 1 && StripCandidate(a, c) == c && ValidCandidate(c)
  {
    StripIdempotent(a, profile);
    StripIdempotent(a, strategy);
    KeySurvivesStripping(a, i + 1);
  }

  /** Built candidates are numbered from 1, with different keys that survive stripping, and
      each is valid as it stands. */
  lemma BuiltCandidates(a: Alphabet, texts: seq<string>, profile: string, strategy: string)
    requires Strip(a, profile) != "" && Strip(a, strategy) != ""
    ensures var cs := BuildCandidates(a, texts, profile, strategy);
      && DistinctKeys(cs)
      && forall i :: 0 <= i < |cs| ==> cs[i].rank == i + 1 && StripCandidate(a, cs[i]) == cs[i] && ValidCandidate(cs[i])
  {
    var cs := BuildCandidates(a, texts, profile, strategy);
    forall i | 0 <= i < |cs|
      ensures cs[i].rank == i + 1 && StripCandidate(a, cs[i]) == cs[i] && ValidCandidate(cs[i])
    {
      BuiltCandidate(a, texts, profile, strategy, i);
    }
    forall i, j | 0 <= i < j < |cs|
      ensures cs[i].key != cs[j].key
    {
      if cs[i].key == cs[j].key { KeyIsInjective(i + 1, j + 1); }
    }
  }

  /** The validation of a built request can fail on its size and its top k only: never on a
      candidate, and never on a repeated key. */
  lemma BuiltRequestIsValid(a: Alphabet, request: Request, texts: seq<string>, profile: string, strategy: string)
    requires Strip(a, profile) != "" && Strip(a, strategy) != ""
    requires request.candidates == BuildCandidates(a, texts, profile, strategy)
    requires Strip(a, request.query) != "" && Strip(a, request.profile) != "" && Strip(a, request.model) != ""
    ensures ValidateRequest(a, request).Success? <==>
      0 < |request.candidates| <= MAX_TOP_K && 0 < request.topK <= MAX_TOP_K
  {
    BuiltCandidates(a, texts, profile, strategy);
    assert StripCandidates(a, request.candidates) == request.candidates;
  }

  /** A plan is built exactly when no field is blank, there are between 1 and 100 texts that
      are not blank, and the top k is between 1 and 100. */
  lemma PlanIsBuiltExactlyWhen(a: Alphabet, o: Options)
    ensures BuildPlan(a, o).Success? <==>
      && Strip(a, o.query) != "" && Strip(a, o.sourceProfile) != "" && Strip(a, o.sourceStrategy) != ""
      && Strip(a, o.profile) != "" && Strip(a, o.model) != "" && Strip(a, o.backend) != ""
      && 0 < |PlacesWhere(o.texts, IsText(a))| <= MAX_TOP_K && 0 < o.topK <= MAX_TOP_K
  {
    TextsKeepTheirOrder(a, o.texts, 0);
    if Strip(a, o.sourceProfile) != "" && Strip(a, o.sourceStrategy) != ""
       && Strip(a, o.query) != "" && Strip(a, o.profile) != "" && Strip(a, o.model) != "" {
      var candidates := BuildCandidates(a, o.texts, o.sourceProfile, o.sourceStrategy);
      var request := Request(Strip(a, o.query), candidates, o.topK, Strip(a, o.profile), Strip(a, o.model));
      StripIdempotent(a, o.query);
      StripIdempotent(a, o.profile);
      StripIdempotent(a, o.model);
      BuiltRequestIsValid(a, request, o.texts, o.sourceProfile, o.sourceStrategy);
    }
  }

  lemma BuiltKeysSurvive(a: Alphabet, o: Options)
    requires BuildPlan(a, o).Success?
    ensures KeysSurvive(a, BuildPlan(a, o).value)
  {
    var plan := BuildPlan(a, o).value;
    var cs := plan.request.candidates;
    BuiltCandidates(a, o.texts, o.sourceProfile, o.sourceStrategy);
    forall i | 0 <= i < |cs|
      ensures Strip(a, cs[i].key) in KnownKeys(plan)
    {
      assert StripCandidate(a, cs[i]) == cs[i];
    }
  }

  /** Whatever the texts, the top k and the model's scores, the service's response to a
      built plan is accepted. */
  lemma EveryResponseToABuiltPlanIsAccepted(a: Alphabet, settings: Settings, o: Options,
                                            predict: (string, seq<string>) -> seq<Score>)
    requires BuildPlan(a, o).Success? && SameService(settings, BuildPlan(a, o).value)
    ensures AcceptedWith(a, settings, BuildPlan(a, o).value, predict)
  {
    var plan := BuildPlan(a, o).value;
    BuiltKeysSurvive(a, o);
    if Rerank(a, settings, plan.request, predict).Success? { ProviderIsAccepted(a, settings, plan, predict); }
  }

  // ---------------------------------------------------------------- a plan that is rejected

  /** A valid request of one candidate whose stripped key is not its key is always rejected:
      the candidate is returned whatever its score. */
  lemma OneChangedKeyIsRejected(a: Alphabet, settings: Settings, plan: Plan,
                                predict: (string, seq<string>) -> seq<Score>)
    requires |plan.request.candidates| == 1 && SameService(settings, plan)
    requires Strip(a, plan.request.candidates[0].key) != plan.request.candidates[0].key
    requires Rerank(a, settings, plan.request, predict).Success?
    ensures Mismatches(plan, Rerank(a, settings, plan.request, predict).value) != []
  {
    var r := Rerank(a, settings, plan.request, predict).value;
    var v := ValidateRequest(a, plan.request).value;
    var top := RerankReturnsTheTopK(a, settings, plan.request, predict);
    var items := ScoredItems(v.candidates, Prediction(v, predict));
    assert top[0] in top;
    assert top[0] == items[0];
    ProviderAcceptedExactlyWhenKeysSurvive(a, settings, plan, predict);
    assert r.results[0].candidate.key == Strip(a, plan.request.candidates[0].key);
    assert r.results[0].candidate.key !in KnownKeys(plan);
  }

  lemma OneSpaceStripped(a: Alphabet, word: string)
    requires word != [] && a.isWord(word[0]) && a.isWord(word[|word| - 1])
    ensures Strip(a, " " + word) == Strip(a, word) == word
  {
    assert (" " + word)[1..] == word;
  }

  const PADDED := Candidate(" k", 1, "t", "s", "s")

  /** A plan with one key, " k". */
  function PaddedPlan(): Plan {
    Plan(Request("q", [PADDED], 1, "p", "m"), "p", "m", "qwen_reranker", None)
  }

  lemma PaddedRequestIsValid(a: Alphabet)
    ensures ValidateRequest(a, PaddedPlan().request).Success?
    ensures Strip(a, "p") == "p" && Strip(a, "m") == "m" && Strip(a, " k") == "k"
  {
    OneSpaceStripped(a, "k");
    OneSpaceStripped(a, "t");
    OneSpaceStripped(a, "s");
    OneSpaceStripped(a, "q");
    OneSpaceStripped(a, "p");
    OneSpaceStripped(a, "m");
    var stripped := StripCandidates(a, [PADDED]);
    assert stripped == [Candidate("k", 1, "t", "s", "s")];
  }

  /** Every response to that plan is rejected, by services of any device and alphabet. */
  lemma PaddedKeyIsRejected(a: Alphabet, device: string)
    ensures var settings, plan := Settings("p", "m", device), PaddedPlan();
      && SameService(settings, plan) && DistinctKeys(plan.request.candidates) && !KeysSurvive(a, plan)
      && Rerank(a, settings, plan.request, Favouring(0)).Success?
      && forall predict :: Rerank(a, settings, plan.request, predict).Success? ==>
           Mismatches(plan, Rerank(a, settings, plan.request, predict).value) != []
  {
    var settings, plan := Settings("p", "m", device), PaddedPlan();
    PaddedRequestIsValid(a);
    assert plan.request.candidates == [PADDED] && plan.request.candidates[0].key == " k";
    var place := FavouriteIsReturned(a, settings, plan.request, 0);
    forall predict | Rerank(a, settings, plan.request, predict).Success?
      ensures Mismatches(plan, Rerank(a, settings, plan.request, predict).value) != []
    {
      OneChangedKeyIsRejected(a, settings, plan, predict);
    }
  }
}
