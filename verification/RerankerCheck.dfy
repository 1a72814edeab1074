/** The independent checker of a rerank response, and the proof that provider and checker
    agree. */
module RerankerCheck {
  import opened Collections
  import opened Reranker

  datatype Plan = Plan(request: Request, profile: string, model: string, expectedBackend: string,
                       expectedDevice: Option<string>)

  datatype Mismatch =
    | FieldMismatch(name: string)
    | ResultCountMismatch
    | ResultRanksMismatch
    | UnknownKey(key: string)
    | DuplicateKey(key: string)
    | BadScore(key: string)
    | MetadataMismatch(name: string)

  // ---------------------------------------------------------------- the mismatch list

  /** The header fields in order, each with whether it has the expected value. */
  function HeaderChecks(plan: Plan, r: Response): seq<(string, bool)> {
    var n := |plan.request.candidates|;
    [ ("provider_type", r.providerType == "remote"),
      ("reranker_model_id", r.model == plan.model),
      ("reranker_profile_name", r.profile == plan.profile),
      ("retrieval_strategy", r.strategy == "reranked"),
      ("candidate_count", r.candidateCount == n),
      ("returned_count", r.returnedCount == Min(plan.request.topK, n)),
      ("top_k", r.topK == Min(plan.request.topK, n)) ]
  }

  function FailedHeaders(checks: seq<(string, bool)>): seq<Mismatch> {
    if checks == [] then []
    else (if checks[0].1 then [] else [FieldMismatch(checks[0].0)]) + FailedHeaders(checks[1..])
  }

  function ItemMismatches(item: ResultItem, known: set<string>, seen: set<string>): seq<Mismatch> {
    (if item.candidate.key !in known then [UnknownKey(item.candidate.key)] else [])
    + (if item.candidate.key in seen then [DuplicateKey(item.candidate.key)] else [])
    + (if item.score.NotFinite? then [BadScore(item.candidate.key)] else [])
  }

  function KeysOf(items: seq<ResultItem>): set<string> {
    set i | 0 <= i < |items| :: items[i].candidate.key
  }

  function ItemsMismatches(items: seq<ResultItem>, known: set<string>): seq<Mismatch> {
    if items == [] then []
    else var n := |items| - 1;
         ItemsMismatches(items[..n], known) + ItemMismatches(items[n], known, KeysOf(items[..n]))
  }

  function KnownKeys(plan: Plan): set<string> {
    set i | 0 <= i < |plan.request.candidates| :: plan.request.candidates[i].key
  }

  function RanksOf(items: seq<ResultItem>): seq<int> {
    seq(|items|, i requires 0 <= i < |items| => items[i].rank)
  }

  function MetadataMismatches(plan: Plan, m: Metadata): seq<Mismatch> {
    (if m.service != "nex_pcx_reranker_provider_service" then [MetadataMismatch("service")] else [])
    + (if m.backend != plan.expectedBackend then [MetadataMismatch("backend")] else [])
    + (if plan.expectedDevice.Some? && m.device != plan.expectedDevice.value then [MetadataMismatch("device")] else [])
  }

  function Mismatches(plan: Plan, r: Response): seq<Mismatch> {
    FailedHeaders(HeaderChecks(plan, r))
    + (if |r.results| != r.returnedCount then [ResultCountMismatch] else [])
    + (if RanksOf(r.results) != seq(|r.results|, i => i + 1) then [ResultRanksMismatch] else [])
    + ItemsMismatches(r.results, KnownKeys(plan))
    + MetadataMismatches(plan, r.metadata)
  }

  lemma KeysOfSnoc(items: seq<ResultItem>, n: nat)
    requires n < |items|
    ensures KeysOf(items[..n + 1]) == KeysOf(items[..n]) + {items[n].candidate.key}
  {
    assert items[..n + 1] == items[..n] + [items[n]];
    assert items[..n + 1][n] == items[n];
    forall k | k in KeysOf(items[..n])
      ensures k in KeysOf(items[..n + 1])
    {
      var i :| 0 <= i < n && items[..n][i].candidate.key == k;
      assert items[..n + 1][i].candidate.key == k;
    }
  }

  /** The loop over results with its set of keys seen so far. */
  method CheckItems(items: seq<ResultItem>, known: set<string>) returns (mismatches: seq<Mismatch>)
    ensures mismatches == ItemsMismatches(items, known)
  {
    mismatches := [];
    var seen: set<string> := {};
    for i := 0 to |items|
      invariant mismatches == ItemsMismatches(items[..i], known)
      invariant seen == KeysOf(items[..i])
    {
      var item := items[i];
      assert items[..i + 1][..i] == items[..i] && items[..i + 1][i] == item;
      KeysOfSnoc(items, i);
      ghost var before := mismatches;
      if item.candidate.key !in known {
        mismatches := mismatches + [UnknownKey(item.candidate.key)];
      }
      if item.candidate.key in seen {
        mismatches := mismatches + [DuplicateKey(item.candidate.key)];
      }
      seen := seen + {item.candidate.key};
      if item.score.NotFinite? {
        mismatches := mismatches + [BadScore(item.candidate.key)];
      }
      assert mismatches == before + ItemMismatches(item, known, KeysOf(items[..i]));
    }
    assert items[..|items|] == items;
  }

  /** The loop over expected header values. */
  method CheckHeaders(checks: seq<(string, bool)>) returns (mismatches: seq<Mismatch>)
    ensures mismatches == FailedHeaders(checks)
  {
    mismatches := [];
    for i := 0 to |checks|
      invariant FailedHeaders(checks) == mismatches + FailedHeaders(checks[i..])
    {
      NextHeader(checks, i);
      if !checks[i].1 {
        mismatches := mismatches + [FieldMismatch(checks[i].0)];
      }
    }
    assert checks[|checks|..] == [];
  }

  lemma NextHeader(checks: seq<(string, bool)>, i: nat)
    requires i < |checks|
    ensures FailedHeaders(checks[i..])
         == (if checks[i].1 then [] else [FieldMismatch(checks[i].0)]) + FailedHeaders(checks[i + 1..])
  {
    assert checks[i..][1..] == checks[i + 1..];
  }

  method ResponseMismatches(plan: Plan, r: Response) returns (mismatches: seq<Mismatch>)
    ensures mismatches == Mismatches(plan, r)
  {
    mismatches := CheckHeaders(HeaderChecks(plan, r));
    if |r.results| != r.returnedCount {
      mismatches := mismatches + [ResultCountMismatch];
    }
    if RanksOf(r.results) != seq(|r.results|, i => i + 1) {
      mismatches := mismatches + [ResultRanksMismatch];
    }
    var fromItems := CheckItems(r.results, KnownKeys(plan));
    mismatches := mismatches + fromItems + MetadataMismatches(plan, r.metadata);
  }

  // ---------------------------------------------------------------- what acceptance means

  ghost predicate HeaderAccepted(plan: Plan, r: Response) {
    var n := |plan.request.candidates|;
    && r.providerType == "remote" && r.model == plan.model && r.profile == plan.profile && r.strategy == "reranked"
    && r.candidateCount == n && r.returnedCount == r.topK == Min(plan.request.topK, n) == |r.results|
    && r.metadata.service == "nex_pcx_reranker_provider_service" && r.metadata.backend == plan.expectedBackend
    && (plan.expectedDevice.Some? ==> r.metadata.device == plan.expectedDevice.value)
  }

  ghost predicate ResultsAccepted(items: seq<ResultItem>, known: set<string>) {
    && (forall i :: 0 <= i < |items| ==> items[i].candidate.key in known && items[i].score.Finite?)
    && (forall i, j :: 0 <= i < j < |items| ==> items[i].candidate.key != items[j].candidate.key)
  }

  ghost predicate Ranked(items: seq<ResultItem>) {
    forall i :: 0 <= i < |items| ==> items[i].rank == i + 1
  }

  /** No mismatch is reported if and only if every condition holds. */
  lemma AcceptedExactlyWhenSound(plan: Plan, r: Response)
    ensures Mismatches(plan, r) == [] <==>
      HeaderAccepted(plan, r) && Ranked(r.results) && ResultsAccepted(r.results, KnownKeys(plan))
  {
    HeadersAccepted(plan, r);
    ItemsAccepted(r.results, KnownKeys(plan));
    RanksAccepted(r.results);
  }

  lemma HeadersAccepted(plan: Plan, r: Response)
    ensures var n := |plan.request.candidates|;
      FailedHeaders(HeaderChecks(plan, r)) == [] <==>
        && r.providerType == "remote" && r.model == plan.model && r.profile == plan.profile && r.strategy == "reranked"
        && r.candidateCount == n && r.returnedCount == Min(plan.request.topK, n) && r.topK == Min(plan.request.topK, n)
  {
    var c := HeaderChecks(plan, r);
    NoFailedHeaders(c);
    assert (forall i :: 0 <= i < |c| ==> c[i].1)
      <==> c[0].1 && c[1].1 && c[2].1 && c[3].1 && c[4].1 && c[5].1 && c[6].1;
  }

  lemma {:induction false} NoFailedHeaders(checks: seq<(string, bool)>)
    ensures FailedHeaders(checks) == [] <==> forall i :: 0 <= i < |checks| ==> checks[i].1
  {
    if checks != [] {
      NoFailedHeaders(checks[1..]);
      assert forall i :: 0 < i < |checks| ==> checks[i] == checks[1..][i - 1];
    }
  }

  lemma RanksAccepted(items: seq<ResultItem>)
    ensures RanksOf(items) == seq(|items|, i => i + 1) <==> Ranked(items)
  {
    var expected := seq(|items|, i => i + 1);
    assert forall i :: 0 <= i < |items| ==> RanksOf(items)[i] == items[i].rank && expected[i] == i + 1;
  }

  lemma SeenBefore(items: seq<ResultItem>, key: string)
    ensures key in KeysOf(items) <==> exists i :: 0 <= i < |items| && items[i].candidate.key == key
  {
  }

  lemma AcceptOneMore(items: seq<ResultItem>, known: set<string>, n: nat)
    requires |items| == n + 1
    ensures ResultsAccepted(items, known) <==>
      && ResultsAccepted(items[..n], known)
      && items[n].candidate.key in known && items[n].score.Finite? && items[n].candidate.key !in KeysOf(items[..n])
  {
    SeenBefore(items[..n], items[n].candidate.key);
    assert forall i :: 0 <= i < n ==> items[..n][i] == items[i];
  }

  lemma {:induction false} ItemsAccepted(items: seq<ResultItem>, known: set<string>)
    ensures ItemsMismatches(items, known) == [] <==> ResultsAccepted(items, known)
  {
    if items != [] {
      var n := |items| - 1;
      ItemsAccepted(items[..n], known);
      AcceptOneMore(items, known, n);
    }
  }
}
