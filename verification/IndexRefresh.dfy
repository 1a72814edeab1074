/** The refresh runner: many policies, one transaction each, failures isolated. */
module IndexRefresh {
  import opened Collections
  import opened Tokenizer
  import opened KeywordIndex
  import opened IndexStore
  import opened RefreshLaws
  import opened RefreshOrder

  datatype Status = Succeeded | Failed

  datatype PolicyResult = PolicyResult(
    policy: string,
    tokenizer: TokenizerName,
    status: Status,
    chunkCount: nat,
    termRowCount: nat,
    statisticsRowCount: nat,
    averageLength: nat)

  datatype Report = Report(
    status: Status,
    tokenizer: TokenizerName,
    policyCount: nat,
    succeededCount: nat,
    failedCount: nat,
    emptyPolicyCount: nat,
    results: seq<PolicyResult>)

  datatype Options = Options(policyNames: seq<string>, tokenizer: TokenizerName, continueOnError: bool)

  // ---------------------------------------------------------------- normalised names

  function Stripped(a: Alphabet, names: seq<string>): seq<string> {
    seq(|names|, i requires 0 <= i < |names| => Strip(a, names[i]))
  }

  /** The distinct elements of s in order of first occurrence. */
  ghost predicate IsFirstOccurrences(s: seq<string>, r: seq<string>) {
    && Distinct(r)
    && (forall x :: x in r <==> x in s)
    && forall i, j :: 0 <= i < j < |r| ==> FirstAt(s, r[i]) < FirstAt(s, r[j])
  }

  ghost function FirstAt(s: seq<string>, x: string): nat {
    if s == [] || s[0] == x then 0 else 1 + FirstAt(s[1..], x)
  }

  lemma {:induction false} FirstAtSnoc(s: seq<string>, last: string, x: string)
    ensures FirstAt(s, x) <= |s| && (x in s <==> FirstAt(s, x) < |s|)
    ensures FirstAt(s + [last], x) == if x in s || x == last then FirstAt(s, x) else |s| + 1
  {
    if s != [] {
      assert (s + [last])[1..] == s[1..] + [last];
      FirstAtSnoc(s[1..], last, x);
    } else {
      assert s + [last] == [last] && FirstAt([last][1..], x) == 0;
    }
  }

  lemma FirstOccurrencesStep(s: seq<string>, r: seq<string>, x: string)
    requires IsFirstOccurrences(s, r)
    ensures IsFirstOccurrences(s + [x], if x in r then r else r + [x])
  {
    var next := if x in r then r else r + [x];
    assert forall y :: y in s + [x] <==> y in s || y == x;
    forall i, j | 0 <= i < j < |next|
      ensures FirstAt(s + [x], next[i]) < FirstAt(s + [x], next[j])
    {
      assert next[i] in next && next[j] in next;
      FirstAtSnoc(s, x, next[i]);
      FirstAtSnoc(s, x, next[j]);
      assert next[i] == r[i] && r[i] in r;
    }
  }

  /** The first i names have been looked at, and none was blank. */
  ghost predicate Normalized(all: seq<string>, i: nat, normalized: seq<string>, seen: set<string>) {
    i <= |all| && IsFirstOccurrences(all[..i], normalized) && seen == Elements(normalized) && "" !in all[..i]
  }

  lemma NormalizeStep(all: seq<string>, i: nat, normalized: seq<string>, seen: set<string>)
    requires i < |all| && Normalized(all, i, normalized, seen) && all[i] != ""
    ensures all[i] in seen ==> Normalized(all, i + 1, normalized, seen)
    ensures all[i] !in seen ==> Normalized(all, i + 1, normalized + [all[i]], seen + {all[i]})
  {
    var x := all[i];
    assert all[..i + 1] == all[..i] + [x];
    FirstOccurrencesStep(all[..i], normalized, x);
    assert x in seen <==> x in normalized;
    assert Elements(normalized + [x]) == Elements(normalized) + {x};
  }

  method NormalizePolicyNames(a: Alphabet, names: seq<string>) returns (r: Result<seq<string>, IndexError>)
    ensures r.Failure? <==> "" in Stripped(a, names)
    ensures r.Success? ==> IsFirstOccurrences(Stripped(a, names), r.value)
  {
    var normalized: seq<string> := [];
    var seen: set<string> := {};
    for i := 0 to |names|
      invariant Normalized(Stripped(a, names), i, normalized, seen)
    {
      var name := Strip(a, names[i]);
      if name == "" {
        assert Stripped(a, names)[i] == "";
        return Failure(BlankPolicyName);
      }
      NormalizeStep(Stripped(a, names), i, normalized, seen);
      if name in seen {
        continue;
      }
      normalized := normalized + [name];
      seen := seen + {name};
    }
    assert Stripped(a, names)[..|names|] == Stripped(a, names);
    return Success(normalized);
  }

  // ---------------------------------------------------------------- the runner

  /** What the runner must report for a policy, given the chunks it ran over. */
  ghost predicate IsResultFor(r: PolicyResult, e: Engine, chunks: Chunks, p: string, t: TokenizerName) {
    && r.policy == p && r.tokenizer == t
    && (r.status == Succeeded <==> Refreshable(e, chunks, p, t))
    && (r.status == Succeeded ==>
          IsReportOf(RefreshResult(p, t, r.chunkCount, r.termRowCount, r.statisticsRowCount, r.averageLength),
                     e, chunks, p, t))
    && (r.status == Failed ==> r.chunkCount == r.termRowCount == r.statisticsRowCount == r.averageLength == 0)
  }

  function CountStatus(results: seq<PolicyResult>, status: Status): nat {
    if results == [] then 0
    else CountStatus(results[..|results| - 1], status) + if results[|results| - 1].status == status then 1 else 0
  }

  function CountEmpty(results: seq<PolicyResult>): nat {
    if results == [] then 0
    else var last := results[|results| - 1];
         CountEmpty(results[..|results| - 1]) + if last.status == Succeeded && last.chunkCount == 0 then 1 else 0
  }

  lemma {:induction false} EveryResultIsCountedOnce(results: seq<PolicyResult>)
    ensures CountStatus(results, Succeeded) + CountStatus(results, Failed) == |results|
    ensures CountStatus(results, Failed) == 0 <==> forall i :: 0 <= i < |results| ==> results[i].status == Succeeded
    ensures CountEmpty(results) <= CountStatus(results, Succeeded)
  {
    if results != [] { EveryResultIsCountedOnce(results[..|results| - 1]); }
  }

  function HasStatus(status: Status): PolicyResult -> bool {
    (r: PolicyResult) => r.status == status
  }

  predicate IsEmptyResult(r: PolicyResult) {
    r.status == Succeeded && r.chunkCount == 0
  }

  /** The counters are numbers of results. */
  lemma {:induction false} CountersAreSizes(results: seq<PolicyResult>, status: Status)
    ensures CountStatus(results, status) == |PlacesWhere(results, HasStatus(status))|
    ensures CountEmpty(results) == |PlacesWhere(results, IsEmptyResult)|
  {
    if results != [] {
      CountersAreSizes(results[..|results| - 1], status);
      PlacesWhereSnoc(results, HasStatus(status));
      PlacesWhereSnoc(results, IsEmptyResult);
    }
  }

  /** One result per policy in order, and totals that add up. */
  ghost predicate IsTruthful(report: Report, e: Engine, chunks: Chunks, ps: seq<string>, t: TokenizerName) {
    && report.tokenizer == t
    && |report.results| == |ps| == report.policyCount
    && (forall i :: 0 <= i < |ps| ==> IsResultFor(report.results[i], e, chunks, ps[i], t))
    && report.succeededCount + report.failedCount == report.policyCount
    && report.succeededCount == CountStatus(report.results, Succeeded)
    && report.emptyPolicyCount == CountEmpty(report.results)
    && (report.status == Succeeded <==> AllRefreshable(e, chunks, ps, t))
  }

  ghost predicate AllRefreshable(e: Engine, chunks: Chunks, ps: seq<string>, t: TokenizerName) {
    forall i :: 0 <= i < |ps| ==> Refreshable(e, chunks, ps[i], t)
  }

  /** A run over ps: either every policy was attempted and reported, or, when errors are
      not to be continued over, the first failure ended it with the earlier policies
      committed. */
  ghost predicate IsRun(r: Result<Report, IndexError>, e: Engine, before: Tables, after: Tables,
                        ps: seq<string>, t: TokenizerName, continueOnError: bool) {
    match r
    case Success(report) =>
      && (continueOnError || AllRefreshable(e, before.chunks, ps, t))
      && after == AttemptAll(e, before, ps, t)
      && IsTruthful(report, e, before.chunks, ps, t)
    case Failure(_) =>
      && !continueOnError
      && exists i :: 0 <= i < |ps| && !Refreshable(e, before.chunks, ps[i], t)
           && AllRefreshable(e, before.chunks, ps[..i], t) && after == AttemptAll(e, before, ps[..i], t)
  }

  /** One pass of the loop: a committed refresh gives a succeeded result, a raised error
      a failed one. */
  method AttemptPolicy(db: IndexDatabase, p: string, t: TokenizerName)
    returns (result: PolicyResult, error: Option<IndexError>)
    requires WellFormed(db.Now()) && !t.Unsupported? && p != "" && Strip(db.engine.alphabet, p) == p
    modifies db`terms, db`stats
    ensures db.Now() == Attempt(db.engine, old(db.Now()), p, t) && WellFormed(db.Now())
    ensures IsResultFor(result, db.engine, db.chunks, p, t)
    ensures error.Some? <==> !Refreshable(db.engine, db.chunks, p, t)
  {
    ghost var before := db.Now();
    var refreshed := db.RefreshPolicy(p, t);
    match refreshed
    case Failure(raised) =>
      result, error := PolicyResult(p, t, Failed, 0, 0, 0, 0), Some(raised);
    case Success(x) =>
      RefreshKeepsInvariants(db.engine, before, p, t);
      result := PolicyResult(x.policy, x.tokenizer, Succeeded, x.chunkCount, x.termRowCount,
                             x.statisticsRowCount, x.averageLength);
      error := None;
  }

  /** The first i policies have been attempted and reported. */
  ghost predicate Progress(e: Engine, start: Tables, now: Tables, ps: seq<string>, i: nat, t: TokenizerName,
                           continueOnError: bool, results: seq<PolicyResult>)
  {
    && i <= |ps| && |results| == i
    && WellFormed(now) && now.chunks == start.chunks
    && now == AttemptAll(e, start, ps[..i], t)
    && (forall j :: 0 <= j < i ==> IsResultFor(results[j], e, start.chunks, ps[j], t))
    && (continueOnError || AllRefreshable(e, start.chunks, ps[..i], t))
  }

  lemma ProgressStep(e: Engine, start: Tables, now: Tables, ps: seq<string>, i: nat, t: TokenizerName,
                     continueOnError: bool, results: seq<PolicyResult>, result: PolicyResult, next: Tables)
    requires i < |ps| && Progress(e, start, now, ps, i, t, continueOnError, results)
    requires next == Attempt(e, now, ps[i], t) && WellFormed(next)
    requires IsResultFor(result, e, start.chunks, ps[i], t)
    requires continueOnError || Refreshable(e, start.chunks, ps[i], t)
    ensures Progress(e, start, next, ps, i + 1, t, continueOnError, results + [result])
  {
    PrefixSnoc(ps, i);
    AttemptAllSnoc(e, start, ps[..i], ps[i], t);
    AllRefreshableSnoc(e, start.chunks, ps[..i], ps[i], t);
    AnotherResult(e, start.chunks, ps, i, t, results, result);
  }

  lemma AnotherResult(e: Engine, chunks: Chunks, ps: seq<string>, i: nat, t: TokenizerName,
                      results: seq<PolicyResult>, result: PolicyResult)
    requires |results| == i < |ps| && IsResultFor(result, e, chunks, ps[i], t)
    requires forall j :: 0 <= j < i ==> IsResultFor(results[j], e, chunks, ps[j], t)
    ensures forall j :: 0 <= j < i + 1 ==> IsResultFor((results + [result])[j], e, chunks, ps[j], t)
  {
    forall j | 0 <= j < i + 1
      ensures IsResultFor((results + [result])[j], e, chunks, ps[j], t)
    {
      if j == i { assert (results + [result])[j] == result; } else { assert (results + [result])[j] == results[j]; }
    }
  }

  lemma AllRefreshableSnoc(e: Engine, chunks: Chunks, ps: seq<string>, p: string, t: TokenizerName)
    ensures AllRefreshable(e, chunks, ps + [p], t) <==> AllRefreshable(e, chunks, ps, t) && Refreshable(e, chunks, p, t)
  {
    assert (ps + [p])[|ps|] == p;
    assert forall i :: 0 <= i < |ps| ==> (ps + [p])[i] == ps[i];
  }

  lemma FirstFailureEndsTheRun(e: Engine, start: Tables, now: Tables, ps: seq<string>, i: nat, t: TokenizerName,
                               results: seq<PolicyResult>, error: IndexError)
    requires i < |ps| && Progress(e, start, now, ps, i, t, false, results)
    requires !Refreshable(e, start.chunks, ps[i], t)
    ensures IsRun(Failure(error), e, start, now, ps, t, false)
  {
  }

  lemma CompletedRun(e: Engine, start: Tables, now: Tables, ps: seq<string>, t: TokenizerName,
                     continueOnError: bool, results: seq<PolicyResult>, report: Report)
    requires Progress(e, start, now, ps, |ps|, t, continueOnError, results)
    requires report.results == results && report.tokenizer == t && report.policyCount == |results|
    requires report.failedCount == CountStatus(results, Failed)
    requires report.succeededCount == |results| - report.failedCount
    requires report.emptyPolicyCount == CountEmpty(results)
    requires report.status == if report.failedCount != 0 then Failed else Succeeded
    ensures IsRun(Success(report), e, start, now, ps, t, continueOnError)
  {
    assert ps[..|ps|] == ps;
    EveryResultIsCountedOnce(results);
  }

  /** The loop over policies with try/continue. */
  method RunPolicies(db: IndexDatabase, ps: seq<string>, t: TokenizerName, continueOnError: bool)
    returns (r: Result<Report, IndexError>)
    requires WellFormed(db.Now()) && !t.Unsupported?
    requires forall i :: 0 <= i < |ps| ==> ps[i] != "" && Strip(db.engine.alphabet, ps[i]) == ps[i]
    modifies db`terms, db`stats
    ensures IsRun(r, db.engine, old(db.Now()), db.Now(), ps, t, continueOnError)
  {
    ghost var start := db.Now();
    var results: seq<PolicyResult> := [];
    for i := 0 to |ps|
      invariant Progress(db.engine, start, db.Now(), ps, i, t, continueOnError, results)
    {
      ghost var now := db.Now();
      var result, error := AttemptPolicy(db, ps[i], t);
      if error.Some? && !continueOnError {
        FirstFailureEndsTheRun(db.engine, start, now, ps, i, t, results, error.value);
        return Failure(error.value);
      }
      ProgressStep(db.engine, start, now, ps, i, t, continueOnError, results, result, db.Now());
      results := results + [result];
    }
    EveryResultIsCountedOnce(results);
    var failedCount := CountStatus(results, Failed);
    var status := if failedCount != 0 then Failed else Succeeded;
    var report := Report(status, t, |results|, |results| - failedCount, failedCount, CountEmpty(results), results);
    CompletedRun(db.engine, start, db.Now(), ps, t, continueOnError, results, report);
    return Success(report);
  }

  /** The policies a call works on: the requested names, stripped and without repeats, or
      all known policies when none is requested. */
  ghost predicate IsWorkList(ps: seq<string>, a: Alphabet, options: Options, listing: seq<string>) {
    var names := Stripped(a, options.policyNames);
    if names == [] then ps == listing else IsFirstOccurrences(names, ps)
  }

  method RefreshKeywordIndexes(db: IndexDatabase, options: Options, listing: seq<string>)
    returns (r: Result<Report, IndexError>, ghost ps: seq<string>)
    requires WellFormed(db.Now())
    requires Distinct(listing) && Elements(listing) == db.policies
    requires forall i :: 0 <= i < |listing| ==> listing[i] != "" && Strip(db.engine.alphabet, listing[i]) == listing[i]
    modifies db`terms, db`stats
    ensures options.tokenizer.Unsupported? || "" in Stripped(db.engine.alphabet, options.policyNames) ==>
      r.Failure? && db.Now() == old(db.Now())
    ensures !options.tokenizer.Unsupported? && "" !in Stripped(db.engine.alphabet, options.policyNames) ==>
      && IsWorkList(ps, db.engine.alphabet, options, listing) && Distinct(ps)
      && IsRun(r, db.engine, old(db.Now()), db.Now(), ps, options.tokenizer, options.continueOnError)
  {
    ps := [];
    if options.tokenizer.Unsupported? {
      return Failure(UnsupportedTokenizer), ps;
    }
    var normalized := NormalizePolicyNames(db.engine.alphabet, options.policyNames);
    if normalized.Failure? {
      return Failure(normalized.error), ps;
    }
    ghost var names := Stripped(db.engine.alphabet, options.policyNames);
    var policyNames := normalized.value;
    HasElement(names);
    NamesAreStripped(db.engine.alphabet, options.policyNames, policyNames);
    if policyNames == [] {
      policyNames := listing;
    }
    ps := policyNames;
    r := RunPolicies(db, policyNames, options.tokenizer, options.continueOnError);
  }

  lemma NamesAreStripped(a: Alphabet, raw: seq<string>, names: seq<string>)
    requires IsFirstOccurrences(Stripped(a, raw), names)
    ensures forall i :: 0 <= i < |names| ==> names[i] in Stripped(a, raw) && Strip(a, names[i]) == names[i]
  {
    forall i | 0 <= i < |names|
      ensures names[i] in Stripped(a, raw) && Strip(a, names[i]) == names[i]
    {
      assert names[i] in names;
      var j :| 0 <= j < |raw| && Stripped(a, raw)[j] == names[i];
      StripIdempotent(a, raw[j]);
    }
  }

  // ---------------------------------------------------------------- the report is true

  ghost predicate ReportsSucceeded(report: Report, ps: seq<string>, q: string)
    requires |report.results| == |ps|
  {
    exists i :: 0 <= i < |ps| && ps[i] == q && report.results[i].status == Succeeded
  }

  lemma ReportedExactlyWhenCommitted(e: Engine, chunks: Chunks, ps: seq<string>, t: TokenizerName, report: Report,
                                     q: string)
    requires IsTruthful(report, e, chunks, ps, t)
    ensures ReportsSucceeded(report, ps, q) <==> Committed(e, chunks, ps, t, q, t)
  {
    forall i | 0 <= i < |ps| && ps[i] == q
      ensures report.results[i].status == Succeeded <==> Refreshable(e, chunks, q, t)
    {
      assert IsResultFor(report.results[i], e, chunks, ps[i], t);
    }
  }

  ghost function RefreshablePlaces(e: Engine, chunks: Chunks, ps: seq<string>, t: TokenizerName): set<nat> {
    set i: nat | i < |ps| && Refreshable(e, chunks, ps[i], t)
  }

  ghost function FailingPlaces(e: Engine, chunks: Chunks, ps: seq<string>, t: TokenizerName): set<nat> {
    set i: nat | i < |ps| && !Refreshable(e, chunks, ps[i], t)
  }

  ghost function EmptyPlaces(chunks: Chunks, ps: seq<string>): set<nat> {
    set i: nat | i < |ps| && PolicyIds(chunks, ps[i]) == {}
  }

  /** The counters of a completed run by the policies alone: those that could be refreshed,
      those that could not, and those without a chunk. */
  lemma ReportCountsPolicies(e: Engine, before: Tables, after: Tables, ps: seq<string>, t: TokenizerName,
                             continueOnError: bool, report: Report)
    requires IsRun(Success(report), e, before, after, ps, t, continueOnError)
    ensures report.succeededCount == |RefreshablePlaces(e, before.chunks, ps, t)|
    ensures report.failedCount == |FailingPlaces(e, before.chunks, ps, t)|
    ensures report.emptyPolicyCount == |EmptyPlaces(before.chunks, ps)|
  {
    CountersAreSizes(report.results, Succeeded);
    CountersAreSizes(report.results, Failed);
    EveryResultIsCountedOnce(report.results);
    CountedPlaces(e, before.chunks, ps, t, report);
  }

  lemma CountedPlaces(e: Engine, chunks: Chunks, ps: seq<string>, t: TokenizerName, report: Report)
    requires IsTruthful(report, e, chunks, ps, t)
    ensures PlacesWhere(report.results, HasStatus(Succeeded)) == RefreshablePlaces(e, chunks, ps, t)
    ensures PlacesWhere(report.results, HasStatus(Failed)) == FailingPlaces(e, chunks, ps, t)
    ensures PlacesWhere(report.results, IsEmptyResult) == EmptyPlaces(chunks, ps)
  {
    var results := report.results;
    forall i | 0 <= i < |ps|
      ensures results[i].status == Succeeded <==> Refreshable(e, chunks, ps[i], t)
      ensures IsEmptyResult(results[i]) <==> PolicyIds(chunks, ps[i]) == {}
    {
      EmptyResultExactlyWhen(e, chunks, ps[i], t, results[i]);
    }
  }

  lemma EmptyResultExactlyWhen(e: Engine, chunks: Chunks, p: string, t: TokenizerName, r: PolicyResult)
    requires IsResultFor(r, e, chunks, p, t)
    ensures r.status == Succeeded <==> Refreshable(e, chunks, p, t)
    ensures IsEmptyResult(r) <==> PolicyIds(chunks, p) == {}
  {
  }

  /** At the end of a completed run, from any tables: the slice of every policy reported as
      succeeded is exactly the from-scratch count, and every other slice of every policy and
      tokenizer is as it was if and only if none of its rows was misfiled among the chunks of
      a policy reported as succeeded. */
  lemma ReportTellsTheTruth(e: Engine, before: Tables, after: Tables, ps: seq<string>, t: TokenizerName,
                            continueOnError: bool, report: Report, q: string, u: TokenizerName)
    requires IsRun(Success(report), e, before, after, ps, t, continueOnError)
    ensures if u == t && ReportsSucceeded(report, ps, q) then SliceExact(e, after, q, t)
      else SliceKept(before, after, q, u) <==>
        forall k, p :: k in TermSlice(before.terms, q, u) && ReportsSucceeded(report, ps, p) ==>
          !Misfiled(e, before, p, t, k)
  {
    SlicesAfterAll(e, before, ps, t, q, u);
    forall p
      ensures ReportsSucceeded(report, ps, p) <==> Committed(e, before.chunks, ps, t, p, t)
    {
      ReportedExactlyWhenCommitted(e, before.chunks, ps, t, report, p);
    }
    forall k
      ensures Taken(e, before, ps, t, k) <==>
        exists p :: ReportsSucceeded(report, ps, p) && Misfiled(e, before, p, t, k)
    {
      if p :| p in ps && Refreshable(e, before.chunks, p, t) && Misfiled(e, before, p, t, k) {
        assert ReportsSucceeded(report, ps, p);
      }
    }
  }

  /** So over filed tables every slice not reported as succeeded is as it was, and the tables
      stay filed. */
  lemma FiledReportTellsTheTruth(e: Engine, before: Tables, after: Tables, ps: seq<string>, t: TokenizerName,
                                 continueOnError: bool, report: Report, q: string, u: TokenizerName)
    requires WellFormed(before) && Filed(before)
    requires IsRun(Success(report), e, before, after, ps, t, continueOnError)
    ensures WellFormed(after) && Filed(after)
    ensures if u == t && ReportsSucceeded(report, ps, q) then SliceExact(e, after, q, t)
      else SliceKept(before, after, q, u)
  {
    AttemptsKeepInvariants(e, before, ps, t);
    ReportTellsTheTruth(e, before, after, ps, t, continueOnError, report, q, u);
    ReportedExactlyWhenCommitted(e, before.chunks, ps, t, report, q);
    FiledSlicesAfterAll(e, before, ps, t, q, u);
  }

  lemma MissingTokenizerBlocksChunks(e: Engine, chunks: Chunks, p: string)
    requires forall text :: e.morphs(text) == None
    ensures Refreshable(e, chunks, p, MecabKo) <==> PolicyIds(chunks, p) == {}
  {
    var ids := PolicyIds(chunks, p);
    if ids != {} {
      var id := Pick(ids);
      assert !ChunkFits(e, chunks, MecabKo, id);
    }
  }

  /** When the optional tokenizer is not installed, a completed run reports exactly the
      policies that have a chunk as failed: an empty policy never reaches the tokenizer.  A
      run that is to end at the first error completes only if no policy has a chunk. */
  lemma MissingTokenizerFailsNonEmptyPolicies(e: Engine, before: Tables, after: Tables, ps: seq<string>,
                                              continueOnError: bool, r: Result<Report, IndexError>)
    requires forall text :: e.morphs(text) == None
    requires IsRun(r, e, before, after, ps, MecabKo, continueOnError)
    ensures r.Success? ==> forall i :: 0 <= i < |ps| ==>
      (r.value.results[i].status == Failed <==> PolicyIds(before.chunks, ps[i]) != {})
    ensures r.Success? <==> continueOnError || forall i :: 0 <= i < |ps| ==> PolicyIds(before.chunks, ps[i]) == {}
  {
    forall p
      ensures Refreshable(e, before.chunks, p, MecabKo) <==> PolicyIds(before.chunks, p) == {}
    {
      MissingTokenizerBlocksChunks(e, before.chunks, p);
    }
    if r.Success? {
      forall i | 0 <= i < |ps|
        ensures r.value.results[i].status == Failed <==> PolicyIds(before.chunks, ps[i]) != {}
      {
        assert IsResultFor(r.value.results[i], e, before.chunks, ps[i], MecabKo);
      }
    }
  }
}
