/** The corpus benchmark's report: the runs of a provider's profiles are flattened, and for
    persistence regrouped by profile and totalled over all providers. */
module BenchmarkReport {
  import opened Collections
  import opened CorpusBenchmark

  datatype ProviderResult = ProviderResult(provider: string, summaries: seq<Summary>, results: seq<JobResult>)

  // ---------------------------------------------------------------- regrouping

  function OfProfile(results: seq<JobResult>, profile: string): seq<JobResult> {
    if results == [] then []
    else OfProfile(results[..|results| - 1], profile)
         + if results[|results| - 1].profile == profile then [results[|results| - 1]] else []
  }

  /** The job inputs of a report: for every summary, the results of its profile. */
  function JobInputs(results: seq<JobResult>, profiles: seq<string>): seq<seq<JobResult>> {
    seq(|profiles|, i requires 0 <= i < |profiles| => OfProfile(results, profiles[i]))
  }

  ghost predicate Grouped(byProfile: map<string, seq<JobResult>>, results: seq<JobResult>) {
    forall p :: (if p in byProfile then byProfile[p] else []) == OfProfile(results, p)
  }

  lemma GroupStep(byProfile: map<string, seq<JobResult>>, results: seq<JobResult>, r: JobResult)
    requires Grouped(byProfile, results)
    ensures var group := if r.profile in byProfile then byProfile[r.profile] else [];
      Grouped(byProfile[r.profile := group + [r]], results + [r])
  {
    assert (results + [r])[..|results|] == results;
  }

  method GroupJobs(results: seq<JobResult>) returns (byProfile: map<string, seq<JobResult>>)
    ensures Grouped(byProfile, results)
  {
    byProfile := map[];
    for i := 0 to |results|
      invariant Grouped(byProfile, results[..i])
    {
      var r := results[i];
      GroupStep(byProfile, results[..i], r);
      assert results[..i + 1] == results[..i] + [r];
      byProfile := byProfile[r.profile := (if r.profile in byProfile then byProfile[r.profile] else []) + [r]];
    }
    assert results[..|results|] == results;
  }

  function Concat(jobs: seq<seq<JobResult>>): seq<JobResult> {
    if jobs == [] then [] else Concat(jobs[..|jobs| - 1]) + jobs[|jobs| - 1]
  }

  lemma {:induction false} GroupMultiplicity(results: seq<JobResult>, profile: string, r: JobResult)
    ensures multiset(OfProfile(results, profile))[r] == if r.profile == profile then multiset(results)[r] else 0
  {
    if results != [] {
      GroupMultiplicity(results[..|results| - 1], profile, r);
      assert results == results[..|results| - 1] + [results[|results| - 1]];
    }
  }

  /** One more summary adds the results of its profile. */
  lemma RegroupOneMore(results: seq<JobResult>, init: seq<string>, last: string, r: JobResult)
    ensures multiset(Concat(JobInputs(results, init + [last])))[r]
         == multiset(Concat(JobInputs(results, init)))[r] + if r.profile == last then multiset(results)[r] else 0
  {
    var jobs := JobInputs(results, init + [last]);
    assert jobs[..|init|] == JobInputs(results, init);
    assert jobs[|init|] == OfProfile(results, last);
    GroupMultiplicity(results, last, r);
  }

  lemma CountOfSnoc(s: seq<string>, last: string, x: string)
    ensures multiset(s + [last])[x] == multiset(s)[x] + if x == last then 1 else 0
  {
  }

  lemma TimesOneMore(a: nat, b: nat, more: bool)
    ensures a * (b + if more then 1 else 0) == a * b + if more then a else 0
  {
  }

  /** Each job result is kept once per summary of its profile. */
  lemma {:induction false} RegroupMultiplicity(results: seq<JobResult>, profiles: seq<string>, r: JobResult)
    ensures multiset(Concat(JobInputs(results, profiles)))[r] == multiset(results)[r] * multiset(profiles)[r.profile]
    decreases |profiles|
  {
    if profiles == [] {
      assert JobInputs(results, profiles) == [];
    } else {
      var init, last := profiles[..|profiles| - 1], profiles[|profiles| - 1];
      assert profiles == init + [last];
      RegroupMultiplicity(results, init, r);
      RegroupOneMore(results, init, last, r);
      CountOfSnoc(init, last, r.profile);
      TimesOneMore(multiset(results)[r], multiset(init)[r.profile], r.profile == last);
    }
  }

  /** Regrouping keeps every job result exactly once if and only if every result's profile
      has exactly one summary. */
  lemma RegroupingKeepsEveryJobOnce(results: seq<JobResult>, profiles: seq<string>)
    ensures multiset(Concat(JobInputs(results, profiles))) == multiset(results) <==>
      forall r :: r in results ==> multiset(profiles)[r.profile] == 1
  {
    var kept := multiset(Concat(JobInputs(results, profiles)));
    if kept == multiset(results) {
      forall r | r in results
        ensures multiset(profiles)[r.profile] == 1
      {
        RegroupMultiplicity(results, profiles, r);
        OneFactor(multiset(results)[r], multiset(profiles)[r.profile]);
      }
    }
    if forall r :: r in results ==> multiset(profiles)[r.profile] == 1 {
      forall r
        ensures kept[r] == multiset(results)[r]
      {
        RegroupMultiplicity(results, profiles, r);
        if r in results { assert multiset(results)[r] * 1 == multiset(results)[r]; }
      }
    }
  }

  lemma OneFactor(a: nat, b: nat)
    requires a > 0
    ensures a * b == a <==> b == 1
  {
    if b == 0 {
    } else if b > 1 {
      assert a * b >= a * 2 by { MoreTimes(a, 2, b); }
    }
  }

  lemma MoreTimes(a: nat, b: nat, c: nat)
    requires b <= c
    ensures a * b <= a * c
  {
  }

  // ---------------------------------------------------------------- round trip

  lemma {:induction false} OfProfileAppend(a: seq<JobResult>, b: seq<JobResult>, profile: string)
    ensures OfProfile(a + b, profile) == OfProfile(a, profile) + OfProfile(b, profile)
  {
    if b == [] {
      assert a + b == a;
    } else {
      var init, last := b[..|b| - 1], b[|b| - 1];
      OfProfileAppend(a, init, profile);
      assert (a + b)[..|a + b| - 1] == a + init && (a + b)[|a + b| - 1] == last;
    }
  }

  lemma {:induction false} OfOneProfile(run: seq<JobResult>, owner: string, profile: string)
    requires forall j :: 0 <= j < |run| ==> run[j].profile == owner
    ensures OfProfile(run, profile) == if owner == profile then run else []
  {
    if run != [] { OfOneProfile(run[..|run| - 1], owner, profile); }
  }

  /** The runs belong to their profiles, and no profile ran twice. */
  ghost predicate RunsOf(profiles: seq<string>, runs: seq<seq<JobResult>>) {
    && |runs| == |profiles| && Distinct(profiles)
    && forall i, j :: 0 <= i < |runs| && 0 <= j < |runs[i]| ==> runs[i][j].profile == profiles[i]
  }

  /** The share of a profile in its runs: its own run, or nothing. */
  ghost predicate IsShare(profiles: seq<string>, runs: seq<seq<JobResult>>, profile: string, share: seq<JobResult>)
    requires |runs| == |profiles|
  {
    && (profile !in profiles ==> share == [])
    && forall i :: 0 <= i < |profiles| && profiles[i] == profile ==> share == runs[i]
  }

  lemma ShareSnoc(profiles: seq<string>, runs: seq<seq<JobResult>>, profile: string, share: seq<JobResult>,
                  last: string, run: seq<JobResult>)
    requires |runs| == |profiles| && IsShare(profiles, runs, profile, share) && last !in profiles
    ensures IsShare(profiles + [last], runs + [run], profile, share + if last == profile then run else [])
  {
    assert forall x :: x in profiles + [last] <==> x in profiles || x == last;
    assert forall i :: 0 <= i < |profiles| ==> profiles[i] in profiles;
  }

  lemma LastRunAppends(runs: seq<seq<JobResult>>, run: seq<JobResult>, owner: string, profile: string)
    requires forall j :: 0 <= j < |run| ==> run[j].profile == owner
    ensures OfProfile(Concat(runs + [run]), profile)
         == OfProfile(Concat(runs), profile) + if owner == profile then run else []
  {
    assert (runs + [run])[..|runs|] == runs;
    OfProfileAppend(Concat(runs), run, profile);
    OfOneProfile(run, owner, profile);
  }

  lemma RunsOfSnoc(profiles: seq<string>, runs: seq<seq<JobResult>>, last: string, run: seq<JobResult>)
    requires RunsOf(profiles + [last], runs + [run])
    ensures RunsOf(profiles, runs) && last !in profiles
    ensures forall j :: 0 <= j < |run| ==> run[j].profile == last
  {
    var n := |profiles|;
    assert (profiles + [last])[n] == last && (runs + [run])[n] == run;
    forall i | 0 <= i < n
      ensures profiles[i] == (profiles + [last])[i] != last && runs[i] == (runs + [run])[i]
    {
    }
  }

  lemma {:induction false} OfProfileInConcat(profiles: seq<string>, runs: seq<seq<JobResult>>, profile: string)
    requires RunsOf(profiles, runs)
    ensures IsShare(profiles, runs, profile, OfProfile(Concat(runs), profile))
  {
    if runs != [] {
      var n := |runs| - 1;
      var names, init, last, run := profiles[..n], runs[..n], profiles[n], runs[n];
      assert profiles == names + [last] && runs == init + [run];
      RunsOfSnoc(names, init, last, run);
      OfProfileInConcat(names, init, profile);
      LastRunAppends(init, run, last, profile);
      ShareSnoc(names, init, profile, OfProfile(Concat(init), profile), last, run);
    }
  }

  /** Regrouping the flattened results gives every profile its own run back. */
  lemma RegroupingUndoesFlattening(profiles: seq<string>, runs: seq<seq<JobResult>>)
    requires RunsOf(profiles, runs)
    ensures JobInputs(Concat(runs), profiles) == runs
  {
    forall i | 0 <= i < |profiles|
      ensures OfProfile(Concat(runs), profiles[i]) == runs[i]
    {
      OfProfileInConcat(profiles, runs, profiles[i]);
    }
  }

  lemma {:induction false} CountAppend(a: seq<JobResult>, b: seq<JobResult>, p: JobResult -> bool)
    ensures Count(a + b, p) == Count(a, p) + Count(b, p)
  {
    if b == [] {
      assert a + b == a;
    } else {
      CountAppend(a, b[..|b| - 1], p);
      assert (a + b)[..|a + b| - 1] == a + b[..|b| - 1] && (a + b)[|a + b| - 1] == b[|b| - 1];
    }
  }

  // ---------------------------------------------------------------- measuring a provider

  /** The results of a provider are the runs of its summarized profiles, one after the other. */
  ghost predicate Measured(p: ProviderResult, expected: seq<nat>, runs: seq<seq<JobResult>>) {
    && |p.summaries| == |expected| == |runs|
    && p.results == Concat(runs)
    && (forall i :: 0 <= i < |runs| ==> p.summaries[i] == Summarize(p.summaries[i].profile, expected[i], runs[i]))
    && (forall i, j :: 0 <= i < |runs| && 0 <= j < |runs[i]| ==> runs[i][j].profile == p.summaries[i].profile)
  }

  /** The summaries are those of the first profiles, cut short only by fail-fast after a
      profile that did not pass. */
  ghost predicate GoesThrough(profiles: seq<string>, summaries: seq<Summary>, failFast: bool) {
    && |summaries| <= |profiles|
    && (forall i :: 0 <= i < |summaries| ==> summaries[i].profile == profiles[i])
    && (failFast ==> forall i :: 0 <= i < |summaries| - 1 ==> summaries[i].Passed())
    && (|summaries| < |profiles| ==> failFast && summaries != [] && !summaries[|summaries| - 1].Passed())
  }

  lemma MeasuredSnoc(p: ProviderResult, expected: seq<nat>, runs: seq<seq<JobResult>>,
                     summary: Summary, count: nat, run: seq<JobResult>)
    requires Measured(p, expected, runs) && summary == Summarize(summary.profile, count, run)
    requires forall j :: 0 <= j < |run| ==> run[j].profile == summary.profile
    ensures Measured(ProviderResult(p.provider, p.summaries + [summary], p.results + run), expected + [count],
      runs + [run])
  {
    assert (runs + [run])[..|runs|] == runs;
  }

  datatype Plan = Plan(provider: string, profiles: seq<string>, targets: seq<seq<Target>>, failFast: bool)
  {
    ghost predicate Valid(calls: seq<seq<WorkerCall>>) {
      && |targets| == |profiles| == |calls|
      && forall i :: 0 <= i < |profiles| ==> |calls[i]| == |targets[i]|
    }
  }

  /** The runs are those of the plan's first profiles. */
  ghost predicate RunsOfPlan(plan: Plan, calls: seq<seq<WorkerCall>>, p: ProviderResult, expected: seq<nat>,
                             runs: seq<seq<JobResult>>)
    requires plan.Valid(calls)
  {
    && Measured(p, expected, runs) && |runs| <= |plan.profiles|
    && forall i :: 0 <= i < |runs| ==> IsRunOfPlan(plan, calls, i, p.summaries[i].profile, expected[i], runs[i])
  }

  ghost predicate IsRunOfPlan(plan: Plan, calls: seq<seq<WorkerCall>>, i: nat, profile: string, count: nat,
                              run: seq<JobResult>)
    requires plan.Valid(calls) && i < |plan.profiles|
  {
    && profile == plan.profiles[i] && count == |plan.targets[i]|
    && IsProfileRun(profile, plan.targets[i], calls[i], plan.failFast, run)
  }

  lemma RunKeepsItsProfile(plan: Plan, calls: seq<seq<WorkerCall>>, i: nat, profile: string, count: nat,
                           run: seq<JobResult>)
    requires plan.Valid(calls) && i < |plan.profiles| && IsRunOfPlan(plan, calls, i, profile, count, run)
    ensures forall j :: 0 <= j < |run| ==> run[j].profile == profile
  {
  }

  /** The first i profiles have run without a reason to stop. */
  ghost predicate InProgress(plan: Plan, calls: seq<seq<WorkerCall>>, p: ProviderResult, expected: seq<nat>,
                             runs: seq<seq<JobResult>>, i: nat)
    requires plan.Valid(calls)
  {
    && RunsOfPlan(plan, calls, p, expected, runs) && p.provider == plan.provider && |runs| == i
    && (plan.failFast ==> forall j :: 0 <= j < i ==> p.summaries[j].Passed())
  }

  /** A finished measurement of the plan. */
  ghost predicate IsMeasurement(plan: Plan, calls: seq<seq<WorkerCall>>, p: ProviderResult, expected: seq<nat>,
                                runs: seq<seq<JobResult>>)
    requires plan.Valid(calls)
  {
    && RunsOfPlan(plan, calls, p, expected, runs) && p.provider == plan.provider
    && GoesThrough(plan.profiles, p.summaries, plan.failFast)
  }

  lemma AnotherRun(plan: Plan, calls: seq<seq<WorkerCall>>, p: ProviderResult, expected: seq<nat>,
                   runs: seq<seq<JobResult>>, summary: Summary, count: nat, run: seq<JobResult>)
    requires plan.Valid(calls) && RunsOfPlan(plan, calls, p, expected, runs) && |runs| < |plan.profiles|
    requires IsRunOfPlan(plan, calls, |runs|, summary.profile, count, run)
    requires summary == Summarize(summary.profile, count, run)
    ensures RunsOfPlan(plan, calls, ProviderResult(p.provider, p.summaries + [summary], p.results + run),
                       expected + [count], runs + [run])
  {
    RunKeepsItsProfile(plan, calls, |runs|, summary.profile, count, run);
    MeasuredSnoc(p, expected, runs, summary, count, run);
    forall i | 0 <= i < |runs + [run]|
      ensures IsRunOfPlan(plan, calls, i, (p.summaries + [summary])[i].profile, (expected + [count])[i],
        (runs + [run])[i])
    {
      if i < |runs| {
        assert IsRunOfPlan(plan, calls, i, p.summaries[i].profile, expected[i], runs[i]);
      }
    }
  }

  lemma PlanStep(plan: Plan, calls: seq<seq<WorkerCall>>, p: ProviderResult, expected: seq<nat>,
                 runs: seq<seq<JobResult>>, i: nat, summary: Summary, run: seq<JobResult>)
    requires plan.Valid(calls) && i < |plan.profiles| && InProgress(plan, calls, p, expected, runs, i)
    requires IsProfileRun(plan.profiles[i], plan.targets[i], calls[i], plan.failFast, run)
    requires summary == Summarize(plan.profiles[i], |plan.targets[i]|, run)
    ensures var next := ProviderResult(p.provider, p.summaries + [summary], p.results + run);
      var counts := expected + [|plan.targets[i]|];
      if plan.failFast && !summary.Passed() then IsMeasurement(plan, calls, next, counts, runs + [run])
      else InProgress(plan, calls, next, counts, runs + [run], i + 1)
  {
    AnotherRun(plan, calls, p, expected, runs, summary, |plan.targets[i]|, run);
  }

  lemma WholePlan(plan: Plan, calls: seq<seq<WorkerCall>>, p: ProviderResult, expected: seq<nat>,
                  runs: seq<seq<JobResult>>)
    requires plan.Valid(calls) && InProgress(plan, calls, p, expected, runs, |plan.profiles|)
    ensures IsMeasurement(plan, calls, p, expected, runs)
  {
  }

  /** The loop over a provider's profiles; None when an exception leaves it, which
      takes a call whose vector lookup raises. */
  method MeasureProvider(plan: Plan, calls: seq<seq<WorkerCall>>) returns (p: Option<ProviderResult>)
    requires plan.Valid(calls)
    ensures p.Some? ==> exists expected, runs :: IsMeasurement(plan, calls, p.value, expected, runs)
    ensures p == None ==> exists i, n :: 0 <= i < |calls| && 0 <= n < |calls[i]| && calls[i][n].Escapes()
  {
    var result := ProviderResult(plan.provider, [], []);
    ghost var expected: seq<nat>, runs: seq<seq<JobResult>> := [], [];
    for i := 0 to |plan.profiles|
      invariant InProgress(plan, calls, result, expected, runs, i)
    {
      var run := RunWorkerProfileBenchmark(plan.profiles[i], plan.targets[i], calls[i], plan.failFast);
      if run.Escaped? {
        assert calls[i][run.at].Escapes();
        return None;
      }
      PlanStep(plan, calls, result, expected, runs, i, run.summary, run.results);
      result := ProviderResult(plan.provider, result.summaries + [run.summary], result.results + run.results);
      expected, runs := expected + [|plan.targets[i]|], runs + [run.results];
      if plan.failFast && !run.summary.Passed() {
        return Some(result);
      }
    }
    WholePlan(plan, calls, result, expected, runs);
    return Some(result);
  }

  // ---------------------------------------------------------------- what measured providers keep

  function SummaryNames(p: ProviderResult): seq<string> {
    seq(|p.summaries|, i requires 0 <= i < |p.summaries| => p.summaries[i].profile)
  }

  /** The measurement of a plan with different profiles keeps every job once. */
  lemma PlannedJobsAreKeptOnce(plan: Plan, calls: seq<seq<WorkerCall>>, p: ProviderResult, expected: seq<nat>,
                               runs: seq<seq<JobResult>>)
    requires plan.Valid(calls) && IsMeasurement(plan, calls, p, expected, runs) && Distinct(plan.profiles)
    ensures Distinct(SummaryNames(p))
    ensures JobInputs(p.results, SummaryNames(p)) == runs
    ensures multiset(Concat(JobInputs(p.results, SummaryNames(p)))) == multiset(p.results)
  {
    var names := SummaryNames(p);
    assert forall i :: 0 <= i < |names| ==> names[i] == plan.profiles[i];
    RegroupingUndoesFlattening(names, runs);
  }

  /** A plan that names a profile twice, with one target whose call raises each time. */
  function RepeatedPlan(): Plan {
    Plan("provider", ["p", "p"], [[Target(0, 1, 1)], [Target(0, 1, 1)]], false)
  }

  const RAISING := [CallRaised("no provider")]

  /** What measuring it gives: two equal runs, and two summaries of the same profile. */
  function RepeatedResult(): ProviderResult {
    var r := RunTarget("p", Target(0, 1, 1), RAISING[0]);
    ProviderResult("provider", [Summarize("p", 1, [r]), Summarize("p", 1, [r])], [r, r])
  }

  lemma TwoRuns(r: JobResult)
    ensures Concat([[r], [r]]) == [r, r]
  {
    assert [[r], [r]][..1] == [[r]] && [[r]][..0] == [];
    assert Concat([[r]]) == Concat([]) + [r];
  }

  lemma RepeatedResultIsMeasured(r: JobResult)
    requires r == RunTarget("p", Target(0, 1, 1), RAISING[0])
    ensures Measured(RepeatedResult(), [1, 1], [[r], [r]])
  {
    TwoRuns(r);
  }

  lemma RepeatedRunsAreOfThePlan(r: JobResult)
    requires r == RunTarget("p", Target(0, 1, 1), RAISING[0])
    ensures RepeatedPlan().Valid([RAISING, RAISING])
    ensures IsMeasurement(RepeatedPlan(), [RAISING, RAISING], RepeatedResult(), [1, 1], [[r], [r]])
  {
    var plan, calls := RepeatedPlan(), [RAISING, RAISING];
    RepeatedResultIsMeasured(r);
    forall i | 0 <= i < 2
      ensures IsRunOfPlan(plan, calls, i, RepeatedResult().summaries[i].profile, [1, 1][i], [[r], [r]][i])
    {
      assert IsProfileRun("p", [Target(0, 1, 1)], RAISING, false, [r]);
    }
  }

  lemma TwoCopies<T>(x: T)
    ensures multiset([x, x])[x] == 2
  {
  }

  /** Regrouping that measurement keeps each of the two job results twice. */
  lemma RepeatedProfileKeepsJobsTwice() returns (expected: seq<nat>, runs: seq<seq<JobResult>>, r: JobResult)
    ensures var plan, calls, p := RepeatedPlan(), [RAISING, RAISING], RepeatedResult();
      && plan.Valid(calls) && IsMeasurement(plan, calls, p, expected, runs)
      && multiset(p.results)[r] == 2
      && multiset(Concat(JobInputs(p.results, SummaryNames(p))))[r] == 4
  {
    var p := RepeatedResult();
    r := p.results[0];
    runs, expected := [[r], [r]], [1, 1];
    RepeatedRunsAreOfThePlan(r);
    assert SummaryNames(p) == ["p", "p"];
    TwoCopies(r);
    TwoCopies("p");
    RegroupMultiplicity(p.results, SummaryNames(p), r);
  }

  // ---------------------------------------------------------------- the persisted report

  datatype JobInput = JobInput(provider: string, result: JobResult, passed: bool)

  datatype ProfileInput = ProfileInput(
    provider: string,
    profile: string,
    expectedJobCount: nat,
    processedCount: nat,
    succeededCount: nat,
    failedCount: nat,
    vectorCount: nat,
    passed: bool,
    errors: seq<string>,
    jobs: seq<JobInput>)

  datatype BenchmarkInput = BenchmarkInput(
    profiles: seq<ProfileInput>,
    expectedJobCount: nat,
    processedCount: nat,
    succeededCount: nat,
    failedCount: nat,
    vectorCount: nat)

  function ToJobInputs(provider: string, results: seq<JobResult>): seq<JobInput> {
    seq(|results|, i requires 0 <= i < |results| => JobInput(provider, results[i], results[i].Passed()))
  }

  function ToProfileInput(provider: string, s: Summary, results: seq<JobResult>): ProfileInput {
    ProfileInput(provider, s.profile, s.expectedJobCount, s.processedCount, s.succeededCount, s.failedCount,
                 s.vectorCount, s.Passed(), s.errors, ToJobInputs(provider, results))
  }

  /** For every summary, its counters and the results of its profile. */
  function ProfileInputs(p: ProviderResult): seq<ProfileInput> {
    seq(|p.summaries|, i requires 0 <= i < |p.summaries| =>
      ToProfileInput(p.provider, p.summaries[i], OfProfile(p.results, p.summaries[i].profile)))
  }

  function AllProfileInputs(report: seq<ProviderResult>): seq<ProfileInput> {
    if report == [] then []
    else AllProfileInputs(report[..|report| - 1]) + ProfileInputs(report[|report| - 1])
  }

  method BuildProfileInputs(p: ProviderResult) returns (inputs: seq<ProfileInput>)
    ensures inputs == ProfileInputs(p)
  {
    var byProfile := GroupJobs(p.results);
    inputs := [];
    for i := 0 to |p.summaries|
      invariant inputs == FirstProfileInputs(p, i)
    {
      var s := p.summaries[i];
      GroupOf(byProfile, p.results, s.profile);
      NextProfileInput(p, i);
      var group := if s.profile in byProfile then byProfile[s.profile] else [];
      inputs := inputs + [ToProfileInput(p.provider, s, group)];
    }
    assert FirstProfileInputs(p, |p.summaries|) == ProfileInputs(p);
  }

  function FirstProfileInputs(p: ProviderResult, n: nat): seq<ProfileInput>
    requires n <= |p.summaries|
  {
    ProfileInputs(p)[..n]
  }

  lemma NextProfileInput(p: ProviderResult, i: nat)
    requires i < |p.summaries|
    ensures FirstProfileInputs(p, i + 1) == FirstProfileInputs(p, i)
         + [ToProfileInput(p.provider, p.summaries[i], OfProfile(p.results, p.summaries[i].profile))]
  {
    PrefixSnoc(ProfileInputs(p), i);
  }

  lemma GroupOf(byProfile: map<string, seq<JobResult>>, results: seq<JobResult>, profile: string)
    requires Grouped(byProfile, results)
    ensures (if profile in byProfile then byProfile[profile] else []) == OfProfile(results, profile)
  {
  }

  method BuildBenchmarkInput(report: seq<ProviderResult>) returns (input: BenchmarkInput)
    ensures input.profiles == AllProfileInputs(report)
    ensures input.expectedJobCount == Adding(input.profiles, Expected)
    ensures input.processedCount == Adding(input.profiles, Processed)
    ensures input.succeededCount == Adding(input.profiles, HaveSucceeded)
    ensures input.failedCount == Adding(input.profiles, HaveFailed)
    ensures input.vectorCount == Adding(input.profiles, Vectors)
  {
    var profiles: seq<ProfileInput> := [];
    for i := 0 to |report|
      invariant profiles == AllProfileInputs(report[..i])
    {
      var inputs := BuildProfileInputs(report[i]);
      assert report[..i + 1][..i] == report[..i];
      profiles := profiles + inputs;
    }
    assert report[..|report|] == report;
    return BenchmarkInput(profiles, Adding(profiles, Expected), Adding(profiles, Processed),
                          Adding(profiles, HaveSucceeded), Adding(profiles, HaveFailed), Adding(profiles, Vectors));
  }

  /** The sum of one field over the profile inputs. */
  function Adding(inputs: seq<ProfileInput>, field: ProfileInput -> nat): nat {
    if inputs == [] then 0 else Adding(inputs[..|inputs| - 1], field) + field(inputs[|inputs| - 1])
  }

  function Expected(i: ProfileInput): nat { i.expectedJobCount }
  function Processed(i: ProfileInput): nat { i.processedCount }
  function HaveSucceeded(i: ProfileInput): nat { i.succeededCount }
  function HaveFailed(i: ProfileInput): nat { i.failedCount }
  function Vectors(i: ProfileInput): nat { i.vectorCount }

  // ---------------------------------------------------------------- regrouping keeps the counters

  function JobResults(jobs: seq<JobInput>): seq<JobResult> {
    seq(|jobs|, i requires 0 <= i < |jobs| => jobs[i].result)
  }

  /** What a persisted profile says about its own jobs: they are the profile's run, and the
      stored counters and verdict are theirs. */
  ghost predicate SpeaksOfItsJobs(input: ProfileInput, provider: string, profile: string, expected: nat,
                                  run: seq<JobResult>) {
    && input.provider == provider && input.errors == Summarize(profile, expected, run).errors
    && input.profile == profile && JobResults(input.jobs) == run && input.expectedJobCount == expected
    && input.processedCount == Count(JobResults(input.jobs), IsProcessed)
    && input.succeededCount == Count(JobResults(input.jobs), HasSucceeded)
    && input.failedCount == Count(JobResults(input.jobs), HasFailed)
    && input.vectorCount == Count(JobResults(input.jobs), HasVector)
    && (forall i :: 0 <= i < |input.jobs| ==>
          input.jobs[i].provider == input.provider && (input.jobs[i].passed <==> run[i].Passed()))
    && (input.passed <==> Summarize(profile, expected, run).Passed())
  }

  /** Every persisted profile of a measured provider with different profiles carries its own
      run, and its counters are the counts over the jobs stored with it. */
  lemma PersistedProfilesSpeakOfTheirJobs(p: ProviderResult, expected: seq<nat>, runs: seq<seq<JobResult>>, i: nat)
    requires Measured(p, expected, runs) && Distinct(SummaryNames(p)) && i < |runs|
    ensures |ProfileInputs(p)| == |runs|
    ensures SpeaksOfItsJobs(ProfileInputs(p)[i], p.provider, p.summaries[i].profile, expected[i], runs[i])
  {
    RegroupingUndoesFlattening(SummaryNames(p), runs);
    assert JobInputs(Concat(runs), SummaryNames(p))[i] == OfProfile(p.results, p.summaries[i].profile);
    var input := ProfileInputs(p)[i];
    assert JobResults(input.jobs) == runs[i];
  }

  /** How many profiles the providers of a report have. */
  function ProfileTotal(report: seq<ProviderResult>): nat {
    if report == [] then 0 else ProfileTotal(report[..|report| - 1]) + |report[|report| - 1].summaries|
  }

  /** The j-th profile of the i-th provider is stored after all profiles of the providers
      before it. */
  lemma {:induction false} StoredInOrder(report: seq<ProviderResult>, i: nat, j: nat)
    requires i < |report| && j < |report[i].summaries|
    ensures |AllProfileInputs(report)| == ProfileTotal(report)
    ensures var at := ProfileTotal(report[..i]) + j;
      at < ProfileTotal(report) && AllProfileInputs(report)[at] == ProfileInputs(report[i])[j]
    decreases |report|
  {
    var n := |report| - 1;
    AllAreStored(report[..n]);
    if i < n {
      StoredInOrder(report[..n], i, j);
      assert report[..n][..i] == report[..i];
    }
  }

  lemma {:induction false} AllAreStored(report: seq<ProviderResult>)
    ensures |AllProfileInputs(report)| == ProfileTotal(report)
  {
    if report != [] { AllAreStored(report[..|report| - 1]); }
  }

  /** So every profile of a persisted report speaks of its own run, at its own place. */
  lemma PersistedReportSpeaksOfItsJobs(report: seq<ProviderResult>, expected: seq<seq<nat>>,
                                       runs: seq<seq<seq<JobResult>>>, i: nat, j: nat)
    requires AllMeasured(report, expected, runs)
    requires i < |report| && Distinct(SummaryNames(report[i])) && j < |report[i].summaries|
    ensures |AllProfileInputs(report)| == ProfileTotal(report)
    ensures var at, p := ProfileTotal(report[..i]) + j, report[i];
      && at < ProfileTotal(report)
      && SpeaksOfItsJobs(AllProfileInputs(report)[at], p.provider, p.summaries[j].profile, expected[i][j], runs[i][j])
  {
    StoredInOrder(report, i, j);
    PersistedProfilesSpeakOfTheirJobs(report[i], expected[i], runs[i], j);
  }

  lemma {:induction false} AddingCounts(inputs: seq<ProfileInput>, runs: seq<seq<JobResult>>,
                                        field: ProfileInput -> nat, test: JobResult -> bool)
    requires |inputs| == |runs| && forall i :: 0 <= i < |runs| ==> field(inputs[i]) == Count(runs[i], test)
    ensures Adding(inputs, field) == Count(Concat(runs), test)
  {
    if runs != [] {
      var n := |runs| - 1;
      AddingCounts(inputs[..n], runs[..n], field, test);
      CountAppend(Concat(runs[..n]), runs[n], test);
    }
  }

  lemma {:induction false} AddingAppend(a: seq<ProfileInput>, b: seq<ProfileInput>, field: ProfileInput -> nat)
    ensures Adding(a + b, field) == Adding(a, field) + Adding(b, field)
  {
    if b == [] {
      assert a + b == a;
    } else {
      AddingAppend(a, b[..|b| - 1], field);
      assert (a + b)[..|a + b| - 1] == a + b[..|b| - 1] && (a + b)[|a + b| - 1] == b[|b| - 1];
    }
  }

  function AllResults(report: seq<ProviderResult>): seq<JobResult> {
    if report == [] then [] else AllResults(report[..|report| - 1]) + report[|report| - 1].results
  }

  function NatSum(s: seq<nat>): nat {
    if s == [] then 0 else NatSum(s[..|s| - 1]) + s[|s| - 1]
  }

  function AllExpected(expected: seq<seq<nat>>): nat {
    if expected == [] then 0 else AllExpected(expected[..|expected| - 1]) + NatSum(expected[|expected| - 1])
  }

  ghost predicate AllMeasured(report: seq<ProviderResult>, expected: seq<seq<nat>>, runs: seq<seq<seq<JobResult>>>) {
    && |report| == |expected| == |runs|
    && forall i :: 0 <= i < |report| ==> Measured(report[i], expected[i], runs[i])
  }

  /** The stored field is the summary's count. */
  ghost predicate Stores(field: ProfileInput -> nat, test: JobResult -> bool) {
    forall provider, s: Summary, expected, run, results :: s == Summarize(s.profile, expected, run) ==>
      field(ToProfileInput(provider, s, results)) == Count(run, test)
  }

  lemma {:induction false} StoredTotal(report: seq<ProviderResult>, expected: seq<seq<nat>>,
                                       runs: seq<seq<seq<JobResult>>>, field: ProfileInput -> nat,
                                       test: JobResult -> bool)
    requires AllMeasured(report, expected, runs) && Stores(field, test)
    ensures Adding(AllProfileInputs(report), field) == Count(AllResults(report), test)
  {
    if report != [] {
      var n := |report| - 1;
      var p := report[n];
      StoredTotal(report[..n], expected[..n], runs[..n], field, test);
      AddingCounts(ProfileInputs(p), runs[n], field, test);
      AddingAppend(AllProfileInputs(report[..n]), ProfileInputs(p), field);
      CountAppend(AllResults(report[..n]), p.results, test);
    }
  }

  lemma {:induction false} AddingExpected(inputs: seq<ProfileInput>, expected: seq<nat>)
    requires |inputs| == |expected| && forall i :: 0 <= i < |expected| ==> inputs[i].expectedJobCount == expected[i]
    ensures Adding(inputs, Expected) == NatSum(expected)
  {
    if expected != [] {
      var n := |expected| - 1;
      AddingExpected(inputs[..n], expected[..n]);
    }
  }

  lemma {:induction false} ExpectedTotal(report: seq<ProviderResult>, expected: seq<seq<nat>>,
                                         runs: seq<seq<seq<JobResult>>>)
    requires AllMeasured(report, expected, runs)
    ensures Adding(AllProfileInputs(report), Expected) == AllExpected(expected)
  {
    if report != [] {
      var n := |report| - 1;
      ExpectedTotal(report[..n], expected[..n], runs[..n]);
      AddingExpected(ProfileInputs(report[n]), expected[n]);
      AddingAppend(AllProfileInputs(report[..n]), ProfileInputs(report[n]), Expected);
    }
  }

  /** The totals of the persisted report: the stored counters of all profiles add up to the
      counts over the report's own flat results, and the expected jobs to all targets. */
  lemma RegroupingKeepsTotals(report: seq<ProviderResult>, expected: seq<seq<nat>>, runs: seq<seq<seq<JobResult>>>)
    requires AllMeasured(report, expected, runs)
    ensures Adding(AllProfileInputs(report), Expected) == AllExpected(expected)
    ensures Adding(AllProfileInputs(report), Processed) == Count(AllResults(report), IsProcessed)
    ensures Adding(AllProfileInputs(report), HaveSucceeded) == Count(AllResults(report), HasSucceeded)
    ensures Adding(AllProfileInputs(report), HaveFailed) == Count(AllResults(report), HasFailed)
    ensures Adding(AllProfileInputs(report), Vectors) == Count(AllResults(report), HasVector)
  {
    ExpectedTotal(report, expected, runs);
    StoredTotal(report, expected, runs, Processed, IsProcessed);
    StoredTotal(report, expected, runs, HaveSucceeded, HasSucceeded);
    StoredTotal(report, expected, runs, HaveFailed, HasFailed);
    StoredTotal(report, expected, runs, Vectors, HasVector);
  }
}
