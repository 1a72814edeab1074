/** The small corpus benchmark: one worker call per job target, a summary per profile and
    the pass verdict. */
module CorpusBenchmark {
  import opened Collections

  datatype JobStatus = Succeeded | FailedStatus | OtherStatus(name: string)

  datatype Target = Target(chunkIndex: nat, chunkId: int, jobId: int)

  /** What a worker call did: it raised, or it finished with at most one job.  With a job
      the vector of its chunk is looked up; a lookup that raises is not caught. */
  datatype Job = Job(jobId: int, chunkId: int, status: JobStatus, errorMessage: string,
                     runtimeUrl: Option<string>, providerType: Option<string>)
  datatype Vector = Vector(table: string, dimension: int)
  datatype Lookup = Found(vector: Vector) | NotFound | LookupRaised
  datatype WorkerCall =
    | CallRaised(message: string)
    | CallReturned(processed: bool, job: Option<Job>, lookup: Lookup)
  {
    /** The exception leaves the profile run. */
    predicate Escapes() {
      CallReturned? && job.Some? && lookup.LookupRaised?
    }
  }

  datatype JobResult = JobResult(
    profile: string,
    jobId: Option<int>,
    chunkId: Option<int>,
    processed: bool,
    status: Option<JobStatus>,
    vectorTable: Option<string>,
    vectorDimension: Option<int>,
    runtimeUrl: Option<string>,
    providerType: Option<string>,
    error: Option<string>)
  {
    predicate Passed() {
      && processed && status == Some(Succeeded) && vectorTable.Some? && vectorDimension.Some?
      && runtimeUrl.Some? && providerType == Some("remote") && error == None
    }
  }

  datatype Summary = Summary(
    profile: string,
    expectedJobCount: nat,
    processedCount: nat,
    succeededCount: nat,
    failedCount: nat,
    vectorCount: nat,
    providerType: Option<string>,
    errors: seq<string>)
  {
    predicate Passed() {
      && expectedJobCount > 0
      && processedCount == expectedJobCount && succeededCount == expectedJobCount
      && failedCount == 0 && vectorCount == expectedJobCount
      && providerType == Some("remote")
      && errors == []
    }
  }

  // ---------------------------------------------------------------- one target

  /** The error of a worker result: an unprocessed call, the wrong job or chunk, a job that
      did not succeed, or a missing vector. */
  function WorkerError(target: Target, processed: bool, job: Option<Job>, vector: Option<Vector>): Option<string>
  {
    if !processed then Some("Worker did not process a job.")
    else if job == None then Some("Worker result did not include a job.")
    else if job.value.jobId != target.jobId then Some("Worker claimed unexpected job_id.")
    else if job.value.chunkId != target.chunkId then Some("Worker claimed unexpected chunk_id.")
    else if job.value.status != Succeeded then
      Some(if job.value.errorMessage != "" then job.value.errorMessage else "Worker finished with another status.")
    else if vector == None then Some("Succeeded job did not persist a vector.")
    else None
  }

  function RunTarget(profile: string, target: Target, call: WorkerCall): JobResult
    requires !call.Escapes()
  {
    match call
    case CallRaised(message) =>
      JobResult(profile, Some(target.jobId), Some(target.chunkId), false, None, None, None, None, None, Some(message))
    case CallReturned(processed, job, lookup) =>
      var vector := if job.Some? && lookup.Found? then Some(lookup.vector) else None;
      JobResult(profile,
                if job.Some? then Some(job.value.jobId) else None,
                if job.Some? then Some(job.value.chunkId) else None,
                processed,
                if job.Some? then Some(job.value.status) else None,
                if vector.Some? then Some(vector.value.table) else None,
                if vector.Some? then Some(vector.value.dimension) else None,
                if job.Some? then job.value.runtimeUrl else None,
                if job.Some? then job.value.providerType else None,
                WorkerError(target, processed, job, vector))
  }

  // ---------------------------------------------------------------- summary

  function Count(results: seq<JobResult>, p: JobResult -> bool): nat {
    if results == [] then 0
    else Count(results[..|results| - 1], p) + if p(results[|results| - 1]) then 1 else 0
  }

  predicate HasErrorText(r: JobResult) {
    r.error.Some? && r.error.value != ""
  }

  /** The texts of the non-empty errors, in order. */
  function ErrorTexts(results: seq<JobResult>): seq<string> {
    if results == [] then []
    else
      var last := results[|results| - 1];
      ErrorTexts(results[..|results| - 1]) + if HasErrorText(last) then [last.error.value] else []
  }

  /** The first result with evidence. */
  function FirstEvidence(results: seq<JobResult>): Option<JobResult> {
    if results == [] then None
    else if HasEvidence(results[0]) then Some(results[0])
    else FirstEvidence(results[1..])
  }

  /** The result has a vector or a runtime URL. */
  predicate HasEvidence(r: JobResult) {
    r.vectorTable.Some? || (r.runtimeUrl.Some? && r.runtimeUrl.value != "")
  }

  predicate IsProcessed(r: JobResult) { r.processed }
  predicate HasSucceeded(r: JobResult) { r.status == Some(Succeeded) }
  predicate HasFailed(r: JobResult) { r.status == Some(FailedStatus) }
  predicate HasVector(r: JobResult) { r.vectorTable.Some? }

  function Summarize(profile: string, targetCount: nat, results: seq<JobResult>): Summary {
    var succeeded, vectors := Count(results, HasSucceeded), Count(results, HasVector);
    var evidence := FirstEvidence(results);
    Summary(profile, targetCount, Count(results, IsProcessed), succeeded, Count(results, HasFailed), vectors,
            if evidence.Some? then evidence.value.providerType else None,
            ErrorTexts(results)
            + (if targetCount == 0 then ["No benchmark jobs were created."] else [])
            + (if |results| < targetCount then ["Only some benchmark jobs were processed."] else [])
            + (if vectors < succeeded then ["Only some vectors were found."] else []))
  }

  // ---------------------------------------------------------------- the worker loop

  /** The loop has worked off i targets without a reason to stop. */
  ghost predicate GoneThrough(profile: string, targets: seq<Target>, calls: seq<WorkerCall>, failFast: bool,
                              results: seq<JobResult>, i: nat)
    requires |calls| == |targets|
  {
    && |results| == i <= |targets|
    && (forall j :: 0 <= j < i ==> !calls[j].Escapes() && results[j] == RunTarget(profile, targets[j], calls[j]))
    && (failFast ==> forall j :: 0 <= j < i ==> results[j].Passed())
  }

  /** What a profile run may leave: one result per target in order, cut short only after a
      result that did not pass, and only with fail-fast. */
  ghost predicate IsProfileRun(profile: string, targets: seq<Target>, calls: seq<WorkerCall>, failFast: bool,
                               results: seq<JobResult>)
    requires |calls| == |targets|
  {
    && |results| <= |targets|
    && (forall i :: 0 <= i < |results| ==>
          !calls[i].Escapes() && results[i] == RunTarget(profile, targets[i], calls[i]))
    && (failFast ==> forall i :: 0 <= i < |results| - 1 ==> results[i].Passed())
    && (|results| < |targets| ==> failFast && results != [] && !results[|results| - 1].Passed())
  }

  datatype ProfileRun = Finished(summary: Summary, results: seq<JobResult>) | Escaped(at: nat)

  method RunWorkerProfileBenchmark(profile: string, targets: seq<Target>, calls: seq<WorkerCall>, failFast: bool)
    returns (run: ProfileRun)
    requires |calls| == |targets|
    ensures match run
      case Finished(summary, results) =>
        IsProfileRun(profile, targets, calls, failFast, results) && summary == Summarize(profile, |targets|, results)
      case Escaped(n) =>
        && n < |targets| && calls[n].Escapes()
        && exists results :: GoneThrough(profile, targets, calls, failFast, results, n)
  {
    var results: seq<JobResult> := [];
    for i := 0 to |targets|
      invariant GoneThrough(profile, targets, calls, failFast, results, i)
    {
      if calls[i].Escapes() {
        return Escaped(i);
      }
      var result := RunTarget(profile, targets[i], calls[i]);
      TargetStep(profile, targets, calls, failFast, results, i);
      results := results + [result];
      if failFast && !result.Passed() {
        break;
      }
    }
    return Finished(Summarize(profile, |targets|, results), results);
  }

  lemma TargetStep(profile: string, targets: seq<Target>, calls: seq<WorkerCall>, failFast: bool,
                   results: seq<JobResult>, i: nat)
    requires |calls| == |targets| && i < |targets| && !calls[i].Escapes()
    requires GoneThrough(profile, targets, calls, failFast, results, i)
    ensures var result := RunTarget(profile, targets[i], calls[i]);
      if failFast && !result.Passed() then IsProfileRun(profile, targets, calls, failFast, results + [result])
      else GoneThrough(profile, targets, calls, failFast, results + [result], i + 1)
  {
  }

  // ---------------------------------------------------------------- the verdict

  lemma {:induction false} CountAll(results: seq<JobResult>, p: JobResult -> bool)
    ensures Count(results, p) <= |results|
    ensures Count(results, p) == |results| <==> forall i :: 0 <= i < |results| ==> p(results[i])
  {
    if results != [] { CountAll(results[..|results| - 1], p); }
  }

  lemma {:induction false} CountNone(results: seq<JobResult>, p: JobResult -> bool)
    ensures Count(results, p) == 0 <==> forall i :: 0 <= i < |results| ==> !p(results[i])
  {
    if results != [] { CountNone(results[..|results| - 1], p); }
  }

  lemma {:induction false} NoErrorTexts(results: seq<JobResult>)
    ensures ErrorTexts(results) == [] <==> forall i :: 0 <= i < |results| ==> !HasErrorText(results[i])
  {
    if results != [] {
      var init, last := results[..|results| - 1], results[|results| - 1];
      NoErrorTexts(init);
      assert ErrorTexts(results) == [] <==> ErrorTexts(init) == [] && !HasErrorText(last);
    }
  }

  lemma {:induction false} CountIsASize(results: seq<JobResult>, p: JobResult -> bool)
    ensures Count(results, p) == |PlacesWhere(results, p)|
  {
    if results != [] {
      CountIsASize(results[..|results| - 1], p);
      PlacesWhereSnoc(results, p);
    }
  }

  /** What a summary counts: the results with each property, out of the targets. */
  lemma SummaryCountsResults(profile: string, targetCount: nat, results: seq<JobResult>)
    ensures var s := Summarize(profile, targetCount, results);
      && s.profile == profile && s.expectedJobCount == targetCount
      && s.processedCount == |set i: nat | i < |results| && results[i].processed|
      && s.succeededCount == |set i: nat | i < |results| && results[i].status == Some(Succeeded)|
      && s.failedCount == |set i: nat | i < |results| && results[i].status == Some(FailedStatus)|
      && s.vectorCount == |set i: nat | i < |results| && results[i].vectorTable.Some?|
  {
    CountIsASize(results, IsProcessed);
    CountIsASize(results, HasSucceeded);
    CountIsASize(results, HasFailed);
    CountIsASize(results, HasVector);
    assert PlacesWhere(results, IsProcessed) == set i: nat | i < |results| && results[i].processed;
    assert PlacesWhere(results, HasSucceeded) == set i: nat | i < |results| && results[i].status == Some(Succeeded);
    assert PlacesWhere(results, HasFailed) == set i: nat | i < |results| && results[i].status == Some(FailedStatus);
    assert PlacesWhere(results, HasVector) == set i: nat | i < |results| && results[i].vectorTable.Some?;
  }

  ghost predicate IsFirstEvidence(results: seq<JobResult>, i: nat)
    requires i < |results|
  {
    HasEvidence(results[i]) && forall j :: 0 <= j < i ==> !HasEvidence(results[j])
  }

  lemma {:induction false} EvidenceComesFirst(results: seq<JobResult>)
    ensures FirstEvidence(results) == None ==> forall i :: 0 <= i < |results| ==> !HasEvidence(results[i])
    ensures FirstEvidence(results).Some? ==>
      exists i :: 0 <= i < |results| && FirstEvidence(results) == Some(results[i]) && IsFirstEvidence(results, i)
  {
    if results != [] && HasEvidence(results[0]) {
      assert IsFirstEvidence(results, 0);
    } else if results != [] {
      var rest := results[1..];
      EvidenceComesFirst(rest);
      assert forall i :: 0 < i < |results| ==> results[i] == rest[i - 1];
      if FirstEvidence(rest).Some? {
        var i :| 0 <= i < |rest| && FirstEvidence(rest) == Some(rest[i]) && IsFirstEvidence(rest, i);
        assert results[i + 1] == rest[i] && IsFirstEvidence(results, i + 1);
      }
    }
  }

  /** The provider of a summary is that of the first result with evidence. */
  lemma SummaryNamesTheFirstProvider(profile: string, targetCount: nat, results: seq<JobResult>, i: nat)
    ensures (forall j :: 0 <= j < |results| ==> !HasEvidence(results[j])) ==>
      Summarize(profile, targetCount, results).providerType == None
    ensures i < |results| && IsFirstEvidence(results, i) ==>
      Summarize(profile, targetCount, results).providerType == results[i].providerType
  {
    EvidenceComesFirst(results);
  }

  lemma {:induction false} ErrorTextsInOrder(results: seq<JobResult>, i: nat)
    ensures |ErrorTexts(results)| == |PlacesWhere(results, HasErrorText)|
    ensures i < |results| && HasErrorText(results[i]) ==>
      var k := |PlacesWhere(results[..i], HasErrorText)|;
      k < |ErrorTexts(results)| && ErrorTexts(results)[k] == results[i].error.value
  {
    if results != [] {
      var n := |results| - 1;
      ErrorTextsInOrder(results[..n], i);
      PlacesWhereSnoc(results, HasErrorText);
      if i < n { assert results[..n][..i] == results[..i]; }
    }
  }

  /** What a summary tells about errors: the text of every result that has one, in order,
      then what the counters show to be missing. */
  lemma SummaryTellsErrors(profile: string, targetCount: nat, results: seq<JobResult>, i: nat)
    ensures var s, told := Summarize(profile, targetCount, results), |PlacesWhere(results, HasErrorText)|;
      && (i < |results| && HasErrorText(results[i]) ==>
            var k := |PlacesWhere(results[..i], HasErrorText)|;
            k < told <= |s.errors| && s.errors[k] == results[i].error.value)
      && told <= |s.errors|
      && |s.errors| - told == (if targetCount == 0 then 1 else 0) + (if |results| < targetCount then 1 else 0)
                              + (if s.vectorCount < s.succeededCount then 1 else 0)
  {
    ErrorTextsInOrder(results, i);
  }

  /** The call processed the target's own job. */
  predicate Ran(target: Target, call: WorkerCall) {
    && call.CallReturned? && call.processed && call.job.Some?
    && call.job.value.jobId == target.jobId && call.job.value.chunkId == target.chunkId
  }

  /** What a result tells about its call: whose job and vector it was, and why it does not
      prove the target. */
  lemma ResultTellsTheCall(profile: string, target: Target, call: WorkerCall)
    requires !call.Escapes()
    ensures var r := RunTarget(profile, target, call);
      && r.profile == profile
      && (call.CallRaised? ==> r.error == Some(call.message) && !r.processed && r.status == None)
      && (call.CallReturned? && call.job.Some? ==>
            && r.jobId == Some(call.job.value.jobId) && r.chunkId == Some(call.job.value.chunkId)
            && r.status == Some(call.job.value.status) && r.runtimeUrl == call.job.value.runtimeUrl
            && r.providerType == call.job.value.providerType
            && (r.vectorTable.Some? <==> call.lookup.Found?)
            && (Ran(target, call) && r.status != Some(Succeeded) && call.job.value.errorMessage != "" ==>
                  r.error == Some(call.job.value.errorMessage)))
      && (r.error == None <==> Proven(r) && r.jobId == Some(target.jobId) && r.chunkId == Some(target.chunkId))
  {
  }

  /** A result that proves its target: processed, succeeded, with a vector and no error. */
  predicate Proven(r: JobResult) {
    r.processed && r.status == Some(Succeeded) && r.vectorTable.Some? && !HasErrorText(r)
  }

  /** Exactly when a profile passes, for at most one result per target: there is a target,
      every target has a proven result, and the first result came from a remote provider.
      The provider type of the other results is not looked at. */
  lemma PassesExactlyWhenEveryTargetIsProven(profile: string, targetCount: nat, results: seq<JobResult>)
    requires |results| <= targetCount
    ensures Summarize(profile, targetCount, results).Passed() <==>
      && targetCount > 0 && |results| == targetCount
      && (forall i :: 0 <= i < |results| ==> Proven(results[i]))
      && results[0].providerType == Some("remote")
  {
    CountAll(results, IsProcessed);
    CountAll(results, HasSucceeded);
    CountAll(results, HasVector);
    CountNone(results, HasFailed);
    NoErrorTexts(results);
    if |results| > 0 && results[0].vectorTable.Some? {
      assert FirstEvidence(results) == Some(results[0]);
    }
  }

  /** When a result proves its target: exactly when the call returned the target's own job
      as succeeded and a vector of its chunk was found. */
  lemma ProvenExactlyWhenTheJobSucceeded(profile: string, target: Target, call: WorkerCall)
    requires !call.Escapes()
    ensures var r := RunTarget(profile, target, call);
      Proven(r) <==>
        && call.CallReturned? && call.processed && call.job.Some? && call.lookup.Found?
        && call.job.value.jobId == target.jobId && call.job.value.chunkId == target.chunkId
        && call.job.value.status == Succeeded
    ensures var r := RunTarget(profile, target, call);
      Proven(r) ==> r.jobId == Some(target.jobId) && r.chunkId == Some(target.chunkId)
  {
  }

  /** A passing profile run proves every target: its own job was claimed, succeeded and
      left a vector. */
  lemma PassingRunProvesEveryTarget(profile: string, targets: seq<Target>, calls: seq<WorkerCall>,
                                   failFast: bool, results: seq<JobResult>, i: nat)
    requires |calls| == |targets| && IsProfileRun(profile, targets, calls, failFast, results)
    requires Summarize(profile, |targets|, results).Passed() && i < |targets|
    ensures |results| == |targets| && Proven(results[i])
    ensures results[i].jobId == Some(targets[i].jobId) && results[i].chunkId == Some(targets[i].chunkId)
  {
    PassesExactlyWhenEveryTargetIsProven(profile, |targets|, results);
    ProvenExactlyWhenTheJobSucceeded(profile, targets[i], calls[i]);
  }

  /** Conversely, if there is a target and every target's result passes, so does the
      profile. */
  lemma PassingResultsMakeAPassingProfile(profile: string, targets: seq<Target>, calls: seq<WorkerCall>,
                                          failFast: bool, results: seq<JobResult>)
    requires |calls| == |targets| > 0 && IsProfileRun(profile, targets, calls, failFast, results)
    requires forall i :: 0 <= i < |targets| ==>
      !calls[i].Escapes() && RunTarget(profile, targets[i], calls[i]).Passed()
    ensures Summarize(profile, |targets|, results).Passed()
  {
    PassesExactlyWhenEveryTargetIsProven(profile, |targets|, results);
  }

  /** The call's job went to a remote provider at a known URL. */
  predicate RemoteCall(call: WorkerCall) {
    && call.CallReturned? && call.job.Some?
    && call.job.value.runtimeUrl.Some? && call.job.value.providerType == Some("remote")
  }

  /** A passing profile has only passing results if and only if every call's job went to a
      remote provider at a known URL: the verdict looks at the first provider only. */
  lemma PassingProfilePassesThroughout(profile: string, targets: seq<Target>, calls: seq<WorkerCall>,
                                       failFast: bool, results: seq<JobResult>)
    requires |calls| == |targets| && IsProfileRun(profile, targets, calls, failFast, results)
    requires Summarize(profile, |targets|, results).Passed()
    ensures (forall i :: 0 <= i < |results| ==> results[i].Passed())
       <==> (forall i :: 0 <= i < |calls| ==> RemoteCall(calls[i]))
  {
    PassesExactlyWhenEveryTargetIsProven(profile, |targets|, results);
    forall i | 0 <= i < |results|
      ensures results[i].Passed() <==> RemoteCall(calls[i])
    {
      ProvenExactlyWhenTheJobSucceeded(profile, targets[i], calls[i]);
    }
  }

  /** A run of two targets that passes although its second result does not: the second job
      went to a provider that is not remote. */
  lemma PassingProfileWithFailingResult()
    returns (targets: seq<Target>, calls: seq<WorkerCall>, results: seq<JobResult>)
    ensures |calls| == |targets| && IsProfileRun("p", targets, calls, true, results)
    ensures Summarize("p", |targets|, results).Passed()
    ensures exists i :: 0 <= i < |results| && !results[i].Passed()
  {
    targets := [Target(0, 1, 1), Target(1, 2, 2)];
    var found := Found(Vector("t", 8));
    calls := [CallReturned(true, Some(Job(1, 1, Succeeded, "", Some("u"), Some("remote"))), found),
              CallReturned(true, Some(Job(2, 2, Succeeded, "", Some("u"), Some("mock"))), found)];
    results := [RunTarget("p", targets[0], calls[0]), RunTarget("p", targets[1], calls[1])];
    PassesExactlyWhenEveryTargetIsProven("p", 2, results);
    assert !results[1].Passed();
  }
}
