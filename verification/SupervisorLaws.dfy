/** What every supervisor run keeps, whatever the outside world does. */
module SupervisorLaws {
  import opened Collections
  import opened Supervisor

  ghost predicate Numbered(cycles: seq<Cycle>) {
    forall i :: 0 <= i < |cycles| ==> cycles[i].index == i + 1
  }

  lemma FailuresSnoc(cycles: seq<Cycle>, c: Cycle)
    ensures Failures(cycles + [c]) == Failures(cycles) + if c.exitCode != 0 then 1 else 0
  {
    assert (cycles + [c])[..|cycles|] == cycles;
  }

  /** The complete report of a run that starts within tolerance: cycles numbered from one
      and within the limit; the return code is nonzero exactly when the status is failed;
      at most tolerance failures, and one more -- the last cycle, whose code is returned --
      exactly when the tolerance ended the run. */
  ghost predicate SoundReport(o: Outcome, tolerance: int, limit: Option<int>)
    requires o.Returned?
  {
    && Numbered(o.cycles)
    && (limit.Some? && limit.value >= 0 ==> |o.cycles| <= limit.value)
    && (o.reason != Interrupted ==> (o.status == Failed <==> o.code != 0))
    && (o.reason == Interrupted ==> o.code == 130 && o.status == Exited)
    && (if o.reason == ToleranceExceeded
        then Failures(o.cycles) == tolerance + 1 && o.cycles != [] && o.cycles[|o.cycles| - 1].exitCode == o.code != 0
        else Failures(o.cycles) <= tolerance)
    && (o.reason == CycleLimit ==> limit.Some? && (limit.value >= 0 ==> |o.cycles| == limit.value))
  }

  /** A round that does not reach its worker cycle ends the run soundly. */
  lemma EndingRoundIsSound(tolerance: int, limit: Option<int>, rounds: seq<Round>, stop: bool, cycles: seq<Cycle>)
    requires Numbered(cycles) && Failures(cycles) <= tolerance
    requires limit.Some? && limit.value >= 0 ==> |cycles| <= limit.value
    requires rounds != [] && !Runnable(limit, rounds[0], stop, cycles)
    ensures var o := Supervise(tolerance, limit, rounds, stop, cycles); o.Returned? ==> SoundReport(o, tolerance, limit)
  {
  }

  lemma {:induction false} EveryReportIsSound(tolerance: int, limit: Option<int>, rounds: seq<Round>, stop: bool,
                                              cycles: seq<Cycle>)
    requires Numbered(cycles) && Failures(cycles) <= tolerance
    requires limit.Some? && limit.value >= 0 ==> |cycles| <= limit.value
    ensures var o := Supervise(tolerance, limit, rounds, stop, cycles); o.Returned? ==> SoundReport(o, tolerance, limit)
    decreases |rounds|
  {
    if rounds == [] {
    } else if !Runnable(limit, rounds[0], stop, cycles) {
      EndingRoundIsSound(tolerance, limit, rounds, stop, cycles);
    } else {
      var r := rounds[0];
      match CycleResult(r.workerPolls, r.workerStopping, false)
      case None =>
      case Some((code, stopped)) =>
        var next := cycles + [Cycle(|cycles| + 1, code)];
        FailuresSnoc(cycles, Cycle(|cycles| + 1, code));
        if Failures(next) <= tolerance {
          EveryReportIsSound(tolerance, limit, rounds[1..], stopped || r.stopInSleep, next);
        } else {
          ExceededToleranceIsSound(tolerance, limit, cycles, code);
        }
    }
  }

  /** The report of a run that the tolerance ends after one more cycle. */
  lemma ExceededToleranceIsSound(tolerance: int, limit: Option<int>, cycles: seq<Cycle>, code: int)
    requires Numbered(cycles) && Failures(cycles) <= tolerance && (limit.Some? ==> |cycles| < limit.value)
    requires Failures(cycles + [Cycle(|cycles| + 1, code)]) > tolerance
    ensures var next := cycles + [Cycle(|cycles| + 1, code)];
      SoundReport(Returned(code, Failed, ToleranceExceeded, next), tolerance, limit)
  {
    FailuresSnoc(cycles, Cycle(|cycles| + 1, code));
  }

  /** The round reaches its worker cycle. */
  predicate Runnable(limit: Option<int>, r: Round, stop: bool, cycles: seq<Cycle>) {
    && !r.interrupted && !stop && !r.stopAtGuard && r.webPoll == None
    && !(limit.Some? && |cycles| >= limit.value) && r.workerSpawns
  }

  /** A whole run: with a tolerance that is not negative every returned report is sound. */
  lemma RunsReportSoundly(tolerance: int, limit: Option<int>, rounds: seq<Round>)
    requires tolerance >= 0
    ensures var o := Supervise(tolerance, limit, rounds, false, []); o.Returned? ==> SoundReport(o, tolerance, limit)
  {
    EveryReportIsSound(tolerance, limit, rounds, false, []);
  }

  ghost predicate CodeTellsStatus(tolerance: int, limit: Option<int>, rounds: seq<Round>) {
    var o := Supervise(tolerance, limit, rounds, false, []);
    o.Returned? && o.reason != Interrupted ==> (o.status == Failed <==> o.code != 0)
  }

  /** The return code tells the status over all runs exactly for non-negative tolerances
      (or when the limit allows no cycle): below zero one successful cycle already ends in
      "failed" with return code 0.  The program's own plan refuses a negative tolerance, so
      the failing half concerns other callers of the loop. */
  lemma CodeTellsStatusExactlyWhenTolerant(tolerance: int, limit: Option<int>)
    ensures tolerance >= 0 || (limit.Some? && limit.value <= 0)
      <==> forall rounds :: CodeTellsStatus(tolerance, limit, rounds)
  {
    if tolerance >= 0 || (limit.Some? && limit.value <= 0) {
      forall rounds
        ensures CodeTellsStatus(tolerance, limit, rounds)
      {
        if tolerance >= 0 { RunsReportSoundly(tolerance, limit, rounds); }
      }
    } else {
      var rounds := [OneCycle([HasExited(0)], Stopping(None, 0))];
      FailuresSnoc([], Cycle(1, 0));
      assert Supervise(tolerance, limit, rounds, false, [])
        == Returned(0, Failed, ToleranceExceeded, [] + [Cycle(1, 0)]);
      assert !CodeTellsStatus(tolerance, limit, rounds);
    }
  }

  function OneCycle(polls: seq<WorkerPoll>, stopping: Stopping): Round {
    Round(false, false, None, true, polls, stopping, false)
  }

  // ---------------------------------------------------------------- cycles and rounds

  /** Cycle i records what round i's worker did, starting without a stop request. */
  lemma {:induction false} CyclesRecordTheirWorkers(tolerance: int, limit: Option<int>, rounds: seq<Round>,
                                                    stop: bool, cycles: seq<Cycle>, i: nat)
    requires var o := Supervise(tolerance, limit, rounds, stop, cycles);
      o.Returned? && |cycles| <= i < |o.cycles|
    ensures var o := Supervise(tolerance, limit, rounds, stop, cycles); var j := i - |cycles|;
      && cycles <= o.cycles && j < |rounds|
      && CycleResult(rounds[j].workerPolls, rounds[j].workerStopping, false).Some?
      && o.cycles[i].exitCode == CycleResult(rounds[j].workerPolls, rounds[j].workerStopping, false).value.0
    decreases |rounds|
  {
    var o := Supervise(tolerance, limit, rounds, stop, cycles);
    if Runnable(limit, rounds[0], stop, cycles) {
      var r := rounds[0];
      var (code, stopped) := CycleResult(r.workerPolls, r.workerStopping, false).value;
      var next := cycles + [Cycle(|cycles| + 1, code)];
      if Failures(next) <= tolerance {
        CyclesOnlyGrow(tolerance, limit, rounds[1..], stopped || r.stopInSleep, next);
        if i > |cycles| {
          CyclesRecordTheirWorkers(tolerance, limit, rounds[1..], stopped || r.stopInSleep, next, i);
        }
      }
    }
  }

  lemma {:induction false} CyclesOnlyGrow(tolerance: int, limit: Option<int>, rounds: seq<Round>, stop: bool,
                                          cycles: seq<Cycle>)
    ensures var o := Supervise(tolerance, limit, rounds, stop, cycles); o.Returned? ==> cycles <= o.cycles
    decreases |rounds|
  {
    if rounds != [] && Runnable(limit, rounds[0], stop, cycles) {
      var r := rounds[0];
      match CycleResult(r.workerPolls, r.workerStopping, false)
      case None =>
      case Some((code, stopped)) =>
        CyclesOnlyGrow(tolerance, limit, rounds[1..], stopped || r.stopInSleep, cycles + [Cycle(|cycles| + 1, code)]);
    }
  }

  /** A returned run needs no more of the outside world: further rounds change nothing. */
  lemma {:induction false} ReturnIsFinal(tolerance: int, limit: Option<int>, rounds: seq<Round>, more: seq<Round>,
                                         stop: bool, cycles: seq<Cycle>)
    requires Supervise(tolerance, limit, rounds, stop, cycles) != StillRunning
    ensures Supervise(tolerance, limit, rounds + more, stop, cycles)
      == Supervise(tolerance, limit, rounds, stop, cycles)
    decreases |rounds|
  {
    assert (rounds + more)[0] == rounds[0] && (rounds + more)[1..] == rounds[1..] + more;
    if Runnable(limit, rounds[0], stop, cycles) {
      var r := rounds[0];
      var (code, stopped) := CycleResult(r.workerPolls, r.workerStopping, false).value;
      var next := cycles + [Cycle(|cycles| + 1, code)];
      if Failures(next) <= tolerance {
        ReturnIsFinal(tolerance, limit, rounds[1..], more, stopped || r.stopInSleep, next);
      }
    }
  }

  // ---------------------------------------------------------------- stopping

  /** A worker that is running when the stop arrives is ended, and its exit code is
      recorded like any other. */
  lemma {:induction false} StopEndsTheWorker(polls: seq<WorkerPoll>, stopping: Stopping, n: nat)
    requires n < |polls| && polls[n] == Runs(true) && forall i :: 0 <= i < n ==> polls[i] == Runs(false)
    ensures CycleResult(polls, stopping, false) == Some((ExitWhenStopped(stopping), true))
  {
    if n > 0 { StopEndsTheWorker(polls[1..], stopping, n - 1); }
  }

  /** A stop during a cycle: the supervisor reports failed with the worker's code exactly
      when that cycle exceeds the tolerance; otherwise the next guard ends the run as a
      clean exit. */
  lemma StopDuringCycle(tolerance: int, limit: Option<int>, r: Round, next: Round, more: seq<Round>,
                        cycles: seq<Cycle>, n: nat)
    requires Failures(cycles) <= tolerance && Runnable(limit, r, false, cycles) && !next.interrupted
    requires n < |r.workerPolls| && r.workerPolls[n] == Runs(true)
    requires forall i :: 0 <= i < n ==> r.workerPolls[i] == Runs(false)
    ensures var code := ExitWhenStopped(r.workerStopping); var all := cycles + [Cycle(|cycles| + 1, code)];
      Supervise(tolerance, limit, [r, next] + more, false, cycles) ==
        if code != 0 && Failures(cycles) == tolerance then Returned(code, Failed, ToleranceExceeded, all)
        else Returned(0, Exited, StopSignal, all)
  {
    StopEndsTheWorker(r.workerPolls, r.workerStopping, n);
    var code := ExitWhenStopped(r.workerStopping);
    FailuresSnoc(cycles, Cycle(|cycles| + 1, code));
    var rounds := [r, next] + more;
    assert rounds[0] == r && rounds[1..][0] == next;
  }

  /** So a stopped supervisor can report failure: tolerance 0, the first worker ended by
      the stop with SIGTERM's code. */
  lemma StoppedSupervisorCanReportFailed(next: Round)
    requires !next.interrupted
    ensures Supervise(0, None, [OneCycle([Runs(true)], Stopping(Some(-15), -9)), next], false, [])
         == Returned(-15, Failed, ToleranceExceeded, [Cycle(1, -15)])
  {
    var r := OneCycle([Runs(true)], Stopping(Some(-15), -9));
    StopDuringCycle(0, None, r, next, [], [], 0);
    assert [r, next] + [] == [r, next];
  }

  // ---------------------------------------------------------------- how a worker cycle ends

  /** A worker that exits by itself before a stop comes reports its own code. */
  lemma {:induction false} ExitEndsTheCycle(polls: seq<WorkerPoll>, stopping: Stopping, n: nat, code: int)
    requires n < |polls| && polls[n] == HasExited(code) && forall i :: 0 <= i < n ==> polls[i] == Runs(false)
    ensures CycleResult(polls, stopping, false) == Some((code, false))
  {
    if n > 0 { ExitEndsTheCycle(polls[1..], stopping, n - 1, code); }
  }

  /** A worker that neither exits nor is stopped is still running. */
  lemma {:induction false} NoAnswerNoCycle(polls: seq<WorkerPoll>, stopping: Stopping)
    requires forall i :: 0 <= i < |polls| ==> polls[i] == Runs(false)
    ensures CycleResult(polls, stopping, false) == None
  {
    if polls != [] { NoAnswerNoCycle(polls[1..], stopping); }
  }

  /** A stopped worker reports the code it ended with in the grace period, otherwise that of
      the kill. */
  lemma StoppedWorkerCode(code: int, killed: int)
    ensures CycleResult([Runs(true)], Stopping(Some(code), killed), false) == Some((code, true))
    ensures CycleResult([Runs(true)], Stopping(None, killed), false) == Some((killed, true))
  {
    StopEndsTheWorker([Runs(true)], Stopping(Some(code), killed), 0);
    StopEndsTheWorker([Runs(true)], Stopping(None, killed), 0);
  }

  // ---------------------------------------------------------------- how a run ends

  /** An interrupt ends the run with code 130, whatever else is pending. */
  lemma InterruptEndsTheRun(tolerance: int, limit: Option<int>, r: Round, more: seq<Round>, stop: bool,
                            cycles: seq<Cycle>)
    requires r.interrupted
    ensures Supervise(tolerance, limit, [r] + more, stop, cycles) == Returned(130, Exited, Interrupted, cycles)
  {
  }

  /** A stop that is pending, or arrives before the guard, ends the run without another
      cycle -- even if the web process has exited or the limit is reached. */
  lemma PendingStopEndsTheRun(tolerance: int, limit: Option<int>, r: Round, more: seq<Round>, stop: bool,
                              cycles: seq<Cycle>)
    requires !r.interrupted && (stop || r.stopAtGuard)
    ensures Supervise(tolerance, limit, [r] + more, stop, cycles) == Returned(0, Exited, StopSignal, cycles)
  {
  }

  /** Without a stop the exit of the web process ends the run with its code, before any other
      cycle: exited for zero, failed otherwise. */
  lemma WebExitEndsTheRun(tolerance: int, limit: Option<int>, r: Round, more: seq<Round>, cycles: seq<Cycle>, code: int)
    requires !r.interrupted && !r.stopAtGuard && r.webPoll == Some(code)
    ensures Supervise(tolerance, limit, [r] + more, false, cycles)
         == Returned(code, if code == 0 then Exited else Failed, WebExited, cycles)
  {
  }

  /** With the web process up, the limit ends the run as a clean exit. */
  lemma LimitEndsTheRun(tolerance: int, limit: Option<int>, r: Round, more: seq<Round>, cycles: seq<Cycle>)
    requires !r.interrupted && !r.stopAtGuard && r.webPoll == None && limit.Some? && |cycles| >= limit.value
    ensures Supervise(tolerance, limit, [r] + more, false, cycles) == Returned(0, Exited, CycleLimit, cycles)
  {
  }

  /** A worker that cannot be launched raises, with the cycles so far. */
  lemma FailedLaunchRaises(tolerance: int, limit: Option<int>, r: Round, more: seq<Round>, cycles: seq<Cycle>)
    requires !r.interrupted && !r.stopAtGuard && r.webPoll == None && !r.workerSpawns
    requires limit.Some? ==> |cycles| < limit.value
    ensures Supervise(tolerance, limit, [r] + more, false, cycles) == Raised(cycles)
  {
  }

  /** A cycle beyond the tolerance ends the run as failed with the worker's code. */
  lemma FailedCycleEndsTheRun(tolerance: int, limit: Option<int>, r: Round, more: seq<Round>, cycles: seq<Cycle>,
                              code: int, stopped: bool)
    requires Runnable(limit, r, false, cycles)
    requires CycleResult(r.workerPolls, r.workerStopping, false) == Some((code, stopped))
    requires Failures(cycles + [Cycle(|cycles| + 1, code)]) > tolerance
    ensures Supervise(tolerance, limit, [r] + more, false, cycles)
         == Returned(code, Failed, ToleranceExceeded, cycles + [Cycle(|cycles| + 1, code)])
  {
  }

  /** A stop that arrives in the pause after a tolerated cycle ends the run there: no further
      worker is started. */
  lemma StopInThePauseEndsTheRun(tolerance: int, limit: Option<int>, r: Round, next: Round, more: seq<Round>,
                                 cycles: seq<Cycle>, code: int)
    requires Runnable(limit, r, false, cycles) && r.stopInSleep && !next.interrupted
    requires CycleResult(r.workerPolls, r.workerStopping, false) == Some((code, false))
    requires Failures(cycles + [Cycle(|cycles| + 1, code)]) <= tolerance
    ensures Supervise(tolerance, limit, [r, next] + more, false, cycles)
         == Returned(0, Exited, StopSignal, cycles + [Cycle(|cycles| + 1, code)])
  {
    var rounds := [r, next] + more;
    assert rounds[0] == r && rounds[1..] == [next] + more;
    PendingStopEndsTheRun(tolerance, limit, next, more, true, cycles + [Cycle(|cycles| + 1, code)]);
  }

  // ---------------------------------------------------------------- quiet rounds

  /** The cycles with further ones of the given codes. */
  function Recorded(cycles: seq<Cycle>, codes: seq<int>): seq<Cycle> {
    cycles + seq(|codes|, i requires 0 <= i < |codes| => Cycle(|cycles| + i + 1, codes[i]))
  }

  /** Nothing but a worker cycle happens in the round, and the worker ends with the code. */
  ghost predicate Quiet(r: Round, code: int) {
    && !r.interrupted && !r.stopAtGuard && r.webPoll == None && r.workerSpawns && !r.stopInSleep
    && CycleResult(r.workerPolls, r.workerStopping, false) == Some((code, false))
  }

  lemma {:induction false} FailuresGrow(cycles: seq<Cycle>, more: seq<Cycle>)
    ensures Failures(cycles) <= Failures(cycles + more)
  {
    if more == [] {
      assert cycles + more == cycles;
    } else {
      FailuresGrow(cycles, more[..|more| - 1]);
      assert (cycles + more)[..|cycles + more| - 1] == cycles + more[..|more| - 1];
    }
  }

  /** Quiet rounds within limit and tolerance run one worker each and go on: the run stands
      where a run would that has those cycles recorded. */
  lemma {:induction false} QuietRoundsGoOn(tolerance: int, limit: Option<int>, quiet: seq<Round>, codes: seq<int>,
                                           more: seq<Round>, cycles: seq<Cycle>)
    requires |quiet| == |codes| && forall i :: 0 <= i < |quiet| ==> Quiet(quiet[i], codes[i])
    requires limit.Some? ==> |cycles| + |quiet| <= limit.value
    requires Failures(Recorded(cycles, codes)) <= tolerance
    ensures Supervise(tolerance, limit, quiet + more, false, cycles)
         == Supervise(tolerance, limit, more, false, Recorded(cycles, codes))
    decreases |quiet|
  {
    if quiet == [] {
      assert quiet + more == more && Recorded(cycles, codes) == cycles;
    } else {
      var next := cycles + [Cycle(|cycles| + 1, codes[0])];
      RecordedFirst(cycles, codes);
      FailuresGrow(next, Recorded(cycles, codes)[|next|..]);
      assert Recorded(cycles, codes) == next + Recorded(cycles, codes)[|next|..];
      assert (quiet + more)[0] == quiet[0] && (quiet + more)[1..] == quiet[1..] + more;
      assert Quiet(quiet[0], codes[0]);
      QuietRoundsGoOn(tolerance, limit, quiet[1..], codes[1..], more, next);
    }
  }

  lemma RecordedFirst(cycles: seq<Cycle>, codes: seq<int>)
    requires codes != []
    ensures var next := cycles + [Cycle(|cycles| + 1, codes[0])];
      Recorded(cycles, codes) == Recorded(next, codes[1..]) && next <= Recorded(cycles, codes)
  {
  }

  /** So a whole run of quiet rounds, the last of them with a stop in its pause, has exactly
      their cycles and is a clean exit. */
  lemma StopAfterQuietRounds(tolerance: int, limit: Option<int>, quiet: seq<Round>, codes: seq<int>, last: Round,
                             code: int, next: Round, more: seq<Round>)
    requires |quiet| == |codes| && forall i :: 0 <= i < |quiet| ==> Quiet(quiet[i], codes[i])
    requires limit.Some? ==> |quiet| < limit.value
    requires Failures(Recorded([], codes + [code])) <= tolerance
    requires Quiet(last.(stopInSleep := false), code) && last.stopInSleep && !next.interrupted
    ensures Supervise(tolerance, limit, quiet + ([last, next] + more), false, [])
         == Returned(0, Exited, StopSignal, Recorded([], codes + [code]))
  {
    var before, all := Recorded([], codes), Recorded([], codes + [code]);
    assert all == before + [Cycle(|before| + 1, code)];
    FailuresGrow(before, [Cycle(|before| + 1, code)]);
    QuietRoundsGoOn(tolerance, limit, quiet, codes, [last, next] + more, []);
    StopInThePauseEndsTheRun(tolerance, limit, last, next, more, before, code);
  }
}
