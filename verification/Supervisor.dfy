/** The foreground supervisor: a web process kept beside repeated worker cycles until the
    web process exits, a limit or the failure tolerance is reached, or a stop is asked
    for.  Everything the outside world decides -- polls, exit codes, signals -- is a
    script of rounds; a run that needs more rounds than given is still running. */
module Supervisor {
  import opened Collections
  import opened Polling

  datatype Status = Exited | Failed

  datatype Reason = StopSignal | WebExited | CycleLimit | ToleranceExceeded | Interrupted

  datatype Cycle = Cycle(index: nat, exitCode: int)

  datatype Outcome =
    | Returned(code: int, status: Status, reason: Reason, cycles: seq<Cycle>)
    | Raised(cycles: seq<Cycle>)
    | StillRunning

  /** One poll of the worker: it has exited, or it runs and a stop signal may have come. */
  datatype WorkerPoll = HasExited(code: int) | Runs(stopArrives: bool)

  /** How a process reacts to being stopped: exit within the grace period, or only to the
      kill. */
  datatype Stopping = Stopping(onTerminate: Option<int>, onKill: int)

  datatype Round = Round(
    interrupted: bool,
    stopAtGuard: bool,
    webPoll: Option<int>,
    workerSpawns: bool,
    workerPolls: seq<WorkerPoll>,
    workerStopping: Stopping,
    stopInSleep: bool)

  // ---------------------------------------------------------------- processes

  /** A child process as its parent sees it. */
  class Process {
    var returncode: Option<int>

    constructor ()
      ensures returncode == None
    {
      returncode := None;
    }

    /** The answer of the outside world counts only while the process has not exited. */
    method Poll(answer: Option<int>) returns (code: Option<int>)
      modifies this
      ensures code == returncode == if old(returncode) == None then answer else old(returncode)
    {
      if returncode == None {
        returncode := answer;
      }
      code := returncode;
    }

    method Wait(answer: Option<int>) returns (timedOut: bool)
      modifies this
      ensures returncode == if old(returncode) == None then answer else old(returncode)
      ensures timedOut <==> returncode == None
    {
      var code := Poll(answer);
      timedOut := code == None;
    }
  }

  function ExitWhenStopped(s: Stopping): int {
    match s.onTerminate case Some(code) => code case None => s.onKill
  }

  /** Terminate, wait for the grace period, kill if it passes. */
  method TerminateProcess(process: Process, stopping: Stopping)
    modifies process
    ensures process.returncode ==
      if old(process.returncode) == None then Some(ExitWhenStopped(stopping)) else old(process.returncode)
  {
    var timedOut := process.Wait(stopping.onTerminate);
    if timedOut {
      var _ := process.Wait(Some(stopping.onKill));
    }
  }

  // ---------------------------------------------------------------- one worker cycle

  /** Exit code of the cycle and the stop flag after it; None while polls run out. */
  function CycleResult(polls: seq<WorkerPoll>, stopping: Stopping, stop: bool): Option<(int, bool)> {
    if polls == [] then None
    else match polls[0]
      case HasExited(code) => Some((code, stop))
      case Runs(arrives) =>
        if stop || arrives then Some((ExitWhenStopped(stopping), true))
        else CycleResult(polls[1..], stopping, false)
  }

  method RunWorkerCycle(polls: seq<WorkerPoll>, stopping: Stopping, stop: bool)
    returns (finished: bool, exitCode: int, stopRequested: bool)
    ensures CycleResult(polls, stopping, stop) == if finished then Some((exitCode, stopRequested)) else None
  {
    var process := new Process();
    stopRequested := stop;
    finished := false;
    exitCode := 1;
    var i := 0;
    while i < |polls|
      invariant 0 <= i <= |polls|
      invariant process.returncode == None && !finished
      invariant stopRequested == stop && (i > 0 ==> !stop)
      invariant CycleResult(polls, stopping, stop) == CycleResult(polls[i..], stopping, stop)
    {
      var code := process.Poll(if polls[i].HasExited? then Some(polls[i].code) else None);
      if code.Some? {
        return true, code.value, stopRequested;
      }
      stopRequested := stopRequested || polls[i].stopArrives;
      if stopRequested {
        TerminateProcess(process, stopping);
        return true, process.returncode.value, stopRequested;
      }
      i := i + 1;
    }
  }

  // ---------------------------------------------------------------- the pause between cycles

  /** Sleep in slices of at most 0.2 seconds, looking for a stop before each: the pause ends
      early only for a stop, and never looks more often than the slices it needs. */
  method SleepWithStop(clock: Clock, seconds: real, stopAsked: nat -> bool) returns (stopped: bool, ghost looks: nat)
    modifies clock
    ensures stopped ==> looks > 0 && stopAsked(looks - 1)
    ensures forall i :: 0 <= i < looks - 1 ==> !stopAsked(i)
    ensures !stopped ==> clock.now >= old(clock.now) + seconds && forall i :: 0 <= i < looks ==> !stopAsked(i)
    ensures if seconds > 0.0 then looks <= Rounds(seconds, 0.2) else looks == 0
    ensures Punctual(clock.delay) && !stopped && seconds > 0.0 ==> looks == Rounds(seconds, 0.2)
  {
    var slice: Positive := 0.2;
    var i := 0;
    looks := 0;
    var started := clock.Read();
    var deadline := started + RealMax(seconds, 0.0);
    var time := clock.Read();
    if seconds > 0.0 { InTimeAtStart(clock.delay, time, started, seconds, slice); }
    while time < deadline
      invariant time == clock.now && time >= started && looks == i
      invariant forall k :: 0 <= k < i ==> !stopAsked(k)
      invariant if seconds > 0.0 then InTime(clock.delay, i, time, started, seconds, slice) else i == 0
      decreases if seconds > 0.0 then Rounds(seconds, slice) - i else 0
    {
      OneMoreProbe(i, time, started, seconds, slice);
      looks := i + 1;
      if stopAsked(i) {
        return true, looks;
      }
      var next := NextRound(clock, time, deadline, slice);
      InTimeNextRound(clock.delay, i, time, next, started, seconds, slice);
      i, time := i + 1, next;
    }
    if seconds > 0.0 { InTimeAtDeadline(clock.delay, i, time, started, seconds, slice); }
    stopped := false;
  }

  // ---------------------------------------------------------------- the run

  function Failures(cycles: seq<Cycle>): nat {
    if cycles == [] then 0
    else Failures(cycles[..|cycles| - 1]) + if cycles[|cycles| - 1].exitCode != 0 then 1 else 0
  }

  /** The run from a given point: the stop flag and the cycles recorded so far. */
  function Supervise(tolerance: int, limit: Option<int>, rounds: seq<Round>, stop: bool, cycles: seq<Cycle>): Outcome
    decreases |rounds|
  {
    if rounds == [] then StillRunning
    else
      var r := rounds[0];
      if r.interrupted then Returned(130, Exited, Interrupted, cycles)
      else if stop || r.stopAtGuard then Returned(0, Exited, StopSignal, cycles)
      else if r.webPoll.Some? then
        Returned(r.webPoll.value, if r.webPoll.value == 0 then Exited else Failed, WebExited, cycles)
      else if limit.Some? && |cycles| >= limit.value then Returned(0, Exited, CycleLimit, cycles)
      else if !r.workerSpawns then Raised(cycles)
      else match CycleResult(r.workerPolls, r.workerStopping, false)
        case None => StillRunning
        case Some((code, stopped)) =>
          var next := cycles + [Cycle(|cycles| + 1, code)];
          if Failures(next) > tolerance then Returned(code, Failed, ToleranceExceeded, next)
          else Supervise(tolerance, limit, rounds[1..], stopped || r.stopInSleep, next)
  }

  /** The loop, with the finally block that ends the web process on every way out. */
  method RunSupervisor(web: Process, tolerance: int, limit: Option<int>, rounds: seq<Round>,
                       webAtExit: Option<int>, webStopping: Stopping)
    returns (outcome: Outcome)
    requires web.returncode == None
    modifies web
    ensures outcome == Supervise(tolerance, limit, rounds, false, [])
    ensures outcome != StillRunning ==> web.returncode.Some?
    ensures outcome.Returned? && outcome.reason == WebExited ==> web.returncode == Some(outcome.code)
    ensures outcome != StillRunning && !(outcome.Returned? && outcome.reason == WebExited) ==>
      web.returncode == if webAtExit.Some? then webAtExit else Some(ExitWhenStopped(webStopping))
  {
    var workerCycles: seq<Cycle> := [];
    var stopRequested := false;
    outcome := StillRunning;
    var i := 0;
    while i < |rounds|
      invariant 0 <= i <= |rounds| && web.returncode == None
      invariant outcome == StillRunning
      invariant Supervise(tolerance, limit, rounds, false, [])
        == Supervise(tolerance, limit, rounds[i..], stopRequested, workerCycles)
    {
      var r := rounds[i];
      stopRequested := stopRequested || (!r.interrupted && r.stopAtGuard);
      if r.interrupted {
        outcome := Returned(130, Exited, Interrupted, workerCycles);
        break;
      }
      if stopRequested {
        outcome := Returned(0, Exited, StopSignal, workerCycles);
        break;
      }
      var polled := web.Poll(r.webPoll);
      if polled.Some? {
        var returncode := polled.value;
        outcome := Returned(returncode, if returncode == 0 then Exited else Failed, WebExited, workerCycles);
        break;
      }
      if limit.Some? && |workerCycles| >= limit.value {
        outcome := Returned(0, Exited, CycleLimit, workerCycles);
        break;
      }
      if !r.workerSpawns {
        outcome := Raised(workerCycles);
        break;
      }
      var finished, exitCode, stopped := RunWorkerCycle(r.workerPolls, r.workerStopping, stopRequested);
      if !finished {
        return;
      }
      stopRequested := stopped;
      workerCycles := workerCycles + [Cycle(|workerCycles| + 1, exitCode)];
      var failedCycleCount := Failures(workerCycles);
      if failedCycleCount > tolerance {
        outcome := Returned(workerCycles[|workerCycles| - 1].exitCode, Failed, ToleranceExceeded, workerCycles);
        break;
      }
      stopRequested := stopRequested || r.stopInSleep;
      i := i + 1;
    }
    if outcome == StillRunning {
      return;
    }
    var running := web.Poll(webAtExit);
    if running == None {
      TerminateProcess(web, webStopping);
    }
  }
}
