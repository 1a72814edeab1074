/** The launch, probe and stop protocol of the remote provider smoke.  The outside world
    -- probes, polls, exit codes and the passing of time -- is a script; every run leaves
    a log of what was observed, and the verdict is judged against that log. */
module ForegroundSmoke {
  import opened Collections
  import opened Polling

  // ---------------------------------------------------------------- the outside world

  /** A health probe: reachable or not and, if reachable, whether the payload matches the
      provider plan. */
  datatype Observation = Observation(ok: bool, matches: bool)

  datatype World = World(
    preLaunch: Observation,
    spawns: bool,
    startupPoll: nat -> Option<int>,
    startupProbe: nat -> Observation,
    pollBeforeStop: Option<int>,
    exitInGrace: Option<int>,
    exitAfterKill: Option<int>,
    stopProbe: nat -> Observation,
    remoteStop: Option<int>,
    finalProbe: nat -> Observation)

  datatype Timeouts = Timeouts(startup: Positive, pollInterval: Positive, shutdown: Positive)

  // ---------------------------------------------------------------- log and result

  datatype Event =
    | PreProbe(ok: bool)
    | Launched
    | LaunchFailed
    | StartupProbe(ok: bool)
    | Checked(matches: bool)
    | EarlyExit(code: int)
    | StartupTimedOut
    | EndedWithoutKill(code: int)
    | Killed(killCode: Option<int>)
    | StopProbe(ok: bool)
    | RemoteStop(exit: Option<int>)
    | FinalProbe(ok: bool)

  datatype Error =
    | AlreadyReachable
    | SpawnFailed
    | ExitedEarly
    | NotHealthyInTime
    | Mismatched
    | RemoteStopFailed
    | StillReachable

  datatype SmokeResult = SmokeResult(
    preLaunchReachable: bool,
    launched: bool,
    healthOk: bool,
    healthAttempts: nat,
    mismatched: bool,
    stopped: bool,
    stopConfirmed: bool,
    remoteStopAttempted: bool,
    remoteStopExit: Option<int>,
    postStopReachable: bool,
    error: Option<Error>)
  {
    predicate Passed() {
      && launched && healthOk && !mismatched && stopped && stopConfirmed
      && (!remoteStopAttempted || remoteStopExit == Some(0))
      && !postStopReachable
      && error == None
    }
  }

  // ---------------------------------------------------------------- polling under a deadline

  /** One of the first n probes finds the URL dark. */
  ghost predicate GoesDark(probe: nat -> Observation, n: nat) {
    exists k :: 0 <= k < n && !probe(k).ok
  }

  /** Probes until the health URL stops answering or the time is up: it gives up only once the
      time has passed and, on a punctual clock, only after all rounds that fit. */
  method WaitUntilUnreachable(clock: Clock, probe: nat -> Observation, timeout: Positive, pollInterval: Positive)
    returns (unreachable: bool, answers: seq<bool>)
    modifies clock
    ensures unreachable <==> false in answers
    ensures forall i :: 0 <= i < |answers| ==> answers[i] == probe(i).ok
    ensures forall i :: 0 <= i < |answers| - 1 ==> answers[i]
    ensures |answers| <= Rounds(timeout, pollInterval)
    ensures !unreachable ==> clock.now >= old(clock.now) + timeout
    ensures Punctual(clock.delay) ==> (unreachable <==> GoesDark(probe, Rounds(timeout, pollInterval)))
  {
    answers := [];
    var started := clock.Read();
    var deadline := started + timeout;
    var time := clock.Read();
    InTimeAtStart(clock.delay, time, started, timeout, pollInterval);
    while time < deadline
      invariant false !in answers && time == clock.now
      invariant forall i :: 0 <= i < |answers| ==> answers[i] == probe(i).ok == true
      invariant InTime(clock.delay, |answers|, time, started, timeout, pollInterval)
      decreases Rounds(timeout, pollInterval) - |answers|
    {
      OneMoreProbe(|answers|, time, started, timeout, pollInterval);
      var observation := probe(|answers|);
      answers := answers + [observation.ok];
      if !observation.ok {
        return true, answers;
      }
      var next := NextRound(clock, time, deadline, pollInterval);
      InTimeNextRound(clock.delay, |answers| - 1, time, next, started, timeout, pollInterval);
      time := next;
    }
    InTimeAtDeadline(clock.delay, |answers|, time, started, timeout, pollInterval);
    return false, answers;
  }

  // ---------------------------------------------------------------- phases of the log

  function Phase(e: Event): nat {
    match e
    case PreProbe(_) => 0
    case Launched => 1
    case LaunchFailed => 1
    case StartupProbe(_) => 2
    case Checked(_) => 3
    case EarlyExit(_) => 3
    case StartupTimedOut => 3
    case EndedWithoutKill(_) => 4
    case Killed(_) => 4
    case StopProbe(_) => 5
    case RemoteStop(_) => 6
    case FinalProbe(_) => 7
  }

  /** An event of the log is something the outside world really showed. */
  ghost predicate Observed(w: World, e: Event) {
    match e
    case PreProbe(ok) => ok == w.preLaunch.ok
    case Launched => w.spawns
    case LaunchFailed => !w.spawns
    case StartupProbe(ok) => exists k :: w.startupProbe(k).ok == ok
    case Checked(matches) => exists k :: w.startupProbe(k) == Observation(true, matches)
    case EarlyExit(code) => exists k :: w.startupPoll(k) == Some(code)
    case StartupTimedOut => true
    case EndedWithoutKill(code) =>
      w.pollBeforeStop == Some(code) || w.exitInGrace == Some(code) || exists k :: w.startupPoll(k) == Some(code)
    case Killed(code) => w.pollBeforeStop == w.exitInGrace == None && code == w.exitAfterKill
    case StopProbe(ok) => exists k :: w.stopProbe(k).ok == ok
    case RemoteStop(exit) => exit == w.remoteStop
    case FinalProbe(ok) => exists k :: w.finalProbe(k).ok == ok
  }

  /** Events come in phase order, all within the given phases. */
  ghost predicate InPhases(log: seq<Event>, first: nat, last: nat) {
    && (forall i :: 0 <= i < |log| ==> first <= Phase(log[i]) <= last)
    && (forall i, j :: 0 <= i < j < |log| ==> Phase(log[i]) <= Phase(log[j]))
  }

  lemma PhasesConcat(a: seq<Event>, b: seq<Event>, first: nat, mid: nat, next: nat, last: nat)
    requires InPhases(a, first, mid) && InPhases(b, next, last) && first <= mid <= next <= last
    ensures InPhases(a + b, first, last)
  {
  }

  // ---------------------------------------------------------------- startup

  datatype Startup = Startup(attempts: nat, last: Observation, early: Option<int>, timedOut: bool)

  /** What the startup loop may end with: polls without an exit, failed probes, and then a
      healthy probe, an exited process or the deadline. */
  ghost predicate IsStartup(s: Startup, w: World) {
    && (forall i :: 0 <= i < s.attempts ==> w.startupPoll(i) == None)
    && (forall i :: 0 <= i < s.attempts - 1 ==> !w.startupProbe(i).ok)
    && s.last == (if s.attempts == 0 then Observation(false, false) else w.startupProbe(s.attempts - 1))
    && (if s.last.ok then s.early == None && !s.timedOut
        else if s.timedOut then s.early == None
        else s.early.Some? && s.early == w.startupPoll(s.attempts))
  }

  function ProbeLog(w: World, attempts: nat): seq<Event> {
    seq(attempts, i requires 0 <= i < attempts => StartupProbe(w.startupProbe(i).ok))
  }

  function StartupLog(w: World, s: Startup): seq<Event> {
    ProbeLog(w, s.attempts)
    + [if s.last.ok then Checked(s.last.matches)
       else if s.early.Some? then EarlyExit(s.early.value)
       else StartupTimedOut]
  }

  lemma OneMoreProbeLogged(w: World, attempts: nat)
    ensures ProbeLog(w, attempts + 1) == ProbeLog(w, attempts) + [StartupProbe(w.startupProbe(attempts).ok)]
  {
  }

  /** The process lives through the first polls and probe k is the first that is healthy. */
  ghost predicate HealthyAt(w: World, k: nat) {
    && w.startupProbe(k).ok
    && (forall i :: 0 <= i <= k ==> w.startupPoll(i) == None)
    && (forall i :: 0 <= i < k ==> !w.startupProbe(i).ok)
  }

  /** The outside world shows a healthy, matching probe within the first n rounds. */
  ghost predicate BecomesHealthy(w: World, n: nat) {
    exists k :: 0 <= k < n && HealthyAt(w, k) && w.startupProbe(k).matches
  }

  /** A startup that gives up only after n rounds finds the process healthy exactly when the
      world shows it healthy within n rounds. */
  lemma StartupFindsWhatTheWorldShows(w: World, s: Startup, n: nat)
    requires IsStartup(s, w) && s.attempts <= n && (s.timedOut ==> s.attempts == n)
    ensures s.last.ok && s.last.matches <==> BecomesHealthy(w, n)
  {
    if s.last.ok && s.last.matches { assert HealthyAt(w, s.attempts - 1); }
    if k :| 0 <= k < n && HealthyAt(w, k) && w.startupProbe(k).matches {
      assert s.attempts <= k ==> w.startupPoll(s.attempts) == None;
    }
  }

  /** So far no exit and no healthy probe; this is also how a time-out looks. */
  ghost predicate Underway(s: Startup, w: World, log: seq<Event>) {
    IsStartup(s, w) && s.timedOut && log == ProbeLog(w, s.attempts)
  }

  lemma ProbeStep(s: Startup, w: World, log: seq<Event>)
    requires Underway(s, w, log) && w.startupPoll(s.attempts) == None
    ensures var observation := w.startupProbe(s.attempts);
      var next, logged := Startup(s.attempts + 1, observation, None, !observation.ok),
        log + [StartupProbe(observation.ok)];
      if observation.ok then IsStartup(next, w) && logged + [Checked(observation.matches)] == StartupLog(w, next)
      else Underway(next, w, logged)
  {
    OneMoreProbeLogged(w, s.attempts);
  }

  /** Poll the process and probe until healthy, exited or out of time: it times out only once
      the time has passed and, on a punctual clock, only after all rounds that fit. */
  method WaitUntilHealthy(clock: Clock, w: World, timeouts: Timeouts) returns (s: Startup, log: seq<Event>)
    modifies clock
    ensures s.attempts <= Rounds(timeouts.startup, timeouts.pollInterval)
    ensures IsStartup(s, w) && log == StartupLog(w, s)
    ensures s.timedOut ==> clock.now >= old(clock.now) + timeouts.startup
    ensures Punctual(clock.delay) && s.timedOut ==> s.attempts == Rounds(timeouts.startup, timeouts.pollInterval)
  {
    s := Startup(0, Observation(false, false), None, true);
    log := [];
    var started := clock.Read();
    var deadline := started + timeouts.startup;
    var time := clock.Read();
    InTimeAtStart(clock.delay, time, started, timeouts.startup, timeouts.pollInterval);
    while time < deadline
      invariant Underway(s, w, log)
      invariant time == clock.now
      invariant InTime(clock.delay, s.attempts, time, started, timeouts.startup, timeouts.pollInterval)
      decreases Rounds(timeouts.startup, timeouts.pollInterval) - s.attempts
    {
      var exited := w.startupPoll(s.attempts);
      if exited.Some? {
        s := s.(early := exited, timedOut := false);
        return s, log + [EarlyExit(exited.value)];
      }
      OneMoreProbe(s.attempts, time, started, timeouts.startup, timeouts.pollInterval);
      ProbeStep(s, w, log);
      var observation := w.startupProbe(s.attempts);
      log := log + [StartupProbe(observation.ok)];
      s := Startup(s.attempts + 1, observation, None, !observation.ok);
      if observation.ok {
        return s, log + [Checked(observation.matches)];
      }
      var next := NextRound(clock, time, deadline, timeouts.pollInterval);
      InTimeNextRound(clock.delay, s.attempts - 1, time, next, started, timeouts.startup, timeouts.pollInterval);
      time := next;
    }
    InTimeAtDeadline(clock.delay, s.attempts, time, started, timeouts.startup, timeouts.pollInterval);
    log := log + [StartupTimedOut];
  }

  lemma StartupLogFacts(w: World, s: Startup)
    requires IsStartup(s, w)
    ensures var log := StartupLog(w, s);
      && InPhases(log, 2, 3) && (forall e :: e in log ==> Phase(e) == 2 || Phase(e) == 3)
      && (StartupProbe(true) in log <==> s.last.ok)
      && (Checked(true) in log <==> s.last.ok && s.last.matches)
  {
    var log := StartupLog(w, s);
    assert log[s.attempts] in log;
    if s.last.ok { assert log[s.attempts - 1] == StartupProbe(true); }
  }

  lemma StartupLogIsTrue(w: World, s: Startup)
    requires IsStartup(s, w)
    ensures forall e :: e in StartupLog(w, s) ==> Observed(w, e)
  {
  }

  // ---------------------------------------------------------------- stopping

  /** Poll, terminate and wait, kill and wait: the pair (ended without a kill, exit code). */
  method StopProcess(w: World, exited: Option<int>) returns (stopped: bool, code: Option<int>, log: seq<Event>)
    ensures stopped <==> exited.Some? || w.exitInGrace.Some?
    ensures code == if exited.Some? then exited else if w.exitInGrace.Some? then w.exitInGrace else w.exitAfterKill
    ensures if stopped then log == [EndedWithoutKill(code.value)] else log == [Killed(code)]
  {
    if exited.Some? {
      return true, exited, [EndedWithoutKill(exited.value)];
    }
    if w.exitInGrace.Some? {
      return true, w.exitInGrace, [EndedWithoutKill(w.exitInGrace.value)];
    }
    return false, w.exitAfterKill, [Killed(w.exitAfterKill)];
  }

  datatype StopReport = StopReport(attempted: bool, exit: Option<int>, reachable: bool, error: Option<Error>)

  /** The first error of the stop: a remote stop that could not be carried out, or a URL that
      is still reachable. */
  function StopError(r: StopReport): Option<Error> {
    if r.attempted && r.exit == None then Some(RemoteStopFailed)
    else if r.reachable then Some(StillReachable)
    else None
  }

  /** How many probes fit in each wait for the URL to go dark. */
  function StopRounds(timeouts: Timeouts): nat {
    Rounds(timeouts.shutdown, RealMin(timeouts.pollInterval, 0.5))
  }

  /** Waits for the URL to go dark; if it does not, tries the remote stop and waits again. */
  method ConfirmStop(clock: Clock, w: World, timeouts: Timeouts, error: Option<Error>)
    returns (r: StopReport, log: seq<Event>)
    modifies clock
    ensures InPhases(log, 5, 7) && forall e :: e in log ==> 5 <= Phase(e) <= 7 && Observed(w, e)
    ensures !r.reachable <==> StopProbe(false) in log || FinalProbe(false) in log
    ensures forall exit :: RemoteStop(exit) in log <==> r.attempted && exit == r.exit
    ensures error.Some? ==> r.error == error
    ensures error == None ==> r.error == StopError(r)
    ensures r.attempted ==> r.exit == w.remoteStop
    ensures r.attempted ==> (r.reachable <==> FinalProbe(false) !in log)
    ensures r.reachable ==> r.attempted
    ensures Punctual(clock.delay) ==>
      var n := StopRounds(timeouts);
      && (r.attempted <==> !GoesDark(w.stopProbe, n))
      && (r.reachable <==> !GoesDark(w.stopProbe, n) && !GoesDark(w.finalProbe, n))
  {
    var interval: Positive := RealMin(timeouts.pollInterval, 0.5);
    var unreachable, answers := WaitUntilUnreachable(clock, w.stopProbe, timeouts.shutdown, interval);
    log := StopProbes(answers);
    ProbesAreTrue(w, answers, w.stopProbe);
    if unreachable {
      return StopReport(false, None, false, error), log;
    }
    var raised := error;
    var remoteLog := [RemoteStop(w.remoteStop)];
    if w.remoteStop == None && error == None {
      raised := Some(RemoteStopFailed);
    }
    var dark, later := WaitUntilUnreachable(clock, w.finalProbe, timeouts.shutdown, interval);
    var finalLog := FinalProbes(later);
    ProbesAreTrue(w, later, w.finalProbe);
    if !dark && raised == None {
      raised := Some(StillReachable);
    }
    RemoteStopLog(log, w.remoteStop, finalLog);
    log := log + remoteLog + finalLog;
    return StopReport(true, w.remoteStop, !dark, raised), log;
  }

  lemma RemoteStopLog(first: seq<Event>, exit: Option<int>, final: seq<Event>)
    requires InPhases(first, 5, 5) && InPhases(final, 7, 7)
    requires forall e :: e in first ==> e.StopProbe?
    requires forall e :: e in final ==> e.FinalProbe?
    ensures var log := first + [RemoteStop(exit)] + final;
      && InPhases(log, 5, 7)
      && (forall e :: e in log ==> 5 <= Phase(e) <= 7)
      && (forall x :: RemoteStop(x) in log <==> x == exit)
      && (StopProbe(false) in log <==> StopProbe(false) in first)
      && (FinalProbe(false) in log <==> FinalProbe(false) in final)
  {
    PhasesConcat(first, [RemoteStop(exit)], 5, 5, 6, 6);
    PhasesConcat(first + [RemoteStop(exit)], final, 5, 6, 7, 7);
    assert RemoteStop(exit) in first + [RemoteStop(exit)];
  }

  lemma ProbesAreTrue(w: World, answers: seq<bool>, probe: nat -> Observation)
    requires forall i :: 0 <= i < |answers| ==> answers[i] == probe(i).ok
    ensures probe == w.stopProbe ==> forall e :: e in StopProbes(answers) ==> Observed(w, e)
    ensures probe == w.finalProbe ==> forall e :: e in FinalProbes(answers) ==> Observed(w, e)
  {
  }

  function StopProbes(answers: seq<bool>): (log: seq<Event>)
    ensures StopProbe(false) in log <==> false in answers
    ensures InPhases(log, 5, 5) && forall e :: e in log ==> e.StopProbe?
  {
    var log := seq(|answers|, i requires 0 <= i < |answers| => StopProbe(answers[i]));
    assert forall i :: 0 <= i < |answers| ==> log[i] == StopProbe(answers[i]);
    log
  }

  function FinalProbes(answers: seq<bool>): (log: seq<Event>)
    ensures FinalProbe(false) in log <==> false in answers
    ensures InPhases(log, 7, 7) && forall e :: e in log ==> e.FinalProbe?
  {
    var log := seq(|answers|, i requires 0 <= i < |answers| => FinalProbe(answers[i]));
    assert forall i :: 0 <= i < |answers| ==> log[i] == FinalProbe(answers[i]);
    log
  }

  // ---------------------------------------------------------------- the run

  /** What a passing trace must show. */
  ghost predicate Certified(log: seq<Event>) {
    && PreProbe(false) in log && Launched in log
    && StartupProbe(true) in log && Checked(true) in log
    && (exists code :: EndedWithoutKill(code) in log)
    && (StopProbe(false) in log || FinalProbe(false) in log)
    && (forall exit :: RemoteStop(exit) in log ==> exit == Some(0))
  }

  function WholeLog(startup: seq<Event>, end: Event, confirm: seq<Event>): seq<Event> {
    [PreProbe(false), Launched] + startup + [end] + confirm
  }

  lemma WholeLogPhases(startup: seq<Event>, end: Event, confirm: seq<Event>)
    requires InPhases(startup, 2, 3) && Phase(end) == 4 && InPhases(confirm, 5, 7)
    ensures InPhases(WholeLog(startup, end, confirm), 0, 7)
  {
    var launch := [PreProbe(false), Launched];
    PhasesConcat(launch, startup, 0, 1, 2, 3);
    PhasesConcat(launch + startup, [end], 0, 3, 4, 4);
    PhasesConcat(launch + startup + [end], confirm, 0, 4, 5, 7);
  }

  lemma WholeLogMember(startup: seq<Event>, end: Event, confirm: seq<Event>, e: Event)
    ensures e in WholeLog(startup, end, confirm) <==>
      e == PreProbe(false) || e == Launched || e in startup || e == end || e in confirm
  {
    var launch := [PreProbe(false), Launched];
    assert e in launch <==> e == PreProbe(false) || e == Launched by {
      assert launch[0] in launch && launch[1] in launch;
    }
    assert e in launch + startup + [end] <==> e in launch || e in startup || e == end;
  }

  lemma WholeLogIsTrue(w: World, startup: seq<Event>, end: Event, confirm: seq<Event>)
    requires !w.preLaunch.ok && w.spawns && Observed(w, end)
    requires forall e :: e in startup || e in confirm ==> Observed(w, e)
    ensures forall e :: e in WholeLog(startup, end, confirm) ==> Observed(w, e)
  {
    forall e | e in WholeLog(startup, end, confirm)
      ensures Observed(w, e)
    {
      WholeLogMember(startup, end, confirm, e);
    }
  }

  lemma WholeLogCertified(startup: seq<Event>, end: Event, confirm: seq<Event>)
    requires forall e :: e in startup ==> Phase(e) == 2 || Phase(e) == 3
    requires Phase(end) == 4
    requires forall e :: e in confirm ==> 5 <= Phase(e) <= 7
    ensures Certified(WholeLog(startup, end, confirm)) <==>
      && StartupProbe(true) in startup && Checked(true) in startup
      && end.EndedWithoutKill?
      && (StopProbe(false) in confirm || FinalProbe(false) in confirm)
      && (forall exit :: RemoteStop(exit) in confirm ==> exit == Some(0))
  {
    var log := WholeLog(startup, end, confirm);
    forall e: Event
      ensures e in log <==> e == PreProbe(false) || e == Launched || e in startup || e == end || e in confirm
    {
      WholeLogMember(startup, end, confirm, e);
    }
    if end.EndedWithoutKill? { assert EndedWithoutKill(end.code) in log; }
  }

  /** The log of a launched run: true, in phase order, and certified exactly when startup,
      end and confirmation each show what they should. */
  lemma RunLogFacts(w: World, s: Startup, end: Event, confirm: seq<Event>)
    requires IsStartup(s, w) && !w.preLaunch.ok && w.spawns && Observed(w, end) && Phase(end) == 4
    requires InPhases(confirm, 5, 7) && forall e :: e in confirm ==> 5 <= Phase(e) <= 7 && Observed(w, e)
    ensures var log := WholeLog(StartupLog(w, s), end, confirm);
      && InPhases(log, 0, 7) && (forall e :: e in log ==> Observed(w, e))
      && (Certified(log) <==>
            && s.last.ok && s.last.matches && end.EndedWithoutKill?
            && (StopProbe(false) in confirm || FinalProbe(false) in confirm)
            && (forall exit :: RemoteStop(exit) in confirm ==> exit == Some(0)))
  {
    StartupLogFacts(w, s);
    StartupLogIsTrue(w, s);
    WholeLogIsTrue(w, StartupLog(w, s), end, confirm);
    WholeLogPhases(StartupLog(w, s), end, confirm);
    WholeLogCertified(StartupLog(w, s), end, confirm);
  }

  /** The health probes of the startup that the log shows. */
  function CountProbes(log: seq<Event>): nat {
    if log == [] then 0 else CountProbes(log[..|log| - 1]) + if log[|log| - 1].StartupProbe? then 1 else 0
  }

  lemma {:induction false} CountProbesConcat(a: seq<Event>, b: seq<Event>)
    ensures CountProbes(a + b) == CountProbes(a) + CountProbes(b)
  {
    if b == [] {
      assert a + b == a;
    } else {
      CountProbesConcat(a, b[..|b| - 1]);
      assert (a + b)[..|a + b| - 1] == a + b[..|b| - 1] && (a + b)[|a + b| - 1] == b[|b| - 1];
    }
  }

  lemma {:induction false} AllProbes(log: seq<Event>)
    ensures (forall i :: 0 <= i < |log| ==> log[i].StartupProbe?) ==> CountProbes(log) == |log|
    ensures (forall i :: 0 <= i < |log| ==> !log[i].StartupProbe?) ==> CountProbes(log) == 0
  {
    if log != [] { AllProbes(log[..|log| - 1]); }
  }

  lemma NoProbes(log: seq<Event>)
    requires forall e :: e in log ==> Phase(e) != 2
    ensures CountProbes(log) == 0
  {
    assert forall i :: 0 <= i < |log| ==> log[i] in log;
    AllProbes(log);
  }

  lemma StartupLogCounts(w: World, s: Startup)
    ensures CountProbes(StartupLog(w, s)) == s.attempts
  {
    var probes, verdict := ProbeLog(w, s.attempts), StartupLog(w, s)[s.attempts..];
    assert StartupLog(w, s) == probes + verdict;
    CountProbesConcat(probes, verdict);
    AllProbes(probes);
    NoProbes(verdict);
  }

  lemma RunLogCounts(w: World, s: Startup, end: Event, confirm: seq<Event>)
    requires Phase(end) == 4 && forall e :: e in confirm ==> 5 <= Phase(e) <= 7
    ensures CountProbes(WholeLog(StartupLog(w, s), end, confirm)) == s.attempts
  {
    var launch, startup := [PreProbe(false), Launched], StartupLog(w, s);
    CountProbesConcat(launch + startup + [end], confirm);
    CountProbesConcat(launch + startup, [end]);
    CountProbesConcat(launch, startup);
    NoProbes(launch);
    StartupLogCounts(w, s);
    NoProbes([end]);
    NoProbes(confirm);
  }

  /** The reported error is what the log shows, one error for each way to fail. */
  ghost predicate ErrorTold(error: Option<Error>, log: seq<Event>) {
    && (error == Some(AlreadyReachable) <==> PreProbe(true) in log)
    && (error == Some(SpawnFailed) <==> LaunchFailed in log)
    && (error == Some(ExitedEarly) <==> exists code :: EarlyExit(code) in log)
    && (error == Some(NotHealthyInTime) <==> StartupTimedOut in log)
    && (error == Some(Mismatched) <==> Checked(false) in log)
    && (error == Some(RemoteStopFailed) <==> Checked(true) in log && RemoteStop(None) in log)
    && (error == Some(StillReachable) <==>
          Checked(true) in log && (exists exit :: RemoteStop(exit) in log && exit.Some?) && FinalProbe(false) !in log)
  }

  lemma StartupVerdict(w: World, s: Startup, e: Event)
    requires IsStartup(s, w) && e in StartupLog(w, s) && !e.StartupProbe?
    ensures e == if s.last.ok then Checked(s.last.matches)
                 else if s.early.Some? then EarlyExit(s.early.value)
                 else StartupTimedOut
  {
  }

  lemma VerdictIsLogged(w: World, s: Startup)
    ensures (if s.last.ok then Checked(s.last.matches)
             else if s.early.Some? then EarlyExit(s.early.value)
             else StartupTimedOut) in StartupLog(w, s)
  {
    assert StartupLog(w, s)[s.attempts] in StartupLog(w, s);
  }

  /** The error before the stop: the process exited, the time was up or the payload did not
      match. */
  function StartupError(s: Startup): Option<Error> {
    if s.early.Some? then Some(ExitedEarly)
    else if s.timedOut then Some(NotHealthyInTime)
    else if s.last.ok && !s.last.matches then Some(Mismatched)
    else None
  }

  /** Which verdicts and stop events the log of a launched run shows. */
  lemma RunLogShows(w: World, s: Startup, end: Event, confirm: seq<Event>, e: Event)
    requires IsStartup(s, w) && Phase(end) == 4 && forall x :: x in confirm ==> 5 <= Phase(x) <= 7
    ensures var log := WholeLog(StartupLog(w, s), end, confirm);
      && (e == PreProbe(true) || e == LaunchFailed ==> e !in log)
      && (e.EarlyExit? || e.Checked? || e == StartupTimedOut ==> (e in log <==> e in StartupLog(w, s)))
      && (Phase(e) >= 5 ==> (e in log <==> e in confirm))
  {
    WholeLogMember(StartupLog(w, s), end, confirm, e);
    if e in StartupLog(w, s) && Phase(e) != 2 { StartupVerdict(w, s, e); }
  }

  lemma RunErrorTold(w: World, s: Startup, end: Event, confirm: seq<Event>, report: StopReport)
    requires IsStartup(s, w) && Phase(end) == 4 && forall e :: e in confirm ==> 5 <= Phase(e) <= 7
    requires !s.last.ok ==> confirm == []
    requires StartupError(s).Some? ==> report.error == StartupError(s)
    requires StartupError(s) == None ==> report.error == StopError(report)
    requires s.last.ok ==> forall exit :: RemoteStop(exit) in confirm <==> report.attempted && exit == report.exit
    requires s.last.ok ==> (report.reachable ==> report.attempted && FinalProbe(false) !in confirm)
    requires s.last.ok && report.attempted && !report.reachable ==> FinalProbe(false) in confirm
    ensures ErrorTold(report.error, WholeLog(StartupLog(w, s), end, confirm))
  {
    var log := WholeLog(StartupLog(w, s), end, confirm);
    RunLogShows(w, s, end, confirm, PreProbe(true));
    RunLogShows(w, s, end, confirm, LaunchFailed);
    forall code
      ensures EarlyExit(code) in log <==> !s.last.ok && s.early == Some(code)
    {
      RunLogShows(w, s, end, confirm, EarlyExit(code));
      VerdictInLog(w, s, EarlyExit(code));
    }
    forall matches
      ensures Checked(matches) in log <==> s.last.ok && s.last.matches == matches
    {
      RunLogShows(w, s, end, confirm, Checked(matches));
      VerdictInLog(w, s, Checked(matches));
    }
    RunLogShows(w, s, end, confirm, StartupTimedOut);
    VerdictInLog(w, s, StartupTimedOut);
    StopEventsTold(w, s, end, confirm);
    ToldBySituation(s, confirm, report, log);
  }

  lemma VerdictInLog(w: World, s: Startup, e: Event)
    requires IsStartup(s, w) && (e.EarlyExit? || e.Checked? || e == StartupTimedOut)
    ensures e in StartupLog(w, s) <==>
      e == if s.last.ok then Checked(s.last.matches)
           else if s.early.Some? then EarlyExit(s.early.value)
           else StartupTimedOut
  {
    VerdictIsLogged(w, s);
    if e in StartupLog(w, s) { StartupVerdict(w, s, e); }
  }

  lemma StopEventsTold(w: World, s: Startup, end: Event, confirm: seq<Event>)
    requires IsStartup(s, w) && Phase(end) == 4 && forall e :: e in confirm ==> 5 <= Phase(e) <= 7
    ensures var log := WholeLog(StartupLog(w, s), end, confirm);
      && (forall exit :: RemoteStop(exit) in log <==> RemoteStop(exit) in confirm)
      && (FinalProbe(false) in log <==> FinalProbe(false) in confirm)
  {
    forall exit
      ensures RemoteStop(exit) in WholeLog(StartupLog(w, s), end, confirm) <==> RemoteStop(exit) in confirm
    {
      RunLogShows(w, s, end, confirm, RemoteStop(exit));
    }
    RunLogShows(w, s, end, confirm, FinalProbe(false));
  }

  lemma ToldBySituation(s: Startup, confirm: seq<Event>, report: StopReport, log: seq<Event>)
    requires PreProbe(true) !in log && LaunchFailed !in log
    requires forall code :: EarlyExit(code) in log <==> !s.last.ok && s.early == Some(code)
    requires forall matches :: Checked(matches) in log <==> s.last.ok && s.last.matches == matches
    requires StartupTimedOut in log <==> !s.last.ok && s.early == None
    requires forall exit :: RemoteStop(exit) in log <==> RemoteStop(exit) in confirm
    requires FinalProbe(false) in log <==> FinalProbe(false) in confirm
    requires if s.last.ok then s.early == None && !s.timedOut else s.timedOut == (s.early == None)
    requires !s.last.ok ==> confirm == []
    requires StartupError(s).Some? ==> report.error == StartupError(s)
    requires StartupError(s) == None ==> report.error == StopError(report)
    requires s.last.ok ==> forall exit :: RemoteStop(exit) in confirm <==> report.attempted && exit == report.exit
    requires s.last.ok ==> (report.reachable ==> report.attempted && FinalProbe(false) !in confirm)
    requires s.last.ok && report.attempted && !report.reachable ==> FinalProbe(false) in confirm
    ensures ErrorTold(report.error, log)
  {
    if s.last.ok && report.attempted { assert RemoteStop(report.exit) in log; }
    if s.early.Some? { assert EarlyExit(s.early.value) in log; }
  }

  /** The fields of the result are what the log shows. */
  ghost predicate FieldsTold(r: SmokeResult, log: seq<Event>) {
    && (r.preLaunchReachable <==> PreProbe(true) in log)
    && (r.launched <==> Launched in log)
    && (r.healthOk <==> Checked(true) in log) && (r.mismatched <==> Checked(false) in log)
    && (r.stopped <==> exists e :: e in log && e.EndedWithoutKill?)
    && (r.stopConfirmed <==> exists e :: e in log && Ended(e))
    && (forall exit :: RemoteStop(exit) in log <==> r.remoteStopAttempted && exit == r.remoteStopExit)
    && (r.postStopReachable <==>
          || PreProbe(true) in log
          || ((r.healthOk || r.mismatched) && StopProbe(false) !in log && FinalProbe(false) !in log))
  }

  /** The process has ended, by itself or by the kill. */
  predicate Ended(e: Event) {
    e.EndedWithoutKill? || (e.Killed? && e.killCode.Some?)
  }

  lemma RunFieldsTold(w: World, s: Startup, end: Event, confirm: seq<Event>, report: StopReport, code: Option<int>)
    requires IsStartup(s, w) && Phase(end) == 4 && forall e :: e in confirm ==> 5 <= Phase(e) <= 7
    requires Ended(end) <==> code.Some?
    requires !s.last.ok ==> confirm == [] && report == StopReport(false, None, false, report.error)
    requires s.last.ok ==> (!report.reachable <==> StopProbe(false) in confirm || FinalProbe(false) in confirm)
    requires s.last.ok ==> forall exit :: RemoteStop(exit) in confirm <==> report.attempted && exit == report.exit
    ensures FieldsTold(SmokeResult(false, true, s.last.ok && s.last.matches, s.attempts, s.last.ok && !s.last.matches,
                                   end.EndedWithoutKill?, code.Some?, report.attempted, report.exit,
                                   report.reachable, report.error),
                       WholeLog(StartupLog(w, s), end, confirm))
  {
    var log := WholeLog(StartupLog(w, s), end, confirm);
    RunLogShows(w, s, end, confirm, PreProbe(true));
    CheckedTold(w, s, end, confirm, true);
    CheckedTold(w, s, end, confirm, false);
    StopEventsTold(w, s, end, confirm);
    RunLogShows(w, s, end, confirm, StopProbe(false));
    WholeLogMember(StartupLog(w, s), end, confirm, Launched);
    EndTold(w, s, end, confirm);
  }

  lemma CheckedTold(w: World, s: Startup, end: Event, confirm: seq<Event>, matches: bool)
    requires IsStartup(s, w) && Phase(end) == 4 && forall e :: e in confirm ==> 5 <= Phase(e) <= 7
    ensures Checked(matches) in WholeLog(StartupLog(w, s), end, confirm) <==> s.last.ok && s.last.matches == matches
  {
    RunLogShows(w, s, end, confirm, Checked(matches));
    VerdictInLog(w, s, Checked(matches));
  }

  lemma EndTold(w: World, s: Startup, end: Event, confirm: seq<Event>)
    requires IsStartup(s, w) && Phase(end) == 4 && forall e :: e in confirm ==> 5 <= Phase(e) <= 7
    ensures var log := WholeLog(StartupLog(w, s), end, confirm);
      end in log && forall e :: e in log && Phase(e) == 4 ==> e == end
  {
    WholeLogMember(StartupLog(w, s), end, confirm, end);
    forall e | e in WholeLog(StartupLog(w, s), end, confirm) && Phase(e) == 4
      ensures e == end
    {
      WholeLogMember(StartupLog(w, s), end, confirm, e);
      if e in StartupLog(w, s) { StartupVerdict(w, s, e); }
    }
  }

  lemma AbandonedFieldsTold()
    ensures FieldsTold(
      SmokeResult(true, false, false, 0, false, false, false, false, None, true, Some(AlreadyReachable)),
      [PreProbe(true)])
    ensures FieldsTold(
      SmokeResult(false, false, false, 0, false, false, false, false, None, false, Some(SpawnFailed)),
      [PreProbe(false), LaunchFailed])
  {
    assert [PreProbe(true)][0] in [PreProbe(true)];
  }

  lemma AbandonedErrorsTold()
    ensures ErrorTold(Some(AlreadyReachable), [PreProbe(true)])
    ensures ErrorTold(Some(SpawnFailed), [PreProbe(false), LaunchFailed])
    ensures CountProbes([PreProbe(true)]) == 0 && CountProbes([PreProbe(false), LaunchFailed]) == 0
  {
    AllProbes([PreProbe(true)]);
    AllProbes([PreProbe(false), LaunchFailed]);
    assert [PreProbe(true)][0] in [PreProbe(true)];
    assert [PreProbe(false), LaunchFailed][1] in [PreProbe(false), LaunchFailed];
  }

  lemma HealthyMeansNoExit(w: World, s: Startup)
    requires IsStartup(s, w)
    ensures s.last.ok ==> s.early == None
  {
  }

  /** The outside world in which the smoke passes, said without the smoke: the URL is dark
      and the process can be spawned; it becomes healthy and matching within the rounds that
      fit; it ends without a kill; and the URL goes dark in time, if need be after a remote
      stop with exit code zero. */
  ghost predicate WorldPasses(w: World, timeouts: Timeouts) {
    && !w.preLaunch.ok && w.spawns
    && BecomesHealthy(w, Rounds(timeouts.startup, timeouts.pollInterval))
    && (w.pollBeforeStop.Some? || w.exitInGrace.Some?)
    && (var n := StopRounds(timeouts);
        GoesDark(w.stopProbe, n) || (w.remoteStop == Some(0) && GoesDark(w.finalProbe, n)))
  }

  lemma PunctualVerdict(w: World, timeouts: Timeouts, s: Startup, report: StopReport, stopped: bool)
    requires !w.preLaunch.ok && w.spawns && IsStartup(s, w)
    requires s.attempts <= Rounds(timeouts.startup, timeouts.pollInterval)
    requires s.timedOut ==> s.attempts == Rounds(timeouts.startup, timeouts.pollInterval)
    requires stopped <==> s.early.Some? || w.pollBeforeStop.Some? || w.exitInGrace.Some?
    requires s.last.ok ==>
      var n := StopRounds(timeouts);
      && (report.attempted <==> !GoesDark(w.stopProbe, n)) && (report.attempted ==> report.exit == w.remoteStop)
      && (report.reachable <==> !GoesDark(w.stopProbe, n) && !GoesDark(w.finalProbe, n))
    ensures WorldPasses(w, timeouts) <==>
      && s.last.ok && s.last.matches && stopped
      && (report.attempted ==> report.exit == Some(0)) && !report.reachable
  {
    StartupFindsWhatTheWorldShows(w, s, Rounds(timeouts.startup, timeouts.pollInterval));
    HealthyMeansNoExit(w, s);
  }

  /** Everything after a successful launch: startup, mismatch check, stop, confirmation. */
  method RunLaunched(clock: Clock, w: World, timeouts: Timeouts) returns (r: SmokeResult, log: seq<Event>)
    requires !w.preLaunch.ok && w.spawns
    modifies clock
    ensures InPhases(log, 0, 7) && forall e :: e in log ==> Observed(w, e)
    ensures r.healthAttempts <= Rounds(timeouts.startup, timeouts.pollInterval)
    ensures r.Passed() <==> Certified(log)
    ensures r.healthAttempts == CountProbes(log) && ErrorTold(r.error, log) && FieldsTold(r, log)
    ensures Punctual(clock.delay) ==> (r.Passed() <==> WorldPasses(w, timeouts))
  {
    var s, startupLog := WaitUntilHealthy(clock, w, timeouts);
    var error := if s.early.Some? then Some(ExitedEarly) else if s.timedOut then Some(NotHealthyInTime) else None;
    var mismatched := s.last.ok && !s.last.matches;
    if mismatched {
      error := Some(Mismatched);
    }
    var stopped, exitCode, stopLog := StopProcess(w, if s.early.Some? then s.early else w.pollBeforeStop);
    var confirmed, confirmLog := StopReport(false, None, false, error), [];
    if s.last.ok {
      confirmed, confirmLog := ConfirmStop(clock, w, timeouts, error);
    }
    RunLogFacts(w, s, stopLog[0], confirmLog);
    RunLogCounts(w, s, stopLog[0], confirmLog);
    RunErrorTold(w, s, stopLog[0], confirmLog, confirmed);
    if Punctual(clock.delay) { PunctualVerdict(w, timeouts, s, confirmed, stopped); }
    log := WholeLog(startupLog, stopLog[0], confirmLog);
    assert s.last.ok ==> (RemoteStop(confirmed.exit) in confirmLog <==> confirmed.attempted);
    RunFieldsTold(w, s, stopLog[0], confirmLog, confirmed, exitCode);
    r := SmokeResult(false, true, s.last.ok && !mismatched, s.attempts, mismatched, stopped, exitCode.Some?,
                     confirmed.attempted, confirmed.exit, confirmed.reachable, confirmed.error);
  }

  /** The logs of runs that never launch are not certified. */
  lemma AbandonedLogs(w: World)
    ensures var log := [PreProbe(true)];
      && InPhases(log, 0, 7) && !Certified(log)
      && (w.preLaunch.ok ==> forall e :: e in log ==> Observed(w, e))
    ensures var log := [PreProbe(false), LaunchFailed];
      && InPhases(log, 0, 7) && !Certified(log)
      && (!w.preLaunch.ok && !w.spawns ==> forall e :: e in log ==> Observed(w, e))
  {
    assert Launched !in [PreProbe(true)];
    assert Launched !in [PreProbe(false), LaunchFailed];
  }

  /** The verdict is the certificate: every logged event was really observed, and a run
      passes if and only if its log is certified. */
  method RunForegroundSmoke(clock: Clock, w: World, timeouts: Timeouts) returns (r: SmokeResult, log: seq<Event>)
    modifies clock
    ensures InPhases(log, 0, 7)
    ensures r.healthAttempts <= Rounds(timeouts.startup, timeouts.pollInterval)
    ensures forall e :: e in log ==> Observed(w, e)
    ensures r.Passed() <==> Certified(log)
    ensures r.healthAttempts == CountProbes(log) && ErrorTold(r.error, log) && FieldsTold(r, log)
    ensures Punctual(clock.delay) ==> (r.Passed() <==> WorldPasses(w, timeouts))
  {
    AbandonedLogs(w);
    AbandonedErrorsTold();
    AbandonedFieldsTold();
    if w.preLaunch.ok {
      return SmokeResult(true, false, false, 0, false, false, false, false, None, true, Some(AlreadyReachable)),
        [PreProbe(true)];
    }
    if !w.spawns {
      return SmokeResult(false, false, false, 0, false, false, false, false, None, false, Some(SpawnFailed)),
        [PreProbe(false), LaunchFailed];
    }
    r, log := RunLaunched(clock, w, timeouts);
  }

  /** A certified log in phase order tells the whole story in order: the URL was dark, the
      process was launched, a later probe was healthy and matched, the process then ended
      without a kill, and a still later probe found the URL dark again. */
  lemma CertifiedLogTellsTheStory(log: seq<Event>) returns (i: nat, j: nat, k: nat, l: nat, m: nat, n: nat)
    requires InPhases(log, 0, 7) && Certified(log)
    ensures i < j < k < l < m < n < |log|
    ensures log[i] == PreProbe(false) && log[j] == Launched && log[k] == StartupProbe(true) && log[l] == Checked(true)
    ensures log[m].EndedWithoutKill? && (log[n] == StopProbe(false) || log[n] == FinalProbe(false))
  {
    i := Position(log, PreProbe(false));
    j := Position(log, Launched);
    k := Position(log, StartupProbe(true));
    l := Position(log, Checked(true));
    var code :| EndedWithoutKill(code) in log;
    m := Position(log, EndedWithoutKill(code));
    n := Position(log, if StopProbe(false) in log then StopProbe(false) else FinalProbe(false));
  }
}
