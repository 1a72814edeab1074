/** Polling under a deadline on a monotonic clock: how much time passes and how many rounds
    fit. */
module Polling {
  type Delay = r: real | r >= 0.0
  type Positive = r: real | r > 0.0 witness 1.0

  /** No time passes except in sleeping, and sleeping takes exactly its time. */
  ghost predicate Punctual(delay: nat -> Delay) {
    forall i :: delay(i) == 0.0
  }

  /** A monotonic clock: reading it lets some time pass, sleeping d lets at least d pass. */
  class Clock {
    const delay: nat -> Delay
    var now: real
    var step: nat

    constructor (delay: nat -> Delay)
      ensures this.delay == delay
    {
      this.delay, this.now, this.step := delay, 0.0, 0;
    }

    method Read() returns (time: real)
      modifies this
      ensures time == now >= old(now)
      ensures Punctual(delay) ==> now == old(now)
    {
      now, step := now + delay(step), step + 1;
      time := now;
    }

    method Sleep(seconds: Delay)
      modifies this
      ensures now >= old(now) + seconds
      ensures Punctual(delay) ==> now == old(now) + seconds
    {
      now, step := now + seconds + delay(step), step + 1;
    }
  }

  function RealMin(a: real, b: real): real { if a < b then a else b }
  function RealMax(a: real, b: real): real { if a > b then a else b }

  // ---------------------------------------------------------------- rounds and schedule

  /** The number of whole poll intervals that cover the timeout: timeout / interval rounded
      up. */
  function Rounds(timeout: Positive, pollInterval: Positive): (n: nat)
    ensures (n - 1) as real * pollInterval < timeout <= n as real * pollInterval
  {
    var n := -(-(timeout / pollInterval)).Floor;
    RoundedUp(timeout, pollInterval, n);
    n
  }

  lemma RoundedUp(timeout: Positive, pollInterval: Positive, n: int)
    requires (n - 1) as real < timeout / pollInterval <= n as real
    ensures n > 0 && (n - 1) as real * pollInterval < timeout <= n as real * pollInterval
  {
    var quotient := timeout / pollInterval;
    assert quotient * pollInterval == timeout;
    StretchReal((n - 1) as real, quotient, pollInterval);
    StretchReal(quotient, n as real, pollInterval);
  }

  lemma StretchReal(a: real, b: real, c: Positive)
    requires a <= b
    ensures a * c <= b * c && (a < b ==> a * c < b * c)
  {
  }

  /** After `done` probes at least that many intervals have passed, or the deadline has. */
  ghost predicate OnSchedule(done: nat, time: real, started: real, timeout: Positive, pollInterval: Positive) {
    && done <= Rounds(timeout, pollInterval)
    && (time >= started + timeout || time >= started + done as real * pollInterval)
  }

  /** Before the deadline one more probe fits. */
  lemma OneMoreProbe(done: nat, time: real, started: real, timeout: Positive, pollInterval: Positive)
    requires OnSchedule(done, time, started, timeout, pollInterval) && time < started + timeout
    ensures done + 1 <= Rounds(timeout, pollInterval)
  {
    assert done as real * pollInterval < timeout;
  }

  /** An interval later the schedule holds again. */
  lemma OneMoreRound(done: nat, time: real, next: real, started: real, timeout: Positive, pollInterval: Positive)
    requires OnSchedule(done, time, started, timeout, pollInterval) && time < started + timeout
    requires next >= started + timeout || next >= time + pollInterval
    ensures OnSchedule(done + 1, next, started, timeout, pollInterval)
    ensures time <= started + done as real * pollInterval && next <= time + pollInterval ==>
      next <= started + (done + 1) as real * pollInterval
  {
    OneMoreProbe(done, time, started, timeout, pollInterval);
    assert (done + 1) as real * pollInterval == done as real * pollInterval + pollInterval;
  }

  /** On a punctual clock a schedule that is not late reaches the deadline exactly when all
      rounds are done. */
  lemma DeadlineTakesAllRounds(done: nat, time: real, started: real, timeout: Positive, pollInterval: Positive)
    requires OnSchedule(done, time, started, timeout, pollInterval)
    requires started + timeout <= time <= started + done as real * pollInterval
    ensures done == Rounds(timeout, pollInterval)
  {
    var n := Rounds(timeout, pollInterval);
    if done < n { StretchReal(done as real, (n - 1) as real, pollInterval); }
  }

  /** On schedule and, on a punctual clock, not late either. */
  ghost predicate InTime(delay: nat -> Delay, done: nat, time: real, started: real, timeout: Positive,
                         pollInterval: Positive) {
    && OnSchedule(done, time, started, timeout, pollInterval)
    && (Punctual(delay) ==> time <= started + done as real * pollInterval)
  }

  lemma InTimeAtStart(delay: nat -> Delay, time: real, started: real, timeout: Positive, pollInterval: Positive)
    requires time >= started && (Punctual(delay) ==> time == started)
    ensures InTime(delay, 0, time, started, timeout, pollInterval)
  {
  }

  lemma InTimeNextRound(delay: nat -> Delay, done: nat, time: real, next: real, started: real, timeout: Positive,
                        pollInterval: Positive)
    requires InTime(delay, done, time, started, timeout, pollInterval) && time < started + timeout
    requires next >= started + timeout || next >= time + pollInterval
    requires Punctual(delay) ==> next <= time + pollInterval
    ensures InTime(delay, done + 1, next, started, timeout, pollInterval)
  {
    OneMoreRound(done, time, next, started, timeout, pollInterval);
  }

  /** At the deadline a punctual clock has seen all rounds that fit. */
  lemma InTimeAtDeadline(delay: nat -> Delay, done: nat, time: real, started: real, timeout: Positive,
                         pollInterval: Positive)
    requires InTime(delay, done, time, started, timeout, pollInterval) && time >= started + timeout
    ensures Punctual(delay) ==> done == Rounds(timeout, pollInterval)
  {
    if Punctual(delay) { DeadlineTakesAllRounds(done, time, started, timeout, pollInterval); }
  }

  /** Sleep until the next round, but not past the deadline, and read the clock. */
  method NextRound(clock: Clock, time: real, deadline: real, pollInterval: Positive) returns (next: real)
    requires time <= clock.now
    modifies clock
    ensures next == clock.now && (next >= deadline || next >= time + pollInterval)
    ensures Punctual(clock.delay) && old(clock.now) == time ==> next <= time + pollInterval
  {
    var again := clock.Read();
    clock.Sleep(RealMin(pollInterval, RealMax(0.0, deadline - again)));
    next := clock.Read();
  }
}
