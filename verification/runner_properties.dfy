/** What `benchmark` promises about whole runs: how the outcomes of `fn`, the budget and
    the clock shape the result (src/utils/benchmark.ts:30-92). */
module RunnerProperties {
  import opened Results
  import opened Trace
  import opened Options
  import opened Statistics
  import opened Runner

  /** What one run of `benchmark` produces. It fails exactly when no measured call
      completed (including every run with `iterations <= 0`), with an error naming the
      benchmark. Otherwise the result counts the completed calls, which never exceed the
      requested iterations; its statistics are the extremes and the mean of their
      durations; its duration spans the whole call, warm-up included; and it carries the
      heap reading only when memory tracking was asked for and the environment offered
      one. */
  lemma RunOutcome(name: string, s: Settings, env: Env)
    requires Covers(env, s)
    ensures var r := Run(name, s, env);
      && (r.Failure? <==> CountReturned(MeasuredOutcomes(s, env)) == 0)
      && (s.iterations <= 0 ==> r.Failure?)
      && (r.Failure? ==> r.error == NoSuccessfulIterations(name))
    ensures var r := Run(name, s, env);
      r.Success? ==>
        && r.value.name == name
        && r.value.iterations == CountReturned(MeasuredOutcomes(s, env))
        && 1 <= r.value.iterations <= s.iterations
        && r.value.duration == EndReading(s, env) - env.clock[0]
        && r.value.memoryUsage == (if s.memoryTracking then env.heap else None)
    ensures var r := Run(name, s, env);
      r.Success? ==> var durations := Durations(MeasuredPhase(s, env));
        && r.value.minTime in durations && (forall d :: d in durations ==> r.value.minTime <= d)
        && r.value.maxTime in durations && (forall d :: d in durations ==> d <= r.value.maxTime)
        && r.value.averageTime == Mean(durations)
        && r.value.minTime <= r.value.averageTime <= r.value.maxTime
  {
    MeasuredPhaseIsMeasuredLog(s, env);
    DurationsCountCompleted(MeasuredPhase(s, env), env.outcomes[Warmups(s)..]);
  }

  /** With at least one iteration asked for, the loop makes at least one attempt,
      however much of the budget warm-up used. */
  lemma AtLeastOneAttempt(s: Settings, env: Env)
    requires Covers(env, s)
    requires s.iterations >= 1
    ensures |MeasuredPhase(s, env)| >= 1
  {
    MeasuredPhaseIsMeasuredLog(s, env);
  }

  /** Only the timeout check ends the loop early: an attempt whose check found the
      elapsed time within budget is followed by another while slots remain, whether
      its call completed or threw. */
  lemma InBudgetContinues(s: Settings, env: Env, k: nat)
    requires Covers(env, s)
    requires k < |MeasuredPhase(s, env)| && k + 1 < Slots(s)
    requires MeasuredPhase(s, env)[k].check - env.clock[0] <= s.timeout
    ensures k + 1 < |MeasuredPhase(s, env)|
  {
    MeasuredPhaseIsMeasuredLog(s, env);
  }

  /** A run whose measured calls all throw fails; nothing of the failures is recorded. */
  lemma AllThrowingFails(name: string, s: Settings, env: Env)
    requires Covers(env, s)
    requires forall k :: Warmups(s) <= k < |env.outcomes| ==> env.outcomes[k] == Threw
    ensures Run(name, s, env) == Failure(NoSuccessfulIterations(name))
  {
    MeasuredPhaseIsMeasuredLog(s, env);
    NoneCompletedNoneRecorded(MeasuredPhase(s, env), env.outcomes[Warmups(s)..]);
    DurationsCountCompleted(MeasuredPhase(s, env), env.outcomes[Warmups(s)..]);
  }

  /** Warm-up leaves no trace: whatever the warm-up calls do, the result is the same. */
  lemma WarmupLeavesNoTrace(name: string, s: Settings, env: Env, env': Env)
    requires Covers(env, s) && Covers(env', s)
    requires env'.clock == env.clock && env'.heap == env.heap
    requires |env'.outcomes| == |env.outcomes|
    requires env'.outcomes[Warmups(s)..] == env.outcomes[Warmups(s)..]
    ensures Run(name, s, env') == Run(name, s, env)
  {
    PhaseIgnoresWarmup(s, env, env');
  }

  /** The measured phase and the end reading do not depend on the warm-up outcomes. */
  lemma PhaseIgnoresWarmup(s: Settings, env: Env, env': Env)
    requires Covers(env, s) && Covers(env', s)
    requires env'.clock == env.clock
    requires env'.outcomes[Warmups(s)..] == env.outcomes[Warmups(s)..]
    ensures MeasuredPhase(s, env') == MeasuredPhase(s, env)
    ensures EndReading(s, env') == EndReading(s, env)
  {
  }

  /** When the whole trace stays within the budget and every measured call completes,
      every requested iteration is recorded. */
  lemma WithinBudgetRecordsAll(name: string, s: Settings, env: Env)
    requires Covers(env, s)
    requires s.iterations >= 1
    requires forall j :: 0 <= j < |env.clock| ==> env.clock[j] - env.clock[0] <= s.timeout
    requires forall k :: Warmups(s) <= k < |env.outcomes| ==> env.outcomes[k] == Returned
    ensures Run(name, s, env).Success?
    ensures Run(name, s, env).value.iterations == s.iterations
  {
    var log := MeasuredPhase(s, env);
    var readings := Readings(log);
    MeasuredPhaseIsMeasuredLog(s, env);
    LastReadingIsLastCheck(log);
    assert Last(readings) == env.clock[|readings|];
    AllCompletedCount(MeasuredOutcomes(s, env));
    RunOutcome(name, s, env);
  }

  /** A trace of completed calls counts them all. */
  lemma {:induction false} AllCompletedCount(m: seq<Outcome>)
    requires forall k :: 0 <= k < |m| ==> m[k] == Returned
    ensures CountReturned(m) == |m|
  {
    if m != [] {
      AllCompletedCount(m[1..]);
    }
  }

  /** The budget counts from before warm-up: when warm-up alone used it up, the loop
      makes its one attempt and stops, whatever the requested iterations. */
  lemma WarmupSpendsBudget(name: string, s: Settings, env: Env)
    requires Covers(env, s)
    requires s.iterations >= 1
    requires Monotone(env.clock)
    requires env.clock[1] - env.clock[0] > s.timeout
    ensures |MeasuredPhase(s, env)| == 1
    ensures Run(name, s, env).Success? ==> Run(name, s, env).value.iterations == 1
  {
    var log := MeasuredPhase(s, env);
    MeasuredPhaseIsMeasuredLog(s, env);
    if |log| > 1 {
      assert false;
    }
    RunOutcome(name, s, env);
  }

  /** On a clock that never runs backwards, the readings the loop took are in order
      and lie between the start and the end readings. */
  lemma PhaseReadingsInOrder(s: Settings, env: Env)
    requires Covers(env, s)
    requires Monotone(env.clock)
    ensures var readings := Readings(MeasuredPhase(s, env));
      && Monotone(readings)
      && (readings != [] ==> env.clock[0] <= readings[0] && Last(readings) <= EndReading(s, env))
  {
    var readings := Readings(MeasuredPhase(s, env));
    MeasuredPhaseIsMeasuredLog(s, env);
    assert readings == env.clock[1..1 + |readings|];
    forall i, j | 0 <= i <= j < |readings|
      ensures readings[i] <= readings[j]
    {
      assert readings[i] == env.clock[1 + i] && readings[j] == env.clock[1 + j];
    }
    if readings != [] {
      assert readings[0] == env.clock[1];
      assert Last(readings) == env.clock[|readings|];
    }
  }

  /** On a clock that never runs backwards every statistic is non-negative and the
      run's duration covers all the recorded durations together. */
  lemma DurationCoversMeasurements(name: string, s: Settings, env: Env)
    requires Covers(env, s)
    requires Monotone(env.clock)
    ensures var r := Run(name, s, env);
      r.Success? ==>
        && 0.0 <= r.value.minTime
        && Sum(Durations(MeasuredPhase(s, env))) <= r.value.duration
        && r.value.maxTime <= r.value.duration
  {
    var log := MeasuredPhase(s, env);
    var r := Run(name, s, env);
    if r.Success? {
      RunOutcome(name, s, env);
      PhaseReadingsInOrder(s, env);
      DurationsWithinReadings(log);
      ElementAtMostSum(Durations(log), r.value.maxTime);
    }
  }
}
