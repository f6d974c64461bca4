/** `benchmark` written the way the source writes it: a warm-up loop, a measured loop
    that reads the clock around every call and breaks on the timeout check, then the
    statistics over the sorted array (src/utils/benchmark.ts:30-92). The environment is
    read through two cursors, one into each trace. */
module RunnerLoop {
  import opened Results
  import opened Trace
  import opened Options
  import opened Statistics
  import opened Sorting
  import opened Runner

  /** The imperative runner computes exactly the pure runner's result. */
  method RunBenchmark(name: string, options: BenchmarkOptions, env: Env)
    returns (r: Result<BenchmarkResult, BenchmarkError>)
    requires Covers(env, Resolve(options))
    ensures r == Run(name, Resolve(options), env)
  {
    var s := Resolve(options);
    var startTime := env.clock[0];
    var results, endTime := RunLoops(s, env);
    var totalDuration := endTime - startTime;
    r := RunReport(name, results, totalDuration, s.memoryTracking, env.heap);
  }

  /** The end of the run: the error when nothing was recorded, otherwise the
      statistics and the memory reading. */
  method RunReport(name: string, results: seq<real>, totalDuration: real, memoryTracking: bool, heap: Option<int>)
    returns (r: Result<BenchmarkResult, BenchmarkError>)
    ensures r == Report(name, results, totalDuration, if memoryTracking then heap else None)
  {
    if |results| == 0 {
      return Failure(NoSuccessfulIterations(name));
    }
    var minTime, maxTime, averageTime := RunStatistics(results);

    var memoryUsage: Option<int> := None;
    if memoryTracking && heap.Some? {
      memoryUsage := Some(heap.value);
    }
    r := Success(BenchmarkResult(name, totalDuration, |results|, averageTime, minTime, maxTime, memoryUsage));
    assert memoryUsage == if memoryTracking then heap else None;
  }

  /** The warm-up loop, then the measured loop, then the end reading. */
  method RunLoops(s: Settings, env: Env) returns (results: seq<real>, endTime: real)
    requires Covers(env, s)
    ensures results == Durations(MeasuredPhase(s, env))
    ensures endTime == EndReading(s, env)
  {
    var calls := RunWarmup(|env.outcomes|, s.warmupIterations);
    var taken: nat;
    results, taken := RunMeasured(env.outcomes[calls..], env.clock[1..], env.clock[0], s.timeout, s.iterations);
    ghost var log := MeasuredPhase(s, env);
    assert log == MeasuredLoop(env.outcomes[calls..], env.clock[1..], env.clock[0], s.timeout, Slots(s));
    endTime := env.clock[1 + taken];
  }

  /** The warm-up loop: `warmupIterations` calls, outcomes ignored. Returns how many
      calls it made. */
  method RunWarmup(available: nat, warmupIterations: int) returns (calls: nat)
    requires (if warmupIterations > 0 then warmupIterations else 0) <= available
    ensures calls == if warmupIterations > 0 then warmupIterations else 0
  {
    calls := 0;
    var i := 0;
    while i < warmupIterations
      invariant 0 <= i && calls == i
      invariant warmupIterations > 0 ==> i <= warmupIterations
      invariant warmupIterations <= 0 ==> i == 0
    {
      calls := calls + 1;  // try { await fn() } catch { }: whatever the outcome
      i := i + 1;
    }
  }

  /** The measured loop over the traces from the first measured call and the first
      reading after the start on. Returns the recorded durations and how many readings
      it took; both are those of the pure loop. */
  method RunMeasured(outcomes: seq<Outcome>, clock: seq<real>, startTime: real, timeout: real, iterations: int)
    returns (results: seq<real>, next: nat)
    requires var slots := if iterations > 0 then iterations else 0;
      slots <= |outcomes| && 3 * slots <= |clock|
    ensures var slots: nat := if iterations > 0 then iterations else 0;
      var log := MeasuredLoop(outcomes, clock, startTime, timeout, slots);
      results == Durations(log) && next == |Readings(log)|
  {
    var slots: nat := if iterations > 0 then iterations else 0;
    ghost var log: seq<Attempt> := [];
    ghost var stopped := false;
    results, next := [], 0;
    var calls := 0;
    var i := 0;
    while i < iterations
      invariant 0 <= i <= slots && |log| == i && calls == i
      invariant next == |Readings(log)| <= 3 * i
      invariant results == Durations(log)
      invariant IsLogSoFar(log, outcomes, clock, startTime, timeout)
      invariant !stopped
    {
      var a: Attempt;
      a, next := RunAttempt(outcomes[calls], clock, next);
      if a.iterEnd.Some? {
        results := results + [a.iterEnd.value - a.iterStart];
      }
      assert results == Durations(log) + Recorded(a);
      calls := calls + 1;
      ExtendLogSoFar(log, a, outcomes, clock, startTime, timeout, slots);
      log := log + [a];
      i := i + 1;
      if a.check - startTime > timeout {
        stopped := true;
        break;
      }
    }
    if !stopped {
      CompleteLogSoFar(log, outcomes, clock, startTime, timeout, slots);
    }
    MeasuredLogIsUnique(log, outcomes, clock, startTime, timeout, slots);
  }

  /** What holds of the attempts made so far, before the loop has stopped: they read
      the clock in order, match the calls, and every check found the time in budget. */
  ghost predicate IsLogSoFar(log: seq<Attempt>, outcomes: seq<Outcome>, clock: seq<real>,
                             start: real, timeout: real)
  {
    && |Readings(log)| <= |clock|
    && Readings(log) == clock[..|Readings(log)|]
    && Matches(log, outcomes)
    && forall k :: 0 <= k < |log| ==> log[k].check - start <= timeout
  }

  /** One more attempt, read from where the last one stopped, keeps the log so far if
      its check is within budget and completes a measured log if it is not. */
  lemma ExtendLogSoFar(log: seq<Attempt>, a: Attempt, outcomes: seq<Outcome>, clock: seq<real>,
                       start: real, timeout: real, slots: nat)
    requires |log| < slots <= |outcomes| && 3 * slots <= |clock|
    requires |Readings(log)| <= 3 * |log|
    requires IsLogSoFar(log, outcomes, clock, start, timeout)
    requires a == Attempted(outcomes[|log|] == Returned, clock[|Readings(log)|..])
    ensures |Readings(log + [a])| == |Readings(log)| + |AttemptReadings(a)| <= 3 * (|log| + 1)
    ensures Durations(log + [a]) == Durations(log) + Recorded(a)
    ensures a.check - start <= timeout ==> IsLogSoFar(log + [a], outcomes, clock, start, timeout)
    ensures a.check - start > timeout ==> IsMeasuredLog(log + [a], outcomes, clock, start, timeout, slots)
  {
    ReadingsSnoc(log, a);
    DurationsSnoc(log, a);
    if a.check - start <= timeout {
      StillSoFar(log, a, outcomes, clock, start, timeout, slots);
    } else {
      NowStopped(log, a, outcomes, clock, start, timeout, slots);
    }
  }

  /** An attempt within budget keeps the log so far. */
  lemma StillSoFar(log: seq<Attempt>, a: Attempt, outcomes: seq<Outcome>, clock: seq<real>,
                   start: real, timeout: real, slots: nat)
    requires |log| < slots <= |outcomes| && 3 * slots <= |clock|
    requires |Readings(log)| <= 3 * |log|
    requires IsLogSoFar(log, outcomes, clock, start, timeout)
    requires a == Attempted(outcomes[|log|] == Returned, clock[|Readings(log)|..])
    requires a.check - start <= timeout
    ensures IsLogSoFar(log + [a], outcomes, clock, start, timeout)
  {
    SnocParts(log, a, outcomes, clock, start, timeout, slots);
  }

  /** An attempt over budget ends the loop with a measured log. */
  lemma NowStopped(log: seq<Attempt>, a: Attempt, outcomes: seq<Outcome>, clock: seq<real>,
                   start: real, timeout: real, slots: nat)
    requires |log| < slots <= |outcomes| && 3 * slots <= |clock|
    requires |Readings(log)| <= 3 * |log|
    requires IsLogSoFar(log, outcomes, clock, start, timeout)
    requires a == Attempted(outcomes[|log|] == Returned, clock[|Readings(log)|..])
    requires a.check - start > timeout
    ensures IsMeasuredLog(log + [a], outcomes, clock, start, timeout, slots)
  {
    SnocParts(log, a, outcomes, clock, start, timeout, slots);
  }

  /** What the log with one more attempt keeps of the log so far. */
  lemma SnocParts(log: seq<Attempt>, a: Attempt, outcomes: seq<Outcome>, clock: seq<real>,
                  start: real, timeout: real, slots: nat)
    requires |log| < slots <= |outcomes| && 3 * slots <= |clock|
    requires |Readings(log)| <= 3 * |log|
    requires IsLogSoFar(log, outcomes, clock, start, timeout)
    requires a == Attempted(outcomes[|log|] == Returned, clock[|Readings(log)|..])
    ensures |Readings(log + [a])| <= |clock|
    ensures Readings(log + [a]) == clock[..|Readings(log + [a])|]
    ensures Matches(log + [a], outcomes)
    ensures forall k :: 0 <= k < |log + [a]| - 1 ==> (log + [a])[k].check - start <= timeout
    ensures a.check - start <= timeout ==> forall k :: 0 <= k < |log + [a]| ==> (log + [a])[k].check - start <= timeout
  {
    SnocPrefix(log, a, clock);
    MatchesSnoc(log, a, outcomes);
    ChecksSnoc(log, a, start, timeout);
  }

  /** The readings of one more attempt, read from where the last one stopped, extend
      the prefix of the clock the log has read. */
  lemma SnocPrefix(log: seq<Attempt>, a: Attempt, clock: seq<real>)
    requires |Readings(log)| + |AttemptReadings(a)| <= |clock|
    requires Readings(log) == clock[..|Readings(log)|]
    requires AttemptReadings(a) == clock[|Readings(log)|..][..|AttemptReadings(a)|]
    ensures |Readings(log + [a])| <= |clock|
    ensures Readings(log + [a]) == clock[..|Readings(log + [a])|]
  {
    ReadingsSnoc(log, a);
    PrefixThenNext(clock, Readings(log), AttemptReadings(a));
  }

  /** Appending an attempt keeps the earlier checks, and all checks when its own is
      within budget. */
  lemma ChecksSnoc(log: seq<Attempt>, a: Attempt, start: real, timeout: real)
    requires forall k :: 0 <= k < |log| ==> log[k].check - start <= timeout
    ensures forall k :: 0 <= k < |log + [a]| - 1 ==> (log + [a])[k].check - start <= timeout
    ensures a.check - start <= timeout ==> forall k :: 0 <= k < |log + [a]| ==> (log + [a])[k].check - start <= timeout
  {
  }

  /** A prefix of the clock followed by the readings right after it is a longer prefix. */
  lemma PrefixThenNext(clock: seq<real>, r: seq<real>, t: seq<real>)
    requires |r| + |t| <= |clock|
    requires r == clock[..|r|] && t == clock[|r|..][..|t|]
    ensures r + t == clock[..|r| + |t|]
  {
  }

  /** A log so far that used every slot is the measured log. */
  lemma CompleteLogSoFar(log: seq<Attempt>, outcomes: seq<Outcome>, clock: seq<real>,
                         start: real, timeout: real, slots: nat)
    requires |log| == slots
    requires IsLogSoFar(log, outcomes, clock, start, timeout)
    ensures IsMeasuredLog(log, outcomes, clock, start, timeout, slots)
  {
  }

  /** One measured attempt: read the clock, call `fn`, read the clock again if the call
      completed (`iterEnd`; a failed call records nothing), then read it for the
      timeout check. */
  method RunAttempt(outcome: Outcome, clock: seq<real>, next: nat) returns (a: Attempt, next': nat)
    requires next + 3 <= |clock|
    ensures a == Attempted(outcome == Returned, clock[next..])
    ensures next' == next + |AttemptReadings(a)|
  {
    next' := next;
    var iterStart := clock[next'];
    next' := next' + 1;
    var iterEnd: Option<real> := None;
    if outcome == Returned {
      iterEnd := Some(clock[next']);
      next' := next' + 1;
    }
    var check := clock[next'];
    next' := next' + 1;
    a := Attempt(iterStart, iterEnd, check);
  }

  /** The statistics step: sort, read the extremes, reduce the sorted array to its sum
      and divide. */
  method RunStatistics(results: seq<real>) returns (minTime: real, maxTime: real, averageTime: real)
    requires results != []
    ensures Summary(minTime, maxTime, averageTime) == Summarize(results)
  {
    var sorted := SortBy(results, Itself);
    minTime := sorted[0];
    maxTime := sorted[|sorted| - 1];
    var total := 0.0;
    var j := 0;
    while j < |sorted|
      invariant 0 <= j <= |sorted|
      invariant total == Sum(sorted[..j])
    {
      assert sorted[..j + 1][..j] == sorted[..j];
      total := total + sorted[j];
      j := j + 1;
    }
    assert sorted[..j] == sorted;
    averageTime := total / (|results| as real);
  }
}
