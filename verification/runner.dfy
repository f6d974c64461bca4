/** The runner `benchmark(name, fn, options)` (src/utils/benchmark.ts:25-93) as a pure
    function of the call's environment: the outcomes of `fn`, the readings of the
    clock and the heap reading the environment offers. */
module Runner {
  import opened Results
  import opened Trace
  import opened Options
  import opened Statistics

  /** `BenchmarkResult` (src/utils/benchmark.ts:5-13). */
  datatype BenchmarkResult = BenchmarkResult(
    name: string,
    duration: real,
    iterations: nat,
    averageTime: real,
    minTime: real,
    maxTime: real,
    memoryUsage: Option<int>)

  /** The error thrown when no measured attempt completed. */
  datatype BenchmarkError = NoSuccessfulIterations(name: string)

  /** The text of the thrown `Error`. */
  function Message(e: BenchmarkError): string {
    "Benchmark \"" + e.name + "\" failed: no successful iterations"
  }

  /** `t` occurs in `s` as a contiguous piece. */
  ghost predicate Contains(s: string, t: string) {
    exists i :: 0 <= i <= |s| - |t| && OccursAt(s, t, i)
  }

  ghost predicate OccursAt(s: string, t: string, i: int)
    requires 0 <= i <= |s| - |t|
  {
    s[i..i + |t|] == t
  }

  /** The error message names the benchmark that failed. */
  lemma MessageNamesBenchmark(e: BenchmarkError)
    ensures Contains(Message(e), e.name)
  {
    var prefix := "Benchmark \"";
    assert Message(e)[|prefix|..|prefix| + |e.name|] == e.name;
    assert OccursAt(Message(e), e.name, |prefix|);
  }

  /** Everything one call observes: the outcome of each call of `fn` (warm-up calls
      first), the readings of `performance.now()` in the order they are taken, and
      `performance.memory.usedJSHeapSize` when the environment provides it. */
  datatype Env = Env(outcomes: seq<Outcome>, clock: seq<real>, heap: Option<int>)

  /** The traces are long enough for any run with these settings: one outcome per
      warm-up call and per loop slot; one start and one end reading and at most
      three readings per slot. */
  predicate Covers(env: Env, s: Settings) {
    && Warmups(s) + Slots(s) <= |env.outcomes|
    && 3 * Slots(s) + 2 <= |env.clock|
  }

  /** The warm-up loop (lines 36-42): `n` calls, each awaited, each outcome ignored.
      What is left is the outcome trace the measured loop sees. */
  function Warmup(outcomes: seq<Outcome>, n: nat): (rest: seq<Outcome>)
    requires n <= |outcomes|
    ensures rest == outcomes[n..]
  {
    if n == 0 then outcomes else Warmup(outcomes[1..], n - 1)
  }

  /** What the measured loop (lines 45-60) does, stated without running it:
      `log` is the attempts made, in order.
      - the attempts read the clock in order, starting with its first reading;
      - attempt `k` has an end reading exactly when call `k` completed;
      - no more attempts than slots, and at least one when there is a slot;
      - every attempt but the last found the elapsed time since `start` within
        `timeout`, whatever its outcome;
      - stopping before the slots run out means the last check found it over. */
  ghost predicate IsMeasuredLog(log: seq<Attempt>, outcomes: seq<Outcome>, clock: seq<real>,
                                start: real, timeout: real, slots: nat)
  {
    && |Readings(log)| <= |clock|
    && Readings(log) == clock[..|Readings(log)|]
    && Matches(log, outcomes)
    && |log| <= slots
    && (slots > 0 ==> |log| > 0)
    && (forall k :: 0 <= k < |log| - 1 ==> log[k].check - start <= timeout)
    && (0 < |log| < slots ==> log[|log| - 1].check - start > timeout)
  }

  /** One measured attempt, given the clock from its first reading on. */
  function Attempted(completed: bool, clock: seq<real>): (a: Attempt)
    requires 3 <= |clock|
    ensures AttemptReadings(a) == clock[..|AttemptReadings(a)|]
    ensures a.iterEnd.Some? <==> completed
  {
    if completed then Attempt(clock[0], Some(clock[1]), clock[2])
    else Attempt(clock[0], None, clock[1])
  }

  /** The measured loop as a fold over the traces. `start` is the reading taken before
      warm-up (line 32): the timeout is measured from there, not from the loop's start. */
  function MeasuredLoop(outcomes: seq<Outcome>, clock: seq<real>, start: real, timeout: real,
                        slots: nat): (log: seq<Attempt>)
    requires slots <= |outcomes| && 3 * slots <= |clock|
    ensures |log| <= slots
    decreases slots
  {
    if slots == 0 then []
    else
      var a := Attempted(outcomes[0] == Returned, clock);
      var used := |AttemptReadings(a)|;
      if a.check - start > timeout then [a]
      else [a] + MeasuredLoop(outcomes[1..], clock[used..], start, timeout, slots - 1)
  }

  /** The loop meets the description above. */
  lemma {:induction false} MeasuredLoopIsMeasuredLog(outcomes: seq<Outcome>, clock: seq<real>, start: real,
                                                     timeout: real, slots: nat)
    requires slots <= |outcomes| && 3 * slots <= |clock|
    ensures IsMeasuredLog(MeasuredLoop(outcomes, clock, start, timeout, slots), outcomes, clock, start, timeout, slots)
    decreases slots
  {
    if slots > 0 {
      var a := Attempted(outcomes[0] == Returned, clock);
      var used := |AttemptReadings(a)|;
      if a.check - start > timeout {
        assert Readings([a]) == AttemptReadings(a);
      } else {
        var rest := MeasuredLoop(outcomes[1..], clock[used..], start, timeout, slots - 1);
        MeasuredLoopIsMeasuredLog(outcomes[1..], clock[used..], start, timeout, slots - 1);
        ExtendMeasuredLog(a, rest, outcomes, clock, start, timeout, slots);
      }
    }
  }

  /** An attempt that found the time within budget, followed by the loop's remaining
      log, is the loop's log. */
  lemma ExtendMeasuredLog(a: Attempt, rest: seq<Attempt>, outcomes: seq<Outcome>, clock: seq<real>,
                          start: real, timeout: real, slots: nat)
    requires 0 < slots <= |outcomes|
    requires |AttemptReadings(a)| <= |clock|
    requires AttemptReadings(a) == clock[..|AttemptReadings(a)|]
    requires a.iterEnd.Some? <==> outcomes[0] == Returned
    requires a.check - start <= timeout
    requires IsMeasuredLog(rest, outcomes[1..], clock[|AttemptReadings(a)|..], start, timeout, slots - 1)
    ensures IsMeasuredLog([a] + rest, outcomes, clock, start, timeout, slots)
  {
  }

  /** The contract above pins the loop down: any log meeting it is the loop's log. */
  lemma {:induction false} MeasuredLogIsUnique(log: seq<Attempt>, outcomes: seq<Outcome>,
                                               clock: seq<real>, start: real, timeout: real, slots: nat)
    requires slots <= |outcomes| && 3 * slots <= |clock|
    requires IsMeasuredLog(log, outcomes, clock, start, timeout, slots)
    ensures log == MeasuredLoop(outcomes, clock, start, timeout, slots)
  {
    if slots > 0 {
      FirstAttemptIsDetermined(log, outcomes, clock, start, timeout, slots);
      if |log| > 1 {
        var used := |AttemptReadings(log[0])|;
        MeasuredLogTail(log, outcomes, clock, start, timeout, slots);
        MeasuredLogIsUnique(log[1..], outcomes[1..], clock[used..], start, timeout, slots - 1);
      }
      MeasuredLogStep(log, outcomes, clock, start, timeout, slots);
    }
  }

  /** One step of the uniqueness argument: with its first attempt fixed, a measured log
      is the loop's log as soon as its tail (when it has one) is. */
  lemma MeasuredLogStep(log: seq<Attempt>, outcomes: seq<Outcome>,
                        clock: seq<real>, start: real, timeout: real, slots: nat)
    requires 0 < slots <= |outcomes| && 3 * slots <= |clock|
    requires IsMeasuredLog(log, outcomes, clock, start, timeout, slots)
    requires log[0] == Attempted(outcomes[0] == Returned, clock)
    requires |log| > 1 ==>
               && |AttemptReadings(log[0])| <= |clock|
               && log[1..] == MeasuredLoop(outcomes[1..], clock[|AttemptReadings(log[0])|..], start, timeout, slots - 1)
    ensures log == MeasuredLoop(outcomes, clock, start, timeout, slots)
  {
  }

  /** The first attempt of a measured log is fixed by the first outcome and the clock. */
  lemma FirstAttemptIsDetermined(log: seq<Attempt>, outcomes: seq<Outcome>,
                                 clock: seq<real>, start: real, timeout: real, slots: nat)
    requires 0 < slots <= |outcomes| && 3 * slots <= |clock|
    requires IsMeasuredLog(log, outcomes, clock, start, timeout, slots)
    ensures log[0] == Attempted(outcomes[0] == Returned, clock)
  {
  }

  /** Past an attempt that found the time within budget, the rest of a measured log is
      a measured log of the rest of the traces. */
  lemma MeasuredLogTail(log: seq<Attempt>, outcomes: seq<Outcome>,
                        clock: seq<real>, start: real, timeout: real, slots: nat)
    requires 0 < slots <= |outcomes|
    requires IsMeasuredLog(log, outcomes, clock, start, timeout, slots)
    requires |log| > 1
    ensures |AttemptReadings(log[0])| <= |clock|
    ensures IsMeasuredLog(log[1..], outcomes[1..], clock[|AttemptReadings(log[0])|..], start, timeout, slots - 1)
  {
    var used := |AttemptReadings(log[0])|;
    var tail := log[1..];
    var r := |Readings(log)|;
    assert Readings(log) == AttemptReadings(log[0]) + Readings(tail);
    assert Readings(tail) == Readings(log)[used..];
    assert clock[..r][used..] == clock[used..][..|Readings(tail)|];
    assert forall k :: 0 <= k < |tail| ==> tail[k] == log[k + 1];
  }

  /** The attempts of the measured loop: warm-up first consumes its calls, then the
      loop runs on the remaining outcomes and on the clock after the start reading. */
  function MeasuredPhase(s: Settings, env: Env): (log: seq<Attempt>)
    requires Covers(env, s)
    ensures |Readings(log)| + 2 <= |env.clock|
  {
    MeasuredLoop(Warmup(env.outcomes, Warmups(s)), env.clock[1..], env.clock[0], s.timeout, Slots(s))
  }

  /** The measured phase is the measured log of the traces past warm-up and the start
      reading. */
  lemma MeasuredPhaseIsMeasuredLog(s: Settings, env: Env)
    requires Covers(env, s)
    ensures IsMeasuredLog(MeasuredPhase(s, env), env.outcomes[Warmups(s)..], env.clock[1..], env.clock[0],
                          s.timeout, Slots(s))
  {
    MeasuredLoopIsMeasuredLog(env.outcomes[Warmups(s)..], env.clock[1..], env.clock[0], s.timeout, Slots(s));
  }

  /** The calls the measured loop made, in order. */
  function MeasuredOutcomes(s: Settings, env: Env): (m: seq<Outcome>)
    requires Covers(env, s)
    ensures |m| == |MeasuredPhase(s, env)|
  {
    env.outcomes[Warmups(s)..][..|MeasuredPhase(s, env)|]
  }

  /** The clock reading taken after the loop (`endTime`, line 62). */
  function EndReading(s: Settings, env: Env): real
    requires Covers(env, s)
  {
    env.clock[1 + |Readings(MeasuredPhase(s, env))|]
  }

  /** The end of `benchmark` (lines 65-92): no recorded duration is an error naming the
      benchmark; otherwise the result counts the durations, carries their extremes and
      their mean, the run's duration and the memory reading if there is one. */
  function Report(name: string, durations: seq<real>, duration: real, memoryUsage: Option<int>)
    : (r: Result<BenchmarkResult, BenchmarkError>)
    ensures r.Failure? <==> durations == []
    ensures r.Failure? ==> r.error == NoSuccessfulIterations(name)
    ensures r.Success? ==>
      && r.value.name == name
      && r.value.iterations == |durations|
      && r.value.duration == duration
      && r.value.memoryUsage == memoryUsage
      && r.value.minTime in durations && (forall d :: d in durations ==> r.value.minTime <= d)
      && r.value.maxTime in durations && (forall d :: d in durations ==> d <= r.value.maxTime)
      && r.value.averageTime == Mean(durations)
      && r.value.minTime <= r.value.averageTime <= r.value.maxTime
  {
    if |durations| == 0 then
      Failure(NoSuccessfulIterations(name))
    else
      var stats := Summarize(durations);
      Success(BenchmarkResult(
        name, duration, |durations|, stats.averageTime, stats.minTime, stats.maxTime, memoryUsage))
  }

  /** `benchmark(name, fn, options)` once the options are resolved: the measured phase,
      then the report on what it recorded, the time from the start reading to the end
      reading, and the heap reading when memory tracking is on. */
  function Run(name: string, s: Settings, env: Env): Result<BenchmarkResult, BenchmarkError>
    requires Covers(env, s)
  {
    Report(name, Durations(MeasuredPhase(s, env)), EndReading(s, env) - env.clock[0],
           if s.memoryTracking then env.heap else None)
  }
}
