# Benchmark runner model

A Dafny model of the benchmark runner in `src/utils/benchmark.ts`. The model covers:

- the `benchmark(name, fn, options)` entry point:
  - options defaulting;
  - the warm-up loop;
  - the measured loop with its timeout check;
  - the "no successful iterations" error;
  - the statistics over the recorded durations;
  - the optional memory sample;
- the sorted copy that `compareBenchmarks` makes of a list of results.

The runner is a pure function of its environment (`Runner.Env`). The environment has three parts:

- **outcomes**: the outcome of every call of `fn`, `Threw` or `Returned`, warm-up calls first;
- **clock**: the readings `performance.now()` returns, in the order the code takes them:
  1. the start reading;
  2. for each measured attempt, a reading before the call, a reading after the call (only when the call returned), and the reading for the timeout check;
  3. the end reading;
- **heap**: the heap size `performance.memory` reports, if it is available.

The model is built in layers:

- `Runner.MeasuredLoop` is the measured loop written as a fold.
- `Runner.IsMeasuredLog` describes the same loop without running it. Two lemmas connect the fold and the description in both directions:
  - `Runner.MeasuredLoopIsMeasuredLog`: the fold meets the description;
  - `Runner.MeasuredLogIsUnique`: any log that meets the description is the fold's result.
- `Runner.Run` is the whole call. `RunnerProperties.RunOutcome` states what a run produces.
- `RunnerLoop.RunBenchmark` follows the source loop by loop, with the same variables and the same `break`. It is proved to compute exactly `Runner.Run`.
- The statistics sort a copy of the durations with a stable insertion sort (`Sorting.SortBy`). They then read the extremes off the ends and divide the left-fold sum by the count. `Statistics.Summarize` proves that these are the true minimum, maximum and mean.
- The same sort, keyed by `averageTime`, models `compareBenchmarks`.

Modules:

| module | file | what it holds |
|---|---|---|
| `Results` | results.dfy | `Option` and `Result` |
| `Options` | options.dfy | options, defaults, settings |
| `Sorting` | sorting.dfy | stable sort by a real key |
| `Statistics` | statistics.dfy | sum, mean, `Summarize` |
| `Trace` | trace.dfy | attempts, readings, recorded durations |
| `Runner` | runner.dfy | the pure runner |
| `RunnerProperties` | runner_properties.dfy | what whole runs guarantee |
| `RunnerLoop` | runner_loop.dfy | the loop-by-loop runner |
| `Compare` | compare.dfy | `compareBenchmarks` ordering |

Two behaviours of the code are worth stating because a reader might expect otherwise. The model follows the code in both:

- **No option validation.** The options are not checked. With `iterations <= 0` the measured loop runs no times, and the call throws the "no successful iterations" error after warm-up has run (src/utils/benchmark.ts:45, 65-67).
- **Timeout start.** The timeout is measured from `startTime`, which is read before warm-up, so time spent in warm-up counts against it (src/utils/benchmark.ts:32, 57).

## Model

| member | source | states |
|---|---|---|
| Options.Resolve | src/utils/benchmark.ts:30 | each option the caller gave is kept; each missing one takes its default (1000 iterations, 100 warm-up calls, 30000 ms, no memory tracking) |
| Options.ResolveExplicit | src/utils/benchmark.ts:30 | options that spell out every setting resolve back to exactly those settings |
| Options.ResolveNoOptions | src/utils/benchmark.ts:28-30 | a call without options runs with settings (1000, 100, 30000, false) |
| Runner.Warmup | src/utils/benchmark.ts:36-42 | warm-up consumes exactly its calls, whatever their outcomes; the measured loop sees the outcomes after them |
| Runner.Attempted | src/utils/benchmark.ts:46-57 | an attempt reads the clock in order: start, end only when the call completed, then the check |
| Runner.MeasuredLoop | src/utils/benchmark.ts:45-60 | the loop never makes more attempts than it has slots |
| Runner.MeasuredLoopIsMeasuredLog | src/utils/benchmark.ts:45-60 | the loop's attempts read the clock in order and match the calls one by one; every check but the last is within budget; it stops before its slots run out only when a check exceeds the budget; it always makes at least one attempt when it has a slot |
| Runner.MeasuredLogIsUnique | src/utils/benchmark.ts:45-60 | any log that meets that description is the loop's log, so the description fixes the loop completely |
| Runner.MeasuredPhase | src/utils/benchmark.ts:32-62 | the loop's readings leave room for the start reading and the end reading on the clock |
| Runner.MeasuredPhaseIsMeasuredLog | src/utils/benchmark.ts:32-60 | after warm-up, the measured attempts form the measured log of the remaining outcomes, timed from the reading taken before warm-up |
| Runner.MeasuredOutcomes | src/utils/benchmark.ts:45-49 | the measured calls are exactly one per attempt |
| Runner.Report | src/utils/benchmark.ts:65-92 | error iff nothing was recorded, and the error names the benchmark; otherwise the name, the count of durations, the duration and the memory sample; min and max are recorded durations bounding all the others; the average is their mean, between min and max |
| Runner.MessageNamesBenchmark | src/utils/benchmark.ts:66 | the error message contains the benchmark's name |
| RunnerProperties.RunOutcome | src/utils/benchmark.ts:25-93 | the run fails iff no measured call completed (always when `iterations <= 0`), with the error naming it; on success: `iterations` is the number of completed measured calls, between 1 and the requested count; min, max and average are the extremes and the mean of the recorded durations; the duration runs from the start reading to the end reading; a memory sample is present only when tracking is on and the heap reading exists |
| RunnerProperties.AtLeastOneAttempt | src/utils/benchmark.ts:45-59 | with `iterations >= 1` at least one measured attempt is made, even when warm-up used up the budget |
| RunnerProperties.InBudgetContinues | src/utils/benchmark.ts:56-59 | an attempt whose check is within budget, whether it completed or threw, is followed by another while slots remain |
| RunnerProperties.AllThrowingFails | src/utils/benchmark.ts:48-67 | if every measured call throws, the run fails with the error for that benchmark |
| RunnerProperties.WarmupLeavesNoTrace | src/utils/benchmark.ts:36-42 | changing the outcomes of the warm-up calls does not change the result |
| RunnerProperties.PhaseIgnoresWarmup | src/utils/benchmark.ts:36-45 | the measured attempts and the end reading depend only on the outcomes after warm-up |
| RunnerProperties.WithinBudgetRecordsAll | src/utils/benchmark.ts:45-60 | when every reading is within budget and every measured call completes, the result records exactly the requested number of iterations |
| RunnerProperties.WarmupSpendsBudget | src/utils/benchmark.ts:32-58 | when the clock never runs backwards and the first reading after warm-up is already over budget, the loop makes exactly one attempt and records at most one iteration |
| RunnerProperties.PhaseReadingsInOrder | src/utils/benchmark.ts:46-62 | on a clock that never runs backwards, the loop's readings are in order and lie between the start reading and the end reading |
| RunnerProperties.DurationCoversMeasurements | src/utils/benchmark.ts:62-73 | on a clock that never runs backwards, min is non-negative, and the total duration is at least the sum of the recorded durations and at least max |
| Trace.DurationsCountCompleted | src/utils/benchmark.ts:48-54 | one duration is recorded per completed call, no more and no fewer |
| Trace.NoneCompletedNoneRecorded | src/utils/benchmark.ts:52-54 | calls that threw record nothing |
| Trace.DurationsWithinReadings | src/utils/benchmark.ts:46-51 | read off an ordered clock, durations are non-negative and their sum fits between the first and the last reading |
| Trace.LastReadingIsLastCheck | src/utils/benchmark.ts:57 | the last reading of the loop is the last timeout check |
| Statistics.Summarize | src/utils/benchmark.ts:70-73 | min is a recorded duration no larger than any other; max is one no smaller than any other; the average is the mean, between them |
| Statistics.SumSortBy | src/utils/benchmark.ts:70-73 | sorting in place before the reduce leaves the sum unchanged |
| Statistics.MeanBetweenExtremes | src/utils/benchmark.ts:73 | the mean lies between any lower and upper bound of the values |
| Statistics.ElementAtMostSum | src/utils/benchmark.ts:72-73 | among non-negative durations, each one is at most their sum |
| Sorting.InsertBySorted | src/utils/benchmark.ts:70 | inserting into a sorted sequence keeps it sorted and adds exactly the inserted element |
| Sorting.SortBySorted | src/utils/benchmark.ts:70 | the sort returns a sorted permutation of its input |
| Sorting.SortByStable | src/utils/benchmark.ts:100 | elements with equal keys keep their relative order |
| Sorting.SortBySortedIsIdentity | src/utils/benchmark.ts:100 | sorting a sorted sequence changes nothing |
| Sorting.SortedFirstIsLeast | src/utils/benchmark.ts:71 | the first element of the sorted copy has the least key |
| Sorting.SortedLastIsGreatest | src/utils/benchmark.ts:72 | the last element of the sorted copy has the greatest key |
| Compare.CompareBenchmarks | src/utils/benchmark.ts:100 | the copy is a permutation of the results, ordered by `averageTime` ascending, with results of equal mean in the caller's order |
| Compare.CompareSortedIsIdentity | src/utils/benchmark.ts:100 | results already in order come back unchanged |
| Compare.CompareIsIdempotent | src/utils/benchmark.ts:100 | sorting the sorted copy again changes nothing |
| Compare.CompareExample | src/utils/benchmark.ts:100 | results with means 5, 2 and 8 come back in the order 2, 5, 8 |
| RunnerLoop.RunBenchmark | src/utils/benchmark.ts:25-93 | the loop-by-loop runner returns exactly the pure runner's result for the resolved options |
| RunnerLoop.RunLoops | src/utils/benchmark.ts:32-62 | the warm-up and measured loops record the durations of the measured phase and end on its end reading |
| RunnerLoop.RunWarmup | src/utils/benchmark.ts:36-42 | the warm-up loop makes `warmupIterations` calls, or none when that is not positive |
| RunnerLoop.RunMeasured | src/utils/benchmark.ts:45-60 | the measured loop with its `break` records the durations of the pure loop and takes exactly its readings |
| RunnerLoop.RunAttempt | src/utils/benchmark.ts:46-57 | one pass of the loop body reads the clock as an attempt does and advances by the readings it took |
| RunnerLoop.RunReport | src/utils/benchmark.ts:65-92 | the end of the call produces the report on the recorded durations, with the memory sample only when tracking is on and a heap reading exists |
| RunnerLoop.RunStatistics | src/utils/benchmark.ts:70-73 | sorting, reading the ends and reducing the sorted array give the summary of the durations |

## Left out

- Floating-point arithmetic. Durations, sums and means are real numbers. The source's rounding is not modelled, and neither is the fact that summing the sorted array can round differently from summing the unsorted one.
- Fractional, `NaN` or infinite `iterations`, `warmupIterations` and `timeout`. The iteration counts are integers and the timeout is a real number.
- Promise and `async` scheduling. Each call of `fn` is awaited before the next, so only its outcome matters, and an outcome is all the model keeps of a call.
- The clock and `fn` are given as finite traces (`Runner.Env`). `Runner.Covers` requires the traces to be long enough for the worst case: one outcome per warm-up call and per slot, and three readings per slot plus the start and end readings.
- Warm-up reads no clock in the source. Its cost shows only as the gap between the start reading and the first measured reading.
- The `'memory' in performance` probe is given as an optional heap reading in the environment.
- The rank and improvement figures in `compareBenchmarks` are commented out, and the function returns nothing. The model returns the sorted copy it builds.
- `benchmarkHashing`, `benchmarkSourceLoading` and `runAllBenchmarks` (src/utils/benchmark.ts:115-234). They import modules that are not part of this model and only pass option literals to `benchmark`.
- `measureTime` and `profileMemory` (src/utils/benchmark.ts:239-254). They only pass through to `fn()`.
- The Selenium example scripts. They are browser automation with no logic of their own.
