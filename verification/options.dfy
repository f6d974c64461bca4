/** `BenchmarkOptions` and the defaults `benchmark` fills in when destructuring them
    (src/utils/benchmark.ts:15-20, 28-30). A field is absent when it is `undefined`. */
module Options {
  import opened Results

  datatype BenchmarkOptions = BenchmarkOptions(
    iterations: Option<int>,
    warmupIterations: Option<int>,
    timeout: Option<real>,
    memoryTracking: Option<bool>)

  /** The settings a run actually uses, every field present. */
  datatype Settings = Settings(iterations: int, warmupIterations: int, timeout: real, memoryTracking: bool)

  const DefaultIterations: int := 1000
  const DefaultWarmupIterations: int := 100
  const DefaultTimeout: real := 30000.0

  /** `options = {}`: the argument when the caller passes none. */
  const NoOptions: BenchmarkOptions := BenchmarkOptions(None, None, None, None)

  /** Every field the caller gave is kept and every field it left out takes its default. */
  function Resolve(o: BenchmarkOptions): (s: Settings)
    ensures o.iterations.Some? ==> s.iterations == o.iterations.value
    ensures o.iterations.None? ==> s.iterations == DefaultIterations
    ensures o.warmupIterations.Some? ==> s.warmupIterations == o.warmupIterations.value
    ensures o.warmupIterations.None? ==> s.warmupIterations == DefaultWarmupIterations
    ensures o.timeout.Some? ==> s.timeout == o.timeout.value
    ensures o.timeout.None? ==> s.timeout == DefaultTimeout
    ensures o.memoryTracking.Some? ==> s.memoryTracking == o.memoryTracking.value
    ensures o.memoryTracking.None? ==> !s.memoryTracking
  {
    Settings(
      o.iterations.GetOr(DefaultIterations),
      o.warmupIterations.GetOr(DefaultWarmupIterations),
      o.timeout.GetOr(DefaultTimeout),
      o.memoryTracking.GetOr(false))
  }

  /** The options that spell out every setting. */
  function Explicit(s: Settings): BenchmarkOptions {
    BenchmarkOptions(Some(s.iterations), Some(s.warmupIterations), Some(s.timeout), Some(s.memoryTracking))
  }

  /** Spelling out every setting leaves nothing to default: resolving gives them back. */
  lemma ResolveExplicit(s: Settings)
    ensures Resolve(Explicit(s)) == s
  {
  }

  /** A call without options runs 1000 measured attempts after 100 warm-up calls,
      with a 30000 ms budget and no memory sample. */
  lemma ResolveNoOptions()
    ensures Resolve(NoOptions) == Settings(1000, 100, 30000.0, false)
  {
  }

  /** The number of measured loop slots: `for (let i = 0; i < iterations; i++)` runs no
      times when `iterations <= 0`. */
  function Slots(s: Settings): nat
  {
    if s.iterations > 0 then s.iterations else 0
  }

  /** The number of warm-up calls, by the same loop shape. */
  function Warmups(s: Settings): nat
  {
    if s.warmupIterations > 0 then s.warmupIterations else 0
  }
}
