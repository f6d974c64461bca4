/** The ordering step of `compareBenchmarks` (src/utils/benchmark.ts:98-110): a copy of
    the results sorted by mean time, fastest first. */
module Compare {
  import opened Sorting
  import opened Runner
  import opened Results

  /** The sort key, `averageTime`. */
  function AverageTime(r: BenchmarkResult): real { r.averageTime }

  /** `[...results].sort((a, b) => a.averageTime - b.averageTime)`: the same results,
      fastest first, results with equal means in the caller's order. The caller's
      sequence is a value and is left as it was. */
  function CompareBenchmarks(results: seq<BenchmarkResult>): (sorted: seq<BenchmarkResult>)
    ensures multiset(sorted) == multiset(results)
    ensures forall i, j :: 0 <= i <= j < |sorted| ==> sorted[i].averageTime <= sorted[j].averageTime
    ensures forall t :: WithKey(sorted, AverageTime, t) == WithKey(results, AverageTime, t)
  {
    SortBySorted(results, AverageTime);
    SortByStableEverywhere(results, AverageTime);
    SortBy(results, AverageTime)
  }

  /** Stability for every key value at once. */
  lemma SortByStableEverywhere<T>(s: seq<T>, key: T -> real)
    ensures forall k :: WithKey(SortBy(s, key), key, k) == WithKey(s, key, k)
  {
    forall k
      ensures WithKey(SortBy(s, key), key, k) == WithKey(s, key, k)
    {
      SortByStable(s, key, k);
    }
  }

  /** Results already in order come back in the same order. */
  lemma CompareSortedIsIdentity(results: seq<BenchmarkResult>)
    requires forall i, j :: 0 <= i <= j < |results| ==> results[i].averageTime <= results[j].averageTime
    ensures CompareBenchmarks(results) == results
  {
    SortBySortedIsIdentity(results, AverageTime);
  }

  /** Sorting twice is sorting once. */
  lemma CompareIsIdempotent(results: seq<BenchmarkResult>)
    ensures CompareBenchmarks(CompareBenchmarks(results)) == CompareBenchmarks(results)
  {
    CompareSortedIsIdentity(CompareBenchmarks(results));
  }

  function WithMean(name: string, mean: real): BenchmarkResult {
    BenchmarkResult(name, mean, 1, mean, mean, mean, None)
  }

  /** Means 5, 2 and 8 come out as 2, 5, 8. */
  lemma CompareExample()
    ensures var a, b, c := WithMean("a", 5.0), WithMean("b", 2.0), WithMean("c", 8.0);
      CompareBenchmarks([a, b, c]) == [b, a, c]
  {
    var a, b, c := WithMean("a", 5.0), WithMean("b", 2.0), WithMean("c", 8.0);
    assert [a, b, c][1..] == [b, c];
    assert [b, c][1..] == [c];
    assert [c][1..] == [];
  }
}
