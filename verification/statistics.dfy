/** The statistics step of `benchmark` (src/utils/benchmark.ts:69-73): the recorded
    durations are sorted ascending, the extremes are read off the ends of the sorted
    array and the mean is its sum divided by its length. Durations are real numbers
    here; the source's floating-point rounding is not modelled. */
module Statistics {
  import opened Sorting

  /** The identity key: durations are sorted by their own value (`(a, b) => a - b`). */
  function Itself(d: real): real { d }

  /** `reduce((sum, time) => sum + time, 0)`: a left fold from zero. */
  function Sum(s: seq<real>): real {
    if s == [] then 0.0 else Sum(s[..|s| - 1]) + s[|s| - 1]
  }

  /** Arithmetic mean of a non-empty sequence. */
  function Mean(s: seq<real>): real
    requires s != []
  {
    Sum(s) / (|s| as real)
  }

  /** Summary of the recorded durations. */
  datatype Summary = Summary(minTime: real, maxTime: real, averageTime: real)

  /** Sorts the durations, takes the first and the last, and averages the sorted copy.
      The result is the true minimum, maximum and mean of the input: the sort moves
      values around but does not change the mean. */
  function Summarize(durations: seq<real>): (s: Summary)
    requires durations != []
    ensures s.minTime in durations && forall d :: d in durations ==> s.minTime <= d
    ensures s.maxTime in durations && forall d :: d in durations ==> d <= s.maxTime
    ensures s.averageTime == Mean(durations)
    ensures s.minTime <= s.averageTime <= s.maxTime
  {
    var sorted := SortBy(durations, Itself);
    SortBySorted(durations, Itself);
    SortedFirstIsLeast(durations, Itself);
    SortedLastIsGreatest(durations, Itself);
    assert sorted[0] in multiset(sorted);
    assert sorted[|sorted| - 1] in multiset(sorted);
    SumSortBy(durations, Itself);
    MeanBetweenExtremes(durations, sorted[0], sorted[|sorted| - 1]);
    Summary(sorted[0], sorted[|sorted| - 1], Sum(sorted) / (|sorted| as real))
  }

  /** Summing is the same from the front: `Sum([x] + s) == x + Sum(s)`. */
  lemma {:induction false} SumCons(x: real, s: seq<real>)
    ensures Sum([x] + s) == x + Sum(s)
  {
    if s != [] {
      var t := [x] + s;
      assert t[..|t| - 1] == [x] + s[..|s| - 1];
      SumCons(x, s[..|s| - 1]);
    }
  }

  /** The sum of a concatenation is the sum of the sums. */
  lemma {:induction false} SumAppend(a: seq<real>, b: seq<real>)
    ensures Sum(a + b) == Sum(a) + Sum(b)
  {
    if b == [] {
      assert a + b == a;
    } else {
      assert (a + b)[..|a + b| - 1] == a + b[..|b| - 1];
      SumAppend(a, b[..|b| - 1]);
    }
  }

  /** Inserting a duration adds it to the sum, wherever it lands. */
  lemma {:induction false} SumInsertBy(x: real, s: seq<real>, key: real -> real)
    ensures Sum(InsertBy(x, s, key)) == x + Sum(s)
  {
    if s == [] {
      assert [x] == [x] + [];
      SumCons(x, []);
    } else if key(x) <= key(s[0]) {
      SumCons(x, s);
    } else {
      var tail := InsertBy(x, s[1..], key);
      SumInsertBy(x, s[1..], key);
      SumCons(s[0], tail);
      SumCons(s[0], s[1..]);
      assert s == [s[0]] + s[1..];
    }
  }

  /** Sorting does not change the sum (the source sorts `results` in place and then
      reduces it). */
  lemma {:induction false} SumSortBy(s: seq<real>, key: real -> real)
    ensures Sum(SortBy(s, key)) == Sum(s)
  {
    if s != [] {
      SumSortBy(s[1..], key);
      SumInsertBy(s[0], SortBy(s[1..], key), key);
      SumCons(s[0], s[1..]);
      assert s == [s[0]] + s[1..];
    }
  }

  /** A sum of values between `lo` and `hi` lies between `|s| * lo` and `|s| * hi`. */
  lemma {:induction false} SumBounds(s: seq<real>, lo: real, hi: real)
    requires forall d :: d in s ==> lo <= d <= hi
    ensures (|s| as real) * lo <= Sum(s) <= (|s| as real) * hi
  {
    if s != [] {
      var init := s[..|s| - 1];
      assert forall d :: d in init ==> d in s;
      assert s[|s| - 1] in s;
      SumBounds(init, lo, hi);
    }
  }

  /** The mean lies between any lower and upper bound of the values. */
  lemma MeanBetweenExtremes(s: seq<real>, lo: real, hi: real)
    requires s != []
    requires forall d :: d in s ==> lo <= d <= hi
    ensures lo <= Mean(s) <= hi
  {
    SumBounds(s, lo, hi);
    var n := |s| as real;
    assert n * lo <= Sum(s) <= n * hi;
    assert 0.0 < n;
    assert Mean(s) - lo == (Sum(s) - n * lo) / n;
    assert hi - Mean(s) == (n * hi - Sum(s)) / n;
  }

  /** Among non-negative values, each is at most their sum. */
  lemma {:induction false} ElementAtMostSum(s: seq<real>, x: real)
    requires forall d :: d in s ==> 0.0 <= d
    requires x in s
    ensures x <= Sum(s)
  {
    var init := s[..|s| - 1];
    assert forall d :: d in init ==> d in s;
    if x == s[|s| - 1] {
      SumNonNegative(init);
    } else {
      assert x in init;
      ElementAtMostSum(init, x);
      assert s[|s| - 1] in s;
    }
  }

  lemma {:induction false} SumNonNegative(s: seq<real>)
    requires forall d :: d in s ==> 0.0 <= d
    ensures 0.0 <= Sum(s)
  {
    if s != [] {
      var init := s[..|s| - 1];
      assert forall d :: d in init ==> d in s;
      assert s[|s| - 1] in s;
      SumNonNegative(init);
    }
  }
}
