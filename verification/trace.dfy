/** The environment of one `benchmark` call, made explicit. The operation `fn` becomes
    a trace of outcomes, one per call; `performance.now()` becomes a trace of clock
    readings, one per call, consumed in program order. A measured attempt is recorded
    as the readings it took. */
module Trace {
  import opened Results
  import opened Statistics

  /** What one call of `fn()` does: throw (or reject), or complete. */
  datatype Outcome = Threw | Returned

  /** One measured attempt: the reading before the call (`iterStart`), the reading after
      it when it completed (`iterEnd`, absent when it threw), and the reading taken for
      the timeout check. */
  datatype Attempt = Attempt(iterStart: real, iterEnd: Option<real>, check: real)

  /** A clock that never runs backwards, as `performance.now()` promises. */
  ghost predicate Monotone(clock: seq<real>) {
    forall i, j :: 0 <= i <= j < |clock| ==> clock[i] <= clock[j]
  }

  /** The clock readings one attempt took, in the order it took them. */
  function AttemptReadings(a: Attempt): (r: seq<real>)
    ensures 2 <= |r| <= 3
    ensures r[0] == a.iterStart && r[|r| - 1] == a.check
  {
    [a.iterStart] + (if a.iterEnd.Some? then [a.iterEnd.value] else []) + [a.check]
  }

  /** The clock readings a sequence of attempts took, in order. */
  function Readings(log: seq<Attempt>): (r: seq<real>)
    ensures 2 * |log| <= |r| <= 3 * |log|
  {
    if log == [] then [] else AttemptReadings(log[0]) + Readings(log[1..])
  }

  /** What one attempt records: its duration `iterEnd - iterStart` when the call
      completed, nothing when it threw. */
  function Recorded(a: Attempt): (r: seq<real>)
    ensures |r| <= 1
  {
    if a.iterEnd.Some? then [a.iterEnd.value - a.iterStart] else []
  }

  /** The duration of each completed attempt (`iterEnd - iterStart`), in order;
      attempts that threw contribute nothing. */
  function Durations(log: seq<Attempt>): (r: seq<real>)
    ensures |r| <= |log|
  {
    if log == [] then []
    else
      Recorded(log[0]) + Durations(log[1..])
  }

  /** How many calls in `outcomes` completed. */
  function CountReturned(outcomes: seq<Outcome>): (n: nat)
    ensures n <= |outcomes|
  {
    if outcomes == [] then 0
    else (if outcomes[0] == Returned then 1 else 0) + CountReturned(outcomes[1..])
  }

  /** The attempts in `log` correspond one by one to the calls in `outcomes`: an
      attempt has an end reading exactly when its call completed. */
  ghost predicate Matches(log: seq<Attempt>, outcomes: seq<Outcome>) {
    |log| <= |outcomes|
    && forall k :: 0 <= k < |log| ==> (log[k].iterEnd.Some? <==> outcomes[k] == Returned)
  }

  /** An attempt that matches the next call extends a matching log. */
  lemma MatchesSnoc(log: seq<Attempt>, a: Attempt, outcomes: seq<Outcome>)
    requires Matches(log, outcomes) && |log| < |outcomes|
    requires a.iterEnd.Some? <==> outcomes[|log|] == Returned
    ensures Matches(log + [a], outcomes)
  {
    var log' := log + [a];
    forall k | 0 <= k < |log'|
      ensures log'[k].iterEnd.Some? <==> outcomes[k] == Returned
    {
      if k < |log| {
        assert log'[k] == log[k];
      }
    }
  }

  /** One duration is recorded per completed call, no more and no less. */
  lemma {:induction false} DurationsCountCompleted(log: seq<Attempt>, outcomes: seq<Outcome>)
    requires Matches(log, outcomes)
    ensures |Durations(log)| == CountReturned(outcomes[..|log|])
  {
    if log != [] {
      assert outcomes[..|log|][1..] == outcomes[1..][..|log| - 1];
      DurationsCountCompleted(log[1..], outcomes[1..]);
    }
  }

  /** Without a completed call nothing is recorded. */
  lemma {:induction false} NoneCompletedNoneRecorded(log: seq<Attempt>, outcomes: seq<Outcome>)
    requires Matches(log, outcomes)
    requires forall k :: 0 <= k < |outcomes| ==> outcomes[k] == Threw
    ensures Durations(log) == []
  {
    if log != [] {
      NoneCompletedNoneRecorded(log[1..], outcomes[1..]);
    }
  }

  lemma {:induction false} ReadingsAppend(a: seq<Attempt>, b: seq<Attempt>)
    ensures Readings(a + b) == Readings(a) + Readings(b)
  {
    if a != [] {
      assert (a + b)[1..] == a[1..] + b;
      ReadingsAppend(a[1..], b);
    } else {
      assert a + b == b;
    }
  }

  /** One more attempt adds its readings at the end. */
  lemma ReadingsSnoc(log: seq<Attempt>, a: Attempt)
    ensures Readings(log + [a]) == Readings(log) + AttemptReadings(a)
  {
    ReadingsAppend(log, [a]);
    assert [a][1..] == [];
  }

  /** One more attempt adds what it recorded at the end. */
  lemma DurationsSnoc(log: seq<Attempt>, a: Attempt)
    ensures Durations(log + [a]) == Durations(log) + Recorded(a)
  {
    DurationsAppend(log, [a]);
    assert [a][1..] == [];
  }

  lemma {:induction false} DurationsAppend(a: seq<Attempt>, b: seq<Attempt>)
    ensures Durations(a + b) == Durations(a) + Durations(b)
  {
    if a != [] {
      assert (a + b)[1..] == a[1..] + b;
      DurationsAppend(a[1..], b);
    } else {
      assert a + b == b;
    }
  }

  /** Read off a clock that never runs backwards, every recorded duration is
      non-negative and together they fit between the first and last readings. */
  lemma {:induction false} DurationsWithinReadings(log: seq<Attempt>)
    requires Monotone(Readings(log))
    ensures forall d :: d in Durations(log) ==> 0.0 <= d
    ensures log != [] ==> Sum(Durations(log)) <= Last(Readings(log)) - Readings(log)[0]
  {
    if log != [] {
      var head := AttemptReadings(log[0]);
      var rest := Readings(log[1..]);
      assert Readings(log) == head + rest;
      MonotoneParts(head, rest);
      DurationsWithinReadings(log[1..]);
      RecordedWithinAttempt(log[0]);
      var mine := Recorded(log[0]);
      assert Durations(log) == mine + Durations(log[1..]);
      SumAppend(mine, Durations(log[1..]));
    }
  }

  /** What one attempt records lies within its own readings. */
  lemma RecordedWithinAttempt(a: Attempt)
    requires Monotone(AttemptReadings(a))
    ensures forall d :: d in Recorded(a) ==> 0.0 <= d
    ensures Sum(Recorded(a)) <= a.check - a.iterStart
  {
    var r := AttemptReadings(a);
    if a.iterEnd.Some? {
      assert r[0] <= r[1] <= r[2];
      assert Recorded(a) == [a.iterEnd.value - a.iterStart];
      assert Sum(Recorded(a)) == Sum([]) + (a.iterEnd.value - a.iterStart);
    } else {
      assert r[0] <= r[1];
    }
  }

  /** Both halves of an ordered sequence are ordered, and the first half ends no later
      than the second begins. */
  lemma MonotoneParts(head: seq<real>, rest: seq<real>)
    requires head != []
    requires Monotone(head + rest)
    ensures Monotone(head) && Monotone(rest)
    ensures rest != [] ==> Last(head) <= rest[0] && Last(head + rest) == Last(rest)
    ensures rest == [] ==> Last(head + rest) == Last(head)
    ensures (head + rest)[0] == head[0]
  {
    var s := head + rest;
    forall i, j | 0 <= i <= j < |head|
      ensures head[i] <= head[j]
    {
      assert s[i] == head[i] && s[j] == head[j];
    }
    forall i, j | 0 <= i <= j < |rest|
      ensures rest[i] <= rest[j]
    {
      assert s[|head| + i] == rest[i] && s[|head| + j] == rest[j];
    }
    if rest != [] {
      assert s[|head| - 1] == Last(head) && s[|head|] == rest[0];
    }
  }

  function Last(s: seq<real>): real
    requires s != []
  {
    s[|s| - 1]
  }


  /** The last reading a sequence of attempts took is the last attempt's timeout check. */
  lemma {:induction false} LastReadingIsLastCheck(log: seq<Attempt>)
    requires log != []
    ensures Last(Readings(log)) == log[|log| - 1].check
  {
    assert Readings(log) == AttemptReadings(log[0]) + Readings(log[1..]);
    if |log| > 1 {
      LastReadingIsLastCheck(log[1..]);
    }
  }
}
