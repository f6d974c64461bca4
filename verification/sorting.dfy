/** A stable sort by a real-valued key, the model of `Array.prototype.sort` with a
    numeric comparator `(a, b) => key(a) - key(b)` (stable since ECMAScript 2019).
    It is used twice by the benchmark utilities: on the recorded durations and on
    benchmark results ordered by their mean time. */
module Sorting {

  /** Ordered by `key`, ascending. */
  ghost predicate SortedBy<T>(s: seq<T>, key: T -> real) {
    forall i, j :: 0 <= i <= j < |s| ==> key(s[i]) <= key(s[j])
  }

  /** The elements of `s` whose key equals `k`, in their order in `s`.
      A sort is stable exactly when it keeps every such subsequence. */
  function WithKey<T>(s: seq<T>, key: T -> real, k: real): (r: seq<T>)
    ensures |r| <= |s|
    ensures forall x :: x in r ==> x in s && key(x) == k
  {
    if s == [] then []
    else (if key(s[0]) == k then [s[0]] else []) + WithKey(s[1..], key, k)
  }

  /** Inserts `x` before the first element whose key is not smaller than its own,
      so that `x` stays ahead of the elements it ties with. */
  function InsertBy<T>(x: T, s: seq<T>, key: T -> real): (r: seq<T>)
    ensures |r| == |s| + 1
  {
    if s == [] then [x]
    else if key(x) <= key(s[0]) then [x] + s
    else [s[0]] + InsertBy(x, s[1..], key)
  }

  /** Inserting into a sorted sequence keeps it sorted and adds exactly `x`. */
  lemma {:induction false} InsertBySorted<T>(x: T, s: seq<T>, key: T -> real)
    requires SortedBy(s, key)
    ensures SortedBy(InsertBy(x, s, key), key)
    ensures multiset(InsertBy(x, s, key)) == multiset(s) + multiset{x}
  {
    if s != [] && key(s[0]) < key(x) {
      var tail := InsertBy(x, s[1..], key);
      assert SortedBy(s[1..], key);
      InsertBySorted(x, s[1..], key);
      assert s == [s[0]] + s[1..];
      HeadBelowInsert(x, s, key, tail);
      assert InsertBy(x, s, key) == [s[0]] + tail;
    }
  }

  /** The head of a sorted `s` is no greater than anything in `s[1..]` with `x` inserted,
      when `x` itself lies above that head. */
  lemma HeadBelowInsert<T>(x: T, s: seq<T>, key: T -> real, tail: seq<T>)
    requires SortedBy(s, key) && s != [] && key(s[0]) < key(x)
    requires multiset(tail) == multiset(s[1..]) + multiset{x}
    ensures forall i :: 0 <= i < |tail| ==> key(s[0]) <= key(tail[i])
  {
    forall i | 0 <= i < |tail|
      ensures key(s[0]) <= key(tail[i])
    {
      assert tail[i] in multiset(tail);
      if tail[i] != x {
        assert tail[i] in multiset(s[1..]);
        var j :| 0 <= j < |s[1..]| && s[1..][j] == tail[i];
        assert s[j + 1] == tail[i];
      }
    }
  }

  /** Insertion sort: the sorted copy of `s`. */
  function SortBy<T>(s: seq<T>, key: T -> real): (r: seq<T>)
    ensures |r| == |s|
  {
    if s == [] then [] else InsertBy(s[0], SortBy(s[1..], key), key)
  }

  /** The sort returns a sorted permutation of its input. */
  lemma {:induction false} SortBySorted<T>(s: seq<T>, key: T -> real)
    ensures SortedBy(SortBy(s, key), key)
    ensures multiset(SortBy(s, key)) == multiset(s)
  {
    if s != [] {
      SortBySorted(s[1..], key);
      InsertBySorted(s[0], SortBy(s[1..], key), key);
      assert s == [s[0]] + s[1..];
    }
  }

  /** Inserting `x` adds `x` in front of the elements it ties with and leaves
      every other key's subsequence alone. */
  lemma {:induction false} InsertByStable<T>(x: T, s: seq<T>, key: T -> real, k: real)
    ensures WithKey(InsertBy(x, s, key), key, k)
         == (if key(x) == k then [x] else []) + WithKey(s, key, k)
  {
    if s == [] {
    } else if key(x) <= key(s[0]) {
      assert ([x] + s)[1..] == s;
    } else {
      var tail := InsertBy(x, s[1..], key);
      InsertByStable(x, s[1..], key, k);
      assert ([s[0]] + tail)[1..] == tail;
    }
  }

  /** The sort is stable: for every key value, the elements carrying it appear
      in the output in the same order as in the input. */
  lemma {:induction false} SortByStable<T>(s: seq<T>, key: T -> real, k: real)
    ensures WithKey(SortBy(s, key), key, k) == WithKey(s, key, k)
  {
    if s != [] {
      SortByStable(s[1..], key, k);
      InsertByStable(s[0], SortBy(s[1..], key), key, k);
    }
  }

  /** Sorting an already sorted sequence returns it unchanged. */
  lemma {:induction false} SortBySortedIsIdentity<T>(s: seq<T>, key: T -> real)
    requires SortedBy(s, key)
    ensures SortBy(s, key) == s
  {
    if s != [] {
      assert SortedBy(s[1..], key);
      SortBySortedIsIdentity(s[1..], key);
      assert s == [s[0]] + s[1..];
    }
  }

  /** The first element of a sorted permutation has the least key of all. */
  lemma SortedFirstIsLeast<T>(s: seq<T>, key: T -> real)
    requires s != []
    ensures forall x :: x in s ==> key(SortBy(s, key)[0]) <= key(x)
  {
    var r := SortBy(s, key);
    SortBySorted(s, key);
    forall x | x in s
      ensures key(r[0]) <= key(x)
    {
      assert x in multiset(r);
      var j :| 0 <= j < |r| && r[j] == x;
    }
  }

  /** The last element of a sorted permutation has the greatest key of all. */
  lemma SortedLastIsGreatest<T>(s: seq<T>, key: T -> real)
    requires s != []
    ensures forall x :: x in s ==> key(x) <= key(SortBy(s, key)[|s| - 1])
  {
    var r := SortBy(s, key);
    SortBySorted(s, key);
    forall x | x in s
      ensures key(x) <= key(r[|r| - 1])
    {
      assert x in multiset(r);
      var j :| 0 <= j < |r| && r[j] == x;
    }
  }
}
