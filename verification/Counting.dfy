/** Counting arguments over sequences of distinct numbers. */
module Counting {

  ghost predicate Distinct<T>(s: seq<T>) {
    forall i, j :: 0 <= i < j < |s| ==> s[i] != s[j]
  }

  ghost function Below(n: nat): (r: set<nat>)
    ensures |r| == n
    ensures forall x: nat :: x in r <==> x < n
  {
    if n == 0 then {} else Below(n - 1) + {n - 1}
  }

  ghost function Elements<T(!new)>(s: seq<T>): (r: set<T>)
    ensures forall x :: x in r <==> x in s
  {
    if s == [] then {} else Elements(s[..|s| - 1]) + {s[|s| - 1]}
  }

  lemma {:induction false} DistinctCount<T(!new)>(s: seq<T>)
    requires Distinct(s)
    ensures |Elements(s)| == |s|
  {
    if s != [] {
      DistinctCount(s[..|s| - 1]);
      assert s[|s| - 1] !in s[..|s| - 1];
    }
  }

  lemma {:induction false} SubsetCount<T>(a: set<T>, b: set<T>)
    requires a <= b
    ensures |a| <= |b|
  {
    if a != {} {
      var x :| x in a;
      SubsetCount(a - {x}, b - {x});
    }
  }

  /** Distinct members of a set are no more than the set has. */
  lemma AtMost<T(!new)>(s: seq<T>, b: set<T>)
    requires Distinct(s) && forall k :: 0 <= k < |s| ==> s[k] in b
    ensures |s| <= |b|
  {
    DistinctCount(s);
    SubsetCount(Elements(s), b);
  }

  /** Pigeonhole: n distinct numbers below n are all of them. */
  lemma Everywhere(s: seq<nat>, n: nat, i: nat)
    requires Distinct(s) && |s| == n && i < n && forall k :: 0 <= k < |s| ==> s[k] < n
    ensures i in s
  {
    if i !in s {
      AtMost(s, Below(n) - {i});
    }
  }
}
