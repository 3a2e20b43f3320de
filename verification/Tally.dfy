/** Sums over sequences and a pigeonhole principle, used to count threads, processes and balls. */
module Tally {

  function Sum<T>(s: seq<T>, f: T -> int): (n: int)
  {
    if s == [] then 0 else Sum(s[..|s| - 1], f) + f(s[|s| - 1])
  }

  lemma {:induction false} SumUpdate<T>(s: seq<T>, i: nat, x: T, f: T -> int)
    requires i < |s|
    ensures Sum(s[i := x], f) == Sum(s, f) - f(s[i]) + f(x)
  {
    var n := |s| - 1;
    var u := s[i := x];
    if i == n {
      assert u[..n] == s[..n];
    } else {
      SumUpdate(s[..n], i, x, f);
      assert u[..n] == s[..n][i := x];
    }
  }

  /** A bound on every change bounds the change of the sum. */
  lemma {:induction false} SumRise<T>(s: seq<T>, u: seq<T>, f: T -> int, d: nat)
    requires |s| == |u| && forall i :: 0 <= i < |s| ==> f(u[i]) <= f(s[i]) + d
    ensures Sum(u, f) <= Sum(s, f) + d * |s|
  {
    if |s| > 0 {
      var n := |s| - 1;
      SumRise(s[..n], u[..n], f, d);
      assert d * |s| == d * n + d;
    }
  }

  lemma {:induction false} SumLeast<T>(s: seq<T>, f: T -> int, d: int)
    requires forall i :: 0 <= i < |s| ==> d <= f(s[i])
    ensures d * |s| <= Sum(s, f)
  {
    if |s| > 0 {
      var n := |s| - 1;
      SumLeast(s[..n], f, d);
      assert d * |s| == d * n + d;
    }
  }

  lemma {:induction false} SumMost<T>(s: seq<T>, f: T -> int, d: int)
    requires forall i :: 0 <= i < |s| ==> f(s[i]) <= d
    ensures Sum(s, f) <= d * |s|
  {
    if |s| > 0 {
      var n := |s| - 1;
      SumMost(s[..n], f, d);
      assert d * |s| == d * n + d;
    }
  }

  /** A sum of natural numbers is at least each of them. */
  lemma {:induction false} SumIncludes<T>(s: seq<T>, f: T -> int, i: nat)
    requires i < |s| && forall k :: 0 <= k < |s| ==> 0 <= f(s[k])
    ensures f(s[i]) <= Sum(s, f)
  {
    var n := |s| - 1;
    if i == n {
      SumLeast(s[..n], f, 0);
    } else {
      SumIncludes(s[..n], f, i);
    }
  }

  /** A sum of values at most 1 that reaches the number of values has every value 1. */
  lemma {:induction false} SumFull<T>(s: seq<T>, f: T -> int)
    requires forall i :: 0 <= i < |s| ==> f(s[i]) <= 1
    requires Sum(s, f) >= |s|
    ensures forall i :: 0 <= i < |s| ==> f(s[i]) == 1
  {
    if |s| > 0 {
      var n := |s| - 1;
      SumMost(s[..n], f, 1);
      SumFull(s[..n], f);
      forall i | 0 <= i < |s| ensures f(s[i]) == 1 {
        if i < n {
          assert s[..n][i] == s[i];
        }
      }
    }
  }

  lemma {:induction false} SumConstant<T>(s: seq<T>, f: T -> int, d: int)
    requires forall i :: 0 <= i < |s| ==> f(s[i]) == d
    ensures Sum(s, f) == d * |s|
  {
    SumLeast(s, f, d);
    SumMost(s, f, d);
  }

  /** Some value of a positive sum is positive. */
  lemma {:induction false} SumWitness<T>(s: seq<T>, f: T -> int) returns (i: nat)
    requires Sum(s, f) > 0
    ensures i < |s| && f(s[i]) > 0
  {
    var n := |s| - 1;
    if f(s[n]) > 0 {
      i := n;
    } else {
      i := SumWitness(s[..n], f);
    }
  }

  // ---------------------------------------------------------------------------------------------

  ghost predicate AllDifferent(s: seq<nat>)
  {
    forall i, j :: 0 <= i < j < |s| ==> s[i] != s[j]
  }

  ghost predicate AllBelow(s: seq<nat>, n: nat)
  {
    forall i :: 0 <= i < |s| ==> s[i] < n
  }

  function Below(n: nat): (r: set<nat>)
    ensures forall k: nat :: k in r <==> k < n
    ensures |r| == n
  {
    if n == 0 then {} else Below(n - 1) + {n - 1}
  }

  function Elements(s: seq<nat>): (r: set<nat>)
  {
    set x | x in s
  }

  lemma {:induction false} DifferentCount(s: seq<nat>)
    requires AllDifferent(s)
    ensures |Elements(s)| == |s|
  {
    if |s| > 0 {
      var n := |s| - 1;
      var p := s[..n];
      DifferentCount(p);
      assert s[n] !in p;
      assert Elements(s) == Elements(p) + {s[n]};
    }
  }

  lemma Subset(a: set<nat>, b: set<nat>)
    requires a <= b
    ensures |a| <= |b|
    ensures |a| == |b| ==> a == b
  {
    assert b == a + (b - a);
    assert |b| == |a| + |b - a|;
  }

  /** Different numbers below n: at most n of them, and n of them are all of them. */
  lemma Pigeonhole(s: seq<nat>, n: nat)
    requires AllDifferent(s) && AllBelow(s, n)
    ensures |s| <= n
    ensures |s| == n ==> forall k: nat :: k < n ==> k in s
    ensures |s| < n ==> exists k: nat :: k < n && k !in s
  {
    var used := Elements(s);
    DifferentCount(s);
    assert used <= Below(n);
    Subset(used, Below(n));
    if |s| < n {
      assert used != Below(n);
      assert exists k: nat :: k in Below(n) && k !in used;
    } else {
      forall k: nat | k < n ensures k in s {
        assert k in Below(n);
      }
    }
  }
}
