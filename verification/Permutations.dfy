/** Sequences that hold each of the first so many numbers once. */
module Permutations {
  import opened Common

  predicate Distinct(s: seq<nat>) {
    forall i, j :: 0 <= i < j < |s| ==> s[i] != s[j]
  }

  predicate Below(s: seq<nat>, n: nat) {
    forall i :: 0 <= i < |s| ==> s[i] < n
  }

  predicate IsPermutation(s: seq<nat>) {
    Distinct(s) && Below(s, |s|)
  }

  function Sum(s: seq<nat>): nat {
    if s == [] then 0 else Sum(s[..|s| - 1]) + Last(s)
  }

  function Numbers(n: nat): (s: set<nat>)
    ensures forall i :: i in s <==> 0 <= i < n
  {
    if n == 0 then {} else Numbers(n - 1) + {n - 1}
  }

  lemma {:induction false} NumbersCount(n: nat)
    ensures |Numbers(n)| == n
  {
    if n != 0 {
      NumbersCount(n - 1);
      assert Numbers(n) == Numbers(n - 1) + {n - 1};
    }
  }

  function Elements(s: seq<nat>): (r: set<nat>)
    ensures forall x :: x in r <==> x in s
  {
    set x | x in s
  }

  lemma {:induction false} DistinctCount(s: seq<nat>)
    requires Distinct(s)
    ensures |Elements(s)| == |s|
  {
    if s != [] {
      var shorter := s[..|s| - 1];
      DistinctCount(shorter);
      assert Elements(s) == Elements(shorter) + {Last(s)};
      assert Last(s) !in shorter;
    }
  }

  /** Fewer than `n` different numbers below `n`: one is missing. */
  lemma SomethingMissing(s: seq<nat>, n: nat) returns (x: nat)
    requires Distinct(s) && |s| < n
    ensures x < n && x !in s
  {
    NotAllPresent(s, n);
    x :| x < n && x !in s;
  }

  lemma NotAllPresent(s: seq<nat>, n: nat)
    requires Distinct(s) && |s| < n
    ensures exists i: nat :: i < n && i !in s
  {
    DistinctCount(s);
    NumbersCount(n);
    if Numbers(n) <= Elements(s) {
      SubsetCount(Numbers(n), Elements(s));
    }
  }

  lemma {:induction false} SubsetCount(a: set<nat>, b: set<nat>)
    requires a <= b
    ensures |a| <= |b|
    decreases |a|
  {
    if a != {} {
      var x :| x in a;
      SubsetCount(a - {x}, b - {x});
    }
  }

  /** `n` different numbers below `n`: none is missing. */
  lemma NothingMissing(s: seq<nat>, x: nat)
    requires IsPermutation(s) && x < |s|
    ensures x in s
  {
    DistinctCount(s);
    NumbersCount(|s|);
    if x !in s {
      SubsetCount(Elements(s), Numbers(|s|) - {x});
    }
  }

  lemma {:induction false} SumWithout(s: seq<nat>, i: nat)
    requires i < |s|
    ensures Sum(s) == Sum(s[..i] + s[i + 1..]) + s[i]
  {
    var n := |s| - 1;
    var less := s[..i] + s[i + 1..];
    if i == n {
      assert less == s[..n];
    } else {
      SumWithout(s[..n], i);
      assert less[..|less| - 1] == s[..n][..i] + s[..n][i + 1..];
      assert Last(less) == Last(s);
    }
  }

  lemma WithoutTheLargest(s: seq<nat>, i: nat)
    requires IsPermutation(s) && i < |s| && s[i] == |s| - 1
    ensures IsPermutation(s[..i] + s[i + 1..])
  {
    var less := s[..i] + s[i + 1..];
    forall j | 0 <= j < |less| ensures less[j] < |less| {
      var k := if j < i then j else j + 1;
      assert less[j] == s[k] && s[k] != s[i];
    }
  }

  lemma Triangle(n: nat)
    ensures n * (n - 1) + 2 * n == (n + 1) * n
  {
  }

  /** So they add up to what they must. */
  lemma {:induction false} SumOfPermutation(s: seq<nat>)
    requires IsPermutation(s)
    ensures 2 * Sum(s) == |s| * (|s| - 1)
    decreases |s|
  {
    if s != [] {
      var n := |s| - 1;
      NothingMissing(s, n);
      var i :| 0 <= i < |s| && s[i] == n;
      var less := s[..i] + s[i + 1..];
      WithoutTheLargest(s, i);
      hide IsPermutation, Sum;
      SumOfPermutation(less);
      SumWithout(s, i);
      Triangle(n);
      assert |less| == n;
    }
  }

  // -------------------------------------------------------------------------
  // Thresholds
  // -------------------------------------------------------------------------

  /** The threshold of one of `n` ranks. */
  function Threshold(v: nat, n: nat): real
    requires n > 0
  {
    (v as real + 0.5) / n as real - 0.5
  }

  /** Evenly spaced, in the order of the ranks, half a space in from either end. */
  lemma ThresholdIs(v: nat, w: nat, n: nat)
    requires v < w < n
    ensures (Threshold(w, n) - Threshold(v, n)) * n as real == w as real - v as real
    ensures Threshold(v, n) < Threshold(w, n)
    ensures 2.0 * (Threshold(0, n) + 0.5) * n as real == 1.0 && 2.0 * (0.5 - Threshold(n - 1, n)) * n as real == 1.0
  {
    TimesN(v, n);
    TimesN(w, n);
    TimesN(0, n);
    TimesN(n - 1, n);
  }

  function Thresholds(s: seq<nat>, n: nat): real
    requires n > 0
  {
    if s == [] then 0.0 else Thresholds(s[..|s| - 1], n) + Threshold(Last(s), n)
  }

  lemma TimesN(v: nat, n: nat)
    requires n > 0
    ensures Threshold(v, n) * n as real == v as real + 0.5 - 0.5 * n as real
  {
  }

  lemma Distribute(a: real, b: real, c: real)
    ensures (a + b) * c == a * c + b * c
  {
  }

  lemma {:induction false} ThresholdsTimesN(s: seq<nat>, n: nat)
    requires n > 0
    ensures Thresholds(s, n) * n as real == Sum(s) as real + |s| as real * 0.5 - |s| as real * (0.5 * n as real)
  {
    if s != [] {
      var shorter := s[..|s| - 1];
      ThresholdsTimesN(shorter, n);
      TimesN(Last(s), n);
      Distribute(Thresholds(shorter, n), Threshold(Last(s), n), n as real);
      Distribute(|shorter| as real, 1.0, 0.5 * n as real);
    }
  }

  /** Evenly spaced thresholds, each once, balance exactly. */
  lemma ThresholdsOfPermutation(s: seq<nat>)
    requires IsPermutation(s) && s != []
    ensures Thresholds(s, |s|) == 0.0
  {
    hide IsPermutation, Sum, Thresholds;
    var n := |s|;
    SumOfPermutation(s);
    ThresholdsTimesN(s, n);
    Balance(Sum(s), n);
    ZeroFactor(Thresholds(s, n), n as real);
  }

  lemma Balance(sum: nat, n: nat)
    requires 2 * sum == n * (n - 1)
    ensures sum as real + n as real * 0.5 - n as real * (0.5 * n as real) == 0.0
  {
    assert (2 * sum) as real == (n * (n - 1)) as real;
  }

  lemma ZeroFactor(a: real, n: real)
    requires a * n == 0.0 && n != 0.0
    ensures a == 0.0
  {
  }
}
