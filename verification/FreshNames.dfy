/**
 * Names that are not taken yet: `base`, else `base_2`, `base_3` and so on.
 */
module FreshNames {
  import opened Counting
  import opened Decimals

  /** The n-th name tried for `base`, counting from 1. */
  function Candidate(base: string, n: nat): string
    requires n >= 1
  {
    if n == 1 then base else base + "_" + Decimal(n)
  }

  lemma CandidatesDiffer(base: string, m: nat, n: nat)
    requires 1 <= m < n
    ensures Candidate(base, m) != Candidate(base, n)
  {
    var s, t := Candidate(base, m), Candidate(base, n);
    assert |t| > |base|;
    if m > 1 && s == t {
      assert s[|base| + 1..] == Decimal(m) && t[|base| + 1..] == Decimal(n);
      DecimalIsInjective(m, n);
    }
  }

  lemma CandidateIsNew(base: string, n: nat, tried: set<string>)
    requires n >= 1 && forall s :: s in tried <==> exists k :: 1 <= k < n && Candidate(base, k) == s
    ensures Candidate(base, n) !in tried
  {
    forall k | 1 <= k < n
      ensures Candidate(base, k) != Candidate(base, n)
    {
      CandidatesDiffer(base, k, n);
    }
  }

  ghost function Tried(base: string, n: nat): (tried: set<string>)
    requires n >= 1
    ensures forall s :: s in tried <==> exists k :: 1 <= k < n && Candidate(base, k) == s
    ensures |tried| == n - 1
  {
    if n == 1 then {}
    else
      CandidateIsNew(base, n - 1, Tried(base, n - 1));
      Tried(base, n - 1) + {Candidate(base, n - 1)}
  }

  /** Each try takes one of the used names out of the race. */
  lemma OneMoreTried(base: string, used: set<string>, n: nat)
    requires n >= 1 && Candidate(base, n) in used
    ensures |used - Tried(base, n + 1)| < |used - Tried(base, n)|
  {
    CandidateIsNew(base, n, Tried(base, n));
    assert used - Tried(base, n + 1) == (used - Tried(base, n)) - {Candidate(base, n)};
  }

  lemma TriesAreBounded(base: string, used: set<string>, n: nat)
    requires n >= 1 && forall k :: 1 <= k < n ==> Candidate(base, k) in used
    ensures n <= |used| + 1
  {
    assert Tried(base, n) <= used;
    SubsetSize(Tried(base, n), used);
  }

  /** `name` is the first candidate for `base` that is not used. */
  ghost predicate IsFresh(name: string, base: string, used: set<string>) {
    exists n :: n >= 1 && FirstUnused(name, base, used, n)
  }

  ghost predicate FirstUnused(name: string, base: string, used: set<string>, n: nat)
    requires n >= 1
  {
    name == Candidate(base, n) && name !in used && forall k :: 1 <= k < n ==> Candidate(base, k) in used
  }

  /** The search ends, after at most one more try than names are used. */
  method FreshName(base: string, used: set<string>) returns (name: string, ghost n: nat)
    ensures n >= 1 && FirstUnused(name, base, used, n) && IsFresh(name, base, used)
    ensures n <= |used| + 1
  {
    name := base;
    var next := 2;
    while name in used
      invariant next >= 2 && name == Candidate(base, next - 1)
      invariant forall k :: 1 <= k < next - 1 ==> Candidate(base, k) in used
      decreases |used - Tried(base, next - 1)|
    {
      OneMoreTried(base, used, next - 1);
      name, next := base + "_" + Decimal(next), next + 1;
    }
    n := next - 1;
    TriesAreBounded(base, used, n);
  }
}
