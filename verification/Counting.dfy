/** Sizes of finite sets, and one-to-one maps between them. */
module Counting {

  lemma {:induction false} InjectiveSize<T>(s: set<T>, f: map<T, nat>)
    requires f.Keys == s
    requires forall x, y :: x in s && y in s && f[x] == f[y] ==> x == y
    ensures |f.Values| == |s|
  {
    if s != {} {
      var x :| x in s;
      var g := map y | y in s - {x} :: f[y];
      InjectiveSize(s - {x}, g);
      assert f.Values == g.Values + {f[x]} by {
        forall v | v in f.Values
          ensures v in g.Values + {f[x]}
        {
          var y :| y in f && f[y] == v;
          if y != x {
            assert g[y] == v;
          }
        }
        forall v | v in g.Values
          ensures v in f.Values
        {
          var y :| y in g && g[y] == v;
          assert f[y] == v;
        }
      }
    }
  }

  lemma SubsetSize<T>(a: set<T>, b: set<T>)
    requires a <= b
    ensures |a| <= |b|
  {
    assert b == a + (b - a);
  }

  lemma SameSizeSubset<T>(a: set<T>, b: set<T>)
    requires a <= b && |a| >= |b|
    ensures a == b
  {
    assert |b| == |a| + |b - a| by {
      assert b == a + (b - a);
    }
  }

  lemma SameSizeHas<T>(a: set<T>, b: set<T>, x: T)
    requires a <= b && |a| >= |b| && x in b
    ensures x in a
  {
    SameSizeSubset(a, b);
  }

  ghost function Below(n: nat): (s: set<nat>)
    ensures |s| == n && forall i: nat :: i in s <==> i < n
  {
    if n == 0 then {} else Below(n - 1) + {n - 1}
  }

  /** A sequence of |perm| different numbers below |perm| holds each of them. */
  lemma PositionOf(perm: seq<nat>, i: nat) returns (k: nat)
    requires forall j :: 0 <= j < |perm| ==> perm[j] < |perm|
    requires forall j, k :: 0 <= j < k < |perm| ==> perm[j] != perm[k]
    requires i < |perm|
    ensures k < |perm| && perm[k] == i
  {
    var f := map j: nat | j < |perm| :: perm[j];
    forall x, y | x in f && y in f && f[x] == f[y]
      ensures x == y
    {
      assert !(x < y) && !(y < x);
    }
    Onto(f, |perm|);
    assert i in f.Values;
    k :| k in f && f[k] == i;
  }

  /** An injection of the numbers below `n` into themselves reaches all of them. */
  lemma Onto(f: map<nat, nat>, n: nat)
    requires forall x: nat :: x in f <==> x < n
    requires forall x :: x in f ==> f[x] < n
    requires forall x, y :: x in f && y in f && f[x] == f[y] ==> x == y
    ensures forall i: nat :: i < n ==> i in f.Values
  {
    forall i: nat | i < n
      ensures i in f.Values
    {
      Reached(f, n, i);
    }
  }

  lemma Reached(f: map<nat, nat>, n: nat, i: nat)
    requires forall x: nat :: x in f <==> x < n
    requires forall x :: x in f ==> f[x] < n
    requires forall x, y :: x in f && y in f && f[x] == f[y] ==> x == y
    requires i < n
    ensures i in f.Values
  {
    KeysAreBelow(f, n);
    ValuesAreBelow(f, n);
    InjectiveSize(Below(n), f);
    SameSizeHas(f.Values, Below(n), i);
  }

  lemma KeysAreBelow(f: map<nat, nat>, n: nat)
    requires forall x: nat :: x in f <==> x < n
    ensures f.Keys == Below(n)
  {
  }

  lemma ValuesAreBelow(f: map<nat, nat>, n: nat)
    requires forall x :: x in f ==> f[x] < n
    ensures f.Values <= Below(n)
  {
  }
}
