/**
 * Deciding inclusion between infinite sets of numbers by finitely many probes.
 */
module NumberProbes {
  import opened Wrappers
  import opened Breaking

  /** A limit as a contract states it: a number, or a value no check can compare with a number. */
  datatype Bound = Missing | Number(value: real) | Boolean | Words | Unhashable

  /**
   * The probes; or no answer, because some bound is not a number; or an exception, because a list or
   * a dict cannot be in a set, words cannot be sorted among numbers, or no bound is left to probe around.
   */
  datatype Probing = Points(points: seq<real>) | NotNumbers | Fails

  // ---------------------------------------------------------------- Sorting

  function Insert(x: real, s: seq<real>): seq<real> {
    if s == [] || x < s[0] then [x] + s
    else if x == s[0] then s
    else [s[0]] + Insert(x, s[1..])
  }

  /** `sorted(set(xs))`. */
  function SortedSet(xs: seq<real>): seq<real> {
    if xs == [] then [] else Insert(xs[0], SortedSet(xs[1..]))
  }

  ghost predicate Ascending(s: seq<real>) {
    forall i, j :: 0 <= i < j < |s| ==> s[i] < s[j]
  }

  lemma {:induction false} InsertSorted(x: real, s: seq<real>)
    requires Ascending(s)
    ensures Ascending(Insert(x, s))
    ensures forall y :: y in Insert(x, s) <==> y == x || y in s
  {
    if s == [] || x < s[0] || x == s[0] {
    } else {
      InsertSorted(x, s[1..]);
      var t := Insert(x, s[1..]);
      forall j | 0 <= j < |t|
        ensures s[0] < t[j]
      {
        assert t[j] in t;
      }
      assert s == [s[0]] + s[1..];
    }
  }

  lemma {:induction false} SortedSetSorts(xs: seq<real>)
    ensures Ascending(SortedSet(xs))
    ensures forall y :: y in SortedSet(xs) <==> y in xs
  {
    if xs != [] {
      SortedSetSorts(xs[1..]);
      InsertSorted(xs[0], SortedSet(xs[1..]));
      assert xs == [xs[0]] + xs[1..];
    }
  }

  // ---------------------------------------------------------------- The probes

  function Numbers(bounds: seq<Bound>): seq<real> {
    if bounds == [] then []
    else (if bounds[0].Number? then [bounds[0].value] else []) + Numbers(bounds[1..])
  }

  lemma {:induction false} NumbersAre(bounds: seq<Bound>, r: real)
    ensures r in Numbers(bounds) <==> Number(r) in bounds
  {
    if bounds != [] {
      NumbersAre(bounds[1..], r);
      assert bounds == [bounds[0]] + bounds[1..];
    }
  }

  function Ceiling(r: real): int { -(-r).Floor }

  function Range(lo: int, hi: int): (s: seq<real>)
    ensures forall x :: x in s ==> x == x.Floor as real
    decreases hi - lo
  {
    if lo >= hi then [] else [lo as real] + Range(lo + 1, hi)
  }

  lemma {:induction false} RangeHas(lo: int, hi: int, n: int)
    requires lo <= n < hi
    ensures n as real in Range(lo, hi)
    decreases hi - lo
  {
    if lo < n {
      RangeHas(lo + 1, hi, n);
    }
  }

  /** The integers around every bound. */
  function IntegerPoints(bounds: seq<real>): seq<real> {
    if bounds == [] then []
    else Range(bounds[0].Floor - 1, Ceiling(bounds[0]) + 2) + IntegerPoints(bounds[1..])
  }

  /** The middles between neighbouring bounds. */
  function Middles(bounds: seq<real>): seq<real> {
    if |bounds| <= 1 then [] else [(bounds[0] + bounds[1]) / 2.0] + Middles(bounds[1..])
  }

  function Probes(bounds: seq<Bound>, integers: bool): Probing {
    if Unhashable in bounds then Fails
    else if Words in bounds && exists b :: b in bounds && (b.Number? || b.Boolean?) then Fails
    else if Words in bounds || Boolean in bounds then NotNumbers
    else
      var numbers := SortedSet(Numbers(bounds));
      if integers then Points(SortedSet(IntegerPoints(numbers)))
      else if numbers == [] then Fails // the first bound of an empty list
      else Points(SortedSet(numbers + Middles(numbers) + [numbers[0] - 1.0, numbers[|numbers| - 1] + 1.0]))
  }

  predicate SomeProbe(probes: seq<real>, accepts: real -> bool, rejects: real -> bool) {
    exists n :: 0 <= n < |probes| && accepts(probes[n]) && !rejects(probes[n])
  }

  function AcceptedDirection(before: real -> bool, after: real -> bool, probes: seq<real>): Direction {
    DirectionOf(SomeProbe(probes, after, before), SomeProbe(probes, before, after))
  }

  // ---------------------------------------------------------------- What the probes decide

  /** `x` and `y` compare alike with every bound. */
  ghost predicate SameSide(x: real, y: real, bounds: seq<real>) {
    forall b :: b in bounds ==> (x < b <==> y < b) && (x > b <==> y > b)
  }

  /** A predicate that changes its answer only at the bounds. */
  ghost predicate ChangesOnlyAt(accepts: real -> bool, bounds: seq<real>) {
    forall x, y :: SameSide(x, y, bounds) ==> accepts(x) == accepts(y)
  }

  lemma {:induction false} Largest(s: seq<real>, below: real) returns (r: Option<real>)
    ensures r.None? ==> forall b :: b in s ==> b >= below
    ensures r.Some? ==> r.value in s && r.value < below && forall b :: b in s && b < below ==> b <= r.value
  {
    if s == [] {
      r := None;
    } else {
      r := Largest(s[1..], below);
      assert s == [s[0]] + s[1..];
      if s[0] < below && (r.None? || r.value < s[0]) {
        r := Some(s[0]);
      }
    }
  }

  lemma {:induction false} IntegerPointsAre(bounds: seq<real>, b: real, n: int)
    requires b in bounds && b.Floor - 1 <= n <= Ceiling(b) + 1
    ensures n as real in IntegerPoints(bounds)
  {
    if bounds[0] == b {
      RangeHas(b.Floor - 1, Ceiling(b) + 2, n);
    } else {
      assert bounds == [bounds[0]] + bounds[1..];
      IntegerPointsAre(bounds[1..], b, n);
    }
  }

  lemma {:induction false} IntegerPointsAreIntegers(bounds: seq<real>)
    ensures forall x :: x in IntegerPoints(bounds) ==> InDomain(x, true)
  {
    if bounds != [] {
      IntegerPointsAreIntegers(bounds[1..]);
    }
  }

  /** Every integer has a probe on the same side of every bound. */
  lemma IntegersCovered(bounds: seq<real>, x: real) returns (p: real)
    requires Ascending(bounds) && bounds != [] && InDomain(x, true)
    ensures p in IntegerPoints(bounds) && SameSide(x, p, bounds)
  {
    var n := x.Floor;
    if b :| b in bounds && b.Floor - 1 <= n <= Ceiling(b) + 1 {
      IntegerPointsAre(bounds, b, n);
      p := x;
    } else {
      var below := Largest(bounds, x);
      if below.Some? {
        p := (Ceiling(below.value) + 1) as real;
        IntegerPointsAre(bounds, below.value, Ceiling(below.value) + 1);
      } else {
        p := (bounds[0].Floor - 1) as real;
        IntegerPointsAre(bounds, bounds[0], bounds[0].Floor - 1);
      }
    }
  }

  lemma {:induction false} MiddlesAre(bounds: seq<real>, k: nat)
    requires k + 1 < |bounds|
    ensures (bounds[k] + bounds[k + 1]) / 2.0 in Middles(bounds)
  {
    if k > 0 {
      MiddlesAre(bounds[1..], k - 1);
    }
  }

  /** Every real has a probe on the same side of every bound. */
  lemma RealsCovered(bounds: seq<real>, x: real) returns (p: real)
    requires Ascending(bounds) && bounds != []
    ensures p in bounds + Middles(bounds) + [bounds[0] - 1.0, bounds[|bounds| - 1] + 1.0]
    ensures SameSide(x, p, bounds)
  {
    if x in bounds {
      p := x;
    } else if x < bounds[0] {
      p := bounds[0] - 1.0;
    } else {
      var k := 0;
      while k + 1 < |bounds| && bounds[k + 1] < x
        invariant k < |bounds| && bounds[k] < x
      {
        k := k + 1;
      }
      if k + 1 == |bounds| {
        p := bounds[k] + 1.0;
      } else {
        p := (bounds[k] + bounds[k + 1]) / 2.0;
        MiddlesAre(bounds, k);
        assert forall i :: 0 <= i < |bounds| ==> bounds[i] <= bounds[k] || bounds[i] >= bounds[k + 1];
      }
    }
  }

  /** Numbers, and at least one, always have probes. */
  lemma NumbersHaveProbes(bounds: seq<Bound>, integers: bool, some: real)
    requires forall b :: b in bounds ==> b.Number? || b.Missing?
    requires Number(some) in bounds
    ensures Probes(bounds, integers).Points? && Numbers(bounds) != []
  {
    NumbersAre(bounds, some);
    SortedSetSorts(Numbers(bounds));
    assert some in SortedSet(Numbers(bounds));
  }

  /** The probes lie in the domain and cover it. */
  lemma ProbesCover(bounds: seq<Bound>, integers: bool, x: real) returns (p: real)
    requires Probes(bounds, integers).Points? && Numbers(bounds) != []
    requires InDomain(x, integers)
    ensures p in Probes(bounds, integers).points && InDomain(p, integers)
    ensures SameSide(x, p, Numbers(bounds))
  {
    var numbers := SortedSet(Numbers(bounds));
    SortedSetSorts(Numbers(bounds));
    assert Numbers(bounds)[0] in numbers;
    if integers {
      p := IntegersCovered(numbers, x);
      IntegerPointsAreIntegers(numbers);
      SortedSetSorts(IntegerPoints(numbers));
    } else {
      p := RealsCovered(numbers, x);
      SortedSetSorts(numbers + Middles(numbers) + [numbers[0] - 1.0, numbers[|numbers| - 1] + 1.0]);
    }
  }

  lemma ProbesInDomain(bounds: seq<Bound>, integers: bool)
    requires Probes(bounds, integers).Points?
    ensures Ascending(Probes(bounds, integers).points)
    ensures forall p :: p in Probes(bounds, integers).points ==> InDomain(p, integers)
  {
    var numbers := SortedSet(Numbers(bounds));
    if integers {
      IntegerPointsAreIntegers(numbers);
      SortedSetSorts(IntegerPoints(numbers));
    } else {
      SortedSetSorts(numbers + Middles(numbers) + [numbers[0] - 1.0, numbers[|numbers| - 1] + 1.0]);
    }
  }

  /**
   * Finitely many probes decide the direction between two infinite sets of numbers, over the
   * integers and over the reals alike.
   */
  lemma ProbesDecideDirection(before: real -> bool, after: real -> bool, bounds: seq<Bound>, integers: bool)
    requires Probes(bounds, integers).Points? && Numbers(bounds) != []
    requires ChangesOnlyAt(before, Numbers(bounds)) && ChangesOnlyAt(after, Numbers(bounds))
    ensures AcceptedDirection(before, after, Probes(bounds, integers).points) == TrueDirection(before, after, integers)
  {
    ProbesFind(after, before, bounds, integers);
    ProbesFind(before, after, bounds, integers);
  }

  lemma ProbesFind(accepts: real -> bool, rejects: real -> bool, bounds: seq<Bound>, integers: bool)
    requires Probes(bounds, integers).Points? && Numbers(bounds) != []
    requires ChangesOnlyAt(accepts, Numbers(bounds)) && ChangesOnlyAt(rejects, Numbers(bounds))
    ensures SomeProbe(Probes(bounds, integers).points, accepts, rejects)
       <==> exists x :: Separates(accepts, rejects, integers, x)
  {
    var probes := Probes(bounds, integers).points;
    ProbesInDomain(bounds, integers);
    if x :| Separates(accepts, rejects, integers, x) {
      var p := ProbesCover(bounds, integers, x);
      var n :| 0 <= n < |probes| && probes[n] == p;
      assert accepts(probes[n]) && !rejects(probes[n]);
    }
    if n :| 0 <= n < |probes| && accepts(probes[n]) && !rejects(probes[n]) {
      assert probes[n] in probes;
      assert Separates(accepts, rejects, integers, probes[n]);
    }
  }
}
