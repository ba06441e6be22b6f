/**
 * The threshold of a quality rule, and how counting more or fewer bad rows moves it.
 */
module Thresholds {
  import opened Wrappers
  import opened JsonTrees
  import opened Breaking
  import opened NumberProbes

  /** In the order ToThreshold reads them. */
  const THRESHOLDS: seq<string> := [
    "mustBe", "mustNotBe", "mustBeGreaterThan", "mustBeGreaterOrEqualTo",
    "mustBeLessThan", "mustBeLessOrEqualTo", "mustBeBetween", "mustNotBeBetween"]

  datatype Op = EQ | NE | GT | GE | LT | LE | BETWEEN | NOT_BETWEEN

  datatype Threshold = Threshold(op: Op, value: Bound, value2: Bound) {

    /** The bounds are numbers, so the threshold compares with any count. */
    predicate Numeric() {
      value.Number? && (if op.BETWEEN? || op.NOT_BETWEEN? then value2.Number? else value2.Missing?)
    }

    predicate Passes(actual: real)
      requires Numeric()
    {
      match op
      case EQ => actual == value.value
      case NE => actual != value.value
      case GT => actual > value.value
      case GE => actual >= value.value
      case LT => actual < value.value
      case LE => actual <= value.value
      case BETWEEN => value.value <= actual <= value2.value
      case NOT_BETWEEN => !(value.value <= actual <= value2.value)
    }

    function Accepts(): real -> bool
      requires Numeric()
    {
      x => Passes(x)
    }

    function Bounds(): seq<Bound> { [value, value2] }
  }

  function BoundOf(j: Json): Bound {
    match j
    case Null => Missing
    case Num(r) => Number(r)
    case Flag(_) => Boolean
    case Text(_) => Words
    case _ => Unhashable
  }

  /** A pair of limits; any other number of values is invalid. */
  function Between(op: Op, limits: Json): Option<Threshold> {
    if limits.Arr? && |limits.items| == 2
    then Some(Threshold(op, BoundOf(limits.items[0]), BoundOf(limits.items[1])))
    else None
  }

  function ToThreshold(quality: Dict): Option<Threshold> {
    if Get(quality, "mustBe") != Null then Some(Threshold(EQ, BoundOf(quality["mustBe"]), Missing))
    else if Get(quality, "mustNotBe") != Null then Some(Threshold(NE, BoundOf(quality["mustNotBe"]), Missing))
    else if Get(quality, "mustBeGreaterThan") != Null
      then Some(Threshold(GT, BoundOf(quality["mustBeGreaterThan"]), Missing))
    else if Get(quality, "mustBeGreaterOrEqualTo") != Null
      then Some(Threshold(GE, BoundOf(quality["mustBeGreaterOrEqualTo"]), Missing))
    else if Get(quality, "mustBeLessThan") != Null then Some(Threshold(LT, BoundOf(quality["mustBeLessThan"]), Missing))
    else if Get(quality, "mustBeLessOrEqualTo") != Null
      then Some(Threshold(LE, BoundOf(quality["mustBeLessOrEqualTo"]), Missing))
    else if Get(quality, "mustBeBetween") != Null then Between(BETWEEN, quality["mustBeBetween"])
    else if Get(quality, "mustNotBeBetween") != Null then Between(NOT_BETWEEN, quality["mustNotBeBetween"])
    else None
  }

  /** A threshold changes its verdict only at its own bounds. */
  lemma PassesOnlyChangesAtBounds(t: Threshold, bounds: seq<Bound>)
    requires t.Numeric()
    requires t.value in bounds && (t.value2.Number? ==> t.value2 in bounds)
    ensures ChangesOnlyAt(t.Accepts(), Numbers(bounds))
  {
    NumbersAre(bounds, t.value.value);
    if t.value2.Number? {
      NumbersAre(bounds, t.value2.value);
    }
  }

  /** The direction between two thresholds, over integers or reals. */
  function CompareThresholds(before: Threshold, after: Threshold, integers: bool): Grading {
    match Probes(before.Bounds() + after.Bounds(), integers)
    case Fails => Raises
    case NotNumbers => Graded(Undetermined)
    case Points(probes) =>
      if !before.Numeric() || !after.Numeric() then Raises
      else Graded(AcceptedDirection(before.Accepts(), after.Accepts(), probes))
  }

  lemma CompareThresholdsIsExact(before: Threshold, after: Threshold, integers: bool)
    requires before.Numeric() && after.Numeric()
    ensures CompareThresholds(before, after, integers)
      == Graded(TrueDirection(before.Accepts(), after.Accepts(), integers))
  {
    var bounds := before.Bounds() + after.Bounds();
    assert bounds[0] == before.value && bounds[1] == before.value2;
    assert bounds[2] == after.value && bounds[3] == after.value2;
    PassesOnlyChangesAtBounds(before, bounds);
    PassesOnlyChangesAtBounds(after, bounds);
    NumbersHaveProbes(bounds, integers, before.value.value);
    ProbesDecideDirection(before.Accepts(), after.Accepts(), bounds, integers);
  }

  // ---------------------------------------------------------------- Counting more bad rows

  /** `[threshold.passes(p) for p in probes if p >= 0]` */
  function Accepted(accepts: real -> bool, probes: seq<real>): seq<bool> {
    if probes == [] then []
    else (if probes[0] >= 0.0 then [accepts(probes[0])] else []) + Accepted(accepts, probes[1..])
  }

  predicate Rising(s: seq<bool>) { forall i, j :: 0 <= i < j < |s| ==> s[i] ==> s[j] }

  predicate Falling(s: seq<bool>) { forall i, j :: 0 <= i < j < |s| ==> s[j] ==> s[i] }

  /** How counting more (or fewer) bad rows moves a rule checked against `threshold`. */
  function CountDirection(threshold: Option<Threshold>, integers: bool, more: bool): Grading {
    if threshold.None? then Graded(Undetermined)
    else
      match Probes([Number(0.0)] + threshold.value.Bounds(), integers)
      case Fails => Raises
      case NotNumbers => Graded(Undetermined)
      case Points(probes) =>
        if !threshold.value.Numeric() then Raises
        else
          var accepted := Accepted(threshold.value.Accepts(), probes);
          if true !in accepted || false !in accepted then Graded(Untested)
          else if Falling(accepted) then Graded(if more then Tightens else Loosens)
          else if Rising(accepted) then Graded(if more then Loosens else Tightens)
          else Graded(Both)
  }

  /** A count of rows, or a percentage of them. */
  ghost predicate IsCount(x: real, integers: bool) { x >= 0.0 && InDomain(x, integers) }

  ghost predicate Constant(accepts: real -> bool, integers: bool) {
    forall x, y :: IsCount(x, integers) && IsCount(y, integers) ==> accepts(x) == accepts(y)
  }

  ghost predicate Antitone(accepts: real -> bool, integers: bool) {
    forall x, y :: IsCount(x, integers) && IsCount(y, integers) && x <= y && accepts(y) ==> accepts(x)
  }

  ghost predicate Monotone(accepts: real -> bool, integers: bool) {
    forall x, y :: IsCount(x, integers) && IsCount(y, integers) && x <= y && accepts(x) ==> accepts(y)
  }

  ghost function TrueCountDirection(accepts: real -> bool, integers: bool, more: bool): Direction {
    if Constant(accepts, integers) then Untested
    else if Antitone(accepts, integers) then (if more then Tightens else Loosens)
    else if Monotone(accepts, integers) then (if more then Loosens else Tightens)
    else Both
  }

  /** What is accepted at the probes >= 0, in ascending order of the probes. */
  ghost predicate Samples(accepts: real -> bool, probes: seq<real>, at: seq<real>) {
    && Ascending(at)
    && (forall p :: p in at <==> p in probes && p >= 0.0)
    && |Accepted(accepts, probes)| == |at|
    && (forall n :: 0 <= n < |at| ==> Accepted(accepts, probes)[n] == accepts(at[n]))
  }

  lemma {:induction false} AcceptedSamples(accepts: real -> bool, probes: seq<real>) returns (at: seq<real>)
    requires Ascending(probes)
    ensures Samples(accepts, probes, at)
  {
    if probes == [] {
      at := [];
    } else {
      var rest := AcceptedSamples(accepts, probes[1..]);
      at := if probes[0] >= 0.0 then [probes[0]] + rest else rest;
      SamplesAscend(accepts, probes, rest);
      SamplesAreProbes(accepts, probes, rest);
    }
  }

  lemma SamplesAscend(accepts: real -> bool, probes: seq<real>, rest: seq<real>)
    requires Ascending(probes) && probes != [] && Samples(accepts, probes[1..], rest)
    ensures Ascending([probes[0]] + rest)
  {
    var tail := probes[1..];
    forall n | 0 <= n < |rest|
      ensures probes[0] < rest[n]
    {
      assert rest[n] in rest && rest[n] in tail;
      var k :| 0 <= k < |tail| && tail[k] == rest[n];
      assert probes[k + 1] == rest[n];
    }
  }

  lemma SamplesAreProbes(accepts: real -> bool, probes: seq<real>, rest: seq<real>)
    requires probes != [] && Samples(accepts, probes[1..], rest)
    ensures forall p :: p in (if probes[0] >= 0.0 then [probes[0]] + rest else rest) <==> p in probes && p >= 0.0
  {
    assert probes == [probes[0]] + probes[1..];
  }

  /** Every count has a probe >= 0 that decides it, and the probes keep the order of the counts. */
  lemma CountsCovered(accepts: real -> bool, bounds: seq<Bound>, integers: bool, x: real) returns (p: real)
    requires Probes(bounds, integers).Points? && Number(0.0) in bounds
    requires ChangesOnlyAt(accepts, Numbers(bounds)) && IsCount(x, integers)
    ensures p in Probes(bounds, integers).points && IsCount(p, integers) && accepts(p) == accepts(x)
    ensures SameSide(x, p, Numbers(bounds))
  {
    NumbersAre(bounds, 0.0);
    p := ProbesCover(bounds, integers, x);
  }

  /** A pair of counts with two verdicts shows up, in the same order, among the samples. */
  lemma PairSampled(accepts: real -> bool, bounds: seq<Bound>, integers: bool, at: seq<real>, x: real, y: real)
      returns (i: nat, j: nat)
    requires Probes(bounds, integers).Points? && Number(0.0) in bounds
    requires ChangesOnlyAt(accepts, Numbers(bounds)) && Samples(accepts, Probes(bounds, integers).points, at)
    requires IsCount(x, integers) && IsCount(y, integers) && x <= y && accepts(x) != accepts(y)
    ensures i < j < |at| && accepts(at[i]) == accepts(x) && accepts(at[j]) == accepts(y)
  {
    var p := CountsCovered(accepts, bounds, integers, x);
    var q := CountsCovered(accepts, bounds, integers, y);
    assert p in at && q in at;
    i :| 0 <= i < |at| && at[i] == p;
    j :| 0 <= j < |at| && at[j] == q;
    if j < i {
      assert at[j] < at[i];
      assert SameSide(x, y, Numbers(bounds));
    }
  }

  lemma SamplesDecide(accepts: real -> bool, bounds: seq<Bound>, integers: bool, at: seq<real>)
    requires Probes(bounds, integers).Points? && Number(0.0) in bounds
    requires ChangesOnlyAt(accepts, Numbers(bounds)) && Samples(accepts, Probes(bounds, integers).points, at)
    ensures Antitone(accepts, integers) <==> Falling(Accepted(accepts, Probes(bounds, integers).points))
    ensures Monotone(accepts, integers) <==> Rising(Accepted(accepts, Probes(bounds, integers).points))
  {
    var s := Accepted(accepts, Probes(bounds, integers).points);
    SamplesAreCounts(accepts, bounds, integers, at);
    if !Antitone(accepts, integers) {
      var x, y :| IsCount(x, integers) && IsCount(y, integers) && x <= y && !accepts(x) && accepts(y);
      var i, j := PairSampled(accepts, bounds, integers, at, x, y);
      assert !s[i] && s[j];
    }
    if !Monotone(accepts, integers) {
      var x, y :| IsCount(x, integers) && IsCount(y, integers) && x <= y && accepts(x) && !accepts(y);
      var i, j := PairSampled(accepts, bounds, integers, at, x, y);
      assert s[i] && !s[j];
    }
  }

  lemma SamplesAreCounts(accepts: real -> bool, bounds: seq<Bound>, integers: bool, at: seq<real>)
    requires Probes(bounds, integers).Points?
    requires Samples(accepts, Probes(bounds, integers).points, at)
    ensures forall n :: 0 <= n < |at| ==>
      IsCount(at[n], integers) && Accepted(accepts, Probes(bounds, integers).points)[n] == accepts(at[n])
  {
    ProbesInDomain(bounds, integers);
    forall n | 0 <= n < |at|
      ensures IsCount(at[n], integers)
    {
      assert at[n] in at;
    }
  }

  /** A predicate is constant iff it neither rises nor falls; a list of verdicts likewise. */
  lemma ConstantNeverTurns(accepts: real -> bool, integers: bool)
    ensures Constant(accepts, integers) <==> Antitone(accepts, integers) && Monotone(accepts, integers)
  {
    if Antitone(accepts, integers) && Monotone(accepts, integers) {
      forall x, y | IsCount(x, integers) && IsCount(y, integers)
        ensures accepts(x) == accepts(y)
      {
        if x <= y {
          assert accepts(x) == accepts(y);
        } else {
          assert accepts(y) == accepts(x);
        }
      }
    }
  }

  lemma OneVerdictNeverTurns(s: seq<bool>)
    ensures true !in s || false !in s <==> Falling(s) && Rising(s)
  {
    if true in s && false in s {
      var i :| 0 <= i < |s| && s[i];
      var j :| 0 <= j < |s| && !s[j];
      assert i < j || j < i;
    }
  }

  /**
   * The direction computed from the samples is the true one over all counts: untested exactly if
   * the threshold is constant, and otherwise antitone, monotone and neither are told apart.
   */
  lemma CountDirectionIsExact(t: Threshold, integers: bool, more: bool)
    requires t.Numeric()
    ensures CountDirection(Some(t), integers, more) == Graded(TrueCountDirection(t.Accepts(), integers, more))
  {
    var bounds := [Number(0.0)] + t.Bounds();
    var accepts := t.Accepts();
    PassesOnlyChangesAtBounds(t, bounds);
    NumbersAre(bounds, 0.0);
    var numbers := SortedSet(Numbers(bounds));
    SortedSetSorts(Numbers(bounds));
    assert 0.0 in numbers;
    assert Probes(bounds, integers).Points?;
    ProbesInDomain(bounds, integers);
    var at := AcceptedSamples(accepts, Probes(bounds, integers).points);
    SamplesDecide(accepts, bounds, integers, at);
    ConstantNeverTurns(accepts, integers);
    OneVerdictNeverTurns(Accepted(accepts, Probes(bounds, integers).points));
  }

  /**
   * If `after` counts at least (or, for fewer, at most) as many bad rows as `before` on every
   * dataset, the computed direction is the true inclusion between the accepted datasets.
   */
  lemma CountDirectionIsInclusion<D(!new)>(
      t: Threshold, integers: bool, more: bool, before: D -> real, after: D -> real, direction: Direction)
    requires t.Numeric() && CountDirection(Some(t), integers, more) == Graded(direction)
    requires forall d :: IsCount(before(d), integers) && IsCount(after(d), integers)
    requires forall d :: if more then before(d) <= after(d) else after(d) <= before(d)
    ensures direction == Tightens ==> forall d :: t.Passes(after(d)) ==> t.Passes(before(d))
    ensures direction == Loosens ==> forall d :: t.Passes(before(d)) ==> t.Passes(after(d))
    ensures direction == Untested ==> forall d :: t.Passes(before(d)) <==> t.Passes(after(d))
  {
    CountDirectionIsExact(t, integers, more);
    forall d
      ensures direction == Tightens ==> t.Passes(after(d)) ==> t.Passes(before(d))
      ensures direction == Loosens ==> t.Passes(before(d)) ==> t.Passes(after(d))
      ensures direction == Untested ==> (t.Passes(before(d)) <==> t.Passes(after(d)))
    {
      assert IsCount(before(d), integers) && IsCount(after(d), integers);
      TwoCounts(t, integers, more, before(d), after(d));
    }
  }

  /** What the true direction says of two counts of bad rows. */
  lemma TwoCounts(t: Threshold, integers: bool, more: bool, before: real, after: real)
    requires t.Numeric() && IsCount(before, integers) && IsCount(after, integers)
    requires if more then before <= after else after <= before
    ensures var direction := TrueCountDirection(t.Accepts(), integers, more);
      && (direction == Tightens ==> t.Passes(after) ==> t.Passes(before))
      && (direction == Loosens ==> t.Passes(before) ==> t.Passes(after))
      && (direction == Untested ==> (t.Passes(before) <==> t.Passes(after)))
  {
    var accepts := t.Accepts();
    assert accepts(before) == t.Passes(before) && accepts(after) == t.Passes(after);
  }
}
