/**
 * A range whose limits are swapped accepts nothing any more, and no entry of any run says so.
 */
module SilentRanges {
  import opened Wrappers
  import opened JsonTrees
  import opened Breaking
  import opened NumberProbes
  import opened Thresholds
  import opened Paths
  import opened QualityRules
  import opened Guarantees
  import opened Detector
  import opened Diffs
  import opened Places
  import opened Runs
  import opened PlainNames
  import opened MistakenEntries
  import opened SilentFlips
  import opened LimitRuns

  const RANGE := "mustBeBetween"

  /** At least `low` and at most `high` nulls. */
  function NullsBetween(low: real, high: real): Dict {
    map["metric" := Text("nullValues"), RANGE := Arr([Num(low), Num(high)])]
  }

  lemma RangeIsRead(host: Host, low: real, high: real)
    requires ValidatesAnything(host)
    ensures ThresholdOf(host, NullsBetween(low, high)) == Some(Threshold(BETWEEN, Number(low), Number(high)))
    ensures NumericThreshold(host, NullsBetween(low, high)) && !IsPercent(host, NullsBetween(low, high))
  {
    var rule := NullsBetween(low, high);
    assert THRESHOLDS[6] == RANGE && RANGE in THRESHOLDS;
    Arguments.ArgumentsAreNoThreshold();
    assert ThresholdQuality(host, rule) == map[RANGE := Arr([Num(low), Num(high)])];
  }

  lemma RangeIsAGuarantee(host: Host, low: real, high: real)
    requires ValidatesAnything(host)
    ensures IsGuarantee(host, NullsBetween(low, high), true)
  {
    var rule := NullsBetween(low, high);
    var quality := Restrict(rule, METRIC_FIELDS);
    RangeIsRead(host, low, high);
    NoSeverityFails(host, rule, true);
    assert METRIC_FIELDS[0] == "metric";
    assert Get(quality, "metric") == Text("nullValues") && Get(quality, "unit") == Null;
  }

  lemma RangeCarries(low: real, high: real)
    requires low != high
    ensures Carrier(NullsBetween(low, high), NullsBetween(high, low), THRESHOLDS) == Some(RANGE)
  {
    var one, two := [Num(low), Num(high)], [Num(high), Num(low)];
    assert one[0] != two[0];
    assert THRESHOLDS[6] == RANGE;
    FirstChangeCarries(NullsBetween(low, high), NullsBetween(high, low), THRESHOLDS, 6);
  }

  /** To the diff, swapped limits are the same. */
  lemma SwappedRangeIsTheSame(low: real, high: real)
    ensures !Differs(Some(Obj(NullsBetween(low, high))), Some(Obj(NullsBetween(high, low))))
    ensures !Differs(Value(NullsBetween(low, high), RANGE), Value(NullsBetween(high, low), RANGE))
  {
    var f, g := NullsBetween(low, high), NullsBetween(high, low);
    SwappedItemsAreTheSame(Num(low), Num(high));
    forall k
      ensures !DiffersAt(f, g, k)
    {
    }
  }

  lemma {:induction false} NestedAlike(keys: seq<string>, a: Json, b: Json)
    requires !Differs(Some(a), Some(b))
    ensures !Differs(Some(Nest(keys, a)), Some(Nest(keys, b)))
  {
    if keys != [] {
      NestedAlike(keys[1..], a, b);
      var f, g := Nest(keys, a).fields, Nest(keys, b).fields;
      forall k
        ensures !DiffersAt(f, g, k)
      {
      }
    }
  }

  /** Where the diff sees no difference at all, there are no grades. */
  lemma NoDifferenceNoGrades(r: Run)
    requires IsRun(r) && r.before.Obj? && r.after.Obj? && !Differs(Some(r.before), Some(r.after))
    ensures r.grades == []
  {
    if r.grades != [] {
      var n, p, keys := PlaceOfGrade(r, 0);
      ItemOfGrade(r, 0, n, p, keys);
      DiffNeedsADifference(r, n);
    }
  }

  lemma DiffNeedsADifference(r: Run, n: nat)
    requires IsDiff(r.items, r.before, r.after) && n < |r.items| && r.items[n].kind != Changelog.OtherKind
    requires r.before.Obj? && r.after.Obj?
    ensures Differs(Some(r.before), Some(r.after))
  {
    assert PartsFor(r.items[n], r.before, r.after);
    var place :| Parts(r.before, r.after, place) && ReportsAt(r.items[n], r.before, r.after, place);
    DifferenceRises(r.before, r.after, place, [place[0]]);
    var root: seq<string> := [];
    OneKeyDeeper(r.before, r.after, root, place[0]);
    assert root + [place[0]] == [place[0]];
    assert DiffersAt(r.before.fields, r.after.fields, place[0]);
  }

  lemma RangeNames(low: real, high: real, p: string -> bool)
    requires p("metric") && p(RANGE)
    ensures AllNames(Obj(NullsBetween(low, high)), p) && NoNulls(Obj(NullsBetween(low, high)))
  {
    var limits := [Num(low), Num(high)];
    assert forall n :: 0 <= n < |limits| ==> AllNames(limits[n], p) && TextIs(limits[n], p);
    assert AllNames(Arr(limits), p);
  }

  lemma RangeContract(low: real, high: real, tree: Json)
    requires tree == Contract(NullsBetween(low, high))
    ensures Plain(tree) && HoldsRule(tree, OWNER, "q", NullsBetween(low, high)) && NoNullValues(NullsBetween(low, high))
    ensures tree.Obj?
  {
    RangeNames(low, high, IsPlain);
    KeysArePlain();
    NestHolds(RuleKeys(OWNER, "q"), Obj(NullsBetween(low, high)), IsPlain);
    PlainHoldsRule(tree, OWNER, "q", NullsBetween(low, high));
  }

  lemma SwappedRangeIsHeld(r: Run, low: real, high: real)
    requires r.before == Contract(NullsBetween(low, high)) && r.after == Contract(NullsBetween(high, low))
    ensures HoldsVersions(r, OWNER, "q", NullsBetween(low, high), NullsBetween(high, low))
    ensures LimitAt(NullsBetween(low, high), RANGE) && LimitAt(NullsBetween(high, low), RANGE)
  {
    RangeContract(low, high, r.before);
    RangeContract(high, low, r.after);
  }

  lemma SwappedRangeMoves(r: Run, low: real, high: real)
    requires r.before == Contract(NullsBetween(low, high)) && r.after == Contract(NullsBetween(high, low))
    requires ValidatesAnything(r.host) && low != high
    ensures MovesThreshold(r, OWNER, "q", NullsBetween(low, high), NullsBetween(high, low), RANGE)
  {
    SwappedRangeIsHeld(r, low, high);
    OwnerIsAProperty();
    RangeIsAGuarantee(r.host, low, high);
    RangeIsAGuarantee(r.host, high, low);
    RangeIsRead(r.host, low, high);
    RangeIsRead(r.host, high, low);
    RangeCarries(low, high);
  }

  lemma SwappedRangeTightens(host: Host, low: real, high: real)
    requires ValidatesAnything(host) && low < high && low == low.Floor as real
    ensures NumericThreshold(host, NullsBetween(low, high)) && NumericThreshold(host, NullsBetween(high, low))
    ensures TrueThresholdDirection(host, NullsBetween(low, high), NullsBetween(high, low)) == Tightens
  {
    RangeIsRead(host, low, high);
    RangeIsRead(host, high, low);
    var before := ThresholdOf(host, NullsBetween(low, high)).value;
    var after := ThresholdOf(host, NullsBetween(high, low)).value;
    LessIsTightening(before.Accepts(), after.Accepts(), CountsRows(host, NullsBetween(high, low)), low);
  }

  /**
   * `mustBeBetween` [1, 5] that becomes [5, 1] accepts nothing any more: the change tightens, it has a carrier,
   * and every run over the two contracts is empty, for the diff ignores the order of the limits.
   */
  lemma SwappedRangeIsSilent(r: Run, low: real, high: real)
    requires IsRun(r) && r.before == Contract(NullsBetween(low, high)) && r.after == Contract(NullsBetween(high, low))
    requires ValidatesAnything(r.host) && low < high && low == low.Floor as real
    ensures MovesThreshold(r, OWNER, "q", NullsBetween(low, high), NullsBetween(high, low), RANGE)
    ensures TrueThresholdDirection(r.host, NullsBetween(low, high), NullsBetween(high, low)) == Tightens
    ensures r.grades == []
  {
    SwappedRangeMoves(r, low, high);
    SwappedRangeTightens(r.host, low, high);
    RangeContract(low, high, r.before);
    RangeContract(high, low, r.after);
    SwappedRangeIsTheSame(low, high);
    NestedAlike(RuleKeys(OWNER, "q"), Obj(NullsBetween(low, high)), Obj(NullsBetween(high, low)));
    NoDifferenceNoGrades(r);
  }
}
