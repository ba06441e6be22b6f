/**
 * What an entry inside the arguments of a quality rule says about the datasets that pass it:
 * when a list of markers, valid values or key columns changes, the reported direction is compared
 * with the datasets the two versions accept.
 */
module Arguments {
  import opened Wrappers
  import opened JsonTrees
  import opened Breaking
  import opened NumberProbes
  import opened Thresholds
  import opened Paths
  import opened QualityRules
  import opened Guarantees
  import opened Datasets

  /** Two versions of a rule that differ only inside `keys`. */
  ghost predicate SameBut(before: Dict, after: Dict, keys: seq<string>) {
    NoNullValues(before) && NoNullValues(after) && forall k :: k !in keys ==> Get(before, k) == Get(after, k)
  }

  /** Two versions of a rule that differ only in the argument `name`. */
  ghost predicate SameButArgument(before: Dict, after: Dict, name: string) {
    SameBut(before, after, ["arguments"]) && forall k :: k != name ==> Argument(before, k) == Argument(after, k)
  }

  ghost predicate Guaranteed(host: Host, before: Dict, after: Dict, atProperty: bool) {
    IsGuarantee(host, before, atProperty) && IsGuarantee(host, after, atProperty) && NumericThreshold(host, after)
  }

  /** What `direction` claims about what two versions accept. Both and Undetermined claim nothing. */
  ghost predicate IsTrueOf<D(!new)>(direction: Direction, before: D -> bool, after: D -> bool) {
    match direction
    case Tightens => Includes(before, after)
    case Loosens => Includes(after, before)
    case Untested => Includes(before, after) && Includes(after, before)
    case _ => true
  }

  /** Whatever `part` accepts, `whole` accepts. */
  ghost predicate Includes<D(!new)>(whole: D -> bool, part: D -> bool) {
    forall d :: part(d) ==> whole(d)
  }

  lemma ThresholdStays(host: Host, before: Dict, after: Dict, keys: seq<string>)
    requires SameBut(before, after, keys) && (forall k :: k in keys ==> k !in THRESHOLDS && k != "unit")
    ensures ThresholdOf(host, before) == ThresholdOf(host, after) && IsPercent(host, before) == IsPercent(host, after)
    ensures UnitRaises(host, before) == UnitRaises(host, after)
  {
    forall k | k in THRESHOLDS
      ensures Get(before, k) == Get(after, k)
    {
    }
    RestrictReadsKeys(before, after, THRESHOLDS);
  }

  /** Versions that differ only inside their arguments have numeric thresholds both or neither. */
  lemma NumericBoth(host: Host, before: Dict, after: Dict)
    requires SameBut(before, after, ["arguments"])
    ensures NumericThreshold(host, before) <==> NumericThreshold(host, after)
  {
    ArgumentsAreNoThreshold();
    ThresholdStays(host, before, after, ["arguments"]);
  }

  lemma ArgumentsAreNoThreshold()
    ensures "arguments" !in THRESHOLDS && "metric" !in THRESHOLDS
  {
    assert forall n :: 0 <= n < |THRESHOLDS| ==> THRESHOLDS[n][1] == 'u';
    assert "metric"[1] == 'e' && "arguments"[1] == 'r';
  }

  // ---------------------------------------------------------------- Columns

  function MeasureColumn(engine: Engine, host: Host, rule: Dict): Column -> real {
    column => Measured(engine, Count(Bad(engine, rule), column), |column|, IsPercent(host, rule))
  }

  /** The columns that pass a rule. */
  ghost function PassingColumns(engine: Engine, host: Host, rule: Dict): Column -> bool
    requires NumericThreshold(host, rule)
  {
    column => ThresholdOf(host, rule).value.Passes(MeasureColumn(engine, host, rule)(column))
  }

  /** A version that counts at least as many bad values, judged by the rule's own threshold. */
  lemma CountingMoreIsTold(engine: Engine, host: Host, before: Dict, after: Dict, more: bool)
    requires engine.KeepsOrder() && NumericThreshold(host, before) && NumericThreshold(host, after)
    requires ThresholdOf(host, before) == ThresholdOf(host, after) && IsPercent(host, before) == IsPercent(host, after)
    requires forall v ::
      if more then Bad(engine, before)(v) ==> Bad(engine, after)(v)
      else Bad(engine, after)(v) ==> Bad(engine, before)(v)
    ensures var grading := RuleCountDirection(host, after, more);
      && grading == Graded(TrueCountDirection(ThresholdOf(host, after).value.Accepts(), !IsPercent(host, after), more))
      && IsTrueOf(grading.direction, PassingColumns(engine, host, before), PassingColumns(engine, host, after))
  {
    var t, integers := ThresholdOf(host, after).value, !IsPercent(host, after);
    CountDirectionIsExact(t, integers, more);
    var direction := TrueCountDirection(t.Accepts(), integers, more);
    var m1, m2 := MeasureColumn(engine, host, before), MeasureColumn(engine, host, after);
    forall column: Column
      ensures IsCount(m1(column), integers) && IsCount(m2(column), integers)
      ensures if more then m1(column) <= m2(column) else m2(column) <= m1(column)
    {
      MeasuresInOrder(engine, host, before, after, more, column);
    }
    CountDirectionIsInclusion(t, integers, more, m1, m2, direction);
  }

  lemma MeasuresInOrder(engine: Engine, host: Host, before: Dict, after: Dict, more: bool, column: Column)
    requires engine.KeepsOrder() && IsPercent(host, before) == IsPercent(host, after)
    requires forall v ::
      if more then Bad(engine, before)(v) ==> Bad(engine, after)(v)
      else Bad(engine, after)(v) ==> Bad(engine, before)(v)
    ensures var x, y := MeasureColumn(engine, host, before)(column), MeasureColumn(engine, host, after)(column);
      && IsCount(x, !IsPercent(host, after)) && IsCount(y, !IsPercent(host, after))
      && if more then x <= y else y <= x
  {
    var one, two, percent := Bad(engine, before), Bad(engine, after), IsPercent(host, after);
    if more {
      WiderCountsMore(one, two, column);
      MeasuredKeepsOrder(engine, Count(one, column), Count(two, column), |column|, percent);
    } else {
      WiderCountsMore(two, one, column);
      MeasuredKeepsOrder(engine, Count(two, column), Count(one, column), |column|, percent);
    }
  }

  /** An entry below `arguments` that concerns the argument `name`. */
  predicate Concerns(field: string, name: string) {
    BeforeFirst(field, ".") == "arguments" && ArgumentOf(field) == Some(name) && field != ""
  }

  /** The rule's answer for an entry of an argument that it counts with. */
  lemma CountingArgumentIsCounted(
      host: Host, before: Dict, after: Dict, kind: ChangeType, field: string, name: string, atProperty: bool)
    requires Guaranteed(host, before, after, atProperty) && SameButArgument(before, after, name)
    requires Concerns(field, name) && CountingArgument(Get(after, "metric"), name).Some? && !kind.Updated?
    requires IsLibrary(after)
    ensures QualityDirection(host, before, after, kind, field, atProperty)
         == RuleCountDirection(host, after, CountingArgument(Get(after, "metric"), name).value == kind.Added?)
  {
  }

  /** The rule's answer for the whole block of arguments of a missingValues rule. */
  lemma WholeBlockIsCounted(host: Host, before: Dict, after: Dict, kind: ChangeType)
    requires Guaranteed(host, before, after, true) && IsLibrary(after)
    requires Get(before, "metric") == Get(after, "metric") == Text("missingValues")
    ensures QualityDirection(host, before, after, kind, "arguments", true)
      == RuleCountDirection(host, after, kind.Added?)
  {
    BeforeNoDot("arguments");
  }

  /** The rule's answer for the metric itself. */
  lemma MetricIsCounted(host: Host, before: Dict, after: Dict, kind: ChangeType)
    requires Guaranteed(host, before, after, true) && SwapsNullAndMissing(before, after)
    ensures QualityDirection(host, before, after, kind, "metric", true) == MetricDirection(host, before, after)
  {
    BeforeNoDot("metric");
    ArgumentsAreNoThreshold();
  }

  /** Every value that version `one` lists under `name` is listed by version `two`. */
  ghost predicate ListsNoMore(one: Dict, two: Dict, name: string) {
    forall v :: Lists(one, name, v) ==> Lists(two, name, v)
  }

  lemma MoreMarkersMissMore(engine: Engine, one: Dict, two: Dict)
    requires Get(one, "metric") == Get(two, "metric") == Text("missingValues") && ListsNoMore(one, two, "missingValues")
    ensures forall v :: Bad(engine, one)(v) ==> Bad(engine, two)(v)
  {
  }

  /** Markers added to a missingValues rule, or removed: what is reported is what happens to the columns that pass. */
  lemma MarkerEntriesAreTrue(
      engine: Engine, host: Host, before: Dict, after: Dict, kind: ChangeType, field: string)
    requires engine.KeepsOrder() && Guaranteed(host, before, after, true) && IsLibrary(after)
    requires SameButArgument(before, after, "missingValues") && Get(after, "metric") == Text("missingValues")
    requires Concerns(field, "missingValues") || field == "arguments"
    requires (kind.Added? && ListsNoMore(before, after, "missingValues"))
      || (kind.Removed? && ListsNoMore(after, before, "missingValues"))
    ensures NumericThreshold(host, before)
    ensures var grading := QualityDirection(host, before, after, kind, field, true);
      && grading == Graded(TrueCountDirection(ThresholdOf(host, after).value.Accepts(), !IsPercent(host, after),
        kind.Added?))
      && IsTrueOf(grading.direction, PassingColumns(engine, host, before), PassingColumns(engine, host, after))
  {
    ArgumentsAreNoThreshold();
    ThresholdStays(host, before, after, ["arguments"]);
    if kind.Added? {
      MoreMarkersMissMore(engine, before, after);
    } else {
      MoreMarkersMissMore(engine, after, before);
    }
    CountingMoreIsTold(engine, host, before, after, kind.Added?);
    if field == "arguments" {
      WholeBlockIsCounted(host, before, after, kind);
    } else {
      CountingArgumentIsCounted(host, before, after, kind, field, "missingValues", true);
    }
  }

  /** Valid values added to a list, or removed from it: what is reported is what happens. */
  lemma ValidValueEntriesAreTrue(
      engine: Engine, host: Host, before: Dict, after: Dict, kind: ChangeType, field: string)
    requires engine.KeepsOrder() && Guaranteed(host, before, after, true) && IsLibrary(after)
    requires SameButArgument(before, after, "validValues") && Get(after, "metric") == Text("invalidValues")
    requires Argument(before, "validValues") != Null && Argument(after, "validValues") != Null
    requires Concerns(field, "validValues")
    requires (kind.Added? && ListsNoMore(before, after, "validValues"))
      || (kind.Removed? && ListsNoMore(after, before, "validValues"))
    ensures NumericThreshold(host, before)
    ensures var grading := QualityDirection(host, before, after, kind, field, true);
      && grading == Graded(TrueCountDirection(ThresholdOf(host, after).value.Accepts(), !IsPercent(host, after),
        kind.Removed?))
      && IsTrueOf(grading.direction, PassingColumns(engine, host, before), PassingColumns(engine, host, after))
  {
    ArgumentsAreNoThreshold();
    ThresholdStays(host, before, after, ["arguments"]);
    CountingMoreIsTold(engine, host, before, after, kind.Removed?);
    CountingArgumentIsCounted(host, before, after, kind, field, "validValues", true);
  }

  // ---------------------------------------------------------------- Lists that gain and lose values

  /** `name` is the list that the rule counts with, in both versions. */
  ghost predicate IsCountedList(before: Dict, after: Dict, name: string) {
    && SameButArgument(before, after, name)
    && (|| (Get(after, "metric") == Text("missingValues") && name == "missingValues")
        || (&& Get(after, "metric") == Text("invalidValues") && name == "validValues"
            && Argument(before, name) != Null && Argument(after, name) != Null))
  }

  /** An entry of the list says that the contract moves in direction `d`: one of a new value, or of a lost one. */
  ghost predicate ListSays(host: Host, before: Dict, after: Dict, name: string, field: string, d: Direction) {
    || (!ListsNoMore(after, before, name)
      && QualityDirection(host, before, after, Added, field, true) in [Graded(d), Graded(Both)])
    || (!ListsNoMore(before, after, name)
      && QualityDirection(host, before, after, Removed, field, true) in [Graded(d), Graded(Both)])
  }

  lemma ListEntryIsCounted(host: Host, before: Dict, after: Dict, name: string, field: string, kind: ChangeType)
    requires Guaranteed(host, before, after, true) && IsLibrary(after) && IsCountedList(before, after, name)
    requires Concerns(field, name) && !kind.Updated?
    ensures QualityDirection(host, before, after, kind, field, true)
         == Graded(TrueCountDirection(ThresholdOf(host, after).value.Accepts(), !IsPercent(host, after),
                                      (name == "missingValues") == kind.Added?))
  {
    CountingArgumentIsCounted(host, before, after, kind, field, name, true);
    var more := (name == "missingValues") == kind.Added?;
    CountDirectionIsExact(ThresholdOf(host, after).value, !IsPercent(host, after), more);
  }

  lemma ListEntryIsTrue(
      engine: Engine, host: Host, before: Dict, after: Dict, name: string, field: string, kind: ChangeType)
    requires engine.KeepsOrder() && Guaranteed(host, before, after, true) && IsLibrary(after)
    requires IsCountedList(before, after, name) && Concerns(field, name)
    requires (kind.Added? && ListsNoMore(before, after, name)) || (kind.Removed? && ListsNoMore(after, before, name))
    ensures NumericThreshold(host, before)
    ensures var grading := QualityDirection(host, before, after, kind, field, true);
      grading.Graded? && IsTrueOf(grading.direction, PassingColumns(engine, host, before),
        PassingColumns(engine, host, after))
  {
    if name == "missingValues" {
      MarkerEntriesAreTrue(engine, host, before, after, kind, field);
    } else {
      ValidValueEntriesAreTrue(engine, host, before, after, kind, field);
    }
  }

  /** A threshold that is the same for all measures of a column tells no two versions apart. */
  lemma ConstantTellsNothing(engine: Engine, host: Host, before: Dict, after: Dict, column: Column)
    requires engine.KeepsOrder() && NumericThreshold(host, before) && NumericThreshold(host, after)
    requires ThresholdOf(host, before) == ThresholdOf(host, after) && IsPercent(host, before) == IsPercent(host, after)
    requires Constant(ThresholdOf(host, after).value.Accepts(), !IsPercent(host, after))
    ensures PassingColumns(engine, host, before)(column) == PassingColumns(engine, host, after)(column)
  {
    var t, integers := ThresholdOf(host, after).value, !IsPercent(host, after);
    var x, y := MeasureColumn(engine, host, before)(column), MeasureColumn(engine, host, after)(column);
    MeasureIsACount(engine, host, before, column);
    MeasureIsACount(engine, host, after, column);
    assert t.Accepts()(x) == t.Accepts()(y);
  }

  lemma MeasureIsACount(engine: Engine, host: Host, rule: Dict, column: Column)
    requires IsPercent(host, rule) ==> engine.KeepsOrder()
    ensures IsCount(MeasureColumn(engine, host, rule)(column), !IsPercent(host, rule))
  {
    MeasuredKeepsOrder(engine, 0, Count(Bad(engine, rule), column), |column|, IsPercent(host, rule));
  }

  /** Some column passes the one version and not the other. */
  ghost predicate LosesColumns(engine: Engine, host: Host, one: Dict, two: Dict)
    requires NumericThreshold(host, one) && NumericThreshold(host, two)
  {
    !Includes(PassingColumns(engine, host, two), PassingColumns(engine, host, one))
  }

  /**
   * Whatever values a list gains and loses at once: if a column passes no longer, an entry of the list says
   * that the contract tightens, and if one passes that did not, an entry says that it loosens.
   */
  lemma ListChangesAreCovered(engine: Engine, host: Host, before: Dict, after: Dict, name: string, field: string)
    requires engine.KeepsOrder() && Guaranteed(host, before, after, true) && NumericThreshold(host, before)
    requires IsLibrary(after)
    requires IsCountedList(before, after, name) && Concerns(field, name)
    ensures LosesColumns(engine, host, before, after) ==> ListSays(host, before, after, name, field, Tightens)
    ensures LosesColumns(engine, host, after, before) ==> ListSays(host, before, after, name, field, Loosens)
  {
    if ListsNoMore(before, after, name) {
      ListEntryIsTrue(engine, host, before, after, name, field, Added);
      ListEntryIsCounted(host, before, after, name, field, Added);
    }
    if ListsNoMore(after, before, name) {
      ListEntryIsTrue(engine, host, before, after, name, field, Removed);
      ListEntryIsCounted(host, before, after, name, field, Removed);
    }
    if ListsNoMore(before, after, name) && ListsNoMore(after, before, name) {
      SameListsCountAlike(engine, host, before, after, name);
    } else if !ListsNoMore(before, after, name) && !ListsNoMore(after, before, name) {
      BothEntriesCover(engine, host, before, after, name, field);
    }
  }

  lemma SameListsCountAlike(engine: Engine, host: Host, before: Dict, after: Dict, name: string)
    requires NumericThreshold(host, before) && NumericThreshold(host, after) && IsCountedList(before, after, name)
    requires ListsNoMore(before, after, name) && ListsNoMore(after, before, name)
    ensures !LosesColumns(engine, host, before, after) && !LosesColumns(engine, host, after, before)
  {
    ArgumentsAreNoThreshold();
    ThresholdStays(host, before, after, ["arguments"]);
    forall column: Column
      ensures PassingColumns(engine, host, before)(column) == PassingColumns(engine, host, after)(column)
    {
      SameCounts(Bad(engine, before), Bad(engine, after), column);
      assert MeasureColumn(engine, host, before)(column) == MeasureColumn(engine, host, after)(column);
    }
  }

  lemma BothEntriesCover(engine: Engine, host: Host, before: Dict, after: Dict, name: string, field: string)
    requires engine.KeepsOrder() && Guaranteed(host, before, after, true) && NumericThreshold(host, before)
    requires IsLibrary(after)
    requires IsCountedList(before, after, name) && Concerns(field, name)
    requires !ListsNoMore(before, after, name) && !ListsNoMore(after, before, name)
    ensures LosesColumns(engine, host, before, after) || LosesColumns(engine, host, after, before) ==>
      ListSays(host, before, after, name, field, Tightens) && ListSays(host, before, after, name, field, Loosens)
  {
    var accepts, integers := ThresholdOf(host, after).value.Accepts(), !IsPercent(host, after);
    if Constant(accepts, integers) {
      ConstantTellsNoColumns(engine, host, before, after, name);
    } else {
      ListEntryIsCounted(host, before, after, name, field, Added);
      ListEntryIsCounted(host, before, after, name, field, Removed);
      OppositeEntriesSayBoth(accepts, integers);
    }
  }

  /** Counting more and counting fewer are told apart, or said to go both ways. */
  lemma OppositeEntriesSayBoth(accepts: real -> bool, integers: bool)
    requires !Constant(accepts, integers)
    ensures var one, two := TrueCountDirection(accepts, integers, true), TrueCountDirection(accepts, integers, false);
      one == two == Both || (one == Tightens && two == Loosens) || (one == Loosens && two == Tightens)
  {
  }

  lemma ConstantTellsNoColumns(engine: Engine, host: Host, before: Dict, after: Dict, name: string)
    requires engine.KeepsOrder() && NumericThreshold(host, before) && NumericThreshold(host, after)
    requires SameButArgument(before, after, name)
    requires Constant(ThresholdOf(host, after).value.Accepts(), !IsPercent(host, after))
    ensures !LosesColumns(engine, host, before, after) && !LosesColumns(engine, host, after, before)
  {
    ArgumentsAreNoThreshold();
    ThresholdStays(host, before, after, ["arguments"]);
    forall column: Column
      ensures PassingColumns(engine, host, before)(column) == PassingColumns(engine, host, after)(column)
    {
      ConstantTellsNothing(engine, host, before, after, column);
    }
  }

  /**
   * Between nullValues and missingValues, in either direction, with markers that can be read: the entry of the
   * metric reports what happens.
   */
  lemma MetricEntryIsTrue(engine: Engine, host: Host, before: Dict, after: Dict, kind: ChangeType)
    requires engine.KeepsOrder() && Guaranteed(host, before, after, true)
    requires SameBut(before, after, ["metric", "arguments"]) && SwapsNullAndMissing(before, after)
    requires !MarkersRaise(if Get(after, "metric") == Text("missingValues") then after else before)
    ensures NumericThreshold(host, before)
    ensures var grading := QualityDirection(host, before, after, kind, "metric", true);
      grading.Graded? && IsTrueOf(grading.direction, PassingColumns(engine, host, before),
        PassingColumns(engine, host, after))
  {
    ArgumentsAreNoThreshold();
    ThresholdStays(host, before, after, ["metric", "arguments"]);
    var toMissing := Get(after, "metric") == Text("missingValues");
    CountingMoreIsTold(engine, host, before, after, toMissing);
    MetricIsCounted(host, before, after, kind);
    if !HasMarkers(if toMissing then after else before) {
      NoMarkersCountNulls(engine, host, before, after);
    }
  }

  /** Without markers the two metrics count the same values. */
  lemma NoMarkersCountNulls(engine: Engine, host: Host, before: Dict, after: Dict)
    requires NumericThreshold(host, before) && NumericThreshold(host, after)
    requires ThresholdOf(host, before) == ThresholdOf(host, after)
    requires IsPercent(host, before) == IsPercent(host, after) && SwapsNullAndMissing(before, after)
    requires !HasMarkers(if Get(after, "metric") == Text("missingValues") then after else before)
    ensures IsTrueOf(Untested, PassingColumns(engine, host, before), PassingColumns(engine, host, after))
  {
    forall column: Column
      ensures PassingColumns(engine, host, before)(column) == PassingColumns(engine, host, after)(column)
    {
      NoMarkersListNothing(if Get(after, "metric") == Text("missingValues") then after else before);
      SameCounts(Bad(engine, before), Bad(engine, after), column);
      assert MeasureColumn(engine, host, before)(column) == MeasureColumn(engine, host, after)(column);
    }
  }

  lemma NoMarkersListNothing(rule: Dict)
    requires !HasMarkers(rule)
    ensures forall v :: !Lists(rule, "missingValues", v)
  {
  }

  // ---------------------------------------------------------------- A list of valid values beside a pattern

  /** A rule with a pattern and with valid values, and the same rule without the valid values. */
  ghost predicate DropsValidValues(limited: Dict, open: Dict) {
    && SameButArgument(limited, open, "validValues") && Get(limited, "metric") == Text("invalidValues")
    && Argument(limited, "validValues").Arr? && Argument(open, "validValues") == Null
      && Argument(open, "pattern") != Null
  }

  /** A value that fits the pattern and is not listed. */
  ghost predicate OnlyFits(engine: Engine, limited: Dict, v: Json) {
    v != Null && engine.matches(Argument(limited, "pattern"), v) && !Lists(limited, "validValues", v)
  }

  lemma LimitedCountsMore(engine: Engine, limited: Dict, open: Dict)
    requires DropsValidValues(limited, open)
    ensures forall v :: Bad(engine, open)(v) ==> Bad(engine, limited)(v)
    ensures forall v :: Bad(engine, limited)(v) && !Bad(engine, open)(v) <==> OnlyFits(engine, limited, v)
  {
  }

  /** In a column of `n` rows, `a` copies of a value that fits only count for the one rule and not for the other. */
  lemma CopiesTellApart(engine: Engine, host: Host, limited: Dict, open: Dict, v: Json, a: nat, n: nat)
    requires DropsValidValues(limited, open) && OnlyFits(engine, limited, v) && a <= n
    ensures MeasureColumn(engine, host, limited)(Padded(v, a, n)) == Measured(engine, a, n, IsPercent(host, limited))
    ensures MeasureColumn(engine, host, open)(Padded(v, a, n)) == Measured(engine, 0, n, IsPercent(host, open))
  {
    LimitedCountsMore(engine, limited, open);
    CountPadded(Bad(engine, limited), v, a, n);
    CountPadded(Bad(engine, open), v, a, n);
  }

  /** Of `n` rows, `a` bad ones are judged unlike none. */
  ghost predicate ShareDiffers(engine: Engine, t: Threshold, percent: bool, a: nat, n: nat)
    requires t.Numeric()
  {
    a <= n && t.Passes(Measured(engine, a, n, percent)) != t.Passes(Measured(engine, 0, n, percent))
  }

  ghost predicate SomeShareDiffers(engine: Engine, t: Threshold, percent: bool)
    requires t.Numeric()
  {
    exists a: nat, n: nat :: ShareDiffers(engine, t, percent, a, n)
  }

  /** A threshold that is not the same for all counts has a count that it judges unlike none. */
  lemma SomeCountDiffers(engine: Engine, t: Threshold)
    requires t.Numeric() && !Constant(t.Accepts(), true)
    ensures SomeShareDiffers(engine, t, false)
  {
    var accepts := t.Accepts();
    var x, y :| IsCount(x, true) && IsCount(y, true) && accepts(x) != accepts(y);
    assert x.Floor as real == x && y.Floor as real == y;
    var n := if accepts(x) != accepts(0.0) then x.Floor else y.Floor;
    assert ShareDiffers(engine, t, false, n, n);
  }

  /** The direction reported if version `fewer` is taken to count fewer bad rows than version `more` is a true one. */
  ghost predicate ClaimHolds<D(!new)>(t: Threshold, integers: bool, removed: bool, fewer: D -> bool, more: D -> bool)
    requires t.Numeric()
  {
    var direction := TrueCountDirection(t.Accepts(), integers, removed);
    if removed then IsTrueOf(direction, fewer, more) else IsTrueOf(direction, more, fewer)
  }

  /** A tightening or loosening. */
  ghost predicate MakesAClaim(t: Threshold, integers: bool, removed: bool)
    requires t.Numeric()
  {
    TrueCountDirection(t.Accepts(), integers, removed) in [Tightens, Loosens]
  }

  lemma ClaimMeans<D(!new)>(t: Threshold, integers: bool, removed: bool, fewer: D -> bool, more: D -> bool)
    requires t.Numeric() && MakesAClaim(t, integers, removed)
    ensures !Constant(t.Accepts(), integers) && (Antitone(t.Accepts(), integers) || Monotone(t.Accepts(), integers))
    ensures ClaimHolds(t, integers, removed, fewer, more) <==>
      if Antitone(t.Accepts(), integers) then Includes(fewer, more) else Includes(more, fewer)
  {
    ClaimCases(t.Accepts(), integers, removed);
  }

  lemma ClaimCases(accepts: real -> bool, integers: bool, removed: bool)
    requires TrueCountDirection(accepts, integers, removed) in [Tightens, Loosens]
    ensures !Constant(accepts, integers) && (Antitone(accepts, integers) || Monotone(accepts, integers))
    ensures TrueCountDirection(accepts, integers, removed)
         == if Antitone(accepts, integers) == removed then Tightens else Loosens
  {
  }

  predicate PassesCount(t: Threshold, n: nat)
    requires t.Numeric()
  {
    t.Passes(n as real)
  }

  lemma TurnsOneWay(t: Threshold, integers: bool, few: real, many: real)
    requires t.Numeric() && IsCount(few, integers) && IsCount(many, integers)
    requires few <= many && t.Passes(few) != t.Passes(many)
    ensures Antitone(t.Accepts(), integers) ==> t.Passes(few)
    ensures Monotone(t.Accepts(), integers) ==> t.Passes(many)
  {
    var accepts := t.Accepts();
    assert accepts(few) == t.Passes(few) && accepts(many) == t.Passes(many);
  }

  /** Two measures that the threshold judges differently break the claim that the larger one is the smaller. */
  lemma ClaimIsBroken<D(!new)>(
      t: Threshold, integers: bool, removed: bool, fewer: D -> bool, more: D -> bool, d: D, few: real, many: real)
    requires t.Numeric() && MakesAClaim(t, integers, removed) && IsCount(few, integers) && IsCount(many, integers)
    requires few <= many && t.Passes(few) != t.Passes(many)
    requires fewer(d) == t.Passes(many) && more(d) == t.Passes(few)
    ensures !ClaimHolds(t, integers, removed, fewer, more)
  {
    ClaimMeans(t, integers, removed, fewer, more);
    TurnsOneWay(t, integers, few, many);
  }

  /** A value that fits only shows that the claim is wrong, if enough of it is judged unlike none. */
  lemma UnlistedValueBreaksTheClaim(engine: Engine, host: Host, limited: Dict, open: Dict, removed: bool, v: Json)
    requires IsPercent(host, open) ==> engine.KeepsOrder()
    requires NumericThreshold(host, limited) && NumericThreshold(host, open) && DropsValidValues(limited, open)
    requires ThresholdOf(host, limited) == ThresholdOf(host, open) && IsPercent(host, limited) == IsPercent(host, open)
    requires MakesAClaim(ThresholdOf(host, open).value, !IsPercent(host, open), removed) && OnlyFits(engine, limited, v)
    requires SomeShareDiffers(engine, ThresholdOf(host, open).value, IsPercent(host, open))
    ensures !ClaimHolds(ThresholdOf(host, open).value, !IsPercent(host, open), removed,
                        PassingColumns(engine, host, limited), PassingColumns(engine, host, open))
  {
    var t, percent := ThresholdOf(host, open).value, IsPercent(host, open);
    var fewer, more := PassingColumns(engine, host, limited), PassingColumns(engine, host, open);
    var a: nat, n: nat :| ShareDiffers(engine, t, percent, a, n);
    CopiesTellApart(engine, host, limited, open, v, a, n);
    MeasureIsACount(engine, host, limited, Padded(v, a, n));
    MeasureIsACount(engine, host, open, Padded(v, a, n));
    MeasuredKeepsOrder(engine, 0, a, n, percent);
    ClaimIsBroken(t, !percent, removed, fewer, more, Padded(v, a, n), Measured(engine, 0, n, percent),
      Measured(engine, a, n, percent));
  }

  /**
   * Adding a list of valid values to a rule with a pattern, or removing it, is reported as if one more
   * value became valid or invalid. A reported tightening or loosening is true exactly if every value that
   * fits the pattern is in the list, so that the list changes nothing, or the threshold judges any share of
   * bad rows like none.
   */
  lemma WholeValidValuesAreMistaken(engine: Engine, host: Host, limited: Dict, open: Dict, removed: bool, field: string)
    requires IsPercent(host, open) ==> engine.KeepsOrder()
    requires Guaranteed(host, limited, open, true) && NumericThreshold(host, limited) && DropsValidValues(limited, open)
    requires IsLibrary(open) && Concerns(field, "validValues")
    requires ValidValuesDirection(host, limited, open, removed, field) in [Graded(Tightens), Graded(Loosens)]
    ensures var d, with', without := ValidValuesDirection(host, limited, open, removed, field).direction,
              PassingColumns(engine, host, limited), PassingColumns(engine, host, open);
      (if removed then IsTrueOf(d, with', without) else IsTrueOf(d, without, with'))
        <==> !(exists v :: OnlyFits(engine, limited, v))
             || !SomeShareDiffers(engine, ThresholdOf(host, open).value, IsPercent(host, open))
  {
    ValidValuesAreCounted(host, limited, open, removed, field);
    if !SomeShareDiffers(engine, ThresholdOf(host, open).value, IsPercent(host, open)) {
      SharesAreJudgedAlike(engine, host, limited, open);
    } else if v :| OnlyFits(engine, limited, v) {
      UnlistedValueBreaksTheClaim(engine, host, limited, open, removed, v);
    } else {
      NothingFitsAlone(engine, host, limited, open);
    }
  }

  lemma SharesAreJudgedAlike(engine: Engine, host: Host, limited: Dict, open: Dict)
    requires NumericThreshold(host, limited) && NumericThreshold(host, open)
    requires ThresholdOf(host, limited) == ThresholdOf(host, open) && IsPercent(host, limited) == IsPercent(host, open)
    requires !SomeShareDiffers(engine, ThresholdOf(host, open).value, IsPercent(host, open))
    ensures Includes(PassingColumns(engine, host, limited), PassingColumns(engine, host, open))
    ensures Includes(PassingColumns(engine, host, open), PassingColumns(engine, host, limited))
  {
    var t, percent := ThresholdOf(host, open).value, IsPercent(host, open);
    forall column: Column
      ensures PassingColumns(engine, host, limited)(column) == PassingColumns(engine, host, open)(column)
    {
      ShareIsJudgedLikeNone(engine, host, limited, t, percent, column);
      ShareIsJudgedLikeNone(engine, host, open, t, percent, column);
    }
  }

  lemma ShareIsJudgedLikeNone(engine: Engine, host: Host, rule: Dict, t: Threshold, percent: bool, column: Column)
    requires t.Numeric() && !SomeShareDiffers(engine, t, percent) && IsPercent(host, rule) == percent
    ensures t.Passes(MeasureColumn(engine, host, rule)(column)) == t.Passes(Measured(engine, 0, |column|, percent))
  {
    assert !ShareDiffers(engine, t, percent, Count(Bad(engine, rule), column), |column|);
  }

  /** For a rule that counts rows, only the values that fit matter. */
  lemma CountedListsAreMistaken(engine: Engine, host: Host, limited: Dict, open: Dict, removed: bool, field: string)
    requires Guaranteed(host, limited, open, true) && NumericThreshold(host, limited) && DropsValidValues(limited, open)
    requires IsLibrary(open) && Concerns(field, "validValues") && !IsPercent(host, open)
    requires ValidValuesDirection(host, limited, open, removed, field) in [Graded(Tightens), Graded(Loosens)]
    ensures var d, with', without := ValidValuesDirection(host, limited, open, removed, field).direction,
              PassingColumns(engine, host, limited), PassingColumns(engine, host, open);
      (if removed then IsTrueOf(d, with', without) else IsTrueOf(d, without, with'))
        <==> !exists v :: OnlyFits(engine, limited, v)
  {
    CountsDiffer(engine, host, limited, open, removed, field);
    WholeValidValuesAreMistaken(engine, host, limited, open, removed, field);
  }

  lemma CountsDiffer(engine: Engine, host: Host, limited: Dict, open: Dict, removed: bool, field: string)
    requires Guaranteed(host, limited, open, true) && NumericThreshold(host, limited) && DropsValidValues(limited, open)
    requires IsLibrary(open) && Concerns(field, "validValues") && !IsPercent(host, open)
    requires ValidValuesDirection(host, limited, open, removed, field) in [Graded(Tightens), Graded(Loosens)]
    ensures SomeShareDiffers(engine, ThresholdOf(host, open).value, false)
  {
    var t := ThresholdOf(host, open).value;
    ValidValuesAreCounted(host, limited, open, removed, field);
    assert MakesAClaim(t, true, removed);
    ClaimCases(t.Accepts(), true, removed);
    SomeCountDiffers(engine, t);
  }

  /** What the entry of the list reports: `removed` from `limited` to `open`, or added the other way. */
  function ValidValuesDirection(host: Host, limited: Dict, open: Dict, removed: bool, field: string): Grading {
    if removed then QualityDirection(host, limited, open, Removed, field, true)
    else QualityDirection(host, open, limited, Added, field, true)
  }

  lemma ValidValuesAreCounted(host: Host, limited: Dict, open: Dict, removed: bool, field: string)
    requires Guaranteed(host, limited, open, true) && NumericThreshold(host, limited) && DropsValidValues(limited, open)
    requires IsLibrary(open) && Concerns(field, "validValues")
    ensures ValidValuesDirection(host, limited, open, removed, field)
         == Graded(TrueCountDirection(ThresholdOf(host, open).value.Accepts(), !IsPercent(host, open), removed))
    ensures ThresholdOf(host, limited) == ThresholdOf(host, open) && IsPercent(host, limited) == IsPercent(host, open)
  {
    ArgumentsAreNoThreshold();
    ThresholdStays(host, limited, open, ["arguments"]);
    CountDirectionIsExact(ThresholdOf(host, open).value, !IsPercent(host, open), removed);
    if removed {
      CountingArgumentIsCounted(host, limited, open, Removed, field, "validValues", true);
    } else {
      CountingArgumentIsCounted(host, open, limited, Added, field, "validValues", true);
    }
  }

  lemma NothingFitsAlone(engine: Engine, host: Host, limited: Dict, open: Dict)
    requires NumericThreshold(host, limited) && NumericThreshold(host, open) && DropsValidValues(limited, open)
    requires ThresholdOf(host, limited) == ThresholdOf(host, open) && IsPercent(host, limited) == IsPercent(host, open)
    requires !exists v :: OnlyFits(engine, limited, v)
    ensures Includes(PassingColumns(engine, host, limited), PassingColumns(engine, host, open))
    ensures Includes(PassingColumns(engine, host, open), PassingColumns(engine, host, limited))
  {
    LimitedCountsMore(engine, limited, open);
    forall column: Column
      ensures PassingColumns(engine, host, limited)(column) == PassingColumns(engine, host, open)(column)
    {
      SameCounts(Bad(engine, limited), Bad(engine, open), column);
      assert MeasureColumn(engine, host, limited)(column) == MeasureColumn(engine, host, open)(column);
    }
  }

  // ---------------------------------------------------------------- The columns of a duplicateValues rule

  /** The columns a schema-level rule checks together. */
  ghost predicate ChecksTogether(rule: Dict, columns: seq<string>) {
    && columns != [] && Argument(rule, "properties").Arr? && |Argument(rule, "properties").items| == |columns|
    && forall n :: 0 <= n < |columns| ==> Argument(rule, "properties").items[n] == Text(columns[n])
  }

  /** The tables that pass a rule on `columns`. */
  ghost function PassingTables(host: Host, rule: Dict, columns: seq<string>): Table -> bool
    requires NumericThreshold(host, rule)
  {
    table => ThresholdOf(host, rule).value.Passes(Duplicates(columns, table) as real)
  }

  /** Every positive number of duplicates is judged alike. */
  ghost predicate OnlyAsksForDuplicates(t: Threshold)
    requires t.Numeric()
  {
    forall n: nat :: n > 0 ==> PassesCount(t, n) == PassesCount(t, 1)
  }

  lemma JudgedAlike(t: Threshold, narrow: nat, wide: nat)
    requires t.Numeric() && OnlyAsksForDuplicates(t) && (wide > 0 ==> narrow > 0)
    ensures Antitone(t.Accepts(), true) ==> PassesCount(t, narrow) ==> PassesCount(t, wide)
    ensures Monotone(t.Accepts(), true) ==> PassesCount(t, wide) ==> PassesCount(t, narrow)
  {
    if PassesCount(t, narrow) != PassesCount(t, wide) {
      assert wide == 0 < narrow;
      TurnsOneWay(t, true, wide as real, narrow as real);
    }
  }

  /** Two versions of a schema-level rule, the one on more columns than the other. */
  ghost predicate WidensKey(narrow: Dict, wide: Dict, columns: seq<string>, more: seq<string>) {
    && SameButArgument(narrow, wide, "properties") && Get(narrow, "metric") == Text("duplicateValues")
    && ChecksTogether(narrow, columns) && ChecksTogether(wide, more)
    && (forall c :: c in columns ==> c in more) && exists c :: c in more && c !in columns
  }

  /** What the entry of a column reports: `removed` from `wide` to `narrow`, or added the other way. */
  function KeyColumnDirection(host: Host, narrow: Dict, wide: Dict, removed: bool, field: string): Grading {
    if removed then QualityDirection(host, wide, narrow, Removed, field, false)
    else QualityDirection(host, narrow, wide, Added, field, false)
  }

  lemma KeyColumnsAreCounted(
      host: Host, narrow: Dict, wide: Dict, removed: bool, field: string, columns: seq<string>, more: seq<string>)
    requires Guaranteed(host, narrow, wide, false) && NumericThreshold(host, narrow)
    requires WidensKey(narrow, wide, columns, more)
    requires IsLibrary(wide) && !IsPercent(host, wide) && Concerns(field, "properties")
    ensures KeyColumnDirection(host, narrow, wide, removed, field)
         == Graded(TrueCountDirection(ThresholdOf(host, wide).value.Accepts(), true, removed))
    ensures ThresholdOf(host, narrow) == ThresholdOf(host, wide)
  {
    ArgumentsAreNoThreshold();
    ThresholdStays(host, narrow, wide, ["arguments"]);
    CountDirectionIsExact(ThresholdOf(host, wide).value, true, removed);
    if removed {
      CountingArgumentIsCounted(host, wide, narrow, Removed, field, "properties", false);
    } else {
      CountingArgumentIsCounted(host, narrow, wide, Added, field, "properties", false);
    }
  }

  lemma AskingForDuplicatesIsTold(
      host: Host, narrow: Dict, wide: Dict, removed: bool, columns: seq<string>, more: seq<string>)
    requires NumericThreshold(host, narrow) && NumericThreshold(host, wide)
    requires ThresholdOf(host, narrow) == ThresholdOf(host, wide)
    requires MakesAClaim(ThresholdOf(host, wide).value, true, removed)
    requires OnlyAsksForDuplicates(ThresholdOf(host, wide).value)
    requires forall c :: c in columns ==> c in more
    ensures ClaimHolds(ThresholdOf(host, wide).value, true, removed, PassingTables(host, wide, more),
      PassingTables(host, narrow, columns))
  {
    var t, few, many := ThresholdOf(host, wide).value, PassingTables(host, narrow, columns),
      PassingTables(host, wide, more);
    forall table: Table
      ensures Antitone(t.Accepts(), true) ==> few(table) ==> many(table)
      ensures Monotone(t.Accepts(), true) ==> many(table) ==> few(table)
    {
      FewerColumnsRepeatToo(columns, more, table);
      JudgedAlike(t, Duplicates(columns, table), Duplicates(more, table));
    }
    ClaimMeans(t, true, removed, many, few);
  }

  lemma SplitKeyBreaksTheClaim(
      host: Host, narrow: Dict, wide: Dict, removed: bool, columns: seq<string>, more: seq<string>, column: string)
    requires NumericThreshold(host, narrow) && NumericThreshold(host, wide)
    requires ThresholdOf(host, narrow) == ThresholdOf(host, wide)
    requires MakesAClaim(ThresholdOf(host, wide).value, true, removed)
    requires !OnlyAsksForDuplicates(ThresholdOf(host, wide).value)
    requires (forall c :: c in columns ==> c in more) && column in more && column !in columns
    ensures !ClaimHolds(ThresholdOf(host, wide).value, true, removed, PassingTables(host, wide, more),
      PassingTables(host, narrow, columns))
  {
    var t, few, many := ThresholdOf(host, wide).value, PassingTables(host, narrow, columns),
      PassingTables(host, wide, more);
    var n: nat :| n > 0 && PassesCount(t, n) != PassesCount(t, 1);
    PairsRepeatOnce(columns, more, column, n);
    PairsRepeatApart(more, column, n);
    ClaimIsBroken(t, true, removed, many, few, Pairs(more, column, n), 1.0, n as real);
  }

  /**
   * Checking more columns together, or fewer, is reported as counting fewer duplicates, or more. But what is
   * counted is how many keys repeat, and one key that repeats may split into many. A reported tightening
   * or loosening is true exactly if the threshold only asks whether there are duplicates.
   */
  lemma KeyColumnsAreMistaken(
      host: Host, narrow: Dict, wide: Dict, removed: bool, field: string, columns: seq<string>, more: seq<string>)
    requires Guaranteed(host, narrow, wide, false) && NumericThreshold(host, narrow)
    requires WidensKey(narrow, wide, columns, more)
    requires IsLibrary(wide) && !IsPercent(host, wide) && Concerns(field, "properties")
    requires KeyColumnDirection(host, narrow, wide, removed, field) in [Graded(Tightens), Graded(Loosens)]
    ensures var d, few, many := KeyColumnDirection(host, narrow, wide, removed, field).direction,
              PassingTables(host, narrow, columns), PassingTables(host, wide, more);
      (if removed then IsTrueOf(d, many, few) else IsTrueOf(d, few, many))
        <==> OnlyAsksForDuplicates(ThresholdOf(host, wide).value)
  {
    KeyColumnsAreCounted(host, narrow, wide, removed, field, columns, more);
    if OnlyAsksForDuplicates(ThresholdOf(host, wide).value) {
      AskingForDuplicatesIsTold(host, narrow, wide, removed, columns, more);
    } else {
      var column :| column in more && column !in columns;
      SplitKeyBreaksTheClaim(host, narrow, wide, removed, columns, more, column);
    }
  }
}
