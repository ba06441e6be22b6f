/**
 * Who a change breaks: over the final grades of a run, an error for the consumer is a value that is accepted
 * after and was not before, and an error for the producer a value that was accepted and is no more.
 */
module Levels {
  import opened Wrappers
  import opened JsonTrees
  import opened Breaking
  import opened Paths
  import opened Thresholds
  import opened QualityRules
  import opened Guarantees
  import opened BoundRules
  import opened Rules
  import opened Detector
  import opened DetectorTheorems
  import opened SummaryTheorems
  import opened Diffs
  import opened Places
  import opened Runs
  import opened LimitRuns
  import opened WholeRules
  import BoundGroups

  /** A consumer relies on what was excluded and may come; a producer on what was accepted and may go. */
  predicate Hurts(perspective: Perspective, comes: bool, goes: bool) {
    match perspective
    case Consumer => comes
    case Producer => goes
  }

  lemma LevelOfAChange(perspective: Perspective, comes: bool, goes: bool)
    ensures LevelOf(DirectionOf(comes, goes), perspective) == if Hurts(perspective, comes, goes) then Error else Info
  {
  }

  /** Some value of the domain is accepted by the one and not by the other. */
  ghost predicate SomeValue(accepts: real -> bool, rejects: real -> bool, integers: bool) {
    exists x :: InDomain(x, integers) && accepts(x) && !rejects(x)
  }

  lemma LevelOfTrueDirection(perspective: Perspective, before: real -> bool, after: real -> bool, integers: bool)
    ensures LevelOf(TrueDirection(before, after, integers), perspective) ==
      if Hurts(perspective, SomeValue(after, before, integers), SomeValue(before, after, integers)) then Error else Info
  {
    assert forall x :: Separates(after, before, integers, x) <==> InDomain(x, integers) && after(x) && !before(x);
    assert forall x :: Separates(before, after, integers, x) <==> InDomain(x, integers) && before(x) && !after(x);
    LevelOfAChange(perspective, SomeValue(after, before, integers), SomeValue(before, after, integers));
  }

  // ---------------------------------------------------------------- Thresholds and bounds

  /**
   * At the key that carries the change of a threshold, the consumer's grade is an error exactly if some number
   * is accepted after and not before, the producer's exactly if some number is accepted before and not after.
   */
  lemma ThresholdLevel(r: Run, owner: seq<string>, name: string, old': Dict, new': Dict, key: string, j: nat)
    requires IsRun(r) && MovesThreshold(r, owner, name, old', new', key)
    requires WellNamed(r.before, r.after, RuleKey(owner, name, key))
    requires LastQuality(Join(RuleKey(owner, name, key)), Join(owner))
    requires j < |r.grades| && r.grades[j].path == Join(RuleKey(owner, name, key))
    ensures var before, after := ThresholdOf(r.host, old').value.Accepts(), ThresholdOf(r.host, new').value.Accepts();
      var integers := CountsRows(r.host, new');
      Final(r.grades, r.grades[j]).level ==
        if Hurts(r.perspective, SomeValue(after, before, integers), SomeValue(before, after, integers))
        then Error else Info
  {
    CarrierGradeIsTrue(r, owner, name, old', new', key, j);
    LevelOfTrueDirection(
      r.perspective, ThresholdOf(r.host, old').value.Accepts(), ThresholdOf(r.host, new').value.Accepts(),
      CountsRows(r.host, new'));
  }

  /** The same at the carrier of a group of bounds of which none is merely updated. */
  lemma BoundLevel(
      r: Run, owner: seq<string>, old': Dict, new': Dict, group: seq<string>, key: string, j: nat)
    requires BoundRun(r, owner, old', new', group) && key in group && Some(key) == Carrier(old', new', group)
    requires Readable(r.host, old', group) && Readable(r.host, new', group)
    requires forall k :: k in group ==> KindOf(old', new', k) != Some(Updated)
    requires j < |r.grades| && r.grades[j].path == Join(BoundKeys(owner, key))
    ensures var propertyType := TypeOfProperty(r.after, owner);
      var before, after := GroupAccepts(r.host, old', group, propertyType),
        GroupAccepts(r.host, new', group, propertyType);
      var integers := HoldsIntegers(propertyType);
      Final(r.grades, r.grades[j]).level ==
        if Hurts(r.perspective, SomeValue(after, before, integers), SomeValue(before, after, integers))
        then Error else Info
  {
    var propertyType := TypeOfProperty(r.after, owner);
    GradeOfBound(r, owner, old', new', group, key, j);
    GroupKeysAreBounds(group, key);
    BoundGroups.ReplacedGroupReportsOnce(r.host, old', new', propertyType, key);
    LevelOfTrueDirection(
      r.perspective, GroupAccepts(r.host, old', group, propertyType), GroupAccepts(r.host, new', group, propertyType),
      HoldsIntegers(propertyType));
  }

  // ---------------------------------------------------------------- Guarantees

  /** Some final grade in the rule is an error. */
  ghost predicate HasAnError(r: Run, owner: seq<string>, name: string) {
    exists k :: 0 <= k < |r.grades| && AtOrInside(r.grades[k].path, Join(RuleKeys(owner, name)))
      && Final(r.grades, r.grades[k]).level == Error
  }

  /**
   * A rule that becomes a guarantee breaks the producer and no consumer, one that stops being a guarantee breaks
   * the consumer and no producer, as far as the diff sees the key that carries the change.
   */
  lemma FlipBreaks(r: Run, owner: seq<string>, name: string, old': Dict, new': Dict, key: string)
    requires IsRun(r) && Flips(r, owner, name, old', new', key) && IsUnmistaken(r, owner, name, old', new', key)
    requires RuleIsLast(r, owner, name)
    ensures HasAnError(r, owner, name) <==>
      && Differs(Value(old', key), Value(new', key))
      && IsGuarantee(r.host, new', AtProperty(owner)) == r.perspective.Producer?
  {
    if Differs(Value(old', key), Value(new', key))
      && IsGuarantee(r.host, new', AtProperty(owner)) == r.perspective.Producer?
    {
      var k := SeenFlipIsReported(r, owner, name, old', new', key);
    }
    forall k: nat | k < |r.grades| && AtOrInside(r.grades[k].path, Join(RuleKeys(owner, name)))
      ensures Final(r.grades, r.grades[k]).level == Error ==>
        && Differs(Value(old', key), Value(new', key))
        && IsGuarantee(r.host, new', AtProperty(owner)) == r.perspective.Producer?
    {
      ErrorInRule(r, owner, name, old', new', key, k);
    }
  }

  /** Entries in the rule have the direction of the flip or are untested; untested all, if the diff sees nothing. */
  lemma DirectionInRule(r: Run, owner: seq<string>, name: string, old': Dict, new': Dict, key: string, k: nat)
    requires IsRun(r) && Flips(r, owner, name, old', new', key) && IsUnmistaken(r, owner, name, old', new', key)
    requires RuleIsLast(r, owner, name)
    requires k < |r.grades| && AtOrInside(r.grades[k].path, Join(RuleKeys(owner, name)))
    ensures r.grades[k].direction == Some(Untested)
      || r.grades[k].direction == Some(FlipDirection(r.host, new', AtProperty(owner)))
  {
    var rule := RuleKeys(owner, name);
    var n, p, keys := PlaceOfGrade(r, k);
    RuleIsShown(r, owner, name, old', new', key);
    WellNamedAbove(r.before, r.after, rule + [key], rule);
    InsideMeansBelow(r.before, r.after, keys, rule);
    ItemOfGrade(r, k, n, p, keys);
    NoEntryAround(r, n, keys, rule);
    assert rule < keys;
    GradeInRule(r, k, n, p, keys, owner, name, old', new', key);
  }

  lemma ErrorInRule(r: Run, owner: seq<string>, name: string, old': Dict, new': Dict, key: string, k: nat)
    requires IsRun(r) && Flips(r, owner, name, old', new', key) && IsUnmistaken(r, owner, name, old', new', key)
    requires RuleIsLast(r, owner, name)
    requires k < |r.grades| && AtOrInside(r.grades[k].path, Join(RuleKeys(owner, name)))
    ensures r.grades[k].level == Error ==>
      && Differs(Value(old', key), Value(new', key))
      && IsGuarantee(r.host, new', AtProperty(owner)) == r.perspective.Producer?
  {
    LevelsFollow(r, k);
    DirectionInRule(r, owner, name, old', new', key, k);
    if !Differs(Value(old', key), Value(new', key)) {
      UnseenFlipIsUntested(r, owner, name, old', new', key, k);
    }
  }

  /** A whole guarantee that comes breaks the producer, one that goes the consumer. */
  lemma WholeRuleLevel(r: Run, owner: seq<string>, name: string, rule: Dict, came: bool, j: nat)
    requires IsRun(r) && ComesOrGoes(r, owner, name, rule, came)
    requires WellNamed(r.before, r.after, RuleKeys(owner, name))
    requires LastQuality(Join(RuleKeys(owner, name)), Join(owner))
    requires j < |r.grades| && r.grades[j].path == Join(RuleKeys(owner, name))
    ensures Final(r.grades, r.grades[j]).level ==
      if IsGuarantee(r.host, rule, AtProperty(owner)) && came == r.perspective.Producer? then Error else Info
  {
    WholeGradeIsTrue(r, owner, name, rule, came, j);
    LevelOfADirection(WholeDirection(r.host, rule, AtProperty(owner), came), r.perspective);
  }

  // ---------------------------------------------------------------- All grades

  lemma LevelOfADirection(d: Direction, perspective: Perspective)
    ensures LevelOf(d, perspective) == Error <==>
      d == Both || (d == Tightens && perspective.Producer?) || (d == Loosens && perspective.Consumer?)
    ensures LevelOf(d, perspective) == Warning <==> d == Undetermined
  {
  }

  lemma ClassifiedLevel(
      rules: seq<Rule>, e: ChangelogEntry, perspective: Perspective, before: Json, after: Json, g: Grade)
    requires Classify(rules, e, perspective, before, after) == Some(g)
    ensures g.direction.Some? && g.level == LevelOf(g.direction.value, perspective)
  {
  }

  /** Of any run: what tightens breaks the producer, what loosens the consumer, what is unclear is a warning. */
  lemma LevelsFollow(r: Run, k: nat)
    requires IsRun(r) && k < |r.grades|
    ensures var g := r.grades[k];
      && (g.level == Error <==>
            || g.direction == Some(Both)
            || (g.direction == Some(Tightens) && r.perspective.Producer?)
            || (g.direction == Some(Loosens) && r.perspective.Consumer?))
      && (g.level == Warning <==> g.direction == Some(Undetermined))
  {
    GradeOfEntry(r, k);
    ClassifiedLevel(DefaultRules(r.host), EntryOf(r, k), r.perspective, r.before, r.after, r.grades[k]);
    LevelOfADirection(r.grades[k].direction.value, r.perspective);
  }

  /** A grade shows path, type and values of its entry, under the id of the rule that graded it. */
  lemma GradesShowTheirEntries(r: Run, k: nat)
    requires IsRun(r) && k < |r.grades|
    ensures |r.grades| == |r.result.details|
    ensures var g, e := r.grades[k], EntryOf(r, k);
      g.path == e.path && g.kind == e.kind && g.oldValue == e.oldValue && g.newValue == e.newValue
  {
    GradeOfEntry(r, k);
    ClassifiedEntry(DefaultRules(r.host), EntryOf(r, k), r.perspective, r.before, r.after, r.grades[k]);
  }

  lemma ClassifiedEntry(
      rules: seq<Rule>, e: ChangelogEntry, perspective: Perspective, before: Json, after: Json, g: Grade)
    requires Classify(rules, e, perspective, before, after) == Some(g)
    ensures g.path == e.path && g.kind == e.kind && g.oldValue == e.oldValue && g.newValue == e.newValue
  {
  }
}
