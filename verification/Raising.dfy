/**
 * When the detector raises: which limits cannot be compared, which fields of a quality rule and which
 * nodes of a contract cannot be read, and that a run raises exactly if the rule that grades some entry
 * meets one of them.
 */
module Raising {
  import opened Wrappers
  import opened JsonTrees
  import opened Breaking
  import opened NumberProbes
  import opened Thresholds
  import opened Paths
  import opened Lookups
  import opened QualityRules
  import opened Guarantees
  import opened BoundRules
  import opened Rules
  import opened Selection
  import opened Detector

  // ---------------------------------------------------------------- Thresholds

  /** The limits are set as the operator needs them. */
  predicate Complete(t: Threshold) {
    t.value != Missing && (t.value2 == Missing <==> !t.op.BETWEEN? && !t.op.NOT_BETWEEN?)
  }

  predicate CompleteIfAny(t: Option<Threshold>) { t.Some? ==> Complete(t.value) }

  /** A list or a dict cannot be in a set at all, a word cannot be sorted beside a number or a boolean. */
  ghost predicate Unsortable(bounds: seq<Bound>) {
    Unhashable in bounds || MixesWords(bounds)
  }

  ghost predicate MixesWords(bounds: seq<Bound>) {
    Words in bounds && exists b :: b in bounds && (b.Number? || b.Boolean?)
  }

  lemma ProbesFail(bounds: seq<Bound>, integers: bool)
    requires exists b :: b in bounds && !b.Missing?
    ensures Probes(bounds, integers).Fails? <==> Unsortable(bounds)
    ensures Probes(bounds, integers).Points? <==> forall b :: b in bounds ==> b.Number? || b.Missing?
  {
    if forall b :: b in bounds ==> b.Number? || b.Missing? {
      var b :| b in bounds && !b.Missing?;
      NumbersHaveProbes(bounds, integers, b.value);
    }
  }

  lemma BoundsOf(t: Threshold)
    requires Complete(t)
    ensures t.Bounds()[0] == t.value && t.value in t.Bounds() && t.value2 in t.Bounds()
    ensures t.Numeric() <==> forall b :: b in t.Bounds() ==> b.Number? || b.Missing?
  {
    assert t.Bounds()[0] == t.value && t.Bounds()[1] == t.value2;
  }

  /**
   * Comparing two thresholds raises exactly if a limit is a list or a dict, or a word meets a number or a
   * boolean.
   */
  lemma ComparingRaises(before: Threshold, after: Threshold, integers: bool)
    requires Complete(before) && Complete(after)
    ensures CompareThresholds(before, after, integers) == Raises <==> Unsortable(before.Bounds() + after.Bounds())
  {
    var bounds := before.Bounds() + after.Bounds();
    BoundsOf(before);
    BoundsOf(after);
    assert before.value in bounds;
    ProbesFail(bounds, integers);
  }

  /** Whatever list or dict a limit is, and whatever it meets. */
  lemma ListsAsLimitsRaise(list: Json, op: Op, other: Json, integers: bool)
    requires NoHash(list) && !op.BETWEEN? && !op.NOT_BETWEEN?
    ensures CompareThresholds(Threshold(op, BoundOf(list), Missing), Threshold(op, BoundOf(other), Missing), integers)
         == Raises
    ensures CompareThresholds(Threshold(op, BoundOf(other), Missing), Threshold(op, BoundOf(list), Missing), integers)
         == Raises
  {
    var one, two := Threshold(op, BoundOf(list), Missing), Threshold(op, BoundOf(other), Missing);
    assert (one.Bounds() + two.Bounds())[0] == Unhashable;
    assert (two.Bounds() + one.Bounds())[2] == Unhashable;
  }

  /** Words, lists and dicts: no limit that can be counted against. */
  predicate HasNoCount(t: Threshold) { Words in t.Bounds() || Unhashable in t.Bounds() }

  /** Counting against a threshold raises exactly if one of its limits is a word, a list or a dict. */
  lemma CountingRaises(t: Option<Threshold>, integers: bool, more: bool)
    requires CompleteIfAny(t)
    ensures CountDirection(t, integers, more) == Raises <==> t.Some? && HasNoCount(t.value)
  {
    if t.Some? {
      var bounds := [Number(0.0)] + t.value.Bounds();
      BoundsOf(t.value);
      assert bounds[0] == Number(0.0);
      assert Number(0.0) in bounds && t.value.value in t.value.Bounds();
      assert forall b :: b in bounds <==> b == Number(0.0) || b in t.value.Bounds();
      ProbesFail(bounds, integers);
    }
  }

  // ---------------------------------------------------------------- Quality rules

  /** A rule of type custom that is read by its engine. */
  predicate IsCustom(rule: Dict) {
    && Get(rule, "type") == Text("custom")
    && (|| (Get(rule, "engine") == Text("soda") && Truthy(Get(rule, "implementation")))
        || Get(rule, "engine") == Text(CUSTOM_CHECK_ENGINE))
  }

  /** A library rule with a threshold whose metric or arguments cannot be read. */
  predicate MetricRaises(host: Host, rule: Dict, atProperty: bool) {
    && QualityRules.Fails(Get(rule, "severity")) && !IsCustom(rule) && ThresholdOf(host, rule).Some?
    && Get(rule, "type") != Text("sql") && Get(rule, "metric") != Null
    && host.validated(Restrict(rule, METRIC_FIELDS)).Some?
    && RunsRaises(host.validated(Restrict(rule, METRIC_FIELDS)).value, atProperty)
  }

  predicate StatusRaises(host: Host, rule: Dict, atProperty: bool) {
    SeverityRaises(Get(rule, "severity")) || MetricRaises(host, rule, atProperty)
  }

  /** Whether a rule is a guarantee cannot be told exactly if its severity, metric or arguments cannot be read. */
  lemma StatusIsUnknown(host: Host, rule: Dict, atProperty: bool)
    ensures GuaranteeStatus(host, rule, atProperty).None? <==> StatusRaises(host, rule, atProperty)
  {
  }

  /** The entry of `arguments` of a library rule, or of something inside them. */
  predicate IsArgument(after: Dict, field: string) {
    BeforeFirst(field, ".") == "arguments" && IsLibrary(after) && Get(after, "metric") != Null
  }

  function MissingVersion(before: Dict, after: Dict): Dict {
    if Get(after, "metric") == Text("missingValues") then after else before
  }

  /** The entry of a change inside a guarantee that counts more or fewer bad rows than before. */
  predicate IsCounted(before: Dict, after: Dict, kind: ChangeType, field: string) {
    var metric := Get(after, "metric");
    if IsArgument(after, field) then
      && Get(before, "metric") == metric
      && match ArgumentOf(field)
         case None => metric == Text("missingValues")
         case Some(argument) => CountingArgument(metric, argument).Some? && !kind.Updated?
    else field == "metric" && SwapsNullAndMissing(before, after) && HasMarkers(MissingVersion(before, after))
  }

  /** The entry of the key that carries a change of thresholds in one unit. */
  predicate IsCompared(host: Host, before: Dict, after: Dict, field: string) {
    && field in THRESHOLDS && Some(field) == Carrier(before, after, THRESHOLDS)
    && ThresholdOf(host, before).Some? && ThresholdOf(host, after).Some?
    && IsPercent(host, before) == IsPercent(host, after)
  }

  /** A rule with a threshold that cannot be counted against, for its limits or for its unit. */
  predicate CountRaises(host: Host, rule: Dict) {
    ThresholdOf(host, rule).Some? && (UnitRaises(host, rule) || HasNoCount(ThresholdOf(host, rule).value))
  }

  /** A metric, or the markers of missingValues, that the entry of an argument or of the metric cannot read. */
  predicate ReadingRaises(before: Dict, after: Dict, field: string) {
    if IsArgument(after, field) then
      Get(before, "metric") == Get(after, "metric") && ArgumentOf(field).Some? && NoHash(Get(after, "metric"))
    else
      && field == "metric"
      && (|| NoHash(Get(before, "metric")) || NoHash(Get(after, "metric"))
          || (SwapsNullAndMissing(before, after) && MarkersRaise(MissingVersion(before, after))))
  }

  /** What makes the grading of a change inside a guarantee of both versions raise. */
  ghost predicate ChangeBreaks(host: Host, before: Dict, after: Dict, kind: ChangeType, field: string) {
    || (IsCounted(before, after, kind, field) && CountRaises(host, after))
    || (IsCompared(host, before, after, field)
        && Unsortable(ThresholdOf(host, before).value.Bounds() + ThresholdOf(host, after).value.Bounds()))
    || ((field in THRESHOLDS || field == "unit") && (UnitRaises(host, before) || UnitRaises(host, after)))
    || ReadingRaises(before, after, field)
  }

  /** What makes the grading of a change inside a quality rule raise. */
  ghost predicate QualityBreaks(
      host: Host, before: Dict, after: Dict, kind: ChangeType, field: string, atProperty: bool)
  {
    || StatusRaises(host, before, atProperty) || StatusRaises(host, after, atProperty)
    || (IsGuarantee(host, before, atProperty) && IsGuarantee(host, after, atProperty) && field != ""
        && ChangeBreaks(host, before, after, kind, field))
  }

  ghost predicate CompleteRules(host: Host, before: Dict, after: Dict) {
    CompleteIfAny(ThresholdOf(host, before)) && CompleteIfAny(ThresholdOf(host, after))
  }

  lemma FieldsApart(after: Dict, field: string)
    ensures field in THRESHOLDS ==> !IsArgument(after, field) && field != "metric" && field != "unit"
    ensures field == "metric" || field == "unit" ==> !IsArgument(after, field)
  {
    MetricIsNoThreshold();
    if field in THRESHOLDS {
      ThresholdFieldsHaveNoDots(field);
    } else if field == "metric" || field == "unit" {
      BeforeNoDot(field);
    }
  }

  lemma MetricIsNoThreshold()
    ensures "metric" !in THRESHOLDS && "unit" !in THRESHOLDS
  {
    assert forall n :: 0 <= n < |THRESHOLDS| ==> THRESHOLDS[n][1] == 'u';
    assert "metric"[1] == 'e' && "unit"[1] == 'n';
  }

  /** Comparing the thresholds of two versions. */
  lemma ThresholdRaises(host: Host, before: Dict, after: Dict, field: string)
    requires CompleteRules(host, before, after) && field in THRESHOLDS
    ensures ThresholdDirection(host, before, after, field) == Raises <==>
      || UnitRaises(host, before) || UnitRaises(host, after)
      || (IsCompared(host, before, after, field)
          && Unsortable(ThresholdOf(host, before).value.Bounds() + ThresholdOf(host, after).value.Bounds()))
  {
    if IsCompared(host, before, after, field) {
      ComparingRaises(
        ThresholdOf(host, before).value, ThresholdOf(host, after).value, !IsPercent(host, after) && IsLibrary(after));
    }
  }

  lemma RuleCountRaises(host: Host, rule: Dict, more: bool)
    requires CompleteIfAny(ThresholdOf(host, rule))
    ensures RuleCountDirection(host, rule, more) == Raises <==> CountRaises(host, rule)
  {
    CountingRaises(ThresholdOf(host, rule), !IsPercent(host, rule), more);
  }

  lemma ArgumentRaises(host: Host, before: Dict, after: Dict, kind: ChangeType, field: string)
    requires CompleteRules(host, before, after) && IsArgument(after, field)
    ensures ArgumentDirection(host, before, after, kind, ArgumentOf(field)) == Raises
      <==> (IsCounted(before, after, kind, field) && CountRaises(host, after)) || ReadingRaises(before, after, field)
  {
    RuleCountRaises(host, after, true);
    RuleCountRaises(host, after, false);
  }

  lemma MetricDirectionRaises(host: Host, before: Dict, after: Dict, kind: ChangeType)
    requires CompleteRules(host, before, after) && SwapsNullAndMissing(before, after)
    ensures MetricDirection(host, before, after) == Raises <==>
      || (IsCounted(before, after, kind, "metric") && CountRaises(host, after))
      || MarkersRaise(MissingVersion(before, after))
  {
    RuleCountRaises(host, after, Get(after, "metric") == Text("missingValues"));
    FieldsApart(after, "metric");
  }

  /** The entry of the metric of two guarantees. */
  lemma MetricEntryRaises(host: Host, before: Dict, after: Dict, kind: ChangeType)
    requires CompleteRules(host, before, after)
    ensures RuleDirection(host, before, after, kind, "metric", true, true) == Raises
      <==> ChangeBreaks(host, before, after, kind, "metric")
  {
    FieldsApart(after, "metric");
    MetricIsNoThreshold();
    if SwapsNullAndMissing(before, after) {
      MetricDirectionRaises(host, before, after, kind);
    }
  }

  /** A change between two guarantees. */
  lemma ChangeRaises(host: Host, before: Dict, after: Dict, kind: ChangeType, field: string)
    requires CompleteRules(host, before, after) && field != ""
    ensures RuleDirection(host, before, after, kind, field, true, true) == Raises
      <==> ChangeBreaks(host, before, after, kind, field)
  {
    FieldsApart(after, field);
    if field in THRESHOLDS {
      ThresholdRaises(host, before, after, field);
    } else if IsArgument(after, field) {
      ArgumentRaises(host, before, after, kind, field);
    } else if field == "metric" {
      MetricEntryRaises(host, before, after, kind);
    }
  }

  /** Grading a change inside a quality rule raises exactly if a field or a limit cannot be read or compared. */
  lemma QualityRaises(host: Host, before: Dict, after: Dict, kind: ChangeType, field: string, atProperty: bool)
    requires CompleteRules(host, before, after)
    ensures QualityDirection(host, before, after, kind, field, atProperty) == Raises
      <==> QualityBreaks(host, before, after, kind, field, atProperty)
  {
    StatusIsUnknown(host, before, atProperty);
    StatusIsUnknown(host, after, atProperty);
    if field != "" {
      ChangeRaises(host, before, after, kind, field);
    }
  }

  /** A rule whose fields have the types that a contract gives them, whatever its limits are. */
  ghost predicate WellTyped(host: Host, rule: Dict) {
    && (Get(rule, "severity") == Null || Get(rule, "severity").Text?)
    && (Get(rule, "metric") == Null || Get(rule, "metric").Text?)
    && (Get(rule, "arguments") == Null || Get(rule, "arguments").Obj?)
    && (Markers(rule) == Null || Markers(rule).Arr?)
    && !UnitRaises(host, rule)
    && (host.validated(Restrict(rule, METRIC_FIELDS)).Some? ==>
          var quality := host.validated(Restrict(rule, METRIC_FIELDS)).value;
          && !NoHash(Get(quality, "metric")) && (Get(quality, "arguments") == Null || Get(quality, "arguments").Obj?))
  }

  lemma WellTypedIsRead(host: Host, rule: Dict, atProperty: bool)
    requires WellTyped(host, rule)
    ensures !StatusRaises(host, rule, atProperty) && !UnitRaises(host, rule) && !MarkersRaise(rule)
    ensures !NoHash(Get(rule, "metric"))
  {
  }

  /** A limit meets one that it cannot be compared with, or is counted against and is no number or boolean. */
  ghost predicate LimitsBreak(host: Host, before: Dict, after: Dict, kind: ChangeType, field: string) {
    || (IsCounted(before, after, kind, field)
        && ThresholdOf(host, after).Some? && HasNoCount(ThresholdOf(host, after).value))
    || (IsCompared(host, before, after, field)
        && Unsortable(ThresholdOf(host, before).value.Bounds() + ThresholdOf(host, after).value.Bounds()))
  }

  lemma ReadingIsFine(before: Dict, after: Dict, field: string)
    requires !NoHash(Get(before, "metric")) && !NoHash(Get(after, "metric"))
    requires !MarkersRaise(before) && !MarkersRaise(after)
    ensures !ReadingRaises(before, after, field)
  {
  }

  /** Between two well-typed rules only limits raise: words beside numbers, counted words, lists and dicts. */
  lemma OnlyLimitsRaise(host: Host, before: Dict, after: Dict, kind: ChangeType, field: string, atProperty: bool)
    requires CompleteRules(host, before, after) && WellTyped(host, before) && WellTyped(host, after)
    ensures QualityDirection(host, before, after, kind, field, atProperty) == Raises <==>
      && IsGuarantee(host, before, atProperty) && IsGuarantee(host, after, atProperty) && field != ""
      && LimitsBreak(host, before, after, kind, field)
  {
    WellTypedIsRead(host, before, atProperty);
    WellTypedIsRead(host, after, atProperty);
    ReadingIsFine(before, after, field);
    QualityRaises(host, before, after, kind, field, atProperty);
  }

  // ---------------------------------------------------------------- Limits

  /** The carrier of limits that all read as numbers, of which one is infinite or NaN, over integers. */
  predicate InfiniteAmongIntegers(host: Host, before: Dict, after: Dict, propertyType: Json, key: string) {
    var group := Group(key);
    && Some(key) == Carrier(before, after, group) && HoldsIntegers(propertyType)
    && !SomeUnreadable(host, before, group) && !SomeUnreadable(host, after, group)
    && (!Readable(host, before, group) || !Readable(host, after, group))
  }

  /** Replacing a limit raises exactly if an infinite limit, or NaN, is to be compared over the integers. */
  lemma ReplacingRaises(host: Host, before: Dict, after: Dict, propertyType: Json, key: string)
    requires IsGroup(Group(key))
    ensures ReplacedDirection(host, before, after, propertyType, key) == Raises
      <==> InfiniteAmongIntegers(host, before, after, propertyType, key)
  {
    var group := Group(key);
    if Some(key) == Carrier(before, after, group) && Readable(host, before, group) && Readable(host, after, group) {
      ReplacedDirectionIsExact(host, before, after, propertyType, key);
    }
  }

  /** The options or the property of a limit cannot be read, or its bounds cannot be compared. */
  predicate LimitBreaks(host: Host, before: Json, after: Json, property: Json, key: string, kind: ChangeType) {
    || OptionsRaise(host, before, after, property, key, kind)
    || (&& !kind.Updated? && PartnerSet(key, Group(key), Fields(before), Fields(after))
        && InfiniteAmongIntegers(host, Fields(before), Fields(after), Get(Fields(property), "logicalType"), key))
  }

  lemma PartnersAreOfGroups(key: string, before: Dict, after: Dict)
    requires PartnerSet(key, Group(key), before, after)
    ensures IsGroup(Group(key))
  {
  }

  // ---------------------------------------------------------------- Rule by rule

  /** Where the options of a limit stand, its property, and its key. */
  function LimitPlaces(path: string): (string, string, string) {
    match CutLast(path, ".")
    case None => ("", "", path)
    case Some((options, key)) => (options, RemoveSuffix(options, ".logicalTypeOptions"), key)
  }

  predicate EntryOfLimitBreaks(host: Host, e: ChangelogEntry, before: Json, after: Json) {
    var (options, property, key) := LimitPlaces(e.path);
    LimitBreaks(host, Lookup(before, options), Lookup(after, options), Lookup(after, property), key, e.kind)
  }

  /** The relationships, or the one that the entry belongs to, are no dict. */
  predicate EntryOfRelationshipBreaks(e: ChangelogEntry, before: Json, after: Json) {
    CutLast(e.path, ".relationships.").Some? &&
    var (owner, rest) := CutLast(e.path, ".relationships.").value;
    var old', new' := Lookup(before, owner + ".relationships"), Lookup(after, owner + ".relationships");
    || NoDict(old') || NoDict(new')
    || match LongestKey(rest, (Fields(old') + Fields(new')).Keys, |rest|)
       case None => false
       case Some(key) =>
         !Get(Fields(old') + Fields(new'), key).Obj? && (if |rest| > |key| then rest[|key| + 1..] else "") != "type"
  }

  /** The freshness or the models are nothing to look into, or a checked duration cannot be read. */
  predicate EntryOfFreshnessBreaks(host: Host, e: ChangelogEntry, before: Json, after: Json) {
    var old', new' := Lookup(before, FRESHNESS), Lookup(after, FRESHNESS);
    || FreshnessRaises(host, old', before) || FreshnessRaises(host, new', after)
    || (&& IsFreshnessLimit(e.path)
        && IsFreshnessChecked(host, Fields(old'), before) && IsFreshnessChecked(host, Fields(new'), after)
        && (|| host.seconds(Get(Fields(old'), "value"), Get(Fields(old'), "unit")).BadDuration?
            || host.seconds(Get(Fields(new'), "value"), Get(Fields(new'), "unit")).BadDuration?))
  }

  /** The properties of the schema cannot be looked through for key columns. */
  predicate EntryOfKeyBreaks(e: ChangelogEntry, before: Json, after: Json) {
    !EndsWith(e.path, ".primaryKeyPosition") && KeysRaise(before, after, BeforeFirst(e.path, ".properties."))
  }

  /** The enum of a value is no dict. */
  predicate EntryOfValueBreaks(e: ChangelogEntry, before: Json, after: Json) {
    && !EndsWith(e.path, ".enum") && CutLast(e.path, ".enum.").Some?
    && var path := CutLast(e.path, ".enum.").value.0 + ".enum";
       NoDict(Lookup(before, path)) || NoDict(Lookup(after, path))
  }

  /** A field or a limit of the quality rule of the entry cannot be read or compared. */
  ghost predicate EntryOfRuleBreaks(host: Host, e: ChangelogEntry, before: Json, after: Json) {
    && ParseQualityPath(e.path).Some?
    && var at := ParseQualityPath(e.path).value;
       QualityBreaks(host, QualityRuleAt(before, at), QualityRuleAt(after, at), e.kind, at.field,
         Contains(at.owner, ".properties."))
  }

  /** What the rule `name` cannot read or compare where it grades an entry. */
  ghost predicate Breaks(host: Host, name: RuleName, e: ChangelogEntry, before: Json, after: Json) {
    match name
    case QualityConstraint => EntryOfRuleBreaks(host, e, before, after)
    case RelationshipChanged => EntryOfRelationshipBreaks(e, before, after)
    case FreshnessChanged => EntryOfFreshnessBreaks(host, e, before, after)
    case KeyConstraint => EntryOfKeyBreaks(e, before, after)
    case ValidationConstraint => EntryOfLimitBreaks(host, e, before, after)
    case EnumConstraint => EntryOfValueBreaks(e, before, after)
    case _ => false
  }

  /** The limits of every quality rule with an entry are set as the operator needs them. */
  ghost predicate EntryIsComplete(host: Host, e: ChangelogEntry, before: Json, after: Json) {
    ParseQualityPath(e.path).Some? ==>
      var at := ParseQualityPath(e.path).value; CompleteRules(host, QualityRuleAt(before, at), QualityRuleAt(after, at))
  }

  lemma QualityRuleRaises(host: Host, e: ChangelogEntry, before: Json, after: Json)
    requires EntryIsComplete(host, e, before, after)
    ensures Evaluate(host, QualityConstraint, e, before, after).Fails? <==> EntryOfRuleBreaks(host, e, before, after)
  {
    var parsed := ParseQualityPath(e.path);
    if parsed.Some? {
      var at := parsed.value;
      QualityRaises(
        host, QualityRuleAt(before, at), QualityRuleAt(after, at), e.kind, at.field,
        Contains(at.owner, ".properties."));
    }
  }

  lemma LimitRuleRaises(host: Host, e: ChangelogEntry, before: Json, after: Json)
    requires !Evaluate(host, ValidationConstraint, e, before, after).Skips?
    ensures Evaluate(host, ValidationConstraint, e, before, after).Fails?
      <==> EntryOfLimitBreaks(host, e, before, after)
  {
    var (options, property, key) := LimitPlaces(e.path);
    var old', new' := Fields(Lookup(before, options)), Fields(Lookup(after, options));
    if PartnerSet(key, Group(key), old', new') {
      PartnersAreOfGroups(key, old', new');
      ReplacingRaises(host, old', new', Get(Fields(Lookup(after, property)), "logicalType"), key);
    }
  }

  lemma RelationshipRuleRaises(host: Host, e: ChangelogEntry, before: Json, after: Json)
    requires !Evaluate(host, RelationshipChanged, e, before, after).Skips?
    ensures Evaluate(host, RelationshipChanged, e, before, after).Fails?
      <==> EntryOfRelationshipBreaks(e, before, after)
  {
  }

  lemma FreshnessRuleRaises(host: Host, e: ChangelogEntry, before: Json, after: Json)
    requires !Evaluate(host, FreshnessChanged, e, before, after).Skips?
    ensures Evaluate(host, FreshnessChanged, e, before, after).Fails?
      <==> EntryOfFreshnessBreaks(host, e, before, after)
  {
  }

  lemma KeyRuleRaises(host: Host, e: ChangelogEntry, before: Json, after: Json)
    requires !Evaluate(host, KeyConstraint, e, before, after).Skips?
    ensures Evaluate(host, KeyConstraint, e, before, after).Fails? <==> EntryOfKeyBreaks(e, before, after)
  {
  }

  lemma EnumRuleRaises(host: Host, e: ChangelogEntry, before: Json, after: Json)
    requires !Evaluate(host, EnumConstraint, e, before, after).Skips?
    ensures Evaluate(host, EnumConstraint, e, before, after).Fails? <==> EntryOfValueBreaks(e, before, after)
  {
    assert EnumDirection(host, e, before, after).Some?;
    EnumRaises(host, e, before, after);
  }

  lemma EnumRaises(host: Host, e: ChangelogEntry, before: Json, after: Json)
    requires EnumDirection(host, e, before, after).Some?
    ensures EnumDirection(host, e, before, after) == Some(Raises) <==> EntryOfValueBreaks(e, before, after)
  {
  }

  /** The rules that look nothing up. */
  lemma OtherRulesNeverRaise(host: Host, name: RuleName, e: ChangelogEntry, before: Json, after: Json)
    requires !LooksUp(name)
    ensures !Evaluate(host, name, e, before, after).Fails?
  {
  }

  predicate LooksUp(name: RuleName) {
    name in {QualityConstraint, RelationshipChanged, FreshnessChanged, KeyConstraint, ValidationConstraint,
             EnumConstraint}
  }

  /** Where it applies, a rule raises exactly if it meets something that it cannot read or compare. */
  lemma RuleRaises(host: Host, name: RuleName, e: ChangelogEntry, before: Json, after: Json)
    requires !Evaluate(host, name, e, before, after).Skips? && EntryIsComplete(host, e, before, after)
    ensures Evaluate(host, name, e, before, after).Fails? <==> Breaks(host, name, e, before, after)
  {
    match name
    case QualityConstraint => QualityRuleRaises(host, e, before, after);
    case RelationshipChanged => RelationshipRuleRaises(host, e, before, after);
    case FreshnessChanged => FreshnessRuleRaises(host, e, before, after);
    case KeyConstraint => KeyRuleRaises(host, e, before, after);
    case ValidationConstraint => LimitRuleRaises(host, e, before, after);
    case EnumConstraint => EnumRuleRaises(host, e, before, after);
    case _ => OtherRulesNeverRaise(host, name, e, before, after);
  }

  // ---------------------------------------------------------------- Runs

  /** The rule that grades an entry. */
  ghost function GradingRule(host: Host, e: ChangelogEntry, before: Json, after: Json): RuleName {
    RuleFor(host, e, before, after).GetOr(MetadataFallback)
  }

  ghost predicate EntryBreaks(host: Host, e: ChangelogEntry, before: Json, after: Json) {
    Breaks(host, GradingRule(host, e, before, after), e, before, after)
  }

  /** An entry cannot be classified exactly if the rule that grades it meets something it cannot read or compare. */
  lemma EntryRaises(host: Host, e: ChangelogEntry, perspective: Perspective, before: Json, after: Json)
    requires EntryIsComplete(host, e, before, after)
    ensures Classify(DefaultRules(host), e, perspective, before, after).None?
      <==> EntryBreaks(host, e, before, after)
  {
    VerdictOfRule(host, e, before, after);
    FallbackTakesTheRest(host, e, before, after);
    SelectedApplies(host, DEFAULT_RULES, e, before, after);
    RuleRaises(host, GradingRule(host, e, before, after), e, before, after);
    ClassifyFails(DefaultRules(host), e, perspective, before, after);
  }

  lemma ClassifyFails(rules: seq<Rule>, e: ChangelogEntry, perspective: Perspective, before: Json, after: Json)
    ensures Classify(rules, e, perspective, before, after).None? <==> !FirstVerdict(rules, e, before, after).Evaluates?
  {
  }

  lemma {:induction false} AllOrNone(
      rules: seq<Rule>, entries: seq<ChangelogEntry>, perspective: Perspective, before: Json, after: Json)
    ensures ClassifyAll(rules, entries, perspective, before, after).None?
      <==> exists k :: 0 <= k < |entries| && Classify(rules, entries[k], perspective, before, after).None?
  {
    if entries != [] {
      var n := |entries| - 1;
      assert forall k :: 0 <= k < n ==> entries[..n][k] == entries[k];
      AllOrNone(rules, entries[..n], perspective, before, after);
    }
  }

  /** The detector raises exactly if the rule that grades some entry meets something it cannot read or compare. */
  lemma DetectorRaises(host: Host, entries: seq<ChangelogEntry>, perspective: Perspective, before: Json, after: Json)
    requires forall k :: 0 <= k < |entries| ==> EntryIsComplete(host, entries[k], before, after)
    ensures ClassifyAll(DefaultRules(host), entries, perspective, before, after).None?
      <==> exists k :: 0 <= k < |entries| && EntryBreaks(host, entries[k], before, after)
  {
    AllOrNone(DefaultRules(host), entries, perspective, before, after);
    forall k | 0 <= k < |entries|
      ensures Classify(DefaultRules(host), entries[k], perspective, before, after).None?
        <==> EntryBreaks(host, entries[k], before, after)
    {
      EntryRaises(host, entries[k], perspective, before, after);
    }
  }
}
