/**
 * The check that testing a contract makes of a quality rule, and that a rule is a guarantee exactly if that check
 * can fail.
 */
module RuleChecks {
  import opened Wrappers
  import opened JsonTrees
  import opened Breaking
  import opened Thresholds
  import opened Paths
  import opened QualityRules
  import opened Guarantees
  import opened Requirements
  import Variables

  /** What a check asks of the data. */
  datatype Question =
    | RowCount
    | Duplicates(columns: Json)
    | Nulls
    | Missing(markers: Json)
    | Invalid(validValues: Json, pattern: Json)
    | Query(query: Json)
    | CustomCheck(implementation: Json, arguments: Json)

  /** A check that is reported as a warning without being run, or one that is run; its violation fails or warns. */
  datatype Check =
    | Warned
    | Run(question: Question, threshold: Option<Threshold>, percent: bool, fails: bool)

  /** What a library metric asks at a level; None if it means nothing there. */
  function QuestionOf(metric: string, arguments: Dict, atProperty: bool): Option<Question> {
    if metric == "rowCount" && !atProperty then Some(RowCount)
    else if metric == "duplicateValues" then Some(Duplicates(Get(arguments, "properties")))
    else if metric == "nullValues" && atProperty then Some(Nulls)
    else if metric == "missingValues" && atProperty then Some(Missing(Get(arguments, "missingValues")))
    else if metric == "invalidValues" && atProperty
      && (Get(arguments, "validValues") != Null || Get(arguments, "pattern") != Null)
    then Some(Invalid(Get(arguments, "validValues"), Get(arguments, "pattern")))
    else None
  }

  /** The values whose number can be put as a percentage of the rows. */
  predicate CountsRowsOfATable(question: Question) { question.Nulls? || question.Missing? || question.Invalid? }

  /** A severity, in any case and between blanks, whose violations are warnings only. */
  predicate OnlyWarns(severity: Json) {
    severity.Text? && var s := Lower(Strip(severity.text));
      s == "info" || s == "warning" || s == "warn" || s == "low" || s == "minor" || s == "trivial"
  }

  predicate IsPercentUnit(host: Host, unit: Json) {
    unit != Null && var s := Lower(Strip(host.str(unit)));
      s == "percent" || s == "percentage" || s == "%"
  }

  /** The check of a library rule. */
  function LibraryCheck(host: Host, quality: Dict, atProperty: bool): Check {
    var metric, percent := Get(quality, "metric"), IsPercentUnit(host, Get(quality, "unit"));
    var question := if metric.Text?
      then QuestionOf(metric.text, Fields(Get(quality, "arguments")), atProperty) else None;
    var threshold := ToThreshold(quality);
    if question.None? || (percent && !CountsRowsOfATable(question.value)) || threshold.None? then Warned
    else Run(question.value, threshold, percent, !OnlyWarns(Get(quality, "severity")))
  }

  /** The check of a rule; None if there is nothing to check. */
  function CheckOf(host: Host, quality: Dict, atProperty: bool): Option<Check> {
    var fails := !OnlyWarns(Get(quality, "severity"));
    if Get(quality, "type") == Text("custom") && Get(quality, "engine") == Text("soda")
      && Truthy(Get(quality, "implementation"))
    then Some(Warned)
    else if Get(quality, "type") == Text("custom") && Get(quality, "engine") == Text("datacontract-cli") then
      Some(Run(CustomCheck(Get(quality, "implementation"), Get(quality, "arguments")), ToThreshold(quality), false,
               fails))
    else if Get(quality, "type") == Text("sql") then
      Some(if !Truthy(Get(quality, "query")) || ToThreshold(quality).None? then Warned
           else Run(Query(Get(quality, "query")), ToThreshold(quality), false, fails))
    else if Get(quality, "metric") == Null then None
    else Some(LibraryCheck(host, quality, atProperty))
  }

  predicate CanFail(check: Option<Check>) { check.Some? && check.value.Run? && check.value.fails }

  // ---------------------------------------------------------------- Guarantees are checks that can fail

  /** `quality` is the model that is read from `rule`: the same texts, field by field. */
  ghost predicate IsReadAs(host: Host, rule: Dict, quality: Dict) {
    && (forall k :: k in DECISIVE ==> Get(quality, k) == Get(rule, k))
    && AgreeOn(ThresholdQuality(host, rule), quality, THRESHOLDS)
    && host.validated(Restrict(rule, METRIC_FIELDS)).Some?
    && AgreeOn(host.validated(Restrict(rule, METRIC_FIELDS)).value, quality, METRIC_FIELDS)
  }

  /** The fields have the types of the model, and no metric is a reference that is only known later. */
  ghost predicate IsTyped(quality: Dict) {
    && (Get(quality, "severity") == Null || Get(quality, "severity").Text?)
    && (Get(quality, "query") == Null || Get(quality, "query").Text?)
    && (Get(quality, "arguments") == Null || Get(quality, "arguments").Obj?)
    && (Get(quality, "metric") == Null
        || (Get(quality, "metric").Text? && !Variables.ContainsVariables(Get(quality, "metric").text)))
  }

  lemma SeveritiesThatWarn(severity: Json)
    ensures Fails(severity) <==> !OnlyWarns(severity)
  {
    if severity.Text? {
      var s := Lower(Strip(severity.text));
      assert s in WARNING_SEVERITIES <==>
        s == "info" || s == "warning" || s == "warn" || s == "low" || s == "minor" || s == "trivial";
    }
  }

  lemma PercentUnits(host: Host, quality: Dict)
    ensures IsPercent(host, quality) <==> IsPercentUnit(host, Get(quality, "unit"))
  {
    if Get(quality, "unit") != Null {
      var s := Lower(Strip(host.str(Get(quality, "unit"))));
      assert s in PERCENT_UNITS <==> s == "percent" || s == "percentage" || s == "%";
    }
  }

  /** No reason is found against a library rule exactly if there is something to count, in a unit that fits. */
  lemma RunnableMetrics(host: Host, quality: Dict, atProperty: bool)
    requires IsTyped(quality) && Get(quality, "metric") != Null
    ensures !RunsRaises(quality, atProperty)
    ensures Runs(host, quality, atProperty) <==>
      var question := QuestionOf(Get(quality, "metric").text, Fields(Get(quality, "arguments")), atProperty);
      question.Some? && (IsPercentUnit(host, Get(quality, "unit")) ==> CountsRowsOfATable(question.value))
  {
    PercentUnits(host, quality);
    var metric := Get(quality, "metric").text;
    assert metric in PERCENT_METRICS <==>
      metric == "nullValues" || metric == "missingValues" || metric == "invalidValues";
  }

  lemma ThresholdReadsItsKeys(a: Dict, b: Dict)
    requires AgreeOn(a, b, THRESHOLDS)
    ensures ToThreshold(a) == ToThreshold(b)
  {
    assert forall n :: 0 <= n < |THRESHOLDS| ==> THRESHOLDS[n] in THRESHOLDS;
    assert THRESHOLDS[0] == "mustBe" && THRESHOLDS[1] == "mustNotBe" && THRESHOLDS[2] == "mustBeGreaterThan";
    assert THRESHOLDS[3] == "mustBeGreaterOrEqualTo" && THRESHOLDS[4] == "mustBeLessThan";
    assert THRESHOLDS[5] == "mustBeLessOrEqualTo" && THRESHOLDS[6] == "mustBeBetween";
    assert THRESHOLDS[7] == "mustNotBeBetween";
  }

  lemma RunsReadsItsFields(host: Host, a: Dict, b: Dict, atProperty: bool)
    requires AgreeOn(a, b, METRIC_FIELDS)
    ensures Runs(host, a, atProperty) == Runs(host, b, atProperty)
    ensures RunsRaises(a, atProperty) == RunsRaises(b, atProperty)
  {
    assert METRIC_FIELDS[0] == "metric" && METRIC_FIELDS[1] == "unit" && METRIC_FIELDS[2] == "arguments";
    assert Get(a, "metric") == Get(b, "metric") && Get(a, "unit") == Get(b, "unit");
    assert Get(a, "arguments") == Get(b, "arguments");
  }

  lemma DecisiveTexts(host: Host, rule: Dict, quality: Dict)
    requires IsReadAs(host, rule, quality)
    ensures Get(rule, "severity") == Get(quality, "severity") && Get(rule, "type") == Get(quality, "type")
    ensures Get(rule, "engine") == Get(quality, "engine")
    ensures Get(rule, "implementation") == Get(quality, "implementation")
    ensures Get(rule, "query") == Get(quality, "query") && Get(rule, "metric") == Get(quality, "metric")
    ensures ToThreshold(ThresholdQuality(host, rule)) == ToThreshold(quality)
  {
    ThresholdReadsItsKeys(ThresholdQuality(host, rule), quality);
    assert DECISIVE[0] == "severity" && DECISIVE[1] == "type" && DECISIVE[2] == "engine";
    assert DECISIVE[3] == "implementation" && DECISIVE[4] == "metric" && DECISIVE[5] == "query";
  }

  /** An empty query is never run. */
  predicate HasEmptyQuery(quality: Dict) {
    Get(quality, "type") == Text("sql") && Get(quality, "query") == Text("")
  }

  predicate IsCustom(quality: Dict) { Get(quality, "type") == Text("custom") }

  /**
   * A rule is a guarantee exactly if testing the contract makes a check of it that can fail; but a query that is
   * set and empty is taken for a guarantee, though it is never run.
   */
  lemma GuaranteesCanFail(host: Host, rule: Dict, quality: Dict, atProperty: bool)
    requires IsReadAs(host, rule, quality) && IsTyped(quality)
    ensures IsGuarantee(host, rule, atProperty) <==>
      || CanFail(CheckOf(host, quality, atProperty))
      || (HasEmptyQuery(quality) && ToThreshold(quality).Some? && !OnlyWarns(Get(quality, "severity")))
  {
    if IsCustom(quality) {
      CustomGuarantees(host, rule, quality, atProperty);
    } else if Get(quality, "type") == Text("sql") {
      QueryGuarantees(host, rule, quality, atProperty);
    } else {
      LibraryGuarantees(host, rule, quality, atProperty);
    }
  }

  lemma QueryGuarantees(host: Host, rule: Dict, quality: Dict, atProperty: bool)
    requires IsReadAs(host, rule, quality) && IsTyped(quality) && Get(quality, "type") == Text("sql")
    ensures IsGuarantee(host, rule, atProperty) <==>
      || CanFail(CheckOf(host, quality, atProperty))
      || (HasEmptyQuery(quality) && ToThreshold(quality).Some? && !OnlyWarns(Get(quality, "severity")))
  {
    DecisiveTexts(host, rule, quality);
    SeveritiesThatWarn(Get(quality, "severity"));
  }

  lemma CustomGuarantees(host: Host, rule: Dict, quality: Dict, atProperty: bool)
    requires IsReadAs(host, rule, quality) && IsTyped(quality) && IsCustom(quality)
    ensures IsGuarantee(host, rule, atProperty) <==> CanFail(CheckOf(host, quality, atProperty))
  {
    DecisiveTexts(host, rule, quality);
    SeveritiesThatWarn(Get(quality, "severity"));
    if Get(quality, "metric") != Null {
      LibraryRuleRuns(host, rule, quality, atProperty);
    }
  }

  lemma LibraryGuarantees(host: Host, rule: Dict, quality: Dict, atProperty: bool)
    requires IsReadAs(host, rule, quality) && IsTyped(quality)
    requires !IsCustom(quality) && Get(quality, "type") != Text("sql")
    ensures IsGuarantee(host, rule, atProperty) <==> CanFail(CheckOf(host, quality, atProperty))
  {
    DecisiveTexts(host, rule, quality);
    SeveritiesThatWarn(Get(quality, "severity"));
    if Get(quality, "metric") != Null {
      LibraryRuleRuns(host, rule, quality, atProperty);
    }
  }

  /** What the status of a library rule asks of its metric. */
  lemma LibraryRuleRuns(host: Host, rule: Dict, quality: Dict, atProperty: bool)
    requires IsReadAs(host, rule, quality) && IsTyped(quality) && Get(quality, "metric") != Null
    ensures var read := host.validated(Restrict(rule, METRIC_FIELDS)).value;
      && !RunsRaises(read, atProperty)
      && (LibraryCheck(host, quality, atProperty).Run? <==>
            Runs(host, read, atProperty) && ToThreshold(quality).Some?)
    ensures LibraryCheck(host, quality, atProperty).Run? ==>
      LibraryCheck(host, quality, atProperty).fails == !OnlyWarns(Get(quality, "severity"))
  {
    var read := host.validated(Restrict(rule, METRIC_FIELDS)).value;
    RunsReadsItsFields(host, read, quality, atProperty);
    RunnableMetrics(host, quality, atProperty);
  }

  // ---------------------------------------------------------------- Fields that no check reads

  /** Fields of a rule that describe it. */
  predicate IsNote(field: string) {
    || field == "id" || field == "name" || field == "rule" || field == "description" || field == "dimension"
    || field == "businessImpact" || field == "method" || field == "schedule" || field == "scheduler"
    || field == "tags" || field == "customProperties" || field == "authoritativeDefinitions"
  }

  lemma NotesAreUnchecked(field: string)
    ensures field in UNCHECKED_FIELDS <==> IsNote(field) || field == "severity"
  {
  }

  /** A note changes no check. */
  lemma NotesChangeNoCheck(host: Host, before: Dict, after: Dict, note: string, atProperty: bool)
    requires IsNote(note) && forall k :: k != note ==> Get(before, k) == Get(after, k)
    ensures CheckOf(host, before, atProperty) == CheckOf(host, after, atProperty)
  {
    NotesAreNoThresholds(note);
    NotesAreNotDecisive(note);
    DecisiveKeysAgree(before, after);
    UnitAndArgumentsAgree(before, after);
    ThresholdReadsItsKeys(before, after);
    SameFieldsSameCheck(host, before, after, atProperty);
  }

  lemma NotesAreNotDecisive(note: string)
    requires IsNote(note)
    ensures note !in DECISIVE
  {
  }

  lemma UnitAndArgumentsAgree(a: Dict, b: Dict)
    requires AgreeOn(a, b, METRIC_FIELDS)
    ensures Get(a, "unit") == Get(b, "unit") && Get(a, "arguments") == Get(b, "arguments")
  {
    assert METRIC_FIELDS[1] == "unit" && METRIC_FIELDS[2] == "arguments";
  }

  lemma SameFieldsSameCheck(host: Host, a: Dict, b: Dict, atProperty: bool)
    requires Get(a, "severity") == Get(b, "severity") && Get(a, "type") == Get(b, "type")
    requires Get(a, "engine") == Get(b, "engine") && Get(a, "implementation") == Get(b, "implementation")
    requires Get(a, "query") == Get(b, "query") && Get(a, "metric") == Get(b, "metric")
    requires Get(a, "unit") == Get(b, "unit") && Get(a, "arguments") == Get(b, "arguments")
    requires ToThreshold(a) == ToThreshold(b)
    ensures CheckOf(host, a, atProperty) == CheckOf(host, b, atProperty)
  {
  }

  lemma NotesAreNoThresholds(note: string)
    requires IsNote(note)
    ensures note !in THRESHOLDS && note != "arguments" && note != "unit" && note != "metric"
  {
    assert forall n :: 0 <= n < |THRESHOLDS| ==> THRESHOLDS[n][0] == 'm' && THRESHOLDS[n][1] == 'u';
    assert note == "method" ==> note[1] == 'e';
  }

  /**
   * Between two guarantees, an entry that concerns neither the arguments of a library rule nor a threshold, the
   * unit or the metric is untested if it is about a note or the severity, and left open if not.
   */
  lemma OtherFieldsAreOpen(host: Host, before: Dict, after: Dict, kind: ChangeType, field: string)
    requires field != "" && field !in THRESHOLDS && field != "unit" && field != "metric"
    requires BeforeFirst(field, ".") != "arguments" || !IsLibrary(after)
    ensures RuleDirection(host, before, after, kind, field, true, true)
      == Graded(if IsNote(BeforeFirst(field, ".")) || BeforeFirst(field, ".") == "severity"
                then Untested else Undetermined)
  {
    NotesAreUnchecked(BeforeFirst(field, "."));
  }

  /** A unit that says the same is untested, another one is left open. */
  lemma UnitsAreOpen(host: Host, before: Dict, after: Dict, kind: ChangeType)
    requires !UnitRaises(host, before) && !UnitRaises(host, after)
    ensures RuleDirection(host, before, after, kind, "unit", true, true) == Graded(
      if IsPercentUnit(host, Get(before, "unit")) == IsPercentUnit(host, Get(after, "unit"))
      then Untested else Undetermined)
  {
    PercentUnits(host, before);
    PercentUnits(host, after);
    UnitIsNoArgument();
  }

  lemma UnitIsNoArgument()
    ensures BeforeFirst("unit", ".") == "unit" && "unit" !in THRESHOLDS
    ensures BeforeFirst("metric", ".") == "metric" && "metric" !in THRESHOLDS
  {
    BeforeNoDot("unit");
    BeforeNoDot("metric");
    UnitIsNoThreshold();
  }

  lemma UnitIsNoThreshold()
    ensures "unit" !in THRESHOLDS && "metric" !in THRESHOLDS
  {
    assert forall n :: 0 <= n < |THRESHOLDS| ==> THRESHOLDS[n][1] == 'u';
    assert "unit"[1] == 'n' && "metric"[1] == 'e';
  }

  /** Any other change of metric is left open. */
  lemma MetricsAreOpen(host: Host, before: Dict, after: Dict, kind: ChangeType)
    requires !NoHash(Get(before, "metric")) && !NoHash(Get(after, "metric")) && !SwapsNullAndMissing(before, after)
    ensures RuleDirection(host, before, after, kind, "metric", true, true) == Graded(Undetermined)
  {
    UnitIsNoArgument();
    NotesAreUnchecked("metric");
  }

  /**
   * An argument of a library metric: if the metric changed, its own entry carries that; a whole block that is
   * not that of missingValues, a changed list that is counted with, and a pattern are left open; other
   * arguments are not read.
   */
  lemma ArgumentsAreOpen(host: Host, before: Dict, after: Dict, kind: ChangeType, argument: Option<string>)
    requires !NoHash(Get(after, "metric"))
    ensures Get(before, "metric") != Get(after, "metric") ==>
      ArgumentDirection(host, before, after, kind, argument) == Graded(Untested)
    ensures Get(before, "metric") == Get(after, "metric") ==>
      && (argument.None? && Get(after, "metric") != Text("missingValues") ==>
            ArgumentDirection(host, before, after, kind, argument) == Graded(Undetermined))
      && (argument.Some? && IsReadList(Get(after, "metric"), argument.value) && kind.Updated? ==>
            ArgumentDirection(host, before, after, kind, argument) == Graded(Undetermined))
      && (argument == Some("pattern") && Get(after, "metric") == Text("invalidValues") ==>
            ArgumentDirection(host, before, after, kind, argument) == Graded(Undetermined))
      && (argument.Some? && !IsReadList(Get(after, "metric"), argument.value)
          && !(argument.value == "pattern" && Get(after, "metric") == Text("invalidValues")) ==>
            ArgumentDirection(host, before, after, kind, argument) == Graded(Untested))
  {
  }

  /** The lists that the library metrics count with. */
  predicate IsReadList(metric: Json, argument: string) {
    || (metric == Text("invalidValues") && argument == "validValues")
    || (metric == Text("missingValues") && argument == "missingValues")
    || (metric == Text("duplicateValues") && argument == "properties")
  }

  /** Thresholds in different units, or with one that cannot be compared with, are left open at the carrier. */
  lemma ThresholdsAreOpen(host: Host, before: Dict, after: Dict, field: string)
    requires !UnitRaises(host, before) && !UnitRaises(host, after)
    requires Some(field) == Carrier(before, after, THRESHOLDS)
    requires ThresholdOf(host, before).None? || ThresholdOf(host, after).None?
      || IsPercentUnit(host, Get(before, "unit")) != IsPercentUnit(host, Get(after, "unit"))
    ensures ThresholdDirection(host, before, after, field) == Graded(Undetermined)
  {
    PercentUnits(host, before);
    PercentUnits(host, after);
  }

  /** Queries and custom checks compute numbers of their own, of any kind; rules of no type count with a metric. */
  lemma QueriesCountNoRows(host: Host, quality: Dict, atProperty: bool)
    requires var check := CheckOf(host, quality, atProperty);
      check.Some? && check.value.Run? && (check.value.question.Query? || check.value.question.CustomCheck?)
    ensures !IsLibrary(quality)
  {
  }

  lemma MetricsCountRows(quality: Dict)
    requires Get(quality, "type") == Null || Get(quality, "type") == Text("library")
    ensures IsLibrary(quality)
  {
  }

  /** Counting more or fewer bad rows against no threshold is left open. */
  lemma NoThresholdIsOpen(host: Host, rule: Dict, more: bool)
    requires ThresholdOf(host, rule).None?
    ensures RuleCountDirection(host, rule, more) == Graded(Undetermined)
  {
  }

  /** Nulls are no markers, any other item of a list is one, and so is every letter of a text. */
  lemma MarkersAre(rule: Dict, items: seq<Json>)
    requires Markers(rule) == Arr(items)
    ensures HasMarkers(rule) <==> exists v :: v in items && v != Null
  {
    if v :| v in items && v != Null {
      var n :| 0 <= n < |items| && items[n] == v;
    }
    if HasMarkers(rule) {
      var n :| 0 <= n < |items| && items[n] != Null;
      assert items[n] in items;
    }
  }

  lemma LettersAreMarkers(rule: Dict, text: string)
    requires Markers(rule) == Text(text)
    ensures HasMarkers(rule) <==> text != ""
  {
  }
}
