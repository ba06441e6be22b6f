/**
 * How a change inside a quality rule moves what the contract permits: which rules are
 * guarantees, which of several simultaneous changes carries the grade, and the grade.
 */
module QualityRules {
  import opened Wrappers
  import opened JsonTrees
  import opened Breaking
  import opened NumberProbes
  import opened Thresholds
  import opened Paths
  import Variables

  /** What a text reads as; infinities and NaN are texts that read as numbers, too. */
  datatype Reading = Reads(value: real) | Infinite(positive: bool) | NotANumber | Unread

  /** What a duration is in seconds; asking raises where a unit is no text or digits are no number. */
  datatype Duration = Seconds(value: real) | NoDuration | BadDuration

  /** What the rules ask of Python and its libraries. */
  datatype Host = Host(
    str: Json -> string,                          // str(value)
    number: string -> Reading,                    // a number or an ISO date, as seconds
    seconds: (Json, Json) -> Duration,            // a duration with its unit
    validated: Dict -> Option<Dict>,              // the fields a DataQuality model reads, None if invalid
    unbounded: (Dict, Dict, string) -> Direction) // how limits compare over the reals if one is infinite or NaN

  // ---------------------------------------------------------------- Text of scalars

  function LowerChar(c: char): char { if 'A' <= c <= 'Z' then c - 'A' + 'a' else c }

  function Lower(s: string): string {
    if s == "" then "" else [LowerChar(s[0])] + Lower(s[1..])
  }

  predicate IsSpace(c: char) { c in " \t\n\r" }

  function StripLeft(s: string): string {
    if s != "" && IsSpace(s[0]) then StripLeft(s[1..]) else s
  }

  function Strip(s: string): string
    decreases |s|
  {
    if s != "" && IsSpace(s[|s| - 1]) then Strip(s[..|s| - 1]) else StripLeft(s)
  }

  // ---------------------------------------------------------------- Guarantees

  const WARNING_SEVERITIES: seq<string> := ["info", "warning", "warn", "low", "minor", "trivial"]
  const PERCENT_UNITS: seq<string> := ["percent", "percentage", "%"]
  const PERCENT_METRICS: seq<string> := ["nullValues", "missingValues", "invalidValues"]
  const METRIC_FIELDS: seq<string> := ["metric", "unit", "arguments"]
  const CUSTOM_CHECK_ENGINE := "datacontract-cli"

  /** A violation of a rule with this severity fails, rather than warns. */
  predicate Fails(severity: Json) {
    !(severity.Text? && Lower(Strip(severity.text)) in WARNING_SEVERITIES)
  }

  /** The severity is neither a text nor absent, so it cannot be stripped. */
  predicate SeverityRaises(severity: Json) { Truthy(severity) && !severity.Text? }

  /** The unit is set to something that no DataQuality model takes. */
  predicate UnitRaises(host: Host, rule: Dict) {
    Get(rule, "unit") != Null && host.validated(map["unit" := Get(rule, "unit")]).None?
  }

  predicate IsPercent(host: Host, rule: Dict) {
    Get(rule, "unit") != Null && Lower(Strip(host.str(Get(rule, "unit")))) in PERCENT_UNITS
  }

  function Restrict(rule: Dict, keys: seq<string>): Dict {
    map k | k in rule && k in keys :: rule[k]
  }

  /** The thresholds of a rule, ready for ToThreshold. */
  function ThresholdQuality(host: Host, rule: Dict): Dict {
    host.validated(Restrict(rule, THRESHOLDS)).GetOr(map[])
  }

  predicate MetricAllowed(metric: string, atProperty: bool) {
    || (metric == "rowCount" && !atProperty)
    || metric == "duplicateValues"
    || (metric in PERCENT_METRICS && atProperty)
  }

  /** Whether a library rule can run as written: no reason against it is found. */
  predicate Runs(host: Host, quality: Dict, atProperty: bool) {
    var metric := Get(quality, "metric");
    if metric == Null || (metric.Text? && Variables.ContainsVariables(metric.text)) then true
    else
      && metric.Text?
      && MetricAllowed(metric.text, atProperty)
      && (IsPercent(host, quality) ==> metric.text in PERCENT_METRICS)
      && (metric.text == "invalidValues" ==>
            var arguments := Fields(Get(quality, "arguments"));
            Get(arguments, "validValues") != Null || Get(arguments, "pattern") != Null)
  }

  /** Looking for a reason raises: the metric cannot be looked up, or the arguments are no dict. */
  predicate RunsRaises(quality: Dict, atProperty: bool) {
    || NoHash(Get(quality, "metric"))
    || (Get(quality, "metric") == Text("invalidValues") && atProperty && NoDict(Get(quality, "arguments")))
  }

  /** Whether testing the contract turns a rule into a check that can fail; None if finding out raises. */
  function GuaranteeStatus(host: Host, rule: Dict, atProperty: bool): Option<bool> {
    if SeverityRaises(Get(rule, "severity")) then None
    else if !Fails(Get(rule, "severity")) then Some(false)
    else if Get(rule, "type") == Text("custom") && Get(rule, "engine") == Text("soda")
      && Truthy(Get(rule, "implementation")) then Some(false)
    else if Get(rule, "type") == Text("custom") && Get(rule, "engine") == Text(CUSTOM_CHECK_ENGINE) then Some(true)
    else if ToThreshold(ThresholdQuality(host, rule)).None? then Some(false)
    else if Get(rule, "type") == Text("sql") then Some(Get(rule, "query") != Null)
    else if Get(rule, "metric") == Null then Some(false)
    else match host.validated(Restrict(rule, METRIC_FIELDS))
      case None => Some(false)
      case Some(quality) => if RunsRaises(quality, atProperty) then None else Some(Runs(host, quality, atProperty))
  }

  predicate IsGuarantee(host: Host, rule: Dict, atProperty: bool) {
    GuaranteeStatus(host, rule, atProperty) == Some(true)
  }

  // ---------------------------------------------------------------- Carriers

  function Changed(before: Dict, after: Dict, keys: seq<string>): seq<string> {
    if keys == [] then []
    else (if Get(before, keys[0]) != Get(after, keys[0]) then [keys[0]] else []) + Changed(before, after, keys[1..])
  }

  function FirstSet(after: Dict, changed: seq<string>): Option<string> {
    if changed == [] then None
    else if Get(after, changed[0]) != Null then Some(changed[0])
    else FirstSet(after, changed[1..])
  }

  /** Of `keys` changing together, the one whose entry carries the change: the first set in v2, else removed. */
  function Carrier(before: Dict, after: Dict, keys: seq<string>): Option<string> {
    var changed := Changed(before, after, keys);
    match FirstSet(after, changed)
    case Some(key) => Some(key)
    case None => if changed == [] then None else Some(changed[0])
  }

  lemma {:induction false} ChangedAre(before: Dict, after: Dict, keys: seq<string>, key: string)
    ensures key in Changed(before, after, keys) <==> key in keys && Get(before, key) != Get(after, key)
  {
    if keys != [] {
      assert keys == [keys[0]] + keys[1..];
      ChangedAre(before, after, keys[1..], key);
    }
  }

  lemma {:induction false} FirstSetIs(after: Dict, changed: seq<string>)
    ensures FirstSet(after, changed).Some? ==>
      FirstSet(after, changed).value in changed && Get(after, FirstSet(after, changed).value) != Null
    ensures FirstSet(after, changed).None? ==> forall k :: k in changed ==> Get(after, k) == Null
  {
    if changed != [] {
      assert changed == [changed[0]] + changed[1..];
      FirstSetIs(after, changed[1..]);
    }
  }

  /** The carrier is one of the keys that changed, and there is one as soon as any of them changed. */
  lemma CarrierChanged(before: Dict, after: Dict, keys: seq<string>)
    ensures Carrier(before, after, keys).None? <==> forall k :: k in keys ==> Get(before, k) == Get(after, k)
    ensures Carrier(before, after, keys).Some? ==>
      var c := Carrier(before, after, keys).value;
      && c in keys && Get(before, c) != Get(after, c)
      && (Get(after, c) == Null ==> forall k :: k in keys && Get(before, k) != Get(after, k) ==> Get(after, k) == Null)
  {
    var changed := Changed(before, after, keys);
    forall k
      ensures k in changed <==> k in keys && Get(before, k) != Get(after, k)
    {
      ChangedAre(before, after, keys, k);
    }
    FirstSetIs(after, changed);
    if changed != [] {
      assert changed[0] in changed;
    }
  }

  // ---------------------------------------------------------------- The grade of a change inside a rule

  const DECISIVE: seq<string> := [
    "severity", "type", "engine", "implementation", "metric", "query", "arguments", "unit"]
  const UNCHECKED_FIELDS: seq<string> := [
    "id", "name", "rule", "description", "dimension", "businessImpact", "method", "schedule", "scheduler",
    "severity", "tags", "customProperties", "authoritativeDefinitions"]

  /** The list arguments a library metric reads, and whether adding a value to one counts more bad rows. */
  function CountingArgument(metric: Json, argument: string): Option<bool> {
    if metric == Text("invalidValues") && argument == "validValues" then Some(false)
    else if metric == Text("missingValues") && argument == "missingValues" then Some(true)
    else if metric == Text("duplicateValues") && argument == "properties" then Some(false)
    else None
  }

  function RuleCountDirection(host: Host, rule: Dict, more: bool): Grading {
    var threshold := ToThreshold(ThresholdQuality(host, rule));
    if threshold.Some? && UnitRaises(host, rule) then Raises
    else CountDirection(threshold, !IsPercent(host, rule), more)
  }

  /** The argument an entry below `arguments` belongs to. */
  function ArgumentOf(field: string): Option<string> {
    if BeforeFirst(field, ".") == "arguments" && AfterFirst(field, ".") != ""
    then Some(BeforeFirst(AfterFirst(field, "."), ".")) else None
  }

  predicate IsLibrary(rule: Dict) {
    Get(rule, "type") != Text("sql") && Get(rule, "type") != Text("custom")
  }

  function ArgumentDirection(
      host: Host, before: Dict, after: Dict, kind: ChangeType, argument: Option<string>): Grading
  {
    var metric := Get(after, "metric");
    if Get(before, "metric") != metric then Graded(Untested)
    else if argument.None? then
      if metric != Text("missingValues") then Graded(Undetermined)
      else RuleCountDirection(host, after, kind.Added?)
    else if NoHash(metric) then Raises
    else if CountingArgument(metric, argument.value).Some? && !kind.Updated? then
      RuleCountDirection(host, after, CountingArgument(metric, argument.value).value == kind.Added?)
    else if CountingArgument(metric, argument.value).Some?
      || (metric == Text("invalidValues") && argument.value == "pattern")
    then Graded(Undetermined)
    else Graded(Untested)
  }

  function ThresholdDirection(host: Host, before: Dict, after: Dict, field: string): Grading {
    var old', new' := ToThreshold(ThresholdQuality(host, before)), ToThreshold(ThresholdQuality(host, after));
    if UnitRaises(host, before) || UnitRaises(host, after) then Raises
    else if Some(field) != Carrier(before, after, THRESHOLDS) then Graded(Untested)
    else if old'.None? || new'.None? || IsPercent(host, before) != IsPercent(host, after) then Graded(Undetermined)
    else CompareThresholds(old'.value, new'.value, !IsPercent(host, after) && IsLibrary(after))
  }

  function Markers(rule: Dict): Json { Get(Fields(Get(rule, "arguments")), "missingValues") }

  /** The markers cannot be read: the arguments are no dict, or what they list cannot be iterated over. */
  predicate MarkersRaise(rule: Dict) {
    NoDict(Get(rule, "arguments")) || (Truthy(Markers(rule)) && (Markers(rule).Flag? || Markers(rule).Num?))
  }

  /** The markers a missingValues rule counts besides nulls; a text is read letter by letter, a dict by its keys. */
  predicate HasMarkers(rule: Dict) {
    match Markers(rule)
    case Arr(items) => exists n :: 0 <= n < |items| && items[n] != Null
    case Text(letters) => letters != ""
    case Obj(fields) => fields != map[]
    case _ => false
  }

  function MetricDirection(host: Host, before: Dict, after: Dict): Grading {
    var toMissing := Get(after, "metric") == Text("missingValues");
    var missing := if toMissing then after else before;
    if MarkersRaise(missing) then Raises
    else if HasMarkers(missing) then RuleCountDirection(host, after, toMissing)
    else Graded(Untested)
  }

  predicate SwapsNullAndMissing(before: Dict, after: Dict) {
    || (Get(before, "metric") == Text("nullValues") && Get(after, "metric") == Text("missingValues"))
    || (Get(before, "metric") == Text("missingValues") && Get(after, "metric") == Text("nullValues"))
  }

  function QualityDirection(
      host: Host, before: Dict, after: Dict, kind: ChangeType, field: string, atProperty: bool): Grading
  {
    var was, is' := GuaranteeStatus(host, before, atProperty), GuaranteeStatus(host, after, atProperty);
    if was.None? || is'.None? then Raises
    else RuleDirection(host, before, after, kind, field, was.value, is'.value)
  }

  /** The direction of a change between two versions of a rule that are guarantees or not. */
  function RuleDirection(
      host: Host, before: Dict, after: Dict, kind: ChangeType, field: string, was: bool, is': bool): Grading
  {
    var top := BeforeFirst(field, ".");
    if !was && !is' then Graded(Untested)
    else if field == "" then Graded(if kind.Added? then Tightens else Loosens)
    else if was != is' then
      if Some(top) == Carrier(before, after, DECISIVE + THRESHOLDS)
      then Graded(if is' then Tightens else Loosens)
      else Graded(Untested)
    else if top == "arguments" && IsLibrary(after) && Get(after, "metric") != Null then
      ArgumentDirection(host, before, after, kind, ArgumentOf(field))
    else if field in THRESHOLDS then ThresholdDirection(host, before, after, field)
    else if field == "metric" && (NoHash(Get(before, "metric")) || NoHash(Get(after, "metric"))) then Raises
    else if field == "metric" && SwapsNullAndMissing(before, after) then MetricDirection(host, before, after)
    else if field == "unit" then
      if UnitRaises(host, before) || UnitRaises(host, after) then Raises
      else Graded(if IsPercent(host, before) == IsPercent(host, after) then Untested else Undetermined)
    else if top in UNCHECKED_FIELDS then Graded(Untested)
    else Graded(Undetermined)
  }

  /** Capital letters become small ones, and nothing else changes. */
  lemma CapitalsAreLowered(c: char)
    ensures LowerChar(c) as int == if 65 <= c as int <= 90 then c as int + 32 else c as int
  {
  }
}
