/**
 * Two rules and one changed argument each, for which the reported direction is false.
 */
module MistakenEntries {
  import opened Wrappers
  import opened JsonTrees
  import opened Breaking
  import opened NumberProbes
  import opened Thresholds
  import opened Paths
  import opened QualityRules
  import opened Guarantees
  import opened Datasets
  import opened Arguments

  const LIMIT := "mustBeLessThan"

  /** A library rule that wants less than two. */
  function LessThanTwo(metric: string, arguments: Dict): Dict {
    map["metric" := Text(metric), "arguments" := Obj(arguments), LIMIT := Num(2.0)]
  }

  ghost predicate ValidatesAnything(host: Host) { forall d :: host.validated(d) == Some(d) }

  lemma FieldsOf(metric: string, arguments: Dict)
    ensures var rule := LessThanTwo(metric, arguments);
      && Get(rule, "metric") == Text(metric) && Get(rule, "arguments") == Obj(arguments) && Get(rule, LIMIT) == Num(2.0)
      && (forall k :: k != "metric" && k != "arguments" && k != LIMIT ==> Get(rule, k) == Null)
      && NoNullValues(rule)
  {
  }

  lemma LimitIsRead(host: Host, metric: string, arguments: Dict)
    requires ValidatesAnything(host)
    ensures ThresholdOf(host, LessThanTwo(metric, arguments)) == Some(Threshold(LT, Number(2.0), Missing))
  {
    var rule := LessThanTwo(metric, arguments);
    assert THRESHOLDS[4] == LIMIT && LIMIT in THRESHOLDS;
    ArgumentsAreNoThreshold();
    assert ThresholdQuality(host, rule) == map[LIMIT := Num(2.0)];
  }

  /** It is met by fewer bad rows, and more than one may be too many. */
  lemma TwoIsTooMany(t: Threshold)
    requires t == Threshold(LT, Number(2.0), Missing)
    ensures TrueCountDirection(t.Accepts(), true, false) == Loosens
    ensures !OnlyAsksForDuplicates(t)
  {
    var accepts := t.Accepts();
    assert IsCount(0.0, true) && IsCount(2.0, true);
    assert accepts(0.0) && !accepts(2.0);
    assert Antitone(accepts, true);
    assert PassesCount(t, 1) && !PassesCount(t, 2);
  }

  lemma TwoDiffers(engine: Engine, t: Threshold)
    requires t == Threshold(LT, Number(2.0), Missing)
    ensures SomeShareDiffers(engine, t, false)
  {
    assert ShareDiffers(engine, t, false, 2, 2);
  }

  /** Two versions that differ in one argument. */
  lemma DifferInOneArgument(metric: string, before: Dict, after: Dict, name: string)
    requires forall k :: k != name ==> Get(before, k) == Get(after, k)
    ensures SameButArgument(LessThanTwo(metric, before), LessThanTwo(metric, after), name)
  {
    FieldsOf(metric, before);
    FieldsOf(metric, after);
  }

  lemma NoSeverityFails(host: Host, rule: Dict, atProperty: bool)
    requires Get(rule, "severity") == Null && Get(rule, "type") == Null && Get(rule, "metric") != Null
    requires ToThreshold(ThresholdQuality(host, rule)).Some?
    ensures IsGuarantee(host, rule, atProperty) ==
      match host.validated(Restrict(rule, METRIC_FIELDS))
      case None => false
      case Some(quality) => !RunsRaises(quality, atProperty) && Runs(host, quality, atProperty)
  {
  }

  lemma MetricIsRead(metric: string, arguments: Dict)
    ensures var quality := Restrict(LessThanTwo(metric, arguments), METRIC_FIELDS);
      Get(quality, "metric") == Text(metric) && Get(quality, "unit") == Null
        && Get(quality, "arguments") == Obj(arguments)
  {
    assert METRIC_FIELDS[0] == "metric" && METRIC_FIELDS[2] == "arguments";
    assert "metric" in METRIC_FIELDS && "arguments" in METRIC_FIELDS;
  }

  lemma FieldConcerns(name: string, rest: string)
    requires NoDot(name) && name != ""
    ensures Concerns("arguments" + "." + (name + "." + rest), name)
  {
    BeforeDot("arguments", name + "." + rest);
    BeforeDot(name, rest);
  }

  // ---------------------------------------------------------------- A key that splits

  function DuplicatesOf(columns: seq<Json>): Dict {
    LessThanTwo("duplicateValues", map["properties" := Arr(columns)])
  }

  lemma DuplicatesAreGuaranteed(host: Host, columns: seq<Json>)
    requires ValidatesAnything(host)
    ensures IsGuarantee(host, DuplicatesOf(columns), false) && IsLibrary(DuplicatesOf(columns))
    ensures !IsPercent(host, DuplicatesOf(columns))
    ensures ThresholdOf(host, DuplicatesOf(columns)) == Some(Threshold(LT, Number(2.0), Missing))
  {
    var arguments: Dict := map["properties" := Arr(columns)];
    FieldsOf("duplicateValues", arguments);
    LimitIsRead(host, "duplicateValues", arguments);
    MetricIsRead("duplicateValues", arguments);
    NoSeverityFails(host, DuplicatesOf(columns), false);
  }

  function Texts(columns: seq<string>): (items: seq<Json>)
    ensures |items| == |columns| && forall n :: 0 <= n < |columns| ==> items[n] == Text(columns[n])
  {
    seq(|columns|, n requires 0 <= n < |columns| => Text(columns[n]))
  }

  lemma OneColumnMore(columns: seq<string>, column: string)
    requires columns != [] && column !in columns
    ensures WidensKey(
      DuplicatesOf(Texts(columns)), DuplicatesOf(Texts(columns + [column])), columns, columns + [column])
  {
    var one, two: Dict := map["properties" := Arr(Texts(columns))], map["properties" := Arr(Texts(columns + [column]))];
    FieldsOf("duplicateValues", one);
    FieldsOf("duplicateValues", two);
    DifferInOneArgument("duplicateValues", one, two, "properties");
    assert (columns + [column])[|columns|] == column;
  }

  ghost predicate MistakableKey(host: Host, narrow: Dict, wide: Dict, columns: seq<string>, more: seq<string>) {
    && Guaranteed(host, narrow, wide, false) && WidensKey(narrow, wide, columns, more)
    && IsLibrary(wide) && !IsPercent(host, wide)
    && ThresholdOf(host, narrow) == ThresholdOf(host, wide) == Some(Threshold(LT, Number(2.0), Missing))
  }

  /** There are such rules, for any columns. */
  lemma DuplicatesAreMistakable(host: Host, columns: seq<string>, column: string)
    requires ValidatesAnything(host) && columns != [] && column !in columns
    ensures MistakableKey(
      host, DuplicatesOf(Texts(columns)), DuplicatesOf(Texts(columns + [column])), columns, columns + [column])
  {
    DuplicatesAreGuaranteed(host, Texts(columns));
    DuplicatesAreGuaranteed(host, Texts(columns + [column]));
    OneColumnMore(columns, column);
  }

  /** Less than two duplicates of some columns, then of more: reported as loosening, which is false. */
  lemma SplitKeyIsReportedAsLoosening(
      host: Host, narrow: Dict, wide: Dict, field: string, columns: seq<string>, more: seq<string>)
    requires Guaranteed(host, narrow, wide, false) && WidensKey(narrow, wide, columns, more)
    requires IsLibrary(wide) && !IsPercent(host, wide) && Concerns(field, "properties")
    requires ThresholdOf(host, narrow) == ThresholdOf(host, wide) == Some(Threshold(LT, Number(2.0), Missing))
    ensures KeyColumnDirection(host, narrow, wide, false, field) == Graded(Loosens)
    ensures !IsTrueOf(Loosens, PassingTables(host, narrow, columns), PassingTables(host, wide, more))
  {
    TwoIsTooMany(ThresholdOf(host, wide).value);
    NumericBoth(host, narrow, wide);
    KeyColumnsAreCounted(host, narrow, wide, false, field, columns, more);
    KeyColumnsAreMistaken(host, narrow, wide, false, field, columns, more);
  }

  /** The entry says that the contract loosens, which is false. */
  ghost predicate MistakenKey(
      host: Host, narrow: Dict, wide: Dict, field: string, columns: seq<string>, more: seq<string>)
  {
    && Guaranteed(host, narrow, wide, false) && NumericThreshold(host, narrow)
    && KeyColumnDirection(host, narrow, wide, false, field) == Graded(Loosens)
    && !IsTrueOf(Loosens, PassingTables(host, narrow, columns), PassingTables(host, wide, more))
  }

  lemma MistakableIsMistaken(
      host: Host, narrow: Dict, wide: Dict, field: string, columns: seq<string>, more: seq<string>)
    requires MistakableKey(host, narrow, wide, columns, more) && Concerns(field, "properties")
    ensures MistakenKey(host, narrow, wide, field, columns, more)
  {
    SplitKeyIsReportedAsLoosening(host, narrow, wide, field, columns, more);
  }

  /** The field of the entry of one column. */
  function KeyField(column: string): string { "arguments" + "." + ("properties" + "." + column) }

  /** So it is wherever a rule that wants less than two duplicates of some columns is to count those of one more. */
  lemma NewKeyColumnIsMistaken(
      host: Host, columns: seq<string>, column: string, more: seq<string>, narrow: Dict, wide: Dict, field: string)
    requires ValidatesAnything(host) && columns != [] && column !in columns && more == columns + [column]
    requires narrow == DuplicatesOf(Texts(columns)) && wide == DuplicatesOf(Texts(more)) && field == KeyField(column)
    ensures MistakenKey(host, narrow, wide, field, columns, more)
  {
    DuplicatesAreMistakable(host, columns, column);
    KeyFieldConcerns(column);
    MistakableIsMistaken(host, narrow, wide, field, columns, more);
  }

  lemma KeyFieldConcerns(column: string)
    ensures Concerns(KeyField(column), "properties")
  {
    FieldConcerns("properties", column);
  }

  // ---------------------------------------------------------------- A list beside a pattern

  function FitsPattern(): Dict { LessThanTwo("invalidValues", map["pattern" := Text("^a")]) }

  function FitsAndIsListed(): Dict {
    LessThanTwo("invalidValues", map["pattern" := Text("^a"), "validValues" := Arr([Text("a")])])
  }

  lemma InvalidIsGuaranteed(host: Host, arguments: Dict)
    requires ValidatesAnything(host) && Get(arguments, "pattern") != Null
    ensures var rule := LessThanTwo("invalidValues", arguments);
      && IsGuarantee(host, rule, true) && IsLibrary(rule) && !IsPercent(host, rule)
      && ThresholdOf(host, rule) == Some(Threshold(LT, Number(2.0), Missing))
  {
    FieldsOf("invalidValues", arguments);
    LimitIsRead(host, "invalidValues", arguments);
    MetricIsRead("invalidValues", arguments);
    NoSeverityFails(host, LessThanTwo("invalidValues", arguments), true);
  }

  lemma ListIsDropped()
    ensures DropsValidValues(FitsAndIsListed(), FitsPattern())
  {
    var one, two: Dict := map["pattern" := Text("^a"), "validValues" := Arr([Text("a")])], map["pattern" := Text("^a")];
    FieldsOf("invalidValues", one);
    FieldsOf("invalidValues", two);
    DifferInOneArgument("invalidValues", one, two, "validValues");
  }

  lemma WholeListConcerns()
    ensures Concerns("arguments" + "." + "validValues", "validValues")
  {
    BeforeDot("arguments", "validValues");
    BeforeNoDot("validValues");
  }

  ghost predicate MistakableList(engine: Engine, host: Host, limited: Dict, open: Dict, v: Json) {
    && Guaranteed(host, limited, open, true) && DropsValidValues(limited, open)
    && IsLibrary(open) && !IsPercent(host, open) && OnlyFits(engine, limited, v)
    && ThresholdOf(host, limited) == ThresholdOf(host, open) == Some(Threshold(LT, Number(2.0), Missing))
  }

  /** A pattern that `ab` fits, and a list without `ab`. */
  lemma ListsAreMistakable(engine: Engine, host: Host)
    requires ValidatesAnything(host) && engine.matches(Text("^a"), Text("ab"))
    ensures MistakableList(engine, host, FitsAndIsListed(), FitsPattern(), Text("ab"))
  {
    InvalidIsGuaranteed(host, map["pattern" := Text("^a")]);
    InvalidIsGuaranteed(host, map["pattern" := Text("^a"), "validValues" := Arr([Text("a")])]);
    ListIsDropped();
    AbOnlyFits(engine);
  }

  lemma AbOnlyFits(engine: Engine)
    requires engine.matches(Text("^a"), Text("ab"))
    ensures OnlyFits(engine, FitsAndIsListed(), Text("ab"))
  {
    FieldsOf("invalidValues", map["pattern" := Text("^a"), "validValues" := Arr([Text("a")])]);
    assert Text("ab") != Text("a");
  }

  /** A pattern, then also a list that lacks a value which fits: reported as loosening, which is false. */
  lemma NewListIsReportedAsLoosening(engine: Engine, host: Host, limited: Dict, open: Dict, field: string, v: Json)
    requires Guaranteed(host, limited, open, true) && DropsValidValues(limited, open)
    requires IsLibrary(open) && !IsPercent(host, open) && Concerns(field, "validValues")
    requires ThresholdOf(host, limited) == ThresholdOf(host, open) == Some(Threshold(LT, Number(2.0), Missing))
    requires OnlyFits(engine, limited, v)
    ensures ValidValuesDirection(host, limited, open, false, field) == Graded(Loosens)
    ensures !IsTrueOf(Loosens, PassingColumns(engine, host, open), PassingColumns(engine, host, limited))
  {
    TwoIsTooMany(ThresholdOf(host, open).value);
    NumericBoth(host, limited, open);
    ValidValuesAreCounted(host, limited, open, false, field);
    TwoDiffers(engine, ThresholdOf(host, open).value);
    UnlistedValueBreaksTheClaim(engine, host, limited, open, false, v);
  }

  ghost predicate MistakenList(engine: Engine, host: Host, limited: Dict, open: Dict, field: string) {
    && NumericThreshold(host, limited) && NumericThreshold(host, open)
    && ValidValuesDirection(host, limited, open, false, field) == Graded(Loosens)
    && !IsTrueOf(Loosens, PassingColumns(engine, host, open), PassingColumns(engine, host, limited))
  }

  lemma MistakableListIsMistaken(engine: Engine, host: Host, limited: Dict, open: Dict, field: string, v: Json)
    requires MistakableList(engine, host, limited, open, v) && Concerns(field, "validValues")
    ensures MistakenList(engine, host, limited, open, field)
  {
    NewListIsReportedAsLoosening(engine, host, limited, open, field, v);
  }

  /** So it is for a pattern that `ab` fits, and a list that holds only `a`. */
  lemma NewListIsMistaken(engine: Engine, host: Host)
    requires ValidatesAnything(host) && engine.matches(Text("^a"), Text("ab"))
    ensures MistakenList(engine, host, FitsAndIsListed(), FitsPattern(), "arguments" + "." + "validValues")
  {
    var limited, open := FitsAndIsListed(), FitsPattern();
    ListsAreMistakable(engine, host);
    WholeListConcerns();
    MistakableListIsMistaken(engine, host, limited, open, "arguments" + "." + "validValues", Text("ab"));
  }
}
