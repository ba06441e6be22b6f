/**
 * The ordered rules that give a changelog entry its direction. `before` and `after` are the
 * normalized contracts.
 */
module Rules {
  import opened Wrappers
  import opened JsonTrees
  import opened Breaking
  import opened Paths
  import opened Lookups
  import opened QualityRules
  import opened BoundRules

  /** A rule's answer: it does not apply, it gives a direction, or it raises. */
  datatype Verdict = Skips | Evaluates(ruleId: string, direction: Direction) | Fails

  datatype RuleName =
    | QualityConstraint | RelationshipChanged | FreshnessChanged | PhysicalNameChanged | RequiredChanged
    | SchemaAddedOrRemoved | PropertyAddedOrRemoved | TypeChanged | UniqueConstraint | KeyConstraint
    | ValidationConstraint | EnumConstraint | VectorShape | MetadataFallback

  const DEFAULT_RULES: seq<RuleName> := [
    QualityConstraint, RelationshipChanged, FreshnessChanged, PhysicalNameChanged, RequiredChanged,
    SchemaAddedOrRemoved, PropertyAddedOrRemoved, TypeChanged, UniqueConstraint, KeyConstraint,
    ValidationConstraint, EnumConstraint, VectorShape, MetadataFallback]

  const FALLBACK_ID := "metadata-or-unknown-change"

  function RuleId(name: RuleName): string {
    match name
    case QualityConstraint => "quality-constraint-changed"
    case RelationshipChanged => "relationship-changed"
    case FreshnessChanged => "freshness-changed"
    case PhysicalNameChanged => "physical-name-changed"
    case RequiredChanged => "required-changed"
    case SchemaAddedOrRemoved => "schema-added-or-removed"
    case PropertyAddedOrRemoved => "property-added-or-removed"
    case TypeChanged => "type-changed"
    case UniqueConstraint => "unique-constraint-changed"
    case KeyConstraint => "key-constraint-changed"
    case ValidationConstraint => "validation-constraint-changed"
    case EnumConstraint => "enum-constraint-changed"
    case VectorShape => "vector-shape-changed"
    case MetadataFallback => FALLBACK_ID
  }

  predicate InSchema(path: string) { "schema." <= path }

  // ---------------------------------------------------------------- Elements

  function AddedOrRemoved(kind: ChangeType): Option<Direction> {
    match kind
    case Added => Some(Tightens)
    case Removed => Some(Loosens)
    case Updated => None
  }

  function SchemaDirection(entry: ChangelogEntry): Option<Direction> {
    var segments := Split(entry.path);
    if |segments| != 2 || segments[0] != "schema" then None else AddedOrRemoved(entry.kind)
  }

  predicate IsSchemaPropertyPath(segments: seq<string>) {
    |segments| >= 3 && segments[0] == "schema" && segments[|segments| - 2] == "properties"
  }

  function PropertyDirection(entry: ChangelogEntry): Option<Direction> {
    if !IsSchemaPropertyPath(Split(entry.path)) then None else AddedOrRemoved(entry.kind)
  }

  function OrElse(value: Option<string>, default: string): string {
    if value.Some? && value.value != "" then value.value else default
  }

  function PhysicalNameDirection(entry: ChangelogEntry): Option<Direction> {
    if !InSchema(entry.path) || !EndsWith(entry.path, ".physicalName") then None
    else
      var owner := RemoveSuffix(entry.path, ".physicalName");
      var name := match CutLast(owner, ".properties.")
        case Some((_, after)) => after
        case None => RemovePrefix(owner, "schema.");
      Some(if OrElse(entry.oldValue, name) == OrElse(entry.newValue, name) then Untested else Both)
  }

  // ---------------------------------------------------------------- Flags, types and keys

  function ParseBool(value: string): Option<bool> {
    var normalized := Lower(Strip(value));
    if normalized == "true" || normalized == "1" then Some(true)
    else if normalized == "false" || normalized == "0" then Some(false)
    else None
  }

  function Flag(value: Option<string>): Option<bool> {
    if value.None? then Some(false) else ParseBool(value.value)
  }

  /** Direction of a boolean constraint, which is off when absent. */
  function FlagDirection(entry: ChangelogEntry): Direction {
    var old', new' := Flag(entry.oldValue), Flag(entry.newValue);
    if old'.None? || new'.None? then Undetermined
    else if old' == new' then Untested
    else if new'.value then Tightens
    else Loosens
  }

  function RequiredDirection(entry: ChangelogEntry): Option<Direction> {
    if InSchema(entry.path) && EndsWith(entry.path, ".required") then Some(FlagDirection(entry)) else None
  }

  function UniqueDirection(entry: ChangelogEntry): Option<Direction> {
    if InSchema(entry.path) && EndsWithAny(entry.path, [".unique", ".uniqueItems"])
      then Some(FlagDirection(entry)) else None
  }

  function TypeDirection(entry: ChangelogEntry): Option<Direction> {
    if !InSchema(entry.path) || |Split(entry.path)| < 5
      || !EndsWithAny(entry.path, [".logicalType", ".physicalType"]) then None
    else match entry.kind
      case Updated => Some(Both)
      case Added => Some(Tightens)
      case Removed => Some(Loosens)
  }

  /** The primary key of a schema. */
  function KeyColumns(tree: Json, schemaPath: string): set<string> {
    var properties := Fields(Get(Fields(Lookup(tree, schemaPath)), "properties"));
    set k | k in properties && Truthy(Get(Fields(properties[k]), "primaryKey"))
  }

  predicate IsComposite(tree: Json, schemaPath: string) {
    |KeyColumns(tree, schemaPath)| > 1
  }

  /** Counting the key columns raises: the schema, its properties or one of them is no dict. */
  predicate KeyRaises(tree: Json, schemaPath: string) {
    var schema := Lookup(tree, schemaPath);
    var properties := Get(Fields(schema), "properties");
    NoDict(schema) || NoDict(properties) || exists k :: k in Fields(properties) && !Fields(properties)[k].Obj?
  }

  /** The keys of the new version are counted only if the old one has no composite key. */
  predicate KeysRaise(before: Json, after: Json, schemaPath: string) {
    KeyRaises(before, schemaPath) || (!IsComposite(before, schemaPath) && KeyRaises(after, schemaPath))
  }

  function KeyDirection(entry: ChangelogEntry, before: Json, after: Json): Option<Grading> {
    if !InSchema(entry.path) then None
    else if EndsWith(entry.path, ".primaryKeyPosition") then Some(Graded(Untested))
    else if !EndsWithAny(entry.path, [".primaryKey", ".primary_key"]) then None
    else Some(KeyFlagDirection(FlagDirection(entry), before, after, BeforeFirst(entry.path, ".properties.")))
  }

  /** The direction of a flag that moves in `direction` by itself. */
  function KeyFlagDirection(direction: Direction, before: Json, after: Json, schemaPath: string): Grading {
    if KeysRaise(before, after, schemaPath) then Raises
    else if (IsComposite(before, schemaPath) || IsComposite(after, schemaPath)) && direction in [Tightens, Loosens]
    then Graded(Both) else Graded(direction)
  }

  // ---------------------------------------------------------------- Limits

  const VALIDATION_SUFFIXES: seq<string> := [
    ".pattern", ".minLength", ".maxLength", ".minimum", ".maximum", ".exclusiveMinimum", ".exclusiveMaximum",
    ".minItems", ".maxItems"]

  /** Whether replacing a limit looks the type of the property up. */
  predicate ReadsType(host: Host, before: Dict, after: Dict, key: string) {
    var group := Group(key);
    && PartnerSet(key, group, before, after) && Some(key) == Carrier(before, after, group)
    && !SomeUnreadable(host, before, group) && !SomeUnreadable(host, after, group)
  }

  /** The options, or the property that the limit belongs to, are no dict where they are read. */
  predicate OptionsRaise(host: Host, before: Json, after: Json, property: Json, key: string, kind: ChangeType) {
    && !kind.Updated? && Group(key) != []
    && (|| NoDict(before) || NoDict(after)
        || (NoDict(property) && ReadsType(host, Fields(before), Fields(after), key)))
  }

  function ValidationDirection(host: Host, entry: ChangelogEntry, before: Json, after: Json): Option<Grading> {
    if !InSchema(entry.path) || !EndsWithAny(entry.path, VALIDATION_SUFFIXES) then None
    else match CutLast(entry.path, ".")
      case None => None
      case Some((optionsPath, key)) =>
        var old', new' := Lookup(before, optionsPath), Lookup(after, optionsPath);
        var property := Lookup(after, RemoveSuffix(optionsPath, ".logicalTypeOptions"));
        if OptionsRaise(host, old', new', property, key, entry.kind) then Some(Raises)
        else Some(BoundDirection(host, Fields(old'), Fields(new'), Get(Fields(property), "logicalType"), key,
                                 entry.kind, entry.oldValue, entry.newValue))
  }

  // ---------------------------------------------------------------- Allowed values

  /** The allowed values of an enum, as text. */
  function EnumValues(host: Host, tree: Json, enumPath: string): set<string> {
    var items := Fields(Lookup(tree, enumPath));
    set k | k in items && items[k].Obj? :: host.str(Get(items[k].fields, "value"))
  }

  function EnumValueDirection(
      oldValue: Option<string>, newValue: Option<string>, oldValues: set<string>, newValues: set<string>): Direction {
    var removes := oldValue.Some? && oldValue.value !in newValues;
    var adds := newValue.Some? && newValue.value !in oldValues;
    if removes && adds then Both
    else if removes then Tightens
    else if adds then Loosens
    else Untested
  }

  function AllowedDirection(host: Host, entry: ChangelogEntry, before: Json, after: Json, enumPath: string): Grading {
    if NoDict(Lookup(before, enumPath)) || NoDict(Lookup(after, enumPath)) then Raises
    else
      Graded(EnumValueDirection(entry.oldValue, entry.newValue,
                                EnumValues(host, before, enumPath), EnumValues(host, after, enumPath)))
  }

  function EnumDirection(host: Host, entry: ChangelogEntry, before: Json, after: Json): Option<Grading> {
    if !InSchema(entry.path) || !Contains(entry.path, ".properties.") then None
    else if EndsWith(entry.path, ".enum") then Some(Graded(if entry.kind.Added? then Tightens else Loosens))
    else match CutLast(entry.path, ".enum.")
      case None => None
      case Some((owner, item)) =>
        if !EndsWith(entry.path, ".value") || Contains(item, ".customProperties.")
          || Contains(item, ".authoritativeDefinitions.")
        then None
        else
          Some(AllowedDirection(host, entry, before, after, owner + ".enum"))
  }

  // ---------------------------------------------------------------- Relationships

  /** The longest key of at most `n` characters that `rest` is, or lies inside. */
  function LongestKey(rest: string, keys: set<string>, n: nat): Option<string>
    requires n <= |rest|
  {
    if rest[..n] in keys && (n == |rest| || rest[n] == '.') then Some(rest[..n])
    else if n == 0 then None
    else LongestKey(rest, keys, n - 1)
  }

  predicate IsForeignKey(value: Option<string>) {
    OrElse(value, "foreignKey") == "foreignKey"
  }

  function RelationshipDirection(entry: ChangelogEntry, before: Json, after: Json): Option<Grading> {
    if !InSchema(entry.path) then None
    else match CutLast(entry.path, ".relationships.")
      case None => None
      case Some((owner, rest)) =>
        var container := owner + ".relationships";
        var relationships := Fields(Lookup(before, container)) + Fields(Lookup(after, container));
        if NoDict(Lookup(before, container)) || NoDict(Lookup(after, container)) then Some(Raises)
        else match LongestKey(rest, relationships.Keys, |rest|)
          case None => None
          case Some(key) =>
            Some(FieldDirection(entry, Get(relationships, key), if |rest| > |key| then rest[|key| + 1..] else ""))
  }

  /** The direction of a change of `field` of a relationship, or of a whole one. */
  function FieldDirection(entry: ChangelogEntry, relationship: Json, field: string): Grading {
    var kind := Get(Fields(relationship), "type");
    if field == "type" then
      Graded(if IsForeignKey(entry.oldValue) == IsForeignKey(entry.newValue) then Untested
             else if IsForeignKey(entry.newValue) then Tightens else Loosens)
    else if !relationship.Obj? then Raises
    else if Truthy(kind) && kind != Text("foreignKey") then Graded(Untested)
    else if field == "" then Graded(if entry.kind.Added? then Tightens else Loosens)
    else if BeforeFirst(field, ".") in ["from", "to"] then Graded(Both)
    else Graded(Untested)
  }

  // ---------------------------------------------------------------- Freshness

  function CountDots(s: string): nat {
    if s == "" then 0 else (if s[0] == '.' then 1 else 0) + CountDots(s[1..])
  }

  /** Python's `name in (models or {})`: a key of a dict, an item of a list, a part of a text. */
  predicate Mentions(models: Json, name: string) {
    match models
    case Obj(fields) => name in fields
    case Arr(items) => Text(name) in items
    case Text(text) => text != "" && Contains(text, name)
    case _ => false
  }

  /** A freshness with a value and an element that reads like model.field. */
  predicate NamesField(host: Host, sla: Dict) {
    var element := Get(sla, "element");
    Get(sla, "value") != Null && Truthy(element) && CountDots(host.str(element)) == 1
  }

  /** Freshness is checked only with a value and an element naming a model.field of the contract. */
  predicate IsFreshnessChecked(host: Host, sla: Dict, tree: Json) {
    NamesField(host, sla) && Mentions(Get(Fields(tree), "schema"), Split(host.str(Get(sla, "element")))[0])
  }

  /** The freshness is no dict, or the models are nothing that a name can be in. */
  predicate FreshnessRaises(host: Host, sla: Json, tree: Json) {
    var models := Get(Fields(tree), "schema");
    NoDict(sla) || (NamesField(host, Fields(sla)) && Truthy(models) && (models.Flag? || models.Num?))
  }

  function AgeDirection(old': Duration, new': Duration): Grading {
    if old'.BadDuration? || new'.BadDuration? then Raises
    else if old'.NoDuration? || new'.NoDuration? then Graded(Undetermined)
    else if old' == new' then Graded(Untested)
    else Graded(if new'.value < old'.value then Tightens else Loosens)
  }

  const FRESHNESS := "slaProperties.freshness"

  function SlaDirection(host: Host, oldSla: Dict, newSla: Dict, was: bool, is': bool, field: string): Grading {
    if !was && !is' then Graded(Untested)
    else if was != is' then Graded(if is' then Tightens else Loosens)
    else if field == "element" then Graded(Both)
    else if field in ["value", "unit"] then
      AgeDirection(host.seconds(Get(oldSla, "value"), Get(oldSla, "unit")),
                   host.seconds(Get(newSla, "value"), Get(newSla, "unit")))
    else Graded(Untested)
  }

  function FreshnessDirection(host: Host, entry: ChangelogEntry, before: Json, after: Json): Option<Grading> {
    var segments := Split(entry.path);
    if |segments| < 2 || segments[0] != "slaProperties" || segments[1] != "freshness" then None
    else if FreshnessRaises(host, Lookup(before, FRESHNESS), before)
      || FreshnessRaises(host, Lookup(after, FRESHNESS), after) then Some(Raises)
    else
      var oldSla, newSla := Fields(Lookup(before, FRESHNESS)), Fields(Lookup(after, FRESHNESS));
      Some(SlaDirection(host, oldSla, newSla, IsFreshnessChecked(host, oldSla, before),
                        IsFreshnessChecked(host, newSla, after), if |segments| > 2 then segments[2] else ""))
  }

  /** The ages of the latest value that pass a freshness of `seconds`. */
  function FreshEnough(seconds: real): real -> bool { age => age < seconds }

  /** The path of a changed value or unit of the freshness. */
  predicate IsFreshnessLimit(path: string) {
    var segments := Split(path);
    |segments| > 2 && segments[0] == "slaProperties" && segments[1] == "freshness" && segments[2] in ["value", "unit"]
  }

  /** Where freshness is checked in both versions, its direction is the true change of the ages that pass. */
  lemma FreshnessIsExact(host: Host, entry: ChangelogEntry, before: Json, after: Json, old': real, new': real)
    requires IsFreshnessLimit(entry.path)
    requires var sla := Fields(Lookup(before, FRESHNESS));
      IsFreshnessChecked(host, sla, before) && host.seconds(Get(sla, "value"), Get(sla, "unit")) == Seconds(old')
    requires var sla := Fields(Lookup(after, FRESHNESS));
      IsFreshnessChecked(host, sla, after) && host.seconds(Get(sla, "value"), Get(sla, "unit")) == Seconds(new')
    ensures FreshnessDirection(host, entry, before, after)
      == Some(Graded(TrueDirection(FreshEnough(old'), FreshEnough(new'), false)))
  {
    var accepts1, accepts2 := FreshEnough(old'), FreshEnough(new');
    assert old' < new' ==> Separates(accepts2, accepts1, false, old');
    assert new' < old' ==> Separates(accepts1, accepts2, false, new');
  }

  // ---------------------------------------------------------------- Vectors

  const DIMENSIONS := ".logicalTypeOptions.dimensions"
  const ELEMENT_TYPE := ".logicalTypeOptions.elementType"

  function VectorDirection(entry: ChangelogEntry): Option<Direction> {
    if !InSchema(entry.path) || !EndsWithAny(entry.path, [DIMENSIONS, ELEMENT_TYPE]) then None
    else if EndsWith(entry.path, ".elementType") then
      Some(if OrElse(entry.oldValue, "float32") == OrElse(entry.newValue, "float32") then Untested else Both)
    else Some(AddedOrRemoved(entry.kind).GetOr(Both))
  }

  // ---------------------------------------------------------------- Quality rules

  datatype QualityPath = QualityPath(owner: string, name: string, field: string)

  function ParseQualityPath(path: string): Option<QualityPath> {
    if !InSchema(path) then None
    else match CutLast(path, ".quality.")
      case None => None
      case Some((owner, rest)) => Some(QualityPath(owner, BeforeFirst(rest, "."), AfterFirst(rest, ".")))
  }

  function QualityRuleAt(tree: Json, at: QualityPath): Dict {
    Fields(Lookup(tree, at.owner + ".quality." + at.name))
  }

  function QualityEntryDirection(host: Host, entry: ChangelogEntry, before: Json, after: Json): Option<Grading> {
    match ParseQualityPath(entry.path)
    case None => None
    case Some(at) =>
      Some(QualityDirection(host, QualityRuleAt(before, at), QualityRuleAt(after, at), entry.kind, at.field,
                            Contains(at.owner, ".properties.")))
  }

  // ---------------------------------------------------------------- All rules

  function Answer(name: RuleName, direction: Option<Direction>): Verdict {
    match direction
    case None => Skips
    case Some(d) => Evaluates(RuleId(name), d)
  }

  function AnswerGrading(name: RuleName, grading: Option<Grading>): Verdict {
    match grading
    case None => Skips
    case Some(Raises) => Fails
    case Some(Graded(d)) => Evaluates(RuleId(name), d)
  }

  function Evaluate(host: Host, name: RuleName, entry: ChangelogEntry, before: Json, after: Json): Verdict {
    match name
    case QualityConstraint => AnswerGrading(name, QualityEntryDirection(host, entry, before, after))
    case RelationshipChanged => AnswerGrading(name, RelationshipDirection(entry, before, after))
    case FreshnessChanged => AnswerGrading(name, FreshnessDirection(host, entry, before, after))
    case PhysicalNameChanged => Answer(name, PhysicalNameDirection(entry))
    case RequiredChanged => Answer(name, RequiredDirection(entry))
    case SchemaAddedOrRemoved => Answer(name, SchemaDirection(entry))
    case PropertyAddedOrRemoved => Answer(name, PropertyDirection(entry))
    case TypeChanged => Answer(name, TypeDirection(entry))
    case UniqueConstraint => Answer(name, UniqueDirection(entry))
    case KeyConstraint => AnswerGrading(name, KeyDirection(entry, before, after))
    case ValidationConstraint => AnswerGrading(name, ValidationDirection(host, entry, before, after))
    case EnumConstraint => AnswerGrading(name, EnumDirection(host, entry, before, after))
    case VectorShape => Answer(name, VectorDirection(entry))
    case MetadataFallback => Evaluates(FALLBACK_ID, Untested)
  }

  type Rule = (ChangelogEntry, Json, Json) -> Verdict

  function DefaultRules(host: Host): seq<Rule> {
    seq(|DEFAULT_RULES|, n requires 0 <= n < |DEFAULT_RULES| =>
      (entry, before, after) => Evaluate(host, DEFAULT_RULES[n], entry, before, after))
  }

  /** The answer of the first rule that applies; Skips if none does. */
  function FirstVerdict(rules: seq<Rule>, entry: ChangelogEntry, before: Json, after: Json): Verdict {
    if rules == [] then Skips
    else
      var verdict := rules[0](entry, before, after);
      if verdict.Skips? then FirstVerdict(rules[1..], entry, before, after) else verdict
  }
}
