/**
 * The entries of bounds: their paths end in the name of a bound, which every rule before that of limits skips.
 */
module BoundEntries {
  import opened Wrappers
  import opened JsonTrees
  import opened Breaking
  import opened Paths
  import opened Lookups
  import opened QualityRules
  import opened BoundRules
  import opened Rules
  import opened Selection
  import opened DetectorTheorems
  import opened Enums
  import opened TakenKeys

  /** The path of an entry ends in a bound, and mentions no section that an earlier rule looks for. */
  predicate IsBoundEntry(e: ChangelogEntry, head: string, key: string) {
    && e.path == head + "." + key && key in BOUND_KEYS && InSchema(e.path)
    && !Contains(e.path, ".quality.") && !Contains(e.path, ".relationships.")
    && var s := Split(e.path); |s| >= 4 && s[0] == "schema" && s[|s| - 2] != "properties"
  }

  lemma BoundKeysArePlain(key: string)
    requires key in BOUND_KEYS
    ensures NoDot(key) && key != "" && key != "quality" && key != "relationships"
    ensures key in LIMIT_KEYS && Group(key) != []
  {
    LimitKeys(key);
  }

  const FLAG_KEYS: seq<string> := [
    "physicalName", "required", "unique", "uniqueItems", "logicalType", "physicalType",
    "primaryKeyPosition", "primaryKey", "primary_key"]

  lemma BoundIsNoFlag(key: string)
    requires key in BOUND_KEYS
    ensures forall n :: 0 <= n < |FLAG_KEYS| ==> key != FLAG_KEYS[n]
  {
  }

  /** The path of a bound ends in none of the names of flags and types. */
  lemma EndsInNoFlag(e: ChangelogEntry, head: string, key: string, n: nat, suffix: string)
    requires IsBoundEntry(e, head, key) && n < |FLAG_KEYS| && suffix == "." + FLAG_KEYS[n]
    ensures !EndsWith(e.path, suffix)
  {
    BoundKeysArePlain(key);
    BoundIsNoFlag(key);
    FlagKeyIsPlain(n);
    EndsInKey(head, key, FLAG_KEYS[n]);
  }

  lemma FlagKeyIsPlain(n: nat)
    requires n < |FLAG_KEYS|
    ensures NoDot(FLAG_KEYS[n])
  {
  }

  lemma FieldSuffixes()
    ensures "." + FLAG_KEYS[0] == ".physicalName" && "." + FLAG_KEYS[1] == ".required"
    ensures "." + FLAG_KEYS[2] == ".unique" && "." + FLAG_KEYS[3] == ".uniqueItems"
    ensures "." + FLAG_KEYS[4] == ".logicalType" && "." + FLAG_KEYS[5] == ".physicalType"
  {
  }

  lemma KeySuffixes()
    ensures "." + FLAG_KEYS[6] == ".primaryKeyPosition"
    ensures "." + FLAG_KEYS[7] == ".primaryKey" && "." + FLAG_KEYS[8] == ".primary_key"
  {
  }

  lemma FieldRulesSkipBounds(e: ChangelogEntry, head: string, key: string)
    requires IsBoundEntry(e, head, key)
    ensures PhysicalNameDirection(e).None? && RequiredDirection(e).None?
  {
    FieldSuffixes();
    EndsInNoFlag(e, head, key, 0, ".physicalName");
    EndsInNoFlag(e, head, key, 1, ".required");
  }

  lemma TypeRulesSkipBounds(e: ChangelogEntry, head: string, key: string)
    requires IsBoundEntry(e, head, key)
    ensures UniqueDirection(e).None? && TypeDirection(e).None?
  {
    FieldSuffixes();
    EndsInNoFlag(e, head, key, 2, ".unique");
    EndsInNoFlag(e, head, key, 3, ".uniqueItems");
    EndsInNoFlag(e, head, key, 4, ".logicalType");
    EndsInNoFlag(e, head, key, 5, ".physicalType");
  }

  lemma KeyRuleSkipsBounds(e: ChangelogEntry, before: Json, after: Json, head: string, key: string)
    requires IsBoundEntry(e, head, key)
    ensures KeyDirection(e, before, after).None?
  {
    KeySuffixes();
    EndsInNoFlag(e, head, key, 6, ".primaryKeyPosition");
    EndsInNoFlag(e, head, key, 7, ".primaryKey");
    EndsInNoFlag(e, head, key, 8, ".primary_key");
  }

  lemma EarlierRulesSkipBounds(
      host: Host, e: ChangelogEntry, before: Json, after: Json, head: string, key: string, name: RuleName)
    requires IsBoundEntry(e, head, key)
    requires !name.ValidationConstraint? && !name.EnumConstraint? && !name.VectorShape? && !name.MetadataFallback?
    ensures Evaluate(host, name, e, before, after).Skips?
  {
    match name
    case QualityConstraint => assert QualityEntryDirection(host, e, before, after).None?;
    case RelationshipChanged => assert RelationshipDirection(e, before, after).None?;
    case FreshnessChanged => ElementRulesSkip(host, e, before, after);
    case SchemaAddedOrRemoved => ElementRulesSkip(host, e, before, after);
    case PropertyAddedOrRemoved => ElementRulesSkip(host, e, before, after);
    case KeyConstraint => KeyRuleSkipsBounds(e, before, after, head, key);
    case PhysicalNameChanged => FieldRulesSkipBounds(e, head, key);
    case RequiredChanged => FieldRulesSkipBounds(e, head, key);
    case TypeChanged => TypeRulesSkipBounds(e, head, key);
    case UniqueConstraint => TypeRulesSkipBounds(e, head, key);
  }

  /** The rule's answer for a bound of the options at `head`. */
  function BoundAnswer(
      host: Host, e: ChangelogEntry, before: Json, after: Json, head: string, key: string): Grading
  {
    var old', new' := Lookup(before, head), Lookup(after, head);
    var property := Lookup(after, RemoveSuffix(head, ".logicalTypeOptions"));
    if OptionsRaise(host, old', new', property, key, e.kind) then Raises
    else BoundDirection(host, Fields(old'), Fields(new'), Get(Fields(property), "logicalType"), key, e.kind,
                        e.oldValue, e.newValue)
  }

  lemma LimitRuleReads(host: Host, e: ChangelogEntry, before: Json, after: Json, head: string, key: string)
    requires IsBoundEntry(e, head, key)
    ensures ValidationDirection(host, e, before, after) == Some(BoundAnswer(host, e, before, after, head, key))
  {
    BoundKeysArePlain(key);
    LimitSuffixes();
    EndsInAnyKey(head, key, VALIDATION_SUFFIXES, LIMIT_KEYS);
    CutAtKey(head, key);
  }

  /** The rule of limits grades the entry of a bound. */
  lemma BoundRuleAnswers(host: Host, e: ChangelogEntry, before: Json, after: Json, head: string, key: string)
    requires IsBoundEntry(e, head, key)
    ensures FirstVerdict(DefaultRules(host), e, before, after)
         == AnswerGrading(ValidationConstraint, Some(BoundAnswer(host, e, before, after, head, key)))
  {
    forall n | 0 <= n < 10
      ensures Evaluate(host, DEFAULT_RULES[n], e, before, after).Skips?
    {
      EarlierRulesSkipBounds(host, e, before, after, head, key, DEFAULT_RULES[n]);
    }
    assert DEFAULT_RULES[10] == ValidationConstraint;
    LimitRuleReads(host, e, before, after, head, key);
    assert Evaluate(host, ValidationConstraint, e, before, after)
      == AnswerGrading(ValidationConstraint, ValidationDirection(host, e, before, after));
    FirstThatApplies(host, DEFAULT_RULES, 10, e, before, after);
    VerdictOfRule(host, e, before, after);
  }
}
