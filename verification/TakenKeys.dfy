/**
 * Which keys of an enum a rule takes for something else: the entry of an item that came or went ends in
 * its key, as the entry of a constraint ends in the name of the constraint.
 */
module TakenKeys {
  import opened Wrappers
  import opened JsonTrees
  import opened Breaking
  import opened Paths
  import opened Lookups
  import opened QualityRules
  import opened BoundRules
  import opened Rules
  import opened Selection
  import opened Changelog
  import opened Detector
  import opened DetectorTheorems
  import opened Diffs
  import opened Places
  import opened Runs
  import opened Enums
  import opened EnumRuns

  const LIMIT_KEYS: seq<string> := [
    "pattern", "minLength", "maxLength", "minimum", "maximum", "exclusiveMinimum", "exclusiveMaximum",
    "minItems", "maxItems"]

  /** Keys whose item is graded as untested, whatever happens to it. */
  const SILENT_KEYS: seq<string> := [
    "required", "unique", "uniqueItems", "primaryKey", "primary_key", "primaryKeyPosition", "physicalName", "value"]

  /** Keys whose item is graded as a constraint that comes or goes. */
  const MISLEADING_KEYS: seq<string> := [
    "pattern", "minLength", "maxLength", "minItems", "maxItems", "logicalType", "physicalType", "enum"]

  /** Keys whose item is graded as a bound, which may have a partner. */
  const BOUND_KEYS: seq<string> := ["minimum", "maximum", "exclusiveMinimum", "exclusiveMaximum"]

  /** The keys without dots that are taken for something else. */
  predicate IsTakenKey(k: string) { k in SILENT_KEYS || k in MISLEADING_KEYS || k in BOUND_KEYS }

  // ---------------------------------------------------------------- How a path ends

  lemma EndsInKey(head: string, k: string, key: string)
    requires NoDot(k) && NoDot(key)
    ensures EndsWith(head + "." + k, "." + key) <==> k == key
  {
    var s := head + "." + k;
    assert s[|head|..] == "." + k;
    if EndsWith(s, "." + key) {
      var n := |s| - |key| - 1;
      assert s[n..] == "." + key;
      assert s[n] == '.' && s[n + 1..] == key;
      assert forall i :: n < i < |s| ==> s[i] == key[i - n - 1];
      assert s[|head|] == '.' && n == |head|;
    }
  }

  lemma EndsInAnyKey(head: string, k: string, suffixes: seq<string>, keys: seq<string>)
    requires NoDot(k) && |suffixes| == |keys|
    requires forall n :: 0 <= n < |keys| ==> NoDot(keys[n]) && suffixes[n] == "." + keys[n]
    ensures EndsWithAny(head + "." + k, suffixes) <==> k in keys
  {
    forall n | 0 <= n < |keys|
      ensures EndsWith(head + "." + k, suffixes[n]) <==> k == keys[n]
    {
      EndsInKey(head, k, keys[n]);
    }
  }

  lemma NotWithin(s: string, more: string, part: string)
    requires !Contains(s + more, part)
    ensures !Contains(s, part)
  {
    if Contains(s, part) {
      var n := LastIndex(s, part, |s|).value;
      assert (s + more)[n..n + |part|] == s[n..n + |part|];
      assert IsAt(s + more, part, n);
    }
  }

  lemma StillWithin(s: string, more: string, part: string)
    requires Contains(s, part)
    ensures Contains(s + more, part)
  {
    var n := LastIndex(s, part, |s|).value;
    assert (s + more)[n..n + |part|] == s[n..n + |part|];
    assert IsAt(s + more, part, n);
  }

  // ---------------------------------------------------------------- The path of an item

  /** `e` is the entry of an item that came or went under the key `k` of the enum of a property. */
  ghost predicate IsItemEntry(e: ChangelogEntry, owner: seq<string>, k: string) {
    && owner != [] && NoDot(k) && e == ChangelogEntry(e.path, e.kind, None, None) && !e.kind.Updated?
    && e.path == Join(EnumKeys(owner)) + "." + k && InSchema(e.path)
    && !Contains(e.path, ".quality.") && !Contains(e.path, ".relationships.") && Contains(e.path, ".properties.")
    && CutLast(e.path, ENUM) == Some((Join(owner), k))
    && var s := Split(e.path); |s| >= 5 && s[0] == "schema" && s[|s| - 2..] == ["enum", k]
  }

  lemma ItemEntryIs(owner: seq<string>, e1: Dict, k: string)
    requires NoDot(k) && AtProperty(owner) && ReadsAsValue(owner, k) && InNoOtherSection(owner, k)
    ensures IsItemEntry(ItemEntry(owner, e1, k), owner, k)
  {
    var path := Join(ItemKeys(owner, k));
    ItemPathIs(owner, k);
    ItemPathSegments(owner, k);
    InSchemaPath(owner, ["enum", k]);
    NotWithin(path, ".value", ".quality.");
    NotWithin(path, ".value", ".relationships.");
    StillWithin(Join(owner), ENUM + k, ".properties.");
    assert path == Join(owner) + (ENUM + k);
    CutAtEnum(owner, k, path);
  }

  lemma ItemPathIs(owner: seq<string>, k: string)
    requires owner != []
    ensures Join(ItemKeys(owner, k)) == Join(owner) + ENUM + k == Join(EnumKeys(owner)) + "." + k
    ensures ValuePath(owner, k) == Join(ItemKeys(owner, k)) + ".value"
  {
    ItemIsAboveItsValue(owner, k);
    JoinAppend(EnumKeys(owner), [k]);
    JoinAppend(owner, ["enum"]);
    JoinAppend(ItemKeys(owner, k), ["value"]);
    assert Join(owner) + "." + "enum" + "." + k == Join(owner) + ENUM + k;
  }

  lemma CutAtEnum(owner: seq<string>, k: string, path: string)
    requires ReadsAsValue(owner, k) && path == Join(owner) + ENUM + k && ValuePath(owner, k) == path + ".value"
    ensures CutLast(path, ENUM) == Some((Join(owner), k))
  {
    CutLastWithin(Join(owner), k, ".value", ENUM);
  }

  lemma CutLastWithin(head: string, tail: string, more: string, part: string)
    requires forall n: nat :: |head| < n <= |head + part + tail + more| ==> !IsAt(head + part + tail + more, part, n)
    ensures CutLast(head + part + tail, part) == Some((head, tail))
  {
    var s := head + part + tail;
    assert s[|head|..|head| + |part|] == part;
    forall n: nat | |head| < n <= |s|
      ensures !IsAt(s, part, n)
    {
      assert !IsAt(s + more, part, n);
      assert n + |part| <= |s| ==> (s + more)[n..n + |part|] == s[n..n + |part|];
    }
    CutLastAt(s, part, |head|);
    assert s[..|head|] == head && s[|head| + |part|..] == tail;
  }

  lemma ItemPathSegments(owner: seq<string>, k: string)
    requires owner != [] && owner[0] == "schema" && NoDot(k) && AtProperty(owner)
    ensures var s := Split(Join(ItemKeys(owner, k)));
      |s| >= 5 && s[0] == "schema" && s[|s| - 2..] == ["enum", k]
  {
    OwnerSegments(owner);
    PropertySegments(Join(owner));
    JoinAppend(owner, ["enum", k]);
    JoinTwo("enum", k);
    SplitTwoMore(Join(owner), "enum", k);
  }

  lemma SplitTwoMore(a: string, b: string, c: string)
    requires NoDot(b) && NoDot(c)
    ensures Split(a + "." + (b + "." + c)) == Split(a) + [b, c]
    ensures Split(a + "." + (b + "." + c))[|Split(a)|..] == [b, c]
  {
    SplitAppend(a, b + "." + c);
    SplitAppend(b, c);
    SplitNoDot(b);
    SplitNoDot(c);
  }

  lemma PropertySegments(path: string)
    requires Contains(path, ".properties.")
    ensures |Split(path)| >= 3
  {
    var n := LastIndex(path, ".properties.", |path|).value;
    var u, v := path[..n], path[n + 12..];
    assert path[n..n + 12] == "." + ("properties" + ".");
    assert path == u + path[n..n + 12] + v;
    assert path == u + "." + ("properties" + "." + v);
    SplitAppend(u, "properties" + "." + v);
    SplitAppend("properties", v);
  }

  // ---------------------------------------------------------------- Rule by rule

  lemma NameRules(e: ChangelogEntry, owner: seq<string>, k: string)
    requires IsItemEntry(e, owner, k)
    ensures PhysicalNameDirection(e).Some? <==> k == "physicalName"
    ensures RequiredDirection(e).Some? <==> k == "required"
  {
    assert "." + "physicalName" == ".physicalName" && "." + "required" == ".required";
    EndsInKey(Join(EnumKeys(owner)), k, "physicalName");
    EndsInKey(Join(EnumKeys(owner)), k, "required");
  }

  lemma UniqueRule(e: ChangelogEntry, owner: seq<string>, k: string)
    requires IsItemEntry(e, owner, k)
    ensures UniqueDirection(e).Some? <==> k in ["unique", "uniqueItems"]
  {
    assert "." + "unique" == ".unique" && "." + "uniqueItems" == ".uniqueItems";
    EndsInAnyKey(Join(EnumKeys(owner)), k, [".unique", ".uniqueItems"], ["unique", "uniqueItems"]);
  }

  lemma TypeRule(e: ChangelogEntry, owner: seq<string>, k: string)
    requires IsItemEntry(e, owner, k)
    ensures TypeDirection(e).Some? <==> k in ["logicalType", "physicalType"]
  {
    assert "." + "logicalType" == ".logicalType" && "." + "physicalType" == ".physicalType";
    EndsInAnyKey(Join(EnumKeys(owner)), k, [".logicalType", ".physicalType"], ["logicalType", "physicalType"]);
  }

  lemma KeyRule(e: ChangelogEntry, before: Json, after: Json, owner: seq<string>, k: string)
    requires IsItemEntry(e, owner, k)
    ensures KeyDirection(e, before, after).Some? <==> k in ["primaryKeyPosition", "primaryKey", "primary_key"]
  {
    assert "." + "primaryKeyPosition" == ".primaryKeyPosition";
    assert "." + "primaryKey" == ".primaryKey" && "." + "primary_key" == ".primary_key";
    EndsInKey(Join(EnumKeys(owner)), k, "primaryKeyPosition");
    EndsInAnyKey(Join(EnumKeys(owner)), k, [".primaryKey", ".primary_key"], ["primaryKey", "primary_key"]);
  }

  lemma LimitRule(host: Host, e: ChangelogEntry, before: Json, after: Json, owner: seq<string>, k: string)
    requires IsItemEntry(e, owner, k)
    ensures ValidationDirection(host, e, before, after).Some? <==> k in LIMIT_KEYS
  {
    LimitSuffixes();
    EndsInAnyKey(Join(EnumKeys(owner)), k, VALIDATION_SUFFIXES, LIMIT_KEYS);
    CutAtKey(Join(EnumKeys(owner)), k);
  }

  lemma CutAtKey(head: string, k: string)
    requires NoDot(k)
    ensures CutLast(head + "." + k, ".") == Some((head, k))
  {
    var s := head + "." + k;
    assert s[|head|..|head| + 1] == ".";
    forall n: nat | |head| < n <= |s|
      ensures !IsAt(s, ".", n)
    {
      assert n < |s| ==> s[n..n + 1] == [k[n - |head| - 1]];
    }
    CutLastAt(s, ".", |head|);
    assert s[..|head|] == head && s[|head| + 1..] == k;
  }

  lemma LimitSuffixes()
    ensures |VALIDATION_SUFFIXES| == |LIMIT_KEYS|
    ensures forall n :: 0 <= n < |LIMIT_KEYS| ==> NoDot(LIMIT_KEYS[n]) && VALIDATION_SUFFIXES[n] == "." + LIMIT_KEYS[n]
  {
    assert "." + "pattern" == ".pattern" && "." + "minLength" == ".minLength" && "." + "maxLength" == ".maxLength";
    assert "." + "minimum" == ".minimum" && "." + "maximum" == ".maximum";
    assert "." + "exclusiveMinimum" == ".exclusiveMinimum" && "." + "exclusiveMaximum" == ".exclusiveMaximum";
    assert "." + "minItems" == ".minItems" && "." + "maxItems" == ".maxItems";
  }

  lemma EnumRule(host: Host, e: ChangelogEntry, before: Json, after: Json, owner: seq<string>, k: string)
    requires IsItemEntry(e, owner, k)
    ensures EnumDirection(host, e, before, after).Some? <==> k in ["enum", "value"]
    ensures EndsWith(e.path, ".enum") <==> k == "enum"
  {
    assert "." + "enum" == ".enum" && "." + "value" == ".value";
    EndsInKey(Join(EnumKeys(owner)), k, "enum");
    EndsInKey(Join(EnumKeys(owner)), k, "value");
    if EndsWith(e.path, ".value") && !EndsWith(e.path, ".enum") {
      PlainHasNoSection(k, ".customProperties.");
      PlainHasNoSection(k, ".authoritativeDefinitions.");
    }
  }

  lemma PlainHasNoSection(k: string, part: string)
    requires NoDot(k) && part != "" && part[0] == '.'
    ensures !Contains(k, part)
  {
    forall n: nat | n <= |k|
      ensures !IsAt(k, part, n)
    {
      if n + |part| <= |k| {
        assert k[n..n + |part|][0] == k[n];
      }
    }
  }

  lemma VectorRule(e: ChangelogEntry, owner: seq<string>, k: string)
    requires IsItemEntry(e, owner, k)
    ensures VectorDirection(e).None?
  {
    VectorSuffixes();
    EndsInTwoKeys(e.path, "logicalTypeOptions", "dimensions");
    EndsInTwoKeys(e.path, "logicalTypeOptions", "elementType");
    NextToLastIsEnum(e, owner, k);
  }

  lemma VectorSuffixes()
    ensures DIMENSIONS == "." + ("logicalTypeOptions" + "." + "dimensions")
    ensures ELEMENT_TYPE == "." + ("logicalTypeOptions" + "." + "elementType")
  {
  }

  lemma NextToLastIsEnum(e: ChangelogEntry, owner: seq<string>, k: string)
    requires IsItemEntry(e, owner, k)
    ensures Split(e.path)[|Split(e.path)| - 2] == "enum"
  {
    var s := Split(e.path);
    assert s[|s| - 2..][0] == s[|s| - 2];
  }

  lemma EndsInTwoKeys(path: string, a: string, b: string)
    requires NoDot(a) && NoDot(b)
    ensures EndsWith(path, "." + (a + "." + b)) ==> |Split(path)| > 2 && Split(path)[|Split(path)| - 2] == a
  {
    var suffix := "." + (a + "." + b);
    if EndsWith(path, suffix) {
      var head := path[..|path| - |suffix|];
      assert path == head + path[|path| - |suffix|..];
      assert path == head + "." + (a + "." + b);
      SplitTwoMore(head, a, b);
      assert (Split(head) + [a, b])[|Split(head)|] == a;
    }
  }

  lemma ElementRules(host: Host, e: ChangelogEntry, before: Json, after: Json, owner: seq<string>, k: string)
    requires IsItemEntry(e, owner, k)
    ensures SchemaDirection(e).None? && PropertyDirection(e).None? && FreshnessDirection(host, e, before, after).None?
  {
    NextToLastIsEnum(e, owner, k);
    ElementRulesSkip(host, e, before, after);
  }

  /** The keys that a rule takes for something else. */
  function KeysOf(name: RuleName): seq<string> {
    match name
    case PhysicalNameChanged => ["physicalName"]
    case RequiredChanged => ["required"]
    case UniqueConstraint => ["unique", "uniqueItems"]
    case TypeChanged => ["logicalType", "physicalType"]
    case KeyConstraint => ["primaryKeyPosition", "primaryKey", "primary_key"]
    case ValidationConstraint => LIMIT_KEYS
    case EnumConstraint => ["enum", "value"]
    case _ => []
  }

  /** The rule applies to the entry of an item exactly if it takes its key. */
  predicate TakesItsKeys(host: Host, e: ChangelogEntry, before: Json, after: Json, k: string, name: RuleName) {
    Evaluate(host, name, e, before, after).Skips? <==> k !in KeysOf(name)
  }

  lemma SectionRules(host: Host, e: ChangelogEntry, before: Json, after: Json, owner: seq<string>, k: string)
    requires IsItemEntry(e, owner, k)
    ensures TakesItsKeys(host, e, before, after, k, QualityConstraint)
    ensures TakesItsKeys(host, e, before, after, k, RelationshipChanged)
    ensures TakesItsKeys(host, e, before, after, k, VectorShape)
  {
    assert QualityEntryDirection(host, e, before, after).None?;
    assert RelationshipDirection(e, before, after).None?;
    VectorRule(e, owner, k);
  }

  lemma ElementRulesTakeNoKeys(
      host: Host, e: ChangelogEntry, before: Json, after: Json, owner: seq<string>, k: string)
    requires IsItemEntry(e, owner, k)
    ensures TakesItsKeys(host, e, before, after, k, FreshnessChanged)
    ensures TakesItsKeys(host, e, before, after, k, SchemaAddedOrRemoved)
    ensures TakesItsKeys(host, e, before, after, k, PropertyAddedOrRemoved)
  {
    ElementRules(host, e, before, after, owner, k);
  }

  lemma NameRuleTakesIts(host: Host, e: ChangelogEntry, before: Json, after: Json, owner: seq<string>, k: string)
    requires IsItemEntry(e, owner, k)
    ensures TakesItsKeys(host, e, before, after, k, PhysicalNameChanged)
  {
    NameRules(e, owner, k);
  }

  lemma RequiredRuleTakesIts(host: Host, e: ChangelogEntry, before: Json, after: Json, owner: seq<string>, k: string)
    requires IsItemEntry(e, owner, k)
    ensures TakesItsKeys(host, e, before, after, k, RequiredChanged)
  {
    NameRules(e, owner, k);
  }

  lemma UniqueRuleTakesIts(host: Host, e: ChangelogEntry, before: Json, after: Json, owner: seq<string>, k: string)
    requires IsItemEntry(e, owner, k)
    ensures TakesItsKeys(host, e, before, after, k, UniqueConstraint)
  {
    UniqueRule(e, owner, k);
  }

  lemma TypeRuleTakesIts(host: Host, e: ChangelogEntry, before: Json, after: Json, owner: seq<string>, k: string)
    requires IsItemEntry(e, owner, k)
    ensures TakesItsKeys(host, e, before, after, k, TypeChanged)
  {
    TypeRule(e, owner, k);
  }

  lemma KeyRuleTakesIts(host: Host, e: ChangelogEntry, before: Json, after: Json, owner: seq<string>, k: string)
    requires IsItemEntry(e, owner, k)
    ensures TakesItsKeys(host, e, before, after, k, KeyConstraint)
  {
    KeyRule(e, before, after, owner, k);
  }

  lemma LimitRuleTakesIts(host: Host, e: ChangelogEntry, before: Json, after: Json, owner: seq<string>, k: string)
    requires IsItemEntry(e, owner, k)
    ensures TakesItsKeys(host, e, before, after, k, ValidationConstraint)
  {
    LimitRule(host, e, before, after, owner, k);
  }

  lemma GradingSkips(name: RuleName, grading: Option<Grading>)
    ensures AnswerGrading(name, grading).Skips? <==> grading.None?
  {
  }

  lemma EnumRuleTakesIts(host: Host, e: ChangelogEntry, before: Json, after: Json, owner: seq<string>, k: string)
    requires IsItemEntry(e, owner, k)
    ensures TakesItsKeys(host, e, before, after, k, EnumConstraint)
  {
    EnumRule(host, e, before, after, owner, k);
    GradingSkips(EnumConstraint, EnumDirection(host, e, before, after));
  }

  lemma RuleTakesItsKeys(
      host: Host, e: ChangelogEntry, before: Json, after: Json, owner: seq<string>, k: string, name: RuleName)
    requires IsItemEntry(e, owner, k) && name != MetadataFallback
    ensures TakesItsKeys(host, e, before, after, k, name)
  {
    SectionRules(host, e, before, after, owner, k);
    ElementRulesTakeNoKeys(host, e, before, after, owner, k);
    NameRuleTakesIts(host, e, before, after, owner, k);
    RequiredRuleTakesIts(host, e, before, after, owner, k);
    UniqueRuleTakesIts(host, e, before, after, owner, k);
    TypeRuleTakesIts(host, e, before, after, owner, k);
    KeyRuleTakesIts(host, e, before, after, owner, k);
    LimitRuleTakesIts(host, e, before, after, owner, k);
    EnumRuleTakesIts(host, e, before, after, owner, k);
  }

  lemma LimitKeys(k: string)
    ensures k in LIMIT_KEYS <==>
      k in ["pattern", "minLength", "maxLength", "minItems", "maxItems"] || k in BOUND_KEYS
  {
  }

  lemma TakenKeysAreOfRules(k: string)
    ensures IsTakenKey(k) <==> exists name: RuleName :: k in KeysOf(name)
  {
    LimitKeys(k);
    assert k in KeysOf(PhysicalNameChanged) <==> k == "physicalName";
    assert k in KeysOf(RequiredChanged) <==> k == "required";
    assert k in KeysOf(UniqueConstraint) <==> k == "unique" || k == "uniqueItems";
    assert k in KeysOf(TypeChanged) <==> k == "logicalType" || k == "physicalType";
    assert k in KeysOf(KeyConstraint) <==> k == "primaryKeyPosition" || k == "primaryKey" || k == "primary_key";
    assert k in KeysOf(ValidationConstraint) <==> k in LIMIT_KEYS;
    assert k in KeysOf(EnumConstraint) <==> k == "enum" || k == "value";
  }

  /** A key without dots that came or went is taken for something else exactly if it is on the list. */
  lemma TakenMeansListed(r: Run, owner: seq<string>, e1: Dict, e2: Dict, k: string)
    requires ReadsAsValue(owner, k) && InNoOtherSection(owner, k) && AtProperty(owner) && NoDot(k)
    ensures Taken(r, owner, e1, e2, k) <==> (k in e1) != (k in e2) && IsTakenKey(k)
  {
    var e := ItemEntry(owner, e1, k);
    ItemEntryIs(owner, e1, k);
    FallbackTakesTheRest(r.host, e, r.before, r.after);
    forall name: RuleName | name != MetadataFallback
      ensures Evaluate(r.host, name, e, r.before, r.after).Skips? <==> k !in KeysOf(name)
    {
      RuleTakesItsKeys(r.host, e, r.before, r.after, owner, k, name);
    }
    TakenKeysAreOfRules(k);
  }

  // ---------------------------------------------------------------- What taken entries say

  /** The rule that grades the entry of a taken key is one of those that take it. */
  lemma TakingRule(
      host: Host, e: ChangelogEntry, before: Json, after: Json, owner: seq<string>, k: string) returns (name: RuleName)
    requires IsItemEntry(e, owner, k) && IsTakenKey(k)
    ensures k in KeysOf(name) && name != MetadataFallback
    ensures FirstVerdict(DefaultRules(host), e, before, after) == Evaluate(host, name, e, before, after)
  {
    TakenKeysAreOfRules(k);
    FallbackTakesTheRest(host, e, before, after);
    forall other: RuleName | other != MetadataFallback
      ensures Evaluate(host, other, e, before, after).Skips? <==> k !in KeysOf(other)
    {
      RuleTakesItsKeys(host, e, before, after, owner, k, other);
    }
    name := RuleFor(host, e, before, after).value;
    SelectedApplies(host, DEFAULT_RULES, e, before, after);
    VerdictOfRule(host, e, before, after);
  }

  lemma SilentItem(host: Host, e: ChangelogEntry, before: Json, after: Json, owner: seq<string>, k: string)
    requires IsItemEntry(e, owner, k) && k in SILENT_KEYS
    ensures var verdict := FirstVerdict(DefaultRules(host), e, before, after);
      verdict.Fails? || (verdict.Evaluates? && verdict.direction == Untested)
  {
    var name := TakingRule(host, e, before, after, owner, k);
    RuleTakesItsKeys(host, e, before, after, owner, k, name);
    SilentKeyOf(k, name);
    EnumRule(host, e, before, after, owner, k);
    SilentAnswer(host, e, before, after, name);
  }

  /** Without values, flags, names and values compare as equal. */
  lemma SilentAnswer(host: Host, e: ChangelogEntry, before: Json, after: Json, name: RuleName)
    requires e.oldValue == None && e.newValue == None && !Evaluate(host, name, e, before, after).Skips?
    requires name in [PhysicalNameChanged, RequiredChanged, UniqueConstraint, KeyConstraint]
      || (name == EnumConstraint && !EndsWith(e.path, ".enum"))
    ensures var verdict := Evaluate(host, name, e, before, after);
      verdict.Fails? || verdict == Evaluates(RuleId(name), Untested)
  {
    if name == EnumConstraint {
      SilentValue(host, e, before, after);
    } else if name == KeyConstraint {
      SilentKey(e, before, after);
    }
  }

  lemma SilentKey(e: ChangelogEntry, before: Json, after: Json)
    requires e.oldValue == None && e.newValue == None && KeyDirection(e, before, after).Some?
    ensures KeyDirection(e, before, after) in [Some(Raises), Some(Graded(Untested))]
  {
    assert FlagDirection(e) == Untested;
  }

  lemma SilentKeyOf(k: string, name: RuleName)
    requires k in SILENT_KEYS && k in KeysOf(name)
    ensures name in [PhysicalNameChanged, RequiredChanged, UniqueConstraint, KeyConstraint]
      || (name == EnumConstraint && k == "value")
  {
    LimitKeys(k);
  }

  lemma SilentValue(host: Host, e: ChangelogEntry, before: Json, after: Json)
    requires e.oldValue == None && e.newValue == None && EnumDirection(host, e, before, after).Some?
    requires !EndsWith(e.path, ".enum")
    ensures EnumDirection(host, e, before, after) in [Some(Raises), Some(Graded(Untested))]
  {
  }

  lemma MisleadingKeyOf(k: string, name: RuleName)
    requires k in MISLEADING_KEYS && k in KeysOf(name)
    ensures name == TypeChanged || (name == EnumConstraint && k == "enum")
      || (name == ValidationConstraint && Group(k) == [])
  {
    LimitKeys(k);
  }

  lemma MisleadingItem(host: Host, e: ChangelogEntry, before: Json, after: Json, owner: seq<string>, k: string)
    requires IsItemEntry(e, owner, k) && k in MISLEADING_KEYS
    ensures var verdict := FirstVerdict(DefaultRules(host), e, before, after);
      verdict.Evaluates? && Some(verdict.direction) == AddedOrRemoved(e.kind)
  {
    var name := TakingRule(host, e, before, after, owner, k);
    RuleTakesItsKeys(host, e, before, after, owner, k, name);
    MisleadingKeyOf(k, name);
    match name
    case ValidationConstraint => CutAtKey(Join(EnumKeys(owner)), k);
    case EnumConstraint => EnumRule(host, e, before, after, owner, k);
    case _ =>
  }

  /** Every entry at the item of a key. */
  ghost predicate EntryInItem(r: Run, owner: seq<string>, k: string, j: nat) {
    j < |r.grades| && AtOrInside(r.grades[j].path, Join(ItemKeys(owner, k)))
  }

  /** One allowed value is added, under the key `k`. */
  ghost predicate Adds(r: Run, e1: Dict, e2: Dict, k: string) {
    k !in e1 && k in e2 && e2 == e1[k := e2[k]] && Enums.ValueText(r.host, e2, k) !in Values(r.host, e1)
  }

  /** No entry at or inside the item of a key says anything. */
  ghost predicate ItemIsSilent(r: Run, owner: seq<string>, k: string) {
    forall j: nat :: EntryInItem(r, owner, k, j) ==> SaysNothing(Final(r.grades, r.grades[j]))
  }

  predicate SaysNothing(g: Grade) { (g.direction == None || g.direction == Some(Untested)) && g.level == Info }

  /**
   * A value is added under the key `required`, or another one of the eight: the set of allowed values grew,
   * and no entry says so. The entry of the item is taken for that of a constraint, and silences everything
   * inside the item.
   */
  lemma AddedValueIsSilent(r: Run, owner: seq<string>, e1: Dict, e2: Dict, k: string)
    requires EnumRun(r, owner, e1, e2) && AtProperty(owner) && Adds(r, e1, e2, k) && NoDot(k) && k in SILENT_KEYS
    ensures Values(r.host, e1) < Values(r.host, e2) && !EnumReports(r, owner, e1, e2, Loosens)
    ensures ItemIsSilent(r, owner, k)
  {
    OneMoreValue(r.host, e1, e2, k);
    TakenMeansListed(r, owner, e1, e2, k);
    NoGainIsSeen(r, owner, e1, e2, k);
    SilentItems(r, owner, e1, e2, k);
  }

  lemma OneMoreValue(host: Host, e1: Dict, e2: Dict, k: string)
    requires k !in e1 && k in e2 && e2 == e1[k := e2[k]] && Enums.ValueText(host, e2, k) !in Values(host, e1)
    ensures Values(host, e1) < Values(host, e2)
  {
    assert Enums.ValueText(host, e2, k) in Values(host, e2);
    forall v | v in Values(host, e1)
      ensures v in Values(host, e2)
    {
      var other :| other in e1 && Enums.ValueText(host, e1, other) == v;
      assert Enums.ValueText(host, e2, other) == v;
    }
  }

  lemma NoGainIsSeen(r: Run, owner: seq<string>, e1: Dict, e2: Dict, k: string)
    requires EnumRun(r, owner, e1, e2) && Adds(r, e1, e2, k) && Taken(r, owner, e1, e2, k)
    ensures !EnumReports(r, owner, e1, e2, Loosens)
  {
    EnumReportIsExact(r, owner, e1, e2);
    forall other
      ensures !SeenGain(r, owner, e1, e2, other)
    {
      if other in e1 {
        assert Enums.ValueText(r.host, e2, other) == Enums.ValueText(r.host, e1, other);
        assert Enums.ValueText(r.host, e1, other) in Values(r.host, e1);
      }
    }
  }

  lemma SilentItems(r: Run, owner: seq<string>, e1: Dict, e2: Dict, k: string)
    requires EnumRun(r, owner, e1, e2) && AtProperty(owner) && (k in e1) != (k in e2) && NoDot(k) && k in SILENT_KEYS
    ensures ItemIsSilent(r, owner, k)
  {
    TakenMeansListed(r, owner, e1, e2, k);
    forall j: nat | EntryInItem(r, owner, k, j)
      ensures SaysNothing(Final(r.grades, r.grades[j]))
    {
      if r.grades[j].path == Join(ItemKeys(owner, k)) {
        SilentItemIsUntested(r, owner, e1, e2, k, j);
      } else {
        TakenItemSilences(r, owner, e1, e2, k, j);
      }
    }
  }

  lemma SilentItemIsUntested(r: Run, owner: seq<string>, e1: Dict, e2: Dict, k: string, j: nat)
    requires EnumRun(r, owner, e1, e2) && AtProperty(owner) && (k in e1) != (k in e2) && NoDot(k) && k in SILENT_KEYS
    requires j < |r.grades| && r.grades[j].path == Join(ItemKeys(owner, k))
    ensures SaysNothing(r.grades[j])
  {
    GradeAtItem(r, owner, e1, e2, k, j);
    SilentGrade(r, owner, e1, k, r.grades[j]);
  }

  lemma SilentGrade(r: Run, owner: seq<string>, e1: Dict, k: string, g: Grade)
    requires ReadsAsValue(owner, k) && InNoOtherSection(owner, k) && AtProperty(owner) && NoDot(k) && k in SILENT_KEYS
    requires Classify(DefaultRules(r.host), ItemEntry(owner, e1, k), r.perspective, r.before, r.after) == Some(g)
    ensures SaysNothing(g)
  {
    ItemEntryIs(owner, e1, k);
    SilentItem(r.host, ItemEntry(owner, e1, k), r.before, r.after, owner, k);
  }

  /** A grade at the item of a key that came or went is that of the item's entry. */
  lemma GradeAtItem(r: Run, owner: seq<string>, e1: Dict, e2: Dict, k: string, j: nat)
    requires EnumRun(r, owner, e1, e2) && (k in e1) != (k in e2) && NoDot(k)
    requires j < |r.grades| && r.grades[j].path == Join(ItemKeys(owner, k))
    ensures Classify(DefaultRules(r.host), ItemEntry(owner, e1, k), r.perspective, r.before, r.after)
      == Some(r.grades[j])
  {
    var n, p, keys := PlaceOfGrade(r, j);
    KeysOfItemPath(r, owner, e1, e2, k, keys);
    ItemEntryOfGrade(r, owner, e1, e2, k, j, n, p);
    GradeOfEntry(r, j);
  }

  lemma KeysOfItemPath(r: Run, owner: seq<string>, e1: Dict, e2: Dict, k: string, keys: seq<string>)
    requires EnumsAreRead(r, owner, e1, e2) && NoDot(k)
    requires Shows(r.before, r.after, keys) && Join(keys) == Join(ItemKeys(owner, k))
    ensures keys == ItemKeys(owner, k)
  {
    ValueTextIs(owner, k);
    InsideMeansBelow(r.before, r.after, keys, EnumKeys(owner));
    var t := ThroughAKey(r, owner, e1, e2, keys);
    JoinAppend(EnumKeys(owner), t);
    TailIs(Join(EnumKeys(owner)), Join(t), k);
    WrittenWithoutDots(t, k);
  }

  /** Everything inside the item of a taken key is silenced. */
  lemma TakenItemSilences(r: Run, owner: seq<string>, e1: Dict, e2: Dict, k: string, j: nat)
    requires EnumRun(r, owner, e1, e2) && Taken(r, owner, e1, e2, k)
    requires j < |r.grades| && Inside(r.grades[j].path, Join(ItemKeys(owner, k)))
    ensures Silenced(r.grades, r.grades[j].path)
  {
    var w, n := ItemHasAGrade(r, owner, e1, e2, k);
    ItemGradeIs(r, owner, e1, e2, k, w, n, 0);
  }

  /** The entry of an item is never silenced. */
  lemma ItemIsNotSilenced(r: Run, owner: seq<string>, e1: Dict, e2: Dict, k: string)
    requires EnumRun(r, owner, e1, e2) && NoDot(k)
    ensures !Silenced(r.grades, Join(ItemKeys(owner, k)))
  {
    if w: nat :| w < |r.grades| && IsElement(r.grades[w]) && Inside(Join(ItemKeys(owner, k)), r.grades[w].path) {
      var n, p, around := PlaceOfGrade(r, w);
      ItemOfGrade(r, w, n, p, around);
      EnumStands(r, owner, e1, e2, k);
      NoEntryAround(r, n, around, EnumKeys(owner));
      NothingAroundAnItem(r, owner, e1, e2, k, around);
    }
  }

  /** Below the enum, no other place lies around an item whose key has no dots. */
  lemma NothingAroundAnItem(r: Run, owner: seq<string>, e1: Dict, e2: Dict, k: string, around: seq<string>)
    requires EnumsAreRead(r, owner, e1, e2) && NoDot(k) && Shows(r.before, r.after, around)
    requires !(around <= EnumKeys(owner))
    ensures !Inside(Join(ItemKeys(owner, k)), Join(around))
  {
    if Inside(Join(ItemKeys(owner, k)), Join(around)) {
      ItemIsAboveItsValue(owner, k);
      PathsMeet(ItemKeys(owner, k), around, EnumKeys(owner));
      var t := ThroughAKey(r, owner, e1, e2, around);
      ValueTextIs(owner, k);
      JoinAppend(EnumKeys(owner), t);
      TailInside(Join(EnumKeys(owner)), k, Join(t));
      HasADot(k, Join(t));
    }
  }

  lemma HasADot(k: string, head: string)
    requires head + "." <= k
    ensures !NoDot(k)
  {
    assert k[|head|] == '.';
  }

  /**
   * A value is added under the key `pattern`, or another one of the eight: the set of allowed values grew, no
   * value entry says so, and the entry of the item, taken for a new constraint, says that the contract tightens.
   */
  lemma AddedValueIsMistaken(r: Run, owner: seq<string>, e1: Dict, e2: Dict, k: string) returns (j: nat)
    requires EnumRun(r, owner, e1, e2) && AtProperty(owner) && Adds(r, e1, e2, k) && NoDot(k) && k in MISLEADING_KEYS
    ensures Values(r.host, e1) < Values(r.host, e2) && !EnumReports(r, owner, e1, e2, Loosens)
    ensures EntryInItem(r, owner, k, j) && Final(r.grades, r.grades[j]).direction == Some(Tightens)
  {
    OneMoreValue(r.host, e1, e2, k);
    TakenMeansListed(r, owner, e1, e2, k);
    NoGainIsSeen(r, owner, e1, e2, k);
    j := MistakenItem(r, owner, e1, e2, k);
  }

  lemma MistakenItem(r: Run, owner: seq<string>, e1: Dict, e2: Dict, k: string) returns (j: nat)
    requires EnumRun(r, owner, e1, e2) && AtProperty(owner) && (k in e1) != (k in e2) && NoDot(k)
    requires k in MISLEADING_KEYS
    ensures EntryInItem(r, owner, k, j)
    ensures Final(r.grades, r.grades[j]).direction == AddedOrRemoved(ItemEntry(owner, e1, k).kind)
  {
    var n;
    j, n := ItemHasAGrade(r, owner, e1, e2, k);
    GradeAtItem(r, owner, e1, e2, k, j);
    MisleadingGrade(r, owner, e1, k, r.grades[j]);
    ItemIsNotSilenced(r, owner, e1, e2, k);
  }

  lemma MisleadingGrade(r: Run, owner: seq<string>, e1: Dict, k: string, g: Grade)
    requires ReadsAsValue(owner, k) && InNoOtherSection(owner, k) && AtProperty(owner) && NoDot(k)
    requires k in MISLEADING_KEYS
    requires Classify(DefaultRules(r.host), ItemEntry(owner, e1, k), r.perspective, r.before, r.after) == Some(g)
    ensures g.direction == AddedOrRemoved(ItemEntry(owner, e1, k).kind)
  {
    ItemEntryIs(owner, e1, k);
    MisleadingItem(r.host, ItemEntry(owner, e1, k), r.before, r.after, owner, k);
  }
}
