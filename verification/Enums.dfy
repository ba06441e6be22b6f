/**
 * Enum entries report exactly how the set of allowed values changed, whatever happens to the ids.
 */
module Enums {
  import opened Wrappers
  import opened JsonTrees
  import opened Breaking
  import opened Paths
  import opened Lookups
  import opened QualityRules
  import opened Rules
  import opened Selection
  import opened Changelog
  import opened Detector
  import opened SummaryTheorems
  import opened Diffs
  import Runs

  const ENUM := ".enum."

  /** An allowed value is a dict with a scalar `value`. */
  predicate IsEnumItem(item: Json) {
    && item.Obj? && "value" in item.fields && "old_value" !in item.fields
    && var v := item.fields["value"]; v.Flag? || v.Num? || v.Text?
  }

  /** The enum of the property at `owner`, keyed by id or value; no other split of its path leads elsewhere. */
  ghost predicate HoldsEnum(tree: Json, owner: seq<string>, e: Dict) {
    && NoNulls(tree) && tree.Obj? && owner != []
    && At(tree, owner + ["enum"]) == Some(Obj(e))
    && (forall v :: Reaches(tree, Join(owner) + ".enum", v) ==> v == Obj(e))
    && (forall k :: k in e ==> IsEnumItem(e[k]))
  }

  function ValueText(host: Host, e: Dict, k: string): string
    requires k in e
  {
    host.str(Get(Fields(e[k]), "value"))
  }

  /** The allowed values, as text. */
  function Values(host: Host, e: Dict): set<string> {
    set k | k in e :: ValueText(host, e, k)
  }

  function ValuePath(owner: seq<string>, k: string): string { Join(owner + ["enum", k, "value"]) }

  /** The entry of the value at key `k`; None if it did not change. */
  function EntryFor(host: Host, owner: seq<string>, e1: Dict, e2: Dict, k: string): Option<ChangelogEntry> {
    if k in e1 && k in e2 then
      if Get(Fields(e1[k]), "value") == Get(Fields(e2[k]), "value") then None
      else
        Some(ChangelogEntry(ValuePath(owner, k), Updated, Some(ValueText(host, e1, k)), Some(ValueText(host, e2, k))))
    else if k in e1 then Some(ChangelogEntry(ValuePath(owner, k), Removed, Some(ValueText(host, e1, k)), None))
    else if k in e2 then Some(ChangelogEntry(ValuePath(owner, k), Added, None, Some(ValueText(host, e2, k))))
    else None
  }

  // ---------------------------------------------------------------- How an enum entry is read

  /** The path of the value at `k` is read as such: nothing in the key looks like another section. */
  ghost predicate ReadsAsValue(owner: seq<string>, k: string) {
    && owner != [] && owner[0] == "schema" && Contains(ValuePath(owner, k), ".properties.")
    && (forall n: nat :: |Join(owner)| < n <= |ValuePath(owner, k)| ==> !IsAt(ValuePath(owner, k), ENUM, n))
    && !Contains(k + ".value", ".customProperties.") && !Contains(k + ".value", ".authoritativeDefinitions.")
  }

  lemma DottedEnum(a: string, b: string)
    ensures a + "." + ("enum" + "." + b) == a + ENUM + b
  {
    assert a + "." + ("enum" + "." + b) == a + ("." + "enum" + ".") + b;
  }

  lemma DottedValue(k: string)
    ensures k + "." + "value" == k + ".value"
  {
  }

  lemma ValuePathIs(owner: seq<string>, k: string)
    requires owner != []
    ensures ValuePath(owner, k) == Join(owner) + ENUM + (k + ".value")
  {
    JoinAppend(owner, ["enum", k, "value"]);
    JoinThree("enum", k, "value");
    DottedEnum(Join(owner), k + "." + "value");
    DottedValue(k);
  }

  lemma EnumIsRead(host: Host, tree: Json, owner: seq<string>, e: Dict)
    requires HoldsEnum(tree, owner, e)
    ensures EnumValues(host, tree, Join(owner) + ".enum") == Values(host, e)
    ensures !NoDict(Lookup(tree, Join(owner) + ".enum"))
  {
    var path := Join(owner) + ".enum";
    JoinAppend(owner, ["enum"]);
    assert path == Join(owner) + "." + Join(["enum"]);
    assert path[|path| - 1] == 'm' && !EndsWith(path, ".");
    assert Reaches(tree, path, Obj(e));
    LookupIsExact(tree, path, Obj(e));
    assert Fields(Lookup(tree, path)) == e;
  }

  lemma AllowedIsRead(
      host: Host, e: ChangelogEntry, before: Json, after: Json, owner: seq<string>, e1: Dict, e2: Dict)
    requires HoldsEnum(before, owner, e1) && HoldsEnum(after, owner, e2)
    ensures AllowedDirection(host, e, before, after, Join(owner) + ".enum")
      == Graded(EnumValueDirection(e.oldValue, e.newValue, Values(host, e1), Values(host, e2)))
  {
    EnumIsRead(host, before, owner, e1);
    EnumIsRead(host, after, owner, e2);
  }

  /** The rule's answer for the entry of a value. */
  lemma EnumEntryDirection(host: Host, before: Json, after: Json, owner: seq<string>, e1: Dict, e2: Dict, k: string)
    requires HoldsEnum(before, owner, e1) && HoldsEnum(after, owner, e2) && ReadsAsValue(owner, k)
    requires EntryFor(host, owner, e1, e2, k).Some?
    ensures var e := EntryFor(host, owner, e1, e2, k).value;
      EnumDirection(host, e, before, after) ==
        Some(Graded(EnumValueDirection(e.oldValue, e.newValue, Values(host, e1), Values(host, e2))))
  {
    var path := ValuePath(owner, k);
    ValuePathIs(owner, k);
    assert IsAt(path, ENUM, |Join(owner)|);
    CutLastAt(path, ENUM, |Join(owner)|);
    assert path[..|Join(owner)|] == Join(owner);
    assert path[|Join(owner)| + |ENUM|..] == k + ".value";
    Runs.InSchemaPath(owner, ["enum", k, "value"]);
    EndsInValue(Join(owner) + ENUM + k);
    assert path == Join(owner) + ENUM + k + ".value";
    AllowedIsRead(host, EntryFor(host, owner, e1, e2, k).value, before, after, owner, e1, e2);
  }

  lemma EndsInValue(head: string)
    ensures EndsWith(head + ".value", ".value") && !EndsWith(head + ".value", ".enum")
  {
    var s := head + ".value";
    assert s[|s| - 6..] == ".value";
    assert s[|s| - 1] == 'e' && ".enum"[4] == 'm';
    assert s[|s| - 5..][4] == s[|s| - 1];
  }

  // ---------------------------------------------------------------- Exactness

  ghost predicate Says(
      host: Host, before: Json, after: Json, owner: seq<string>, e1: Dict, e2: Dict, k: string, d: Direction)
  {
    && EntryFor(host, owner, e1, e2, k).Some?
    && var answer := EnumDirection(host, EntryFor(host, owner, e1, e2, k).value, before, after);
       answer == Some(Graded(d)) || answer == Some(Graded(Both))
  }

  /**
   * Some value entry reports a removal exactly if an old allowed value is gone, and some value entry
   * reports an addition exactly if a new one came.
   */
  lemma EnumEntriesAreExact(host: Host, before: Json, after: Json, owner: seq<string>, e1: Dict, e2: Dict)
    requires HoldsEnum(before, owner, e1) && HoldsEnum(after, owner, e2)
    requires forall k :: k in e1 || k in e2 ==> ReadsAsValue(owner, k)
    ensures (exists k :: Says(host, before, after, owner, e1, e2, k, Tightens))
      <==> !(Values(host, e1) <= Values(host, e2))
    ensures (exists k :: Says(host, before, after, owner, e1, e2, k, Loosens))
      <==> !(Values(host, e2) <= Values(host, e1))
  {
    forall k
      ensures Says(host, before, after, owner, e1, e2, k, Tightens) <==> Gone(host, e1, e2, k)
      ensures Says(host, before, after, owner, e1, e2, k, Loosens) <==> Gone(host, e2, e1, k)
    {
      SaysWhatIsGone(host, before, after, owner, e1, e2, k);
    }
    GoneIsMissing(host, e1, e2);
    GoneIsMissing(host, e2, e1);
  }

  /** The value at `k` of one version is no value of the other. */
  ghost predicate Gone(host: Host, one: Dict, two: Dict, k: string) {
    k in one && ValueText(host, one, k) !in Values(host, two)
  }

  lemma GoneIsMissing(host: Host, one: Dict, two: Dict)
    ensures (exists k :: Gone(host, one, two, k)) <==> !(Values(host, one) <= Values(host, two))
  {
    if v :| v in Values(host, one) && v !in Values(host, two) {
      var k :| k in one && ValueText(host, one, k) == v;
      assert Gone(host, one, two, k);
    }
    if k :| Gone(host, one, two, k) {
      assert ValueText(host, one, k) in Values(host, one);
    }
  }

  lemma SaysWhatIsGone(host: Host, before: Json, after: Json, owner: seq<string>, e1: Dict, e2: Dict, k: string)
    requires HoldsEnum(before, owner, e1) && HoldsEnum(after, owner, e2)
    requires k in e1 || k in e2 ==> ReadsAsValue(owner, k)
    ensures Says(host, before, after, owner, e1, e2, k, Tightens) <==> Gone(host, e1, e2, k)
    ensures Says(host, before, after, owner, e1, e2, k, Loosens) <==> Gone(host, e2, e1, k)
  {
    if EntryFor(host, owner, e1, e2, k).Some? {
      EnumEntryDirection(host, before, after, owner, e1, e2, k);
    }
    assert k in e2 ==> ValueText(host, e2, k) in Values(host, e2);
    assert k in e1 ==> ValueText(host, e1, k) in Values(host, e1);
  }

  /** Changing or swapping ids alone is untested. */
  lemma SameValuesAreUntested(host: Host, before: Json, after: Json, owner: seq<string>, e1: Dict, e2: Dict, k: string)
    requires HoldsEnum(before, owner, e1) && HoldsEnum(after, owner, e2) && ReadsAsValue(owner, k)
    requires Values(host, e1) == Values(host, e2) && EntryFor(host, owner, e1, e2, k).Some?
    ensures EnumDirection(host, EntryFor(host, owner, e1, e2, k).value, before, after) == Some(Graded(Untested))
  {
    EnumEntryDirection(host, before, after, owner, e1, e2, k);
    assert k in e1 ==> ValueText(host, e1, k) in Values(host, e1);
    assert k in e2 ==> ValueText(host, e2, k) in Values(host, e2);
  }

  // ---------------------------------------------------------------- The entries are in the changelog

  lemma EnumItemAt(tree: Json, owner: seq<string>, e: Dict, k: string)
    requires HoldsEnum(tree, owner, e)
    ensures At(tree, owner + ["enum", k]) == Runs.Value(e, k)
    ensures k in e ==> At(tree, owner + ["enum", k, "value"]) == Some(e[k].fields["value"])
  {
    Runs.ValueBelow(tree, owner + ["enum"], e, k);
    assert owner + ["enum"] + [k] == owner + ["enum", k];
    if k in e {
      Runs.ValueBelow(tree, owner + ["enum", k], e[k].fields, "value");
      assert owner + ["enum", k] + ["value"] == owner + ["enum", k, "value"];
    }
  }

  lemma ListedDetail(
      host: Host, items: seq<DiffItem>, result: Result, blocks: seq<seq<Detail>>, at: seq<seq<string>>, n: nat, p: nat)
    requires IsChangelog(items, result, blocks, at) && n < |items| && p < |blocks[n]|
    ensures var d := blocks[n][p];
      ChangelogEntry(d.path, d.kind, TextOf(host, d.oldValue), TextOf(host, d.newValue))
        in Entries(host, result.details)
  {
    var d := blocks[n][p];
    DetailsAreOfItems(items, result, blocks, at, d);
    var k :| 0 <= k < |result.details| && result.details[k] == d;
    assert Entries(host, result.details)[k]
      == ChangelogEntry(d.path, d.kind, TextOf(host, d.oldValue), TextOf(host, d.newValue));
  }

  /** The diff item for a value that changed under its key. */
  lemma UpdatedValueIsReported(
      before: Json, after: Json, items: seq<DiffItem>, owner: seq<string>, e1: Dict, e2: Dict,
      k: string) returns (n: nat)
    requires IsDiff(items, before, after) && HoldsEnum(before, owner, e1) && HoldsEnum(after, owner, e2)
    requires k in e1 && k in e2 && Get(Fields(e1[k]), "value") != Get(Fields(e2[k]), "value")
    ensures n < |items| && items[n].segs == owner + ["enum", k, "value"]
    ensures items[n].kind in [ValuesChanged, TypeChanges]
    ensures items[n].payload == Obj(map["old_value" := e1[k].fields["value"], "new_value" := e2[k].fields["value"]])
  {
    EnumItemAt(before, owner, e1, k);
    EnumItemAt(after, owner, e2, k);
    var item := owner + ["enum", k];
    assert item + ["value"] == owner + ["enum", k, "value"];
    assert IsEnumItem(e1[k]) && IsEnumItem(e2[k]);
    n := ScalarChangeIsReported(items, before, after, item, "value");
  }

  /** A value that changed under its key has an entry. */
  lemma UpdatedValueIsListed(
      host: Host, before: Json, after: Json, items: seq<DiffItem>, result: Result, blocks: seq<seq<Detail>>,
      at: seq<seq<string>>, owner: seq<string>, e1: Dict, e2: Dict, k: string)
    requires IsDiff(items, before, after) && IsChangelog(items, result, blocks, at)
    requires HoldsEnum(before, owner, e1) && HoldsEnum(after, owner, e2)
    requires k in e1 && k in e2 && EntryFor(host, owner, e1, e2, k).Some?
    ensures EntryFor(host, owner, e1, e2, k).value in Entries(host, result.details)
  {
    var n := UpdatedValueIsReported(before, after, items, owner, e1, e2, k);
    assert IsEnumItem(e1[k]) && IsEnumItem(e2[k]);
    assert blocks[n][0] == OwnEntry(items[n]);
    ListedDetail(host, items, result, blocks, at, n, 0);
  }

  /** The diff item for a value whose key was added or removed. */
  lemma AddedOrRemovedIsReported(
      before: Json, after: Json, items: seq<DiffItem>, owner: seq<string>, e1: Dict, e2: Dict,
      k: string) returns (n: nat)
    requires IsDiff(items, before, after) && HoldsEnum(before, owner, e1) && HoldsEnum(after, owner, e2)
    requires (k in e1) != (k in e2)
    ensures n < |items| && items[n].segs == owner + ["enum", k]
    ensures items[n].kind == (if k in e1 then ItemRemoved else ItemAdded)
    ensures items[n].payload == (if k in e1 then e1[k] else e2[k])
  {
    EnumItemAt(before, owner, e1, k);
    EnumItemAt(after, owner, e2, k);
    var enum := owner + ["enum"];
    assert enum + [k] == owner + ["enum", k];
    n := ComingOrGoingIsReported(items, before, after, enum, k);
  }

  lemma ValueEntry(base: seq<string>, fields: Dict, kind: ChangeType)
    requires "value" in fields && !fields["value"].Obj?
    ensures IsNode(fields, ["value"])
    ensures NodeEntry(base, fields, kind, ["value"]) == Leaf(Join(base + ["value"]), kind, fields["value"])
  {
    assert ["value"][1..] == [];
    assert At(Obj(fields), ["value"]) == Some(fields["value"]);
  }

  /** The entry of the value of an added or removed item. */
  lemma ValueOfItem(it: DiffItem, entries: seq<Detail>) returns (p: nat)
    requires it.kind in [ItemAdded, ItemRemoved] && IsEnumItem(it.payload) && DetailsOf(it, entries)
    ensures p < |entries|
    ensures entries[p] == Leaf(Join(it.segs + ["value"]), TypeOf(it.kind).value, it.payload.fields["value"])
  {
    var kind := TypeOf(it.kind).value;
    ValueEntry(it.segs, it.payload.fields, kind);
    var below := entries[1..];
    var n := FindNode(it.segs, it.payload.fields, kind, below, ["value"]);
    p := n + 1;
    assert entries[p] == below[n];
  }

  /** A value whose key was added or removed has an entry, below the one of its item. */
  lemma AddedOrRemovedValueIsListed(
      host: Host, before: Json, after: Json, items: seq<DiffItem>, result: Result, blocks: seq<seq<Detail>>,
      at: seq<seq<string>>, owner: seq<string>, e1: Dict, e2: Dict, k: string)
    requires IsDiff(items, before, after) && IsChangelog(items, result, blocks, at)
    requires HoldsEnum(before, owner, e1) && HoldsEnum(after, owner, e2)
    requires (k in e1) != (k in e2)
    ensures EntryFor(host, owner, e1, e2, k).value in Entries(host, result.details)
  {
    var n := AddedOrRemovedIsReported(before, after, items, owner, e1, e2, k);
    var p := ValueOfItem(items[n], blocks[n]);
    assert items[n].segs + ["value"] == owner + ["enum", k, "value"];
    ListedDetail(host, items, result, blocks, at, n, p);
  }

  // ---------------------------------------------------------------- The rule that decides

  /** The path of the value at `k` mentions no section that an earlier rule looks for. */
  ghost predicate InNoOtherSection(owner: seq<string>, k: string) {
    !Contains(ValuePath(owner, k), ".quality.") && !Contains(ValuePath(owner, k), ".relationships.")
  }

  /** The last part of a key. */
  function LastPart(k: string): string { var parts := Split(k); parts[|parts| - 1] }

  /** A value that comes or goes under such a key looks like a property that does. */
  predicate LooksLikeAProperty(k: string, kind: ChangeType) { LastPart(k) == "properties" && !kind.Updated? }

  lemma OwnerSegments(owner: seq<string>)
    requires owner != [] && owner[0] == "schema"
    ensures Split(Join(owner))[0] == "schema"
  {
    SplitNoDot("schema");
    if |owner| > 1 {
      SplitAppend("schema", Join(owner[1..]));
    }
  }

  lemma SplitValuePath(owner: seq<string>, k: string)
    requires owner != []
    ensures Split(ValuePath(owner, k)) == Split(Join(owner)) + (["enum"] + (Split(k) + ["value"]))
  {
    JoinAppend(owner, ["enum", k, "value"]);
    JoinThree("enum", k, "value");
    var last := k + "." + "value";
    SplitAppend(Join(owner), "enum" + "." + last);
    SplitAppend("enum", last);
    SplitAppend(k, "value");
    SplitNoDot("value");
    SplitNoDot("enum");
  }

  lemma ValueSegments(owner: seq<string>, k: string)
    requires owner != [] && owner[0] == "schema"
    ensures var s := Split(ValuePath(owner, k));
      && |s| >= 4 && s[0] == "schema"
      && s[|s| - 2] == Split(k)[|Split(k)| - 1]
  {
    SplitValuePath(owner, k);
    OwnerSegments(owner);
    var front, tail := Split(Join(owner)) + ["enum"], Split(k) + ["value"];
    assert Split(ValuePath(owner, k)) == front + tail;
    assert tail[|tail| - 2] == Split(k)[|Split(k)| - 1];
  }

  /** A path that ends in `.value` does not end in another key. */
  lemma NotSuffix(path: string, suffix: string)
    requires EndsWith(path, ".value") && |suffix| >= 6 && suffix[|suffix| - 6] != '.'
    ensures !EndsWith(path, suffix)
  {
    assert suffix[|suffix| - 6..][0] == suffix[|suffix| - 6];
    EndsOnlyOneWay(path, ".value", suffix);
  }

  lemma NameAndFlagRulesSkip(e: ChangelogEntry)
    requires EndsWith(e.path, ".value")
    ensures PhysicalNameDirection(e).None? && RequiredDirection(e).None? && UniqueDirection(e).None?
  {
    NotSuffix(e.path, ".physicalName");
    NotSuffix(e.path, ".required");
    NotSuffix(e.path, ".unique");
    NotSuffix(e.path, ".uniqueItems");
  }

  lemma TypeRuleSkips(e: ChangelogEntry)
    requires EndsWith(e.path, ".value")
    ensures TypeDirection(e).None?
  {
    NotSuffix(e.path, ".logicalType");
    NotSuffix(e.path, ".physicalType");
  }

  lemma KeyRuleSkips(e: ChangelogEntry, before: Json, after: Json)
    requires EndsWith(e.path, ".value")
    ensures KeyDirection(e, before, after).None?
  {
    NotSuffix(e.path, ".primaryKeyPosition");
    NotSuffix(e.path, ".primaryKey");
    NotSuffix(e.path, ".primary_key");
  }

  lemma LimitRuleSkips(host: Host, e: ChangelogEntry, before: Json, after: Json)
    requires EndsWith(e.path, ".value")
    ensures ValidationDirection(host, e, before, after).None?
  {
    forall n | 0 <= n < |VALIDATION_SUFFIXES|
      ensures !EndsWith(e.path, VALIDATION_SUFFIXES[n])
    {
      LimitSuffixIsNoValue(n);
      NotSuffix(e.path, VALIDATION_SUFFIXES[n]);
    }
  }

  lemma LimitSuffixIsNoValue(n: nat)
    requires n < |VALIDATION_SUFFIXES|
    ensures var suffix := VALIDATION_SUFFIXES[n]; |suffix| >= 6 && suffix[|suffix| - 6] != '.'
  {
  }

  lemma ElementRulesSkip(host: Host, e: ChangelogEntry, before: Json, after: Json)
    requires var s := Split(e.path); |s| >= 4 && s[0] == "schema" && (s[|s| - 2] != "properties" || e.kind.Updated?)
    ensures SchemaDirection(e).None? && PropertyDirection(e).None? && FreshnessDirection(host, e, before, after).None?
  {
  }

  /** A path within a schema that ends in `.value` and mentions no section that an earlier rule looks for. */
  predicate IsValuePath(path: string) {
    && EndsWith(path, ".value") && !Contains(path, ".quality.") && !Contains(path, ".relationships.")
    && |Split(path)| >= 4 && Split(path)[0] == "schema"
  }

  function NextToLast(path: string): string
    requires |Split(path)| >= 2
  {
    Split(path)[|Split(path)| - 2]
  }

  lemma ValuePathIsOne(owner: seq<string>, k: string)
    requires ReadsAsValue(owner, k) && InNoOtherSection(owner, k)
    ensures IsValuePath(ValuePath(owner, k)) && NextToLast(ValuePath(owner, k)) == LastPart(k)
  {
    ValueSegments(owner, k);
    ValuePathEnds(owner, k);
  }

  lemma EarlierRulesSkip(host: Host, e: ChangelogEntry, before: Json, after: Json, name: RuleName)
    requires IsValuePath(e.path) && (NextToLast(e.path) != "properties" || e.kind.Updated?)
    requires !name.EnumConstraint? && !name.VectorShape? && !name.MetadataFallback?
    ensures Evaluate(host, name, e, before, after).Skips?
  {
    match name
    case QualityConstraint => assert QualityEntryDirection(host, e, before, after).None?;
    case RelationshipChanged => assert RelationshipDirection(e, before, after).None?;
    case FreshnessChanged => ElementRulesSkip(host, e, before, after);
    case SchemaAddedOrRemoved => ElementRulesSkip(host, e, before, after);
    case PropertyAddedOrRemoved => ElementRulesSkip(host, e, before, after);
    case PhysicalNameChanged => NameAndFlagRulesSkip(e);
    case RequiredChanged => NameAndFlagRulesSkip(e);
    case UniqueConstraint => NameAndFlagRulesSkip(e);
    case TypeChanged => TypeRuleSkips(e);
    case KeyConstraint => KeyRuleSkips(e, before, after);
    case ValidationConstraint => LimitRuleSkips(host, e, before, after);
  }

  lemma ValuePathEnds(owner: seq<string>, k: string)
    requires owner != []
    ensures EndsWith(ValuePath(owner, k), ".value")
  {
    ValuePathIs(owner, k);
    EndsInValue(Join(owner) + ENUM + k);
    assert ValuePath(owner, k) == Join(owner) + ENUM + k + ".value";
  }

  lemma EnumRuleIsFirst(host: Host, e: ChangelogEntry, before: Json, after: Json)
    requires IsValuePath(e.path) && (NextToLast(e.path) != "properties" || e.kind.Updated?)
    requires EnumDirection(host, e, before, after).Some?
    ensures FirstVerdict(DefaultRules(host), e, before, after)
         == AnswerGrading(EnumConstraint, EnumDirection(host, e, before, after))
  {
    forall n | 0 <= n < 11
      ensures Evaluate(host, DEFAULT_RULES[n], e, before, after).Skips?
    {
      EarlierRulesSkip(host, e, before, after, DEFAULT_RULES[n]);
    }
    assert DEFAULT_RULES[11] == EnumConstraint;
    assert Evaluate(host, EnumConstraint, e, before, after)
      == AnswerGrading(EnumConstraint, EnumDirection(host, e, before, after));
    FirstThatApplies(host, DEFAULT_RULES, 11, e, before, after);
    VerdictOfRule(host, e, before, after);
  }

  /** The property rule comes first. */
  lemma PropertyRuleIsFirst(host: Host, e: ChangelogEntry, before: Json, after: Json)
    requires IsValuePath(e.path) && NextToLast(e.path) == "properties" && !e.kind.Updated?
    ensures FirstVerdict(DefaultRules(host), e, before, after)
         == Evaluates(RuleId(PropertyAddedOrRemoved), AddedOrRemoved(e.kind).value)
  {
    forall n | 0 <= n < 6
      ensures Evaluate(host, DEFAULT_RULES[n], e, before, after).Skips?
    {
      RulesBeforePropertySkip(host, e, before, after, DEFAULT_RULES[n]);
    }
    assert DEFAULT_RULES[6] == PropertyAddedOrRemoved;
    assert PropertyDirection(e) == AddedOrRemoved(e.kind);
    FirstThatApplies(host, DEFAULT_RULES, 6, e, before, after);
    VerdictOfRule(host, e, before, after);
  }

  lemma RulesBeforePropertySkip(host: Host, e: ChangelogEntry, before: Json, after: Json, name: RuleName)
    requires IsValuePath(e.path)
    requires name in DEFAULT_RULES[..6]
    ensures Evaluate(host, name, e, before, after).Skips?
  {
    match name
    case QualityConstraint => assert QualityEntryDirection(host, e, before, after).None?;
    case RelationshipChanged => assert RelationshipDirection(e, before, after).None?;
    case PhysicalNameChanged => NameAndFlagRulesSkip(e);
    case RequiredChanged => NameAndFlagRulesSkip(e);
    case _ =>
  }

  /** What the enum rule says of the entry of a value. */
  function TrueEntryDirection(host: Host, e: ChangelogEntry, e1: Dict, e2: Dict): Direction {
    EnumValueDirection(e.oldValue, e.newValue, Values(host, e1), Values(host, e2))
  }

  /** What grades the entry of a value: the enum rule, or the property rule where the key looks like a property. */
  lemma ValueVerdict(host: Host, before: Json, after: Json, owner: seq<string>, e1: Dict, e2: Dict, k: string)
    requires HoldsEnum(before, owner, e1) && HoldsEnum(after, owner, e2)
    requires ReadsAsValue(owner, k) && InNoOtherSection(owner, k) && EntryFor(host, owner, e1, e2, k).Some?
    ensures var e := EntryFor(host, owner, e1, e2, k).value;
      FirstVerdict(DefaultRules(host), e, before, after) ==
        if LooksLikeAProperty(k, e.kind) then Evaluates(RuleId(PropertyAddedOrRemoved), AddedOrRemoved(e.kind).value)
        else Evaluates(RuleId(EnumConstraint), TrueEntryDirection(host, e, e1, e2))
  {
    if LooksLikeAProperty(k, EntryFor(host, owner, e1, e2, k).value.kind) {
      PropertyVerdict(host, before, after, owner, e1, e2, k);
    } else {
      TrueVerdict(host, before, after, owner, e1, e2, k);
    }
  }

  lemma PropertyVerdict(host: Host, before: Json, after: Json, owner: seq<string>, e1: Dict, e2: Dict, k: string)
    requires ReadsAsValue(owner, k) && InNoOtherSection(owner, k) && EntryFor(host, owner, e1, e2, k).Some?
    requires LooksLikeAProperty(k, EntryFor(host, owner, e1, e2, k).value.kind)
    ensures var e := EntryFor(host, owner, e1, e2, k).value;
      FirstVerdict(DefaultRules(host), e, before, after)
        == Evaluates(RuleId(PropertyAddedOrRemoved), AddedOrRemoved(e.kind).value)
  {
    ValuePathIsOne(owner, k);
    PropertyRuleIsFirst(host, EntryFor(host, owner, e1, e2, k).value, before, after);
  }

  lemma TrueVerdict(host: Host, before: Json, after: Json, owner: seq<string>, e1: Dict, e2: Dict, k: string)
    requires HoldsEnum(before, owner, e1) && HoldsEnum(after, owner, e2)
    requires ReadsAsValue(owner, k) && InNoOtherSection(owner, k) && EntryFor(host, owner, e1, e2, k).Some?
    requires !LooksLikeAProperty(k, EntryFor(host, owner, e1, e2, k).value.kind)
    ensures var e := EntryFor(host, owner, e1, e2, k).value;
      FirstVerdict(DefaultRules(host), e, before, after)
        == Evaluates(RuleId(EnumConstraint), TrueEntryDirection(host, e, e1, e2))
  {
    ValuePathIsOne(owner, k);
    EnumEntryDirection(host, before, after, owner, e1, e2, k);
    EnumRuleIsFirst(host, EntryFor(host, owner, e1, e2, k).value, before, after);
  }

  /** An entry is graded by the true change of its value exactly if the key does not look like a property. */
  lemma EnumRuleDecides(host: Host, before: Json, after: Json, owner: seq<string>, e1: Dict, e2: Dict, k: string)
    requires HoldsEnum(before, owner, e1) && HoldsEnum(after, owner, e2)
    requires ReadsAsValue(owner, k) && InNoOtherSection(owner, k) && EntryFor(host, owner, e1, e2, k).Some?
    ensures var e := EntryFor(host, owner, e1, e2, k).value;
      var verdict := FirstVerdict(DefaultRules(host), e, before, after);
      && verdict.Evaluates?
      && (verdict.direction == TrueEntryDirection(host, e, e1, e2) <==> !LooksLikeAProperty(k, e.kind))
  {
    ValueVerdict(host, before, after, owner, e1, e2, k);
  }

  /** A value among the custom properties or the definitions of an item is no allowed value. */
  lemma NotesOfItemsAreNoValues(
      host: Host, e: ChangelogEntry, before: Json, after: Json, owner: string, item: string)
    requires CutLast(e.path, ENUM) == Some((owner, item)) && !EndsWith(e.path, ".enum")
    requires Contains(item, ".customProperties.") || Contains(item, ".authoritativeDefinitions.")
    ensures EnumDirection(host, e, before, after).None?
  {
  }

  /** Enums are those of properties. */
  lemma EnumsAreOfProperties(host: Host, e: ChangelogEntry, before: Json, after: Json)
    requires !Contains(e.path, ".properties.")
    ensures EnumDirection(host, e, before, after).None?
  {
  }
}
