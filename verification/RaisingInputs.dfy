/**
 * Contracts for which the detector raises: a tag named like a bound, limits that are lists, and a flag
 * named like a key outside of a property.
 */
module RaisingInputs {
  import opened Wrappers
  import opened JsonTrees
  import opened Breaking
  import opened NumberProbes
  import opened Thresholds
  import opened Paths
  import opened Lookups
  import opened QualityRules
  import opened BoundRules
  import opened Rules
  import opened Selection
  import opened Changelog
  import opened Detector
  import opened SummaryTheorems
  import opened Diffs
  import opened Places
  import opened PlainNames
  import opened Enums
  import opened TakenKeys
  import opened BoundEntries
  import opened SilentFlips
  import PrimaryKeys
  import Raising

  // ---------------------------------------------------------------- A tag named like a bound

  const TAGS: seq<string> := ["schema", "orders", "tags"]

  function TagPath(tag: string): string { Join(TAGS + [tag]) }

  lemma TagPathIs(tag: string)
    ensures TagPath(tag) == Join(TAGS) + "." + tag && InSchema(TagPath(tag))
  {
    JoinAppend(TAGS, [tag]);
    JoinThree("schema", "orders", "tags");
  }

  lemma TagSegments(tag: string)
    requires NoDot(tag)
    ensures Split(TagPath(tag)) == ["schema", "orders", "tags", tag]
  {
    var keys := TAGS + [tag];
    assert keys[0] == "schema" && keys[1] == "orders" && keys[2] == "tags" && keys[3] == tag;
    SplitJoin(keys);
    assert keys == ["schema", "orders", "tags", tag];
  }

  /** A path that mentions a section has a segment of its name. */
  lemma SectionIsASegment(path: string, name: string)
    requires NoDot(name) && Contains(path, "." + (name + "."))
    ensures name in Split(path)
  {
    var part := "." + (name + ".");
    var n := LastIndex(path, part, |path|).value;
    var u, v := path[..n], path[n + |part|..];
    assert path[n..n + |part|] == part;
    assert path == u + part + v == u + "." + (name + "." + v);
    SplitAppend(u, name + "." + v);
    SplitAppend(name, v);
    SplitNoDot(name);
    assert Split(path) == Split(u) + ([name] + Split(v));
  }

  lemma NoSectionAmongTags(tag: string)
    requires NoDot(tag) && tag != "quality" && tag != "relationships"
    ensures !Contains(TagPath(tag), ".quality.") && !Contains(TagPath(tag), ".relationships.")
  {
    TagSegments(tag);
    assert "." + ("quality" + ".") == ".quality." && "." + ("relationships" + ".") == ".relationships.";
    if Contains(TagPath(tag), ".quality.") {
      SectionIsASegment(TagPath(tag), "quality");
    }
    if Contains(TagPath(tag), ".relationships.") {
      SectionIsASegment(TagPath(tag), "relationships");
    }
  }

  lemma TagIsABound(e: ChangelogEntry, tag: string)
    requires e.path == TagPath(tag) && tag in BOUND_KEYS
    ensures IsBoundEntry(e, Join(TAGS), tag)
  {
    BoundKeysArePlain(tag);
    TagPathIs(tag);
    TagSegments(tag);
    NoSectionAmongTags(tag);
  }

  /** A tag named like a bound that comes or goes raises: the tags are read as the options of a property. */
  lemma TagEntryRaises(host: Host, e: ChangelogEntry, before: Json, after: Json, tag: string)
    requires e.path == TagPath(tag) && tag in BOUND_KEYS && !e.kind.Updated?
    requires NoDict(Lookup(before, Join(TAGS))) || NoDict(Lookup(after, Join(TAGS)))
    ensures FirstVerdict(DefaultRules(host), e, before, after) == Rules.Fails
  {
    TagIsABound(e, tag);
    BoundRuleAnswers(host, e, before, after, Join(TAGS), tag);
  }

  function Tagged(tags: seq<Json>): Json { Nest(TAGS, Arr(tags)) }

  function NewTag(tag: string): DiffItem { DiffItem(IterableAdded, TAGS, Text(tag)) }

  lemma TagsStand(tags: seq<Json>)
    ensures At(Tagged(tags), TAGS) == Some(Arr(tags))
    ensures NoNulls(Tagged(tags)) && Tagged(tags).Obj?
  {
    assert forall c :: 0 <= c < |TAGS| ==> AnyName(TAGS[c]);
    AnyNames(Arr(tags));
    NestHolds(TAGS, Arr(tags), AnyName);
  }

  predicate AnyName(name: string) { true }

  lemma {:induction false} AnyNames(tree: Json)
    ensures AllNames(tree, AnyName)
    decreases tree
  {
    if tree.Obj? {
      forall k | k in tree.fields
        ensures AllNames(tree.fields[k], AnyName)
      {
        AnyNames(tree.fields[k]);
      }
    } else if tree.Arr? {
      forall n | 0 <= n < |tree.items|
        ensures AllNames(tree.items[n], AnyName)
      {
        AnyNames(tree.items[n]);
      }
    }
  }

  /** Nested dicts stand at the prefixes of their keys, and nothing stands anywhere else but the leaf. */
  lemma {:induction false} OnlyNested(keys: seq<string>, leaf: Json, segs: seq<string>)
    requires leaf.Arr?
    ensures At(Nest(keys, leaf), segs).Some? ==> segs <= keys
    ensures segs < keys ==> At(Nest(keys, leaf), segs).Some? && At(Nest(keys, leaf), segs).value.Obj?
    decreases |keys|
  {
    if keys != [] && segs != [] {
      OnlyNested(keys[1..], leaf, segs[1..]);
      assert keys == [keys[0]] + keys[1..] && segs == [segs[0]] + segs[1..];
    }
  }

  lemma NewTagDiffers(tags: seq<Json>, tag: string)
    requires Text(tag) !in tags
    ensures !SameItems(tags, tags + [Text(tag)])
  {
    var more := tags + [Text(tag)];
    assert more[|tags|] == Text(tag);
    assert !HasOneLike(tags, more[|tags|]);
  }

  /** The versions part at the tags, and nowhere else. */
  lemma TagsPart(tags: seq<Json>, tag: string, segs: seq<string>)
    requires Text(tag) !in tags
    ensures Parts(Tagged(tags), Tagged(tags + [Text(tag)]), segs) <==> segs == TAGS
  {
    var before, after := Tagged(tags), Tagged(tags + [Text(tag)]);
    TagsStand(tags);
    TagsStand(tags + [Text(tag)]);
    NewTagDiffers(tags, tag);
    OnlyNested(TAGS, Arr(tags), segs);
    OnlyNested(TAGS, Arr(tags + [Text(tag)]), segs);
    OnlyNested(TAGS, Arr(tags), TAGS[..2]);
    OnlyNested(TAGS, Arr(tags + [Text(tag)]), TAGS[..2]);
  }

  /** One new tag is all that the diff reports. */
  lemma NewTagIsTheDiff(tags: seq<Json>, tag: string)
    requires Text(tag) !in tags
    ensures IsDiff([NewTag(tag)], Tagged(tags), Tagged(tags + [Text(tag)]))
  {
    var items, before, after := [NewTag(tag)], Tagged(tags), Tagged(tags + [Text(tag)]);
    TagsStand(tags);
    TagsStand(tags + [Text(tag)]);
    TagsPart(tags, tag, TAGS);
    NewTagIsReported(tags, tag);
    forall segs | Parts(before, after, segs)
      ensures SomeReport(items, before, after, segs)
    {
      TagsPart(tags, tag, segs);
      assert ReportsAt(items[0], before, after, TAGS);
    }
  }

  lemma NewTagIsReported(tags: seq<Json>, tag: string)
    ensures ReportsAt(NewTag(tag), Tagged(tags), Tagged(tags + [Text(tag)]), TAGS)
  {
    var more := tags + [Text(tag)];
    TagsStand(tags);
    TagsStand(more);
    assert more[|tags|] == Text(tag);
    assert Stands(Arr(more), [], Arr(more)) && Text(tag) in more;
    assert Diffs.Lists(Arr(more), [], Text(tag));
    assert TAGS[|TAGS|..] == [];
  }

  lemma TagsAreRead(tags: seq<Json>)
    requires tags != []
    ensures NoDict(Lookup(Tagged(tags), Join(TAGS)))
  {
    var tree, path := Tagged(tags), Join(TAGS);
    TagsStand(tags);
    JoinThree("schema", "orders", "tags");
    assert path[|path| - 1] == 's' && !EndsWith(path, ".");
    assert Reaches(tree, path, Arr(tags));
    forall v | Reaches(tree, path, v)
      ensures v == Arr(tags)
    {
      OnlyTagsAreReached(tags, v);
    }
    LookupIsExact(tree, path, Arr(tags));
  }

  lemma OnlyTagsAreReached(tags: seq<Json>, v: Json)
    requires Reaches(Tagged(tags), Join(TAGS), v)
    ensures v == Arr(tags)
  {
    var keys :| Join(keys) == Join(TAGS) && At(Tagged(tags), keys) == Some(v);
    OnlyNested(TAGS, Arr(tags), keys);
    TagsStand(tags);
    SameJoin(keys, TAGS);
  }

  lemma SameJoin(keys: seq<string>, all: seq<string>)
    requires keys <= all && Join(keys) == Join(all) && all != [] && all[0] != ""
    ensures keys == all
  {
    if keys == [] {
      FirstNameIsPart(all);
    } else if keys != all {
      var more := all[|keys|..];
      assert all == keys + more;
      JoinAppend(keys, more);
    }
  }

  lemma FirstNameIsPart(all: seq<string>)
    requires all != [] && all[0] != ""
    ensures Join(all) != ""
  {
  }

  /** The entry of the new tag is in the changelog. */
  lemma NewTagIsListed(
      host: Host, tag: string, result: Changelog.Result, blocks: seq<seq<Detail>>, at: seq<seq<string>>)
      returns (k: nat)
    requires IsChangelog([NewTag(tag)], result, blocks, at)
    ensures k < |result.details|
    ensures Entries(host, result.details)[k].path == TagPath(tag) && Entries(host, result.details)[k].kind.Added?
  {
    var items := [NewTag(tag)];
    var d := blocks[0][0];
    assert d == OwnEntry(items[0]) && d in blocks[0];
    DetailsAreOfItems(items, result, blocks, at, d);
    k :| 0 <= k < |result.details| && result.details[k] == d;
  }

  /**
   * Tags, to which one named like a bound is added, say [a] that become [a, minimum]: the detector raises in
   * every run over them, for the tags are read as the options of a property.
   */
  lemma NewTagRaises(
      host: Host, tags: seq<Json>, tag: string, before: Json, after: Json, perspective: Perspective,
      result: Changelog.Result, blocks: seq<seq<Detail>>, at: seq<seq<string>>)
    requires tag in BOUND_KEYS && Text(tag) !in tags
    requires before == Tagged(tags) && after == Tagged(tags + [Text(tag)])
    requires IsChangelog([NewTag(tag)], result, blocks, at)
    ensures IsDiff([NewTag(tag)], before, after)
    ensures ClassifyAll(DefaultRules(host), Entries(host, result.details), perspective, before, after).None?
  {
    NewTagIsTheDiff(tags, tag);
    var entries := Entries(host, result.details);
    var k := NewTagIsListed(host, tag, result, blocks, at);
    TagsAreRead(tags + [Text(tag)]);
    TagEntryRaises(host, entries[k], before, after, tag);
    Raising.ClassifyFails(DefaultRules(host), entries[k], perspective, before, after);
    Raising.AllOrNone(DefaultRules(host), entries, perspective, before, after);
  }

  // ---------------------------------------------------------------- Limits that are lists

  /** `mustBe` [1] that becomes [2] raises, over rows and over percentages, and so does [1] that becomes a word. */
  lemma ListsRaise(integers: bool, word: string)
    ensures var one, two, three := Threshold(EQ, BoundOf(Arr([Num(1.0)])), Missing),
        Threshold(EQ, BoundOf(Arr([Num(2.0)])), Missing), Threshold(EQ, BoundOf(Text(word)), Missing);
      CompareThresholds(one, two, integers) == CompareThresholds(one, three, integers) == Raises
  {
    Raising.ListsAsLimitsRaise(Arr([Num(1.0)]), EQ, Arr([Num(2.0)]), integers);
    Raising.ListsAsLimitsRaise(Arr([Num(1.0)]), EQ, Text(word), integers);
  }

  /** A word that becomes another word does not. */
  lemma WordsAloneDoNotRaise(one: string, two: string, integers: bool)
    ensures CompareThresholds(Threshold(EQ, BoundOf(Text(one)), Missing), Threshold(EQ, BoundOf(Text(two)), Missing),
                              integers) == Graded(Undetermined)
  {
    var t, u := Threshold(EQ, BoundOf(Text(one)), Missing), Threshold(EQ, BoundOf(Text(two)), Missing);
    assert (t.Bounds() + u.Bounds())[0] == Words;
    assert forall b :: b in t.Bounds() + u.Bounds() ==> b == Words || b == Missing;
  }

  // ---------------------------------------------------------------- A key that is no key

  /** `primaryKey: true` that comes where no property stands raises: the flag is read as a schema. */
  lemma LoneKeyFlagRaises(host: Host, e: ChangelogEntry, before: Json, after: Json)
    requires InSchema(e.path) && EndsWith(e.path, ".primaryKey") && BeforeFirst(e.path, ".properties.") == e.path
    requires Lookup(before, e.path) == Null && Lookup(after, e.path) == Json.Flag(true)
    ensures Evaluate(host, KeyConstraint, e, before, after) == Rules.Fails
  {
    var suffixes := [".primaryKey", ".primary_key"];
    assert EndsWith(e.path, suffixes[0]);
    assert EndsWithAny(e.path, suffixes);
    PrimaryKeys.NoPositionSuffix(e.path);
    assert KeyColumns(before, e.path) == {};
  }

  // ---------------------------------------------------------------- Nodes of other types

  /** Looking for key columns raises where the properties are a list, or one of them is no dict, be it null. */
  lemma OddPropertiesRaise(before: Json, after: Json, path: string, schema: Dict, items: seq<Json>)
    requires Lookup(before, path) == Obj(schema)
    ensures Get(schema, "properties") == Arr(items) && items != [] ==> KeysRaise(before, after, path)
    ensures (exists k, d: Dict :: Get(schema, "properties") == Obj(d) && k in d && !d[k].Obj?) ==>
      KeysRaise(before, after, path)
  {
  }

  /** Where both versions have no schema there, or properties that are all dicts, it does not. */
  lemma PlainPropertiesDoNotRaise(before: Json, after: Json, path: string, f: Dict, g: Dict)
    requires Get(Fields(Lookup(before, path)), "properties") == Obj(f) && forall k :: k in f ==> f[k].Obj?
    requires Get(Fields(Lookup(after, path)), "properties") == Obj(g) && forall k :: k in g ==> g[k].Obj?
    ensures !KeysRaise(before, after, path)
  {
  }

  /** A property that is a text raises where a bound replaces its partner, if all their limits can be read. */
  lemma OddPropertyRaises(
      host: Host, before: Dict, after: Dict, property: Json, key: string, kind: ChangeType)
    requires !kind.Updated? && IsGroup(Group(key)) && NoDict(property)
    requires PartnerSet(key, Group(key), before, after)
    ensures OptionsRaise(host, Obj(before), Obj(after), property, key, kind) <==>
      && Some(key) == Carrier(before, after, Group(key))
      && forall k :: k in Group(key) ==>
        !LimitOf(host, before, k).Unreadable? && !LimitOf(host, after, k).Unreadable?
  {
    var group := Group(key);
    assert group[0] in group && group[1] in group;
    assert forall k :: k in group ==> k == group[0] || k == group[1];
    assert forall options: Dict :: SomeUnreadable(host, options, group) <==>
      LimitOf(host, options, group[0]).Unreadable? || LimitOf(host, options, group[1]).Unreadable?;
  }

  /** A metric that is a list, and arguments that are one where invalid values are counted, raise. */
  lemma OddRulesRaise(items: seq<Json>, atProperty: bool)
    ensures RunsRaises(map["metric" := Arr(items)], atProperty)
    ensures items != [] ==> RunsRaises(map["metric" := Text("invalidValues"), "arguments" := Arr(items)], true)
    ensures !RunsRaises(map["metric" := Text("invalidValues"), "arguments" := Arr(items)], false)
    ensures !RunsRaises(map["metric" := Text("nullValues"), "arguments" := Arr(items)], atProperty)
  {
    assert Text("nullValues") != Text("invalidValues") by {
      assert "nullValues"[0] != "invalidValues"[0];
    }
  }
}
