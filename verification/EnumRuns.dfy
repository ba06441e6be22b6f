/**
 * What a report says of a changed enum: the change of each allowed value is reported after silencing
 * exactly if no rule takes the entry of its item for something else.
 */
module EnumRuns {
  import opened Wrappers
  import opened JsonTrees
  import opened Breaking
  import opened Paths
  import opened QualityRules
  import opened Rules
  import opened Selection
  import opened Changelog
  import opened Detector
  import opened DetectorTheorems
  import opened SummaryTheorems
  import opened Diffs
  import opened Places
  import opened Runs
  import opened Enums

  function EnumKeys(owner: seq<string>): seq<string> { owner + ["enum"] }

  function ItemKeys(owner: seq<string>, k: string): seq<string> { owner + ["enum", k] }

  function ValueKeys(owner: seq<string>, k: string): seq<string> { owner + ["enum", k, "value"] }

  /** A run over two versions of the enum of one property. */
  ghost predicate EnumRun(r: Run, owner: seq<string>, e1: Dict, e2: Dict) {
    && IsRun(r) && EnumsAreRead(r, owner, e1, e2)
    && forall k :: k in e1 || k in e2 ==> ReadsAsValue(owner, k) && InNoOtherSection(owner, k)
  }

  /** Two versions of an enum, with nothing written like one of its values but the value. */
  ghost predicate EnumsAreRead(r: Run, owner: seq<string>, e1: Dict, e2: Dict) {
    && HoldsEnum(r.before, owner, e1) && HoldsEnum(r.after, owner, e2)
    && WellNamed(r.before, r.after, EnumKeys(owner)) && ItemsAreApart(r, owner, e1, e2)
  }

  /** `1.5` continues `1` after a dot. */
  predicate Continues(k: string, other: string) { other + "." <= k }

  /** What an item holds besides is not written like the value under a key that continues its own. */
  ghost predicate ItemsAreApart(r: Run, owner: seq<string>, e1: Dict, e2: Dict) {
    forall k, other :: (k in e1 || k in e2) && (other in e1 || other in e2) && Continues(k, other) ==>
      ItemIsApart(r, owner, other, ValuePath(owner, k))
  }

  ghost predicate ItemIsApart(r: Run, owner: seq<string>, k: string, path: string) {
    forall place :: Shows(r.before, r.after, place) && ItemKeys(owner, k) < place ==> !AtOrInside(path, Join(place))
  }

  // ---------------------------------------------------------------- The entries of one key

  lemma EnumStands(r: Run, owner: seq<string>, e1: Dict, e2: Dict, k: string)
    requires HoldsEnum(r.before, owner, e1) && HoldsEnum(r.after, owner, e2)
    ensures BothDicts(r.before, r.after, EnumKeys(owner))
    ensures At(r.before, ItemKeys(owner, k)) == Value(e1, k) && At(r.after, ItemKeys(owner, k)) == Value(e2, k)
    ensures k in e1 ==> At(r.before, ValueKeys(owner, k)) == Some(e1[k].fields["value"]) && IsEnumItem(e1[k])
    ensures k in e2 ==> At(r.after, ValueKeys(owner, k)) == Some(e2[k].fields["value"]) && IsEnumItem(e2[k])
  {
    EnumItemAt(r.before, owner, e1, k);
    EnumItemAt(r.after, owner, e2, k);
  }

  /** A place at or below an item and at or above its value is one of the two. */
  lemma TwoPlaces(owner: seq<string>, k: string, segs: seq<string>)
    requires segs <= ValueKeys(owner, k) && !(segs <= EnumKeys(owner))
    ensures segs == ItemKeys(owner, k) || segs == ValueKeys(owner, k)
  {
    var value := ValueKeys(owner, k);
    ItemIsAboveItsValue(owner, k);
    PrefixesAreNested(value, segs, EnumKeys(owner));
    assert segs == value[..|segs|] && |segs| > |owner| + 1;
  }

  lemma ItemIsAboveItsValue(owner: seq<string>, k: string)
    ensures EnumKeys(owner) < ItemKeys(owner, k) < ValueKeys(owner, k)
    ensures ValueKeys(owner, k) == ItemKeys(owner, k) + ["value"] && ItemKeys(owner, k) == EnumKeys(owner) + [k]
  {
    var value := ValueKeys(owner, k);
    assert EnumKeys(owner) == value[..|owner| + 1] && ItemKeys(owner, k) == value[..|owner| + 2];
  }

  /** Where the versions part for an item of the diff: below what both hold as a dict. */
  lemma PartOfItem(r: Run, n: nat, keys: seq<string>, segs: seq<string>) returns (place: seq<string>)
    requires IsDiff(r.items, r.before, r.after) && ItemAt(r, n, keys) && BothDicts(r.before, r.after, segs)
    ensures Parts(r.before, r.after, place) && ReportsAt(r.items[n], r.before, r.after, place)
    ensures place <= r.items[n].segs <= keys && !(place <= segs) && TypeOf(r.items[n].kind).Some?
  {
    assert PartsFor(r.items[n], r.before, r.after);
    place :| Parts(r.before, r.after, place) && ReportsAt(r.items[n], r.before, r.after, place);
    ReportsHaveAType(r.items[n], r.before, r.after, place);
    if place <= segs {
      DictsAllTheWay(r.before, r.after, segs, place);
    }
  }

  /** Two versions of the enum of one property, and a diff of the contracts that hold them. */
  ghost predicate EnumsOf(r: Run, owner: seq<string>, e1: Dict, e2: Dict) {
    IsDiff(r.items, r.before, r.after) && HoldsEnum(r.before, owner, e1) && HoldsEnum(r.after, owner, e2)
  }

  /** What the item of the diff is that reports a value under a key of both versions. */
  lemma ChangedValueItem(r: Run, owner: seq<string>, e1: Dict, e2: Dict, k: string, n: nat)
    requires EnumsOf(r, owner, e1, e2) && k in e1 && k in e2 && ItemAt(r, n, ValueKeys(owner, k))
    ensures r.items[n].segs == ValueKeys(owner, k)
    ensures Replaces(r.items[n], e1[k].fields["value"], e2[k].fields["value"])
    ensures e1[k].fields["value"] != e2[k].fields["value"]
  {
    EnumStands(r, owner, e1, e2, k);
    ItemIsAboveItsValue(owner, k);
    var place := PartOfItem(r, n, ValueKeys(owner, k), ItemKeys(owner, k));
    PlaceOfChangedValue(owner, k, place, r.items[n].segs);
    ScalarsAreReplaced(r.items[n], r.before, r.after, place);
  }

  lemma PlaceOfChangedValue(owner: seq<string>, k: string, place: seq<string>, segs: seq<string>)
    requires place <= segs <= ValueKeys(owner, k) && !(place <= ItemKeys(owner, k))
    ensures place == segs == ValueKeys(owner, k)
  {
    ItemIsAboveItsValue(owner, k);
    PrefixesAreNested(ValueKeys(owner, k), place, ItemKeys(owner, k));
    assert place == segs[..|place|] && segs == ValueKeys(owner, k)[..|segs|];
  }

  /** What the item of the diff is that reports a key of one version only. */
  lemma LoneKeyItem(r: Run, owner: seq<string>, e1: Dict, e2: Dict, k: string, n: nat)
    requires EnumsOf(r, owner, e1, e2) && (k in e1) != (k in e2) && ItemAt(r, n, ValueKeys(owner, k))
    ensures r.items[n].segs == ItemKeys(owner, k)
    ensures r.items[n].kind == (if k in e1 then ItemRemoved else ItemAdded)
    ensures r.items[n].payload == if k in e1 then e1[k] else e2[k]
  {
    EnumStands(r, owner, e1, e2, k);
    var place := PartOfItem(r, n, ValueKeys(owner, k), EnumKeys(owner));
    TwoPlaces(owner, k, place);
    ItemIsAboveItsValue(owner, k);
    NoPartBelowNothing(r.before, r.after, ItemKeys(owner, k), "value");
    LoneReport(r.items[n], r.before, r.after, place);
  }

  /** The versions do not part below a key that only one of them has. */
  lemma NoPartBelowNothing(before: Json, after: Json, segs: seq<string>, key: string)
    requires At(before, segs).None? || At(after, segs).None?
    ensures !Parts(before, after, segs + [key])
  {
    assert (segs + [key])[..|segs|] == segs;
  }

  /** The entry of an item that came or went as a whole. */
  function ItemEntry(owner: seq<string>, e1: Dict, k: string): ChangelogEntry {
    ChangelogEntry(Join(ItemKeys(owner, k)), if k in e1 then Removed else Added, None, None)
  }

  /** The grade of the value at `k` is that of its entry. */
  lemma ValueGradeIs(r: Run, owner: seq<string>, e1: Dict, e2: Dict, k: string, j: nat)
    requires EnumRun(r, owner, e1, e2) && (k in e1 || k in e2)
    requires j < |r.grades| && r.grades[j].path == ValuePath(owner, k)
    ensures |r.grades| == |r.result.details| && Some(EntryOf(r, j)) == EntryFor(r.host, owner, e1, e2, k)
  {
    GradeOfEntry(r, j);
    var n, p, keys := PlaceOfGrade(r, j);
    ItemOfGrade(r, j, n, p, keys);
    KeysOfValuePath(r, owner, e1, e2, k, keys);
    if k in e1 && k in e2 {
      ChangedValueItem(r, owner, e1, e2, k, n);
      ChangedEntryIs(r, owner, e1, e2, k, j, n, p, keys);
    } else {
      LoneKeyItem(r, owner, e1, e2, k, n);
      LoneEntryIs(r, owner, e1, e2, k, j, n, p, keys);
    }
  }

  lemma KeysOfValuePath(r: Run, owner: seq<string>, e1: Dict, e2: Dict, k: string, keys: seq<string>)
    requires EnumsAreRead(r, owner, e1, e2) && (k in e1 || k in e2)
    requires Shows(r.before, r.after, keys) && Join(keys) == ValuePath(owner, k)
    ensures keys == ValueKeys(owner, k)
  {
    var t := BelowTheEnum(r, owner, e1, e2, k, keys);
    NoOtherSplit(r, owner, e1, e2, k, t);
    NoOtherKey(r, owner, e1, e2, k, t[0]);
    assert t == [k, "value"] && keys == ValueKeys(owner, k);
  }

  /** What is written like a value does not stand in the item of a key that it continues. */
  lemma NoOtherSplit(r: Run, owner: seq<string>, e1: Dict, e2: Dict, k: string, t: seq<string>)
    requires ItemsAreApart(r, owner, e1, e2) && (k in e1 || k in e2) && t != [] && (t[0] in e1 || t[0] in e2)
    requires Shows(r.before, r.after, EnumKeys(owner) + t)
    requires AtOrInside(ValuePath(owner, k), Join(EnumKeys(owner) + t))
    ensures !(|t| > 1 && Continues(k, t[0]))
  {
    if |t| > 1 && Continues(k, t[0]) {
      BelowAnItem(owner, t);
      NothingInside(r, owner, e1, e2, k, t[0], EnumKeys(owner) + t);
    }
  }

  lemma NothingInside(
      r: Run, owner: seq<string>, e1: Dict, e2: Dict, k: string, other: string, place: seq<string>)
    requires ItemsAreApart(r, owner, e1, e2) && (k in e1 || k in e2) && (other in e1 || other in e2)
    requires Continues(k, other) && Shows(r.before, r.after, place) && ItemKeys(owner, other) < place
    ensures !AtOrInside(ValuePath(owner, k), Join(place))
  {
    assert ItemIsApart(r, owner, other, ValuePath(owner, k));
  }

  lemma BelowAnItem(owner: seq<string>, t: seq<string>)
    requires |t| > 1
    ensures ItemKeys(owner, t[0]) < EnumKeys(owner) + t
  {
    assert EnumKeys(owner) + t == ItemKeys(owner, t[0]) + t[1..];
  }

  /** Nor is it the item of a key that continues it. */
  lemma NoOtherKey(r: Run, owner: seq<string>, e1: Dict, e2: Dict, k: string, other: string)
    requires EnumsAreRead(r, owner, e1, e2) && (k in e1 || k in e2) && (other in e1 || other in e2)
    ensures other != k + ".value"
  {
    ValueIsShown(r, owner, e1, e2, k);
    ItemIsAboveItsValue(owner, k);
    if other == k + ".value" {
      ValueInsideAValue(owner, k);
      NothingInside(r, owner, e1, e2, other, k, ValueKeys(owner, k));
    }
  }

  /** What is written like the value at `k` stands below the enum. */
  lemma BelowTheEnum(r: Run, owner: seq<string>, e1: Dict, e2: Dict, k: string, keys: seq<string>)
      returns (t: seq<string>)
    requires EnumsAreRead(r, owner, e1, e2) && (k in e1 || k in e2)
    requires Shows(r.before, r.after, keys) && Join(keys) == ValuePath(owner, k)
    ensures t != [] && keys == EnumKeys(owner) + t && (t[0] in e1 || t[0] in e2)
    ensures t == [k, "value"] || t == [k + ".value"] || (|t| > 1 && Continues(k, t[0]))
  {
    ValueTextIs(owner, k);
    InsideMeansBelow(r.before, r.after, keys, EnumKeys(owner));
    t := ThroughAKey(r, owner, e1, e2, keys);
    JoinAppend(EnumKeys(owner), t);
    TailIs(Join(EnumKeys(owner)), Join(t), k + ".value");
    WrittenAsValue(t, k);
  }

  lemma ThroughAKey(r: Run, owner: seq<string>, e1: Dict, e2: Dict, keys: seq<string>) returns (t: seq<string>)
    requires HoldsEnum(r.before, owner, e1) && HoldsEnum(r.after, owner, e2)
    requires Shows(r.before, r.after, keys) && EnumKeys(owner) < keys
    ensures t != [] && keys == EnumKeys(owner) + t && (t[0] in e1 || t[0] in e2)
  {
    t := keys[|EnumKeys(owner)|..];
    assert keys == EnumKeys(owner) + t;
    ShownThroughAKey(r.before, r.after, EnumKeys(owner), e1, e2, keys);
  }

  lemma TailIs(head: string, a: string, b: string)
    requires head + "." + a == head + "." + b
    ensures a == b
  {
    assert a == (head + "." + a)[|head| + 1..];
    assert b == (head + "." + b)[|head| + 1..];
  }

  lemma ValueTextIs(owner: seq<string>, k: string)
    ensures ValuePath(owner, k) == Join(EnumKeys(owner)) + "." + (k + ".value")
    ensures Join(ItemKeys(owner, k)) == Join(EnumKeys(owner)) + "." + k
    ensures Inside(ValuePath(owner, k), Join(EnumKeys(owner))) && ValuePath(owner, k) == Join(ValueKeys(owner, k))
  {
    ItemIsAboveItsValue(owner, k);
    JoinAppend(EnumKeys(owner), [k]);
    JoinAppend(ItemKeys(owner, k), ["value"]);
  }

  /** How keys that are written like a value may be split. */
  lemma WrittenAsValue(t: seq<string>, k: string)
    requires t != [] && Join(t) == k + ".value"
    ensures t == [k, "value"] || t == [k + ".value"] || (|t| > 1 && Continues(k, t[0]))
  {
    if |t| > 1 {
      JoinCons(t);
      HeadOfValue(t[0], Join(t[1..]), k);
      if t[0] == k {
        WrittenWithoutDots(t[1..], "value");
      }
    }
  }

  lemma WrittenWithoutDots(t: seq<string>, text: string)
    requires t != [] && Join(t) == text && NoDot(text)
    ensures t == [text]
  {
    if |t| > 1 {
      JoinHasADot(t);
    }
  }

  lemma JoinHasADot(t: seq<string>)
    requires |t| > 1
    ensures !NoDot(Join(t))
  {
    JoinCons(t);
    assert Join(t)[|t[0]|] == '.';
  }

  lemma HeadOfValue(head: string, rest: string, k: string)
    requires head + "." + rest == k + ".value"
    ensures (head == k && rest == "value") || Continues(k, head)
  {
    var text := k + ".value";
    assert text[|head|] == '.';
    assert forall n :: |k| < n < |text| ==> text[n] != '.';
    if |head| == |k| {
      assert head == text[..|k|] == k;
      assert rest == text[|k| + 1..] == "value";
    } else {
      assert head + "." == text[..|head| + 1] == k[..|head| + 1];
    }
  }

  lemma ValueInsideAValue(owner: seq<string>, k: string)
    ensures AtOrInside(ValuePath(owner, k + ".value"), Join(ValueKeys(owner, k)))
  {
    ValueTextIs(owner, k);
    ValueTextIs(owner, k + ".value");
    var head := Join(EnumKeys(owner)) + "." + (k + ".value");
    assert ValuePath(owner, k + ".value") == head + ".value";
  }

  lemma ValueIsShown(r: Run, owner: seq<string>, e1: Dict, e2: Dict, k: string)
    requires HoldsEnum(r.before, owner, e1) && HoldsEnum(r.after, owner, e2) && (k in e1 || k in e2)
    ensures Shows(r.before, r.after, ValueKeys(owner, k))
  {
    EnumStands(r, owner, e1, e2, k);
    if k in e1 {
      AtStands(r.before, ValueKeys(owner, k), e1[k].fields["value"]);
    } else {
      AtStands(r.after, ValueKeys(owner, k), e2[k].fields["value"]);
    }
  }

  lemma ChangedEntryIs(
      r: Run, owner: seq<string>, e1: Dict, e2: Dict, k: string, j: nat, n: nat, p: nat, keys: seq<string>)
    requires HoldsEnum(r.before, owner, e1) && HoldsEnum(r.after, owner, e2) && k in e1 && k in e2
    requires GradeAt(r, j, n, p, keys) && keys == ValueKeys(owner, k) && r.items[n].segs == keys
    requires Replaces(r.items[n], e1[k].fields["value"], e2[k].fields["value"])
    requires e1[k].fields["value"] != e2[k].fields["value"]
    ensures Some(EntryOf(r, j)) == EntryFor(r.host, owner, e1, e2, k)
  {
    assert IsEnumItem(e1[k]) && IsEnumItem(e2[k]);
    assert r.blocks[n][p] == OwnEntry(r.items[n]);
  }

  lemma LoneEntryIs(
      r: Run, owner: seq<string>, e1: Dict, e2: Dict, k: string, j: nat, n: nat, p: nat, keys: seq<string>)
    requires HoldsEnum(r.before, owner, e1) && HoldsEnum(r.after, owner, e2) && (k in e1) != (k in e2)
    requires GradeAt(r, j, n, p, keys) && keys == ValueKeys(owner, k) && r.items[n].segs == ItemKeys(owner, k)
    requires r.items[n].kind == (if k in e1 then ItemRemoved else ItemAdded)
    requires r.items[n].payload == if k in e1 then e1[k] else e2[k]
    ensures Some(EntryOf(r, j)) == EntryFor(r.host, owner, e1, e2, k)
  {
    var it := r.items[n];
    assert IsEnumItem(it.payload);
    assert keys != ShownSegs(it) && p > 0;
    assert keys[|it.segs|..] == ["value"] && it.segs + ["value"] == keys;
    ValueEntry(it.segs, it.payload.fields, TypeOf(it.kind).value);
  }

  // ---------------------------------------------------------------- What silences the entry of a value

  /** An earlier rule takes the entry of the item for something else, or the enum rule for a whole enum or a value. */
  ghost predicate Taken(r: Run, owner: seq<string>, e1: Dict, e2: Dict, k: string) {
    && (k in e1) != (k in e2)
    && RuleFor(r.host, ItemEntry(owner, e1, k), r.before, r.after) != Some(MetadataFallback)
  }

  /** The grade at the item of a key of one version only is that of its entry. */
  lemma ItemGradeIs(r: Run, owner: seq<string>, e1: Dict, e2: Dict, k: string, j: nat, n: nat, p: nat)
    requires EnumRun(r, owner, e1, e2) && (k in e1) != (k in e2) && GradeAt(r, j, n, p, ItemKeys(owner, k))
    ensures EntryOf(r, j) == ItemEntry(owner, e1, k)
    ensures IsElement(r.grades[j]) <==> Taken(r, owner, e1, e2, k)
  {
    ItemEntryOfGrade(r, owner, e1, e2, k, j, n, p);
    ElementMeansTaken(r, j);
    GradeOfEntry(r, j);
  }

  lemma ItemEntryOfGrade(r: Run, owner: seq<string>, e1: Dict, e2: Dict, k: string, j: nat, n: nat, p: nat)
    requires EnumsOf(r, owner, e1, e2) && (k in e1) != (k in e2) && GradeAt(r, j, n, p, ItemKeys(owner, k))
    ensures EntryOf(r, j) == ItemEntry(owner, e1, k)
  {
    ItemOfGrade(r, j, n, p, ItemKeys(owner, k));
    ItemIsAboveItsValue(owner, k);
    assert ItemAt(r, n, ValueKeys(owner, k)) by {
      assert r.items[n].segs == ItemKeys(owner, k)[..|r.items[n].segs|];
    }
    LoneKeyItem(r, owner, e1, e2, k, n);
    EnumStands(r, owner, e1, e2, k);
    LoneItemEntryIs(r, owner, e1, e2, k, j, n, p);
  }

  lemma LoneItemEntryIs(r: Run, owner: seq<string>, e1: Dict, e2: Dict, k: string, j: nat, n: nat, p: nat)
    requires (k in e1) != (k in e2) && GradeAt(r, j, n, p, ItemKeys(owner, k)) && r.items[n].segs == ItemKeys(owner, k)
    requires r.items[n].kind == (if k in e1 then ItemRemoved else ItemAdded)
    requires r.items[n].payload == (if k in e1 then e1[k] else e2[k]) && IsEnumItem(r.items[n].payload)
    ensures EntryOf(r, j) == ItemEntry(owner, e1, k)
  {
    assert p == 0 && r.blocks[n][p] == OwnEntry(r.items[n]);
  }

  /** An entry that came or went is an element exactly if a rule other than the fallback grades it. */
  lemma ElementMeansTaken(r: Run, j: nat)
    requires IsRun(r) && j < |r.grades|
    ensures |r.grades| == |r.result.details|
    ensures IsElement(r.grades[j]) <==>
      !r.grades[j].kind.Updated? && RuleFor(r.host, EntryOf(r, j), r.before, r.after) != Some(MetadataFallback)
  {
    GradeOfEntry(r, j);
    FallbackIsNamed(r.host, EntryOf(r, j), r.before, r.after);
  }

  /** The item of a key of one version only has a grade. */
  lemma ItemHasAGrade(r: Run, owner: seq<string>, e1: Dict, e2: Dict, k: string) returns (j: nat, n: nat)
    requires EnumRun(r, owner, e1, e2) && (k in e1) != (k in e2)
    ensures GradeAt(r, j, n, 0, ItemKeys(owner, k))
  {
    n := ItemIsReported(r, owner, e1, e2, k);
    assert r.blocks[n] != [] && TypeOf(r.items[n].kind).Some?;
    var keys;
    j, keys := GradeOfPlace(r, n, 0);
  }

  lemma ItemIsReported(r: Run, owner: seq<string>, e1: Dict, e2: Dict, k: string) returns (n: nat)
    requires EnumsOf(r, owner, e1, e2) && (k in e1) != (k in e2)
    ensures n < |r.items| && r.items[n].kind in [ItemAdded, ItemRemoved] && ShownSegs(r.items[n]) == ItemKeys(owner, k)
  {
    EnumStands(r, owner, e1, e2, k);
    ItemIsAboveItsValue(owner, k);
    n := ComingOrGoingIsReported(r.items, r.before, r.after, EnumKeys(owner), k);
  }

  /** The entry of the item is taken, or that of an item whose key it continues after a dot. */
  ghost predicate TakenAround(r: Run, owner: seq<string>, e1: Dict, e2: Dict, k: string) {
    exists other :: (other == k || Continues(k, other)) && Taken(r, owner, e1, e2, other)
  }

  /** The entry of a value is silenced exactly if the entry of its item, or of one that it continues, is taken. */
  lemma SilencedMeansTaken(r: Run, owner: seq<string>, e1: Dict, e2: Dict, k: string)
    requires EnumRun(r, owner, e1, e2) && (k in e1 || k in e2)
    ensures Silenced(r.grades, ValuePath(owner, k)) <==> TakenAround(r, owner, e1, e2, k)
  {
    if Silenced(r.grades, ValuePath(owner, k)) {
      var w: nat :| w < |r.grades| && IsElement(r.grades[w]) && Inside(ValuePath(owner, k), r.grades[w].path);
      ElementAroundAValue(r, owner, e1, e2, k, w);
    }
    if other :| (other == k || Continues(k, other)) && Taken(r, owner, e1, e2, other) {
      var j, n := ItemHasAGrade(r, owner, e1, e2, other);
      ItemGradeIs(r, owner, e1, e2, other, j, n, 0);
      ItemIsAround(owner, k, other);
    }
  }

  lemma ItemIsAround(owner: seq<string>, k: string, other: string)
    requires other == k || Continues(k, other)
    ensures Inside(ValuePath(owner, k), Join(ItemKeys(owner, other)))
  {
    ValueTextIs(owner, k);
    ValueTextIs(owner, other);
    assert other + "." <= k + ".value";
  }

  /** Below the enum, nothing but an item's entry lies around the entry of a value. */
  lemma AroundAValue(
      r: Run, owner: seq<string>, e1: Dict, e2: Dict, k: string, w: nat, n: nat, p: nat, around: seq<string>)
      returns (other: string)
    requires EnumsAreRead(r, owner, e1, e2) && IsDiff(r.items, r.before, r.after) && (k in e1 || k in e2)
    requires GradeAt(r, w, n, p, around) && Inside(ValuePath(owner, k), Join(around))
    ensures (other == k || Continues(k, other)) && (other in e1 || other in e2) && around == ItemKeys(owner, other)
  {
    ItemOfGrade(r, w, n, p, around);
    EnumStands(r, owner, e1, e2, k);
    NoEntryAround(r, n, around, EnumKeys(owner));
    AroundIsBelow(r, owner, k, around);
    var t := ThroughAKey(r, owner, e1, e2, around);
    other := t[0];
    TextAround(owner, k, t);
    NoOtherSplit(r, owner, e1, e2, k, t);
    assert t == [other] && around == ItemKeys(owner, other);
  }

  lemma AroundIsBelow(r: Run, owner: seq<string>, k: string, around: seq<string>)
    requires WellNamed(r.before, r.after, EnumKeys(owner)) && Shows(r.before, r.after, around)
    requires Inside(ValuePath(owner, k), Join(around)) && !(around <= EnumKeys(owner))
    ensures EnumKeys(owner) < around
  {
    ItemIsAboveItsValue(owner, k);
    ValueTextIs(owner, k);
    PathsMeet(ValueKeys(owner, k), around, EnumKeys(owner));
  }

  lemma TextAround(owner: seq<string>, k: string, t: seq<string>)
    requires t != [] && Inside(ValuePath(owner, k), Join(EnumKeys(owner) + t))
    ensures t == [k] || Continues(k, t[0])
  {
    ValueTextIs(owner, k);
    JoinAppend(EnumKeys(owner), t);
    TailInside(Join(EnumKeys(owner)), k + ".value", Join(t));
    WrittenAround(t, k);
  }

  lemma TailInside(head: string, a: string, b: string)
    requires Inside(head + "." + a, head + "." + b)
    ensures b + "." <= a
  {
    var x, y := head + "." + a, head + "." + b + ".";
    assert a == x[|head| + 1..] && b + "." == y[|head| + 1..];
  }

  lemma WrittenAround(t: seq<string>, k: string)
    requires t != [] && Join(t) + "." <= k + ".value"
    ensures t == [k] || Continues(k, t[0])
  {
    var text := k + ".value";
    assert forall n :: |k| < n < |text| ==> text[n] != '.';
    if |t| > 1 {
      JoinCons(t);
    }
    assert t[0] <= Join(t) && t[0] + "." <= text;
    assert text[|t[0]|] == '.' && text[|Join(t)|] == '.';
    if |t[0]| == |k| {
      assert t[0] == text[..|k|] == k;
    } else {
      assert t[0] + "." == text[..|t[0]| + 1] == k[..|t[0]| + 1];
    }
  }

  /** Nothing but the entry of such an item is an element around the entry of a value. */
  lemma ElementAroundAValue(r: Run, owner: seq<string>, e1: Dict, e2: Dict, k: string, w: nat)
    requires EnumRun(r, owner, e1, e2) && (k in e1 || k in e2)
    requires w < |r.grades| && IsElement(r.grades[w]) && Inside(ValuePath(owner, k), r.grades[w].path)
    ensures TakenAround(r, owner, e1, e2, k)
  {
    var n, p, around := PlaceOfGrade(r, w);
    var other := AroundAValue(r, owner, e1, e2, k, w, n, p, around);
    NoEntryAtBoth(r, owner, e1, e2, other, w, n, p);
    ItemGradeIs(r, owner, e1, e2, other, w, n, p);
  }

  /** An item of both versions has no entry of its own. */
  lemma NoEntryAtBoth(r: Run, owner: seq<string>, e1: Dict, e2: Dict, k: string, w: nat, n: nat, p: nat)
    requires EnumsOf(r, owner, e1, e2) && (k in e1 || k in e2) && GradeAt(r, w, n, p, ItemKeys(owner, k))
    ensures (k in e1) != (k in e2)
  {
    ItemOfGrade(r, w, n, p, ItemKeys(owner, k));
    EnumStands(r, owner, e1, e2, k);
    if k in e1 && k in e2 {
      NoEntryAround(r, n, ItemKeys(owner, k), ItemKeys(owner, k));
    }
  }

  // ---------------------------------------------------------------- The report

  /** Some final grade at the value of `k` has direction `d`. */
  ghost predicate Reported(r: Run, owner: seq<string>, k: string, d: Direction) {
    exists j :: 0 <= j < |r.grades| && r.grades[j].path == ValuePath(owner, k)
      && Final(r.grades, r.grades[j]).direction == Some(d)
  }

  /** No rule takes the key of an allowed value for something else. */
  ghost predicate ReadAsAValue(r: Run, owner: seq<string>, e1: Dict, e2: Dict, k: string) {
    && !TakenAround(r, owner, e1, e2, k)
    && !Misread(e1, e2, k)
  }

  lemma ValueIsListed(r: Run, owner: seq<string>, e1: Dict, e2: Dict, k: string) returns (j: nat)
    requires EnumRun(r, owner, e1, e2) && EntryFor(r.host, owner, e1, e2, k).Some?
    ensures j < |r.grades| && r.grades[j].path == ValuePath(owner, k)
  {
    j := ValueHasAnEntry(r, owner, e1, e2, k);
    GradeOfEntry(r, j);
  }

  lemma ValueHasAnEntry(r: Run, owner: seq<string>, e1: Dict, e2: Dict, k: string) returns (j: nat)
    requires EnumsOf(r, owner, e1, e2) && IsChangelog(r.items, r.result, r.blocks, r.at)
    requires EntryFor(r.host, owner, e1, e2, k).Some?
    ensures j < |r.result.details| && r.result.details[j].path == ValuePath(owner, k)
  {
    if k in e1 && k in e2 {
      UpdatedValueIsListed(r.host, r.before, r.after, r.items, r.result, r.blocks, r.at, owner, e1, e2, k);
    } else {
      AddedOrRemovedValueIsListed(r.host, r.before, r.after, r.items, r.result, r.blocks, r.at, owner, e1, e2, k);
    }
    var entries := Entries(r.host, r.result.details);
    j :| j < |entries| && entries[j] == EntryFor(r.host, owner, e1, e2, k).value;
  }

  /** The direction that the report gives to the change of the value at `k`. */
  ghost function FinalDirection(r: Run, owner: seq<string>, e1: Dict, e2: Dict, k: string): Option<Direction>
    requires EntryFor(r.host, owner, e1, e2, k).Some?
  {
    var e := EntryFor(r.host, owner, e1, e2, k).value;
    if TakenAround(r, owner, e1, e2, k) then None
    else if LooksLikeAProperty(k, e.kind) then AddedOrRemoved(e.kind)
    else Some(TrueEntryDirection(r.host, e, e1, e2))
  }

  lemma GradeOfValue(r: Run, owner: seq<string>, e1: Dict, e2: Dict, k: string, j: nat)
    requires EnumRun(r, owner, e1, e2) && (k in e1 || k in e2)
    requires j < |r.grades| && r.grades[j].path == ValuePath(owner, k)
    ensures EntryFor(r.host, owner, e1, e2, k).Some?
    ensures var e := EntryFor(r.host, owner, e1, e2, k).value;
      r.grades[j].direction ==
        if LooksLikeAProperty(k, e.kind) then AddedOrRemoved(e.kind) else Some(TrueEntryDirection(r.host, e, e1, e2))
  {
    ValueGradeIs(r, owner, e1, e2, k, j);
    GradeOfEntry(r, j);
    VerdictOfValue(r, owner, e1, e2, k);
  }

  lemma VerdictOfValue(r: Run, owner: seq<string>, e1: Dict, e2: Dict, k: string)
    requires HoldsEnum(r.before, owner, e1) && HoldsEnum(r.after, owner, e2)
    requires ReadsAsValue(owner, k) && InNoOtherSection(owner, k) && EntryFor(r.host, owner, e1, e2, k).Some?
    ensures var e := EntryFor(r.host, owner, e1, e2, k).value;
      var verdict := FirstVerdict(DefaultRules(r.host), e, r.before, r.after);
      && verdict.Evaluates?
      && Some(verdict.direction) ==
        if LooksLikeAProperty(k, e.kind) then AddedOrRemoved(e.kind) else Some(TrueEntryDirection(r.host, e, e1, e2))
  {
    ValueVerdict(r.host, r.before, r.after, owner, e1, e2, k);
  }

  lemma FinalOfValue(r: Run, owner: seq<string>, e1: Dict, e2: Dict, k: string, j: nat)
    requires EnumRun(r, owner, e1, e2) && (k in e1 || k in e2)
    requires j < |r.grades| && r.grades[j].path == ValuePath(owner, k)
    ensures EntryFor(r.host, owner, e1, e2, k).Some?
    ensures Final(r.grades, r.grades[j]).direction == FinalDirection(r, owner, e1, e2, k)
  {
    GradeOfValue(r, owner, e1, e2, k, j);
    SilencedMeansTaken(r, owner, e1, e2, k);
  }

  /** The property rule never gives the true direction. */
  lemma TrueOnlyAsAValue(r: Run, owner: seq<string>, e1: Dict, e2: Dict, k: string)
    requires EntryFor(r.host, owner, e1, e2, k).Some?
    ensures var d := TrueEntryDirection(r.host, EntryFor(r.host, owner, e1, e2, k).value, e1, e2);
      FinalDirection(r, owner, e1, e2, k) == Some(d) <==> ReadAsAValue(r, owner, e1, e2, k)
  {
  }

  /** What the report says at the value of `k`. */
  lemma ReportedAtAValue(r: Run, owner: seq<string>, e1: Dict, e2: Dict, k: string, d: Direction)
    requires EnumRun(r, owner, e1, e2) && (k in e1 || k in e2)
    ensures Reported(r, owner, k, d) <==>
      EntryFor(r.host, owner, e1, e2, k).Some? && FinalDirection(r, owner, e1, e2, k) == Some(d)
  {
    if Reported(r, owner, k, d) {
      ReportedIsFinal(r, owner, e1, e2, k, d);
    } else if EntryFor(r.host, owner, e1, e2, k).Some? {
      ListedIsReported(r, owner, e1, e2, k);
    }
  }

  lemma ReportedIsFinal(r: Run, owner: seq<string>, e1: Dict, e2: Dict, k: string, d: Direction)
    requires EnumRun(r, owner, e1, e2) && (k in e1 || k in e2) && Reported(r, owner, k, d)
    ensures EntryFor(r.host, owner, e1, e2, k).Some? && FinalDirection(r, owner, e1, e2, k) == Some(d)
  {
    var j: nat :| j < |r.grades| && r.grades[j].path == ValuePath(owner, k)
      && Final(r.grades, r.grades[j]).direction == Some(d);
    FinalOfValue(r, owner, e1, e2, k, j);
  }

  lemma ListedIsReported(r: Run, owner: seq<string>, e1: Dict, e2: Dict, k: string)
    requires EnumRun(r, owner, e1, e2) && EntryFor(r.host, owner, e1, e2, k).Some?
    ensures FinalDirection(r, owner, e1, e2, k).Some? ==>
      Reported(r, owner, k, FinalDirection(r, owner, e1, e2, k).value)
  {
    var j := ValueIsListed(r, owner, e1, e2, k);
    FinalOfValue(r, owner, e1, e2, k, j);
  }

  /**
   * The change of an allowed value is reported, after silencing, if and only if no rule takes its key for
   * something else.
   */
  lemma EnumChangeIsReported(r: Run, owner: seq<string>, e1: Dict, e2: Dict, k: string)
    requires EnumRun(r, owner, e1, e2) && EntryFor(r.host, owner, e1, e2, k).Some?
    ensures Reported(r, owner, k, TrueEntryDirection(r.host, EntryFor(r.host, owner, e1, e2, k).value, e1, e2))
      <==> ReadAsAValue(r, owner, e1, e2, k)
  {
    var d := TrueEntryDirection(r.host, EntryFor(r.host, owner, e1, e2, k).value, e1, e2);
    ReportedAtAValue(r, owner, e1, e2, k, d);
    TrueOnlyAsAValue(r, owner, e1, e2, k);
  }

  // ---------------------------------------------------------------- The set of allowed values

  /** The report says that the set of allowed values shrank, or grew. */
  ghost predicate EnumReports(r: Run, owner: seq<string>, e1: Dict, e2: Dict, d: Direction) {
    exists k :: (k in e1 || k in e2) && SaidAt(r, owner, k, d)
  }

  ghost predicate SaidAt(r: Run, owner: seq<string>, k: string, d: Direction) {
    Reported(r, owner, k, d) || Reported(r, owner, k, Both)
  }

  /** The key came or went, and looks like a property that did. */
  predicate Misread(e1: Dict, e2: Dict, k: string) { (k in e1) != (k in e2) && LastPart(k) == "properties" }

  /** An old value is gone under a key that is read as a value, or a new key is taken for a property. */
  ghost predicate SeenLoss(r: Run, owner: seq<string>, e1: Dict, e2: Dict, k: string) {
    !TakenAround(r, owner, e1, e2, k) && if Misread(e1, e2, k) then k in e2 else Gone(r.host, e1, e2, k)
  }

  /** A new value came under a key that is read as a value, or an old key is taken for a property. */
  ghost predicate SeenGain(r: Run, owner: seq<string>, e1: Dict, e2: Dict, k: string) {
    !TakenAround(r, owner, e1, e2, k) && if Misread(e1, e2, k) then k in e1 else Gone(r.host, e2, e1, k)
  }

  lemma SaidAtAValue(r: Run, owner: seq<string>, e1: Dict, e2: Dict, k: string)
    requires EnumRun(r, owner, e1, e2) && (k in e1 || k in e2)
    ensures SaidAt(r, owner, k, Tightens) <==> SeenLoss(r, owner, e1, e2, k)
    ensures SaidAt(r, owner, k, Loosens) <==> SeenGain(r, owner, e1, e2, k)
  {
    SaidIsFinal(r, owner, e1, e2, k, Tightens);
    SaidIsFinal(r, owner, e1, e2, k, Loosens);
    DirectionOfAValue(r, owner, e1, e2, k);
  }

  /** The report gives the change of the value at `k` the direction `d`, or both. */
  ghost predicate Moves(r: Run, owner: seq<string>, e1: Dict, e2: Dict, k: string, d: Direction) {
    && EntryFor(r.host, owner, e1, e2, k).Some?
    && var final := FinalDirection(r, owner, e1, e2, k); final == Some(d) || final == Some(Both)
  }

  lemma SaidIsFinal(r: Run, owner: seq<string>, e1: Dict, e2: Dict, k: string, d: Direction)
    requires EnumRun(r, owner, e1, e2) && (k in e1 || k in e2)
    ensures SaidAt(r, owner, k, d) <==> Moves(r, owner, e1, e2, k, d)
  {
    ReportedAtAValue(r, owner, e1, e2, k, d);
    ReportedAtAValue(r, owner, e1, e2, k, Both);
  }

  lemma SaidAtAnyKey(r: Run, owner: seq<string>, e1: Dict, e2: Dict, k: string)
    requires EnumRun(r, owner, e1, e2)
    ensures (k in e1 || k in e2) && SaidAt(r, owner, k, Tightens) <==> SeenLoss(r, owner, e1, e2, k)
    ensures (k in e1 || k in e2) && SaidAt(r, owner, k, Loosens) <==> SeenGain(r, owner, e1, e2, k)
  {
    if k in e1 || k in e2 {
      SaidAtAValue(r, owner, e1, e2, k);
    }
  }

  lemma DirectionOfAValue(r: Run, owner: seq<string>, e1: Dict, e2: Dict, k: string)
    requires k in e1 || k in e2
    ensures SeenLoss(r, owner, e1, e2, k) <==> Moves(r, owner, e1, e2, k, Tightens)
    ensures SeenGain(r, owner, e1, e2, k) <==> Moves(r, owner, e1, e2, k, Loosens)
  {
    assert k in e2 ==> ValueText(r.host, e2, k) in Values(r.host, e2);
    assert k in e1 ==> ValueText(r.host, e1, k) in Values(r.host, e1);
  }

  /**
   * The report says that the set of allowed values shrank, or grew, exactly if it did so under a key that
   * is read as a value, or a key that came or went is taken for a property.
   */
  lemma EnumReportIsExact(r: Run, owner: seq<string>, e1: Dict, e2: Dict)
    requires EnumRun(r, owner, e1, e2)
    ensures EnumReports(r, owner, e1, e2, Tightens) <==> exists k :: SeenLoss(r, owner, e1, e2, k)
    ensures EnumReports(r, owner, e1, e2, Loosens) <==> exists k :: SeenGain(r, owner, e1, e2, k)
  {
    forall k
      ensures (k in e1 || k in e2) && SaidAt(r, owner, k, Tightens) <==> SeenLoss(r, owner, e1, e2, k)
      ensures (k in e1 || k in e2) && SaidAt(r, owner, k, Loosens) <==> SeenGain(r, owner, e1, e2, k)
    {
      SaidAtAnyKey(r, owner, e1, e2, k);
    }
  }

  /** Where all keys are read as values, the report is exact about the two sets. */
  lemma PlainEnumReportIsExact(r: Run, owner: seq<string>, e1: Dict, e2: Dict)
    requires EnumRun(r, owner, e1, e2) && forall k :: k in e1 || k in e2 ==> ReadAsAValue(r, owner, e1, e2, k)
    ensures EnumReports(r, owner, e1, e2, Tightens) <==> !(Values(r.host, e1) <= Values(r.host, e2))
    ensures EnumReports(r, owner, e1, e2, Loosens) <==> !(Values(r.host, e2) <= Values(r.host, e1))
  {
    EnumReportIsExact(r, owner, e1, e2);
    GoneIsMissing(r.host, e1, e2);
    GoneIsMissing(r.host, e2, e1);
    assert forall k :: Gone(r.host, e1, e2, k) <==> SeenLoss(r, owner, e1, e2, k);
    assert forall k :: Gone(r.host, e2, e1, k) <==> SeenGain(r, owner, e1, e2, k);
  }
}
