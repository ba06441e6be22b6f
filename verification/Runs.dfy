/**
 * Whole runs, from the diff of two contracts to the final grades: every entry has its place in the
 * contracts, what silences it stands above that place, and a quality rule that becomes or stops being
 * a guarantee is reported exactly if the diff sees the key that carries the change.
 */
module Runs {
  import opened Wrappers
  import opened JsonTrees
  import opened Breaking
  import opened Paths
  import opened Lookups
  import opened Thresholds
  import opened QualityRules
  import opened Guarantees
  import opened Rules
  import opened Selection
  import opened Changelog
  import opened Detector
  import opened DetectorTheorems
  import opened SummaryTheorems
  import opened Diffs
  import opened Places

  // ---------------------------------------------------------------- Runs

  /** Two versions of a contract, their diff, its changelog, and the grades before silencing. */
  datatype Run = Run(
    host: Host, before: Json, after: Json, perspective: Perspective, items: seq<DiffItem>, result: Changelog.Result,
    blocks: seq<seq<Detail>>, at: seq<seq<string>>, grades: seq<Grade>)

  ghost predicate IsRun(r: Run) {
    && IsDiff(r.items, r.before, r.after) && IsChangelog(r.items, r.result, r.blocks, r.at)
    && ClassifyAll(DefaultRules(r.host), Entries(r.host, r.result.details), r.perspective, r.before, r.after)
         == Some(r.grades)
  }

  /** The entry behind a grade. */
  function EntryOf(r: Run, k: nat): ChangelogEntry
    requires k < |r.result.details|
  {
    Entries(r.host, r.result.details)[k]
  }

  lemma GradeOfEntry(r: Run, k: nat)
    requires IsRun(r)
    ensures |r.grades| == |r.result.details|
    ensures k < |r.grades| ==>
      && Classify(DefaultRules(r.host), EntryOf(r, k), r.perspective, r.before, r.after) == Some(r.grades[k])
      && r.grades[k].path == r.result.details[k].path && r.grades[k].kind == r.result.details[k].kind
  {
    GradesKeepPaths(DefaultRules(r.host), Entries(r.host, r.result.details), r.perspective, r.before, r.after);
  }

  /** Grade `k` is that of entry `p` of item `n`, which stands at `keys`. */
  ghost predicate GradeAt(r: Run, k: nat, n: nat, p: nat, keys: seq<string>) {
    && k < |r.grades| == |r.result.details| && n < |r.items| == |r.blocks|
    && DetailsOf(r.items[n], r.blocks[n]) && Placed(r.items[n], r.blocks[n], p, keys)
    && r.result.details[k] == r.blocks[n][p] && r.grades[k].path == Join(keys)
    && PartsFor(r.items[n], r.before, r.after) && Shows(r.before, r.after, keys)
  }

  /** Item `n` reports something at or above `keys`. */
  ghost predicate ItemAt(r: Run, n: nat, keys: seq<string>) {
    n < |r.items| && r.items[n].kind != OtherKind && r.items[n].segs <= keys
  }

  lemma ItemOfGrade(r: Run, k: nat, n: nat, p: nat, keys: seq<string>)
    requires GradeAt(r, k, n, p, keys)
    ensures ItemAt(r, n, keys)
  {
  }

  lemma PlaceOfGrade(r: Run, k: nat) returns (n: nat, p: nat, keys: seq<string>)
    requires IsRun(r) && k < |r.grades|
    ensures GradeAt(r, k, n, p, keys)
  {
    GradeOfEntry(r, k);
    var d := r.result.details[k];
    DetailsAreOfItems(r.items, r.result, r.blocks, r.at, d);
    n :| n < |r.items| && d in r.blocks[n];
    p :| p < |r.blocks[n]| && r.blocks[n][p] == d;
    keys := EntryHasAPlace(r.items[n], r.blocks[n], p);
    PlacesAreShown(r.before, r.after, r.items[n], r.blocks[n], p, keys);
  }

  lemma GradeOfPlace(r: Run, n: nat, p: nat) returns (k: nat, keys: seq<string>)
    requires IsRun(r) && n < |r.items| && TypeOf(r.items[n].kind).Some? && p < |r.blocks[n]|
    ensures GradeAt(r, k, n, p, keys)
  {
    var d := r.blocks[n][p];
    DetailsAreOfItems(r.items, r.result, r.blocks, r.at, d);
    k :| k < |r.result.details| && r.result.details[k] == d;
    GradeOfEntry(r, k);
    keys := EntryHasAPlace(r.items[n], r.blocks[n], p);
    PlacesAreShown(r.before, r.after, r.items[n], r.blocks[n], p, keys);
  }

  /** Nothing has an entry at or above what both versions hold as a dict. */
  lemma NoEntryAround(r: Run, n: nat, keys: seq<string>, segs: seq<string>)
    requires IsDiff(r.items, r.before, r.after) && ItemAt(r, n, keys) && BothDicts(r.before, r.after, segs)
    ensures !(keys <= segs)
  {
    ItemsAreBelowDicts(r.items, r.before, r.after, n, segs);
  }

  // ---------------------------------------------------------------- What silences an entry

  /**
   * Whatever is silenced stands below an added or removed element, key by key, that is itself not silenced,
   * if no name beside the place of the entry or above continues another after a dot.
   */
  lemma SilencedStandsBelowAnElement(
      r: Run, k: nat, keys: seq<string>) returns (w: nat, n: nat, p: nat, around: seq<string>)
    requires IsRun(r) && WellNamed(r.before, r.after, keys)
    requires k < |r.grades| && r.grades[k].path == Join(keys) && Shows(r.before, r.after, keys)
    requires Silenced(r.grades, r.grades[k].path)
    ensures WitnessFor(r.grades, r.grades[k].path, w) && GradeAt(r, w, n, p, around) && around < keys
  {
    w := SilencingLeavesAWitness(r.grades, r.grades[k].path);
    n, p, around := PlaceOfGrade(r, w);
    InsideMeansBelow(r.before, r.after, keys, around);
  }

  /** An added or removed schema is graded as an element, whatever its name. */
  lemma SchemaEntryIsAnElement(r: Run, k: nat, a: string)
    requires IsRun(r) && NoDot(a) && k < |r.grades| && r.grades[k].path == "schema." + a && !r.grades[k].kind.Updated?
    ensures IsElement(r.grades[k])
  {
    GradeOfEntry(r, k);
    SchemaRuleApplies(r.host, EntryOf(r, k), r.before, r.after, a);
    FallbackTakesTheRest(r.host, EntryOf(r, k), r.before, r.after);
    FallbackIsNamed(r.host, EntryOf(r, k), r.before, r.after);
  }

  lemma SchemaRuleApplies(host: Host, e: ChangelogEntry, before: Json, after: Json, a: string)
    requires NoDot(a) && e.path == "schema." + a && !e.kind.Updated?
    ensures !Evaluate(host, SchemaAddedOrRemoved, e, before, after).Skips?
  {
    SplitAppend("schema", a);
    SplitNoDot("schema");
    SplitNoDot(a);
    assert e.path == "schema" + "." + a;
  }

  /** What is at a key of two dicts in one version only has an entry of its own. */
  lemma ComingOrGoingIsListed(r: Run, segs: seq<string>, a: string) returns (k: nat)
    requires IsRun(r) && BothDicts(r.before, r.after, segs)
    requires At(r.before, segs + [a]).Some? != At(r.after, segs + [a]).Some?
    ensures k < |r.grades| && r.grades[k].path == Join(segs + [a]) && !r.grades[k].kind.Updated?
  {
    var n := ComingOrGoingIsReported(r.items, r.before, r.after, segs, a);
    k := OwnGrade(r, n);
  }

  /** The grade of an item's own entry. */
  lemma OwnGrade(r: Run, n: nat) returns (k: nat)
    requires IsRun(r) && n < |r.items| && TypeOf(r.items[n].kind).Some?
    ensures k < |r.grades| && r.grades[k].path == Join(ShownSegs(r.items[n]))
    ensures Some(r.grades[k].kind) == TypeOf(r.items[n].kind)
  {
    var keys;
    k, keys := GradeOfPlace(r, n, 0);
    GradeOfEntry(r, k);
    OwnEntryIs(r.items[n], r.blocks[n]);
  }

  lemma OwnEntryIs(it: DiffItem, entries: seq<Detail>)
    requires DetailsOf(it, entries)
    ensures entries[0].path == Join(ShownSegs(it)) && Some(entries[0].kind) == TypeOf(it.kind)
  {
    ShownPath(it);
  }

  /**
   * Without that: when a schema comes or goes, everything in a schema whose name continues it after a dot
   * is silenced, though it stands beside it.
   */
  lemma DottedSiblingIsSilenced(r: Run, a: string, k: nat)
    requires IsRun(r) && BothDicts(r.before, r.after, ["schema"]) && NoDot(a)
    requires At(r.before, ["schema", a]).Some? != At(r.after, ["schema", a]).Some?
    requires k < |r.grades| && Inside(r.grades[k].path, "schema." + a)
    ensures Final(r.grades, r.grades[k]).direction == None && Final(r.grades, r.grades[k]).level == Info
  {
    assert ["schema"] + [a] == ["schema", a];
    var w := ComingOrGoingIsListed(r, ["schema"], a);
    JoinTwo("schema", a);
    SchemaEntryIsAnElement(r, w, a);
  }

  // ---------------------------------------------------------------- Paths of quality entries

  const QUALITY := ".quality."

  /** `path` does not mention another quality section behind the one of `owner`. */
  ghost predicate LastQuality(path: string, owner: string) {
    forall k: nat :: |owner| < k <= |path| ==> !IsAt(path, QUALITY, k)
  }

  lemma CutAtQuality(owner: string, rest: string)
    requires LastQuality(owner + QUALITY + rest, owner)
    ensures CutLast(owner + QUALITY + rest, QUALITY) == Some((owner, rest))
  {
    var path := owner + QUALITY + rest;
    assert IsAt(path, QUALITY, |owner|);
    CutLastAt(path, QUALITY, |owner|);
    assert path[..|owner|] == owner && path[|owner| + |QUALITY|..] == rest;
  }

  /** A path into the rule `name` of `owner` is read that way. */
  lemma QualityPathReads(owner: string, name: string, field: string, path: string)
    requires NoDot(name) && path == owner + QUALITY + (name + "." + field) && LastQuality(path, owner) && InSchema(path)
    ensures ParseQualityPath(path) == Some(QualityPath(owner, name, field))
  {
    CutAtQuality(owner, name + "." + field);
    BeforeDot(name, field);
  }

  // ---------------------------------------------------------------- The rule behind a path

  /** The quality rule at `owner`, `name` is `rule`, and no other split of its path leads elsewhere. */
  ghost predicate HoldsRule(tree: Json, owner: seq<string>, name: string, rule: Dict) {
    && NoNulls(tree) && tree.Obj?
    && At(tree, RuleKeys(owner, name)) == Some(Obj(rule))
    && (forall v :: Reaches(tree, Join(owner) + QUALITY + name, v) ==> v == Obj(rule))
  }

  /** Where a rule stands. */
  function RuleKeys(owner: seq<string>, name: string): seq<string> { owner + ["quality", name] }

  lemma RulePath(owner: seq<string>, name: string)
    requires owner != []
    ensures Join(RuleKeys(owner, name)) == Join(owner) + QUALITY + name
  {
    JoinAppend(owner, ["quality", name]);
    JoinTwo("quality", name);
  }

  lemma RuleIsRead(tree: Json, owner: seq<string>, name: string, field: string, rule: Dict)
    requires owner != [] && name != "" && NoDot(name) && HoldsRule(tree, owner, name, rule)
    ensures QualityRuleAt(tree, QualityPath(Join(owner), name, field)) == rule
  {
    RulePath(owner, name);
    var path := Join(owner) + QUALITY + name;
    assert path == Join(owner) + ".quality." + name;
    assert path[|path| - 1] == name[|name| - 1] && name[|name| - 1] in name;
    assert !EndsWith(path, ".");
    assert Reaches(tree, path, Obj(rule));
    LookupIsExact(tree, path, Obj(rule));
  }

  // ---------------------------------------------------------------- A guarantee that appears or disappears

  predicate AtProperty(owner: seq<string>) { Contains(Join(owner), ".properties.") }

  /** The two versions of the rule `name` of `owner`. */
  ghost predicate HoldsVersions(r: Run, owner: seq<string>, name: string, old': Dict, new': Dict) {
    && owner != [] && owner[0] == "schema" && name != "" && NoDot(name)
    && HoldsRule(r.before, owner, name, old') && HoldsRule(r.after, owner, name, new')
    && NoNullValues(old') && NoNullValues(new')
  }

  /** The rule `name` of `owner` becomes or stops being a guarantee, and the change is carried by `key`. */
  ghost predicate Flips(r: Run, owner: seq<string>, name: string, old': Dict, new': Dict, key: string) {
    && HoldsVersions(r, owner, name, old', new') && StatusFlips(r.host, old', new', AtProperty(owner))
    && Carrier(old', new', DECISIVE + THRESHOLDS) == Some(key)
  }

  /** The direction in which the status of the rule moved. */
  function FlipDirection(host: Host, after: Dict, atProperty: bool): Direction {
    if IsGuarantee(host, after, atProperty) then Tightens else Loosens
  }

  /** An entry into a rule whose status flipped is graded with the flip under the carrier, and untested elsewhere. */
  lemma RuleEntryIsGraded(
      r: Run, e: ChangelogEntry, owner: seq<string>, name: string, old': Dict, new': Dict, key: string, field: string)
    requires Flips(r, owner, name, old', new', key) && field != ""
    requires e.path == Join(owner) + QUALITY + (name + "." + field) && LastQuality(e.path, Join(owner))
    requires InSchema(e.path)
    ensures FirstVerdict(DefaultRules(r.host), e, r.before, r.after) ==
      Evaluates("quality-constraint-changed",
                if BeforeFirst(field, ".") == key then FlipDirection(r.host, new', AtProperty(owner)) else Untested)
  {
    QualityPathReads(Join(owner), name, field, e.path);
    RuleIsRead(r.before, owner, name, field, old');
    RuleIsRead(r.after, owner, name, field, new');
    FlipIsCarriedOnce(r.host, old', new', e.kind, field, AtProperty(owner));
    var rules := DefaultRules(r.host);
    assert rules[0](e, r.before, r.after) == Evaluate(r.host, DEFAULT_RULES[0], e, r.before, r.after);
    assert DEFAULT_RULES[0] == QualityConstraint;
  }

  lemma DecisiveKeysArePlain(key: string)
    requires key in DECISIVE + THRESHOLDS
    ensures NoDot(key) && key != ""
  {
    var n :| 0 <= n < |DECISIVE + THRESHOLDS| && (DECISIVE + THRESHOLDS)[n] == key;
    if n < |DECISIVE| {
      assert key == DECISIVE[n];
    } else {
      assert key == THRESHOLDS[n - |DECISIVE|];
    }
  }

  /** What the diff compares at `key` of a rule. */
  function Value(d: Dict, key: string): Option<Json> { if key in d then Some(d[key]) else None }

  lemma ValueBelow(tree: Json, segs: seq<string>, d: Dict, key: string)
    requires At(tree, segs) == Some(Obj(d))
    ensures At(tree, segs + [key]) == Value(d, key)
  {
    AtAppend(tree, segs, [key]);
    assert [key][1..] == [];
  }

  /** Where an entry into a rule stands, and how its path is written. */
  lemma RuleEntryPath(owner: seq<string>, name: string, keys: seq<string>)
    requires owner != [] && owner[0] == "schema" && RuleKeys(owner, name) < keys
    ensures Join(keys) == Join(owner) + QUALITY + (name + "." + Join(keys[|owner| + 2..]))
    ensures InSchema(Join(keys)) && Inside(Join(keys), Join(RuleKeys(owner, name)))
  {
    var head, tail := RuleKeys(owner, name), keys[|owner| + 2..];
    assert keys == head + tail;
    JoinAppend(head, tail);
    RulePath(owner, name);
    Regroup(Join(owner) + QUALITY, name, Join(tail));
    assert keys == owner + (["quality", name] + tail);
    InSchemaPath(owner, ["quality", name] + tail);
  }

  lemma Regroup(a: string, b: string, c: string)
    ensures (a + b) + "." + c == a + (b + "." + c)
  {
  }

  lemma InSchemaPath(owner: seq<string>, more: seq<string>)
    requires owner != [] && owner[0] == "schema" && more != []
    ensures InSchema(Join(owner + more))
  {
    var tail := (owner + more)[1..];
    assert owner + more == ["schema"] + tail;
    JoinAppend(["schema"], tail);
  }

  /** The first part of a field is a plain key exactly if the field starts with that key, which it does not continue. */
  lemma HeadOfField(keys: seq<string>, key: string)
    requires keys != [] && NoDot(key) && !(key + "." <= keys[0])
    ensures BeforeFirst(Join(keys), ".") == key <==> keys[0] == key
  {
    var f := Join(keys);
    if NoDot(keys[0]) {
      if |keys| == 1 {
        BeforeNoDot(f);
      } else {
        JoinCons(keys);
        BeforeDot(keys[0], Join(keys[1..]));
      }
    } else {
      FirstDotWithin(keys);
    }
  }

  lemma FirstDotWithin(keys: seq<string>)
    requires keys != [] && !NoDot(keys[0])
    ensures BeforeFirst(Join(keys), ".") + "." <= keys[0]
  {
    var f := Join(keys);
    if |keys| > 1 {
      JoinCons(keys);
    }
    assert keys[0] <= f;
    var d: nat :| d < |keys[0]| && keys[0][d] == '.';
    assert f[d..d + 1] == ".";
    assert IsAt(f, ".", d);
    var n := FirstIndex(f, ".", 0).value;
    assert n <= d;
    assert f[n..n + 1] == ".";
    assert keys[0][..n + 1] == f[..n + 1] == f[..n] + ".";
  }

  /** The rule's own place, and the carrier's, are shown. */
  lemma RuleIsShown(r: Run, owner: seq<string>, name: string, old': Dict, new': Dict, key: string)
    requires Flips(r, owner, name, old', new', key)
    ensures Shows(r.before, r.after, RuleKeys(owner, name)) && Shows(r.before, r.after, RuleKeys(owner, name) + [key])
    ensures BothDicts(r.before, r.after, RuleKeys(owner, name)) && NoDot(key) && key != ""
  {
    var rule := RuleKeys(owner, name);
    CarrierChanged(old', new', DECISIVE + THRESHOLDS);
    DecisiveKeysArePlain(key);
    AtStands(r.before, rule, Obj(old'));
    ValueBelow(r.before, rule, old', key);
    ValueBelow(r.after, rule, new', key);
    if key in old' {
      AtStands(r.before, rule + [key], old'[key]);
    } else {
      AtStands(r.after, rule + [key], new'[key]);
    }
  }

  /** How the paths of entries into the rule are read: nothing behind the rule looks like another section. */
  ghost predicate RuleIsLast(r: Run, owner: seq<string>, name: string) {
    forall k :: 0 <= k < |r.grades| && Inside(r.grades[k].path, Join(RuleKeys(owner, name))) ==>
      LastQuality(r.grades[k].path, Join(owner))
  }

  /**
   * Nothing is mistaken for the carrier: no name beside it, or beside a place above it, continues another
   * after a dot, and no key of the rule is empty.
   */
  ghost predicate IsUnmistaken(r: Run, owner: seq<string>, name: string, old': Dict, new': Dict, key: string) {
    WellNamed(r.before, r.after, RuleKeys(owner, name) + [key]) && "" !in old' && "" !in new'
  }

  /** The grade of an entry that stands in the rule. */
  lemma GradeInRule(
      r: Run, k: nat, n: nat, p: nat, keys: seq<string>,
      owner: seq<string>, name: string, old': Dict, new': Dict, key: string)
    requires IsRun(r) && Flips(r, owner, name, old', new', key) && IsUnmistaken(r, owner, name, old', new', key)
    requires RuleIsLast(r, owner, name)
    requires GradeAt(r, k, n, p, keys) && RuleKeys(owner, name) < keys
    ensures r.grades[k].direction
         == Some(if keys[|owner| + 2] == key then FlipDirection(r.host, new', AtProperty(owner)) else Untested)
    ensures r.grades[k].level == LevelOf(r.grades[k].direction.value, r.perspective)
  {
    var tail := keys[|owner| + 2..];
    RuleEntryPath(owner, name, keys);
    RuleIsShown(r, owner, name, old', new', key);
    NotContinued(r, keys, RuleKeys(owner, name), key);
    ShownThroughAKey(r.before, r.after, RuleKeys(owner, name), old', new', keys);
    HeadOfField(tail, key);
    GradeOfEntry(r, k);
    RuleEntryIsGraded(r, EntryOf(r, k), owner, name, old', new', key, Join(tail));
  }

  lemma FieldIsNotEmpty(keys: seq<string>)
    requires keys != [] && keys[0] != ""
    ensures Join(keys) != ""
  {
  }

  lemma NotContinued(r: Run, keys: seq<string>, rule: seq<string>, key: string)
    requires WellNamed(r.before, r.after, rule + [key]) && Shows(r.before, r.after, keys) && rule < keys
    ensures !(key + "." <= keys[|rule|])
  {
    assert (rule + [key])[..|rule|] == rule == keys[..|rule|];
    assert key + "." <= keys[|rule|] <==> DottedAt(rule + [key], keys, |rule|);
    assert !Dotted(rule + [key], keys);
  }

  /** The entry reports the flip. */
  predicate ReportsFlip(g: Grade, d: Direction, perspective: Perspective) {
    g.direction == Some(d) && g.level == LevelOf(d, perspective)
  }

  /** Some final grade in the rule reports the flip. */
  ghost predicate FlipIsReported(r: Run, owner: seq<string>, name: string, d: Direction) {
    exists k :: 0 <= k < |r.grades| && AtOrInside(r.grades[k].path, Join(RuleKeys(owner, name)))
      && ReportsFlip(Final(r.grades, r.grades[k]), d, r.perspective)
  }

  /**
   * No guarantee changes silently, exactly as far as the diff sees it: when a quality rule becomes or stops
   * being a guarantee, some entry in the rule reports that after silencing if and only if the diff sees a
   * difference at the key that carries the change, and nothing is mistaken for that key.
   */
  lemma GuaranteeFlipIsReported(
      r: Run, owner: seq<string>, name: string, old': Dict, new': Dict, key: string)
    requires IsRun(r) && Flips(r, owner, name, old', new', key) && IsUnmistaken(r, owner, name, old', new', key)
    requires RuleIsLast(r, owner, name)
    ensures FlipIsReported(r, owner, name, FlipDirection(r.host, new', AtProperty(owner)))
      <==> Differs(Value(old', key), Value(new', key))
  {
    var d := FlipDirection(r.host, new', AtProperty(owner));
    if Differs(Value(old', key), Value(new', key)) {
      var k := SeenFlipIsReported(r, owner, name, old', new', key);
    } else {
      forall k | 0 <= k < |r.grades| && AtOrInside(r.grades[k].path, Join(RuleKeys(owner, name)))
        ensures !ReportsFlip(Final(r.grades, r.grades[k]), d, r.perspective)
      {
        UnseenFlipIsUntested(r, owner, name, old', new', key, k);
      }
    }
  }

  /** A flip that the diff sees is reported at the carrier or at an element around the entry, within the carrier. */
  lemma SeenFlipIsReported(
      r: Run, owner: seq<string>, name: string, old': Dict, new': Dict, key: string) returns (k: nat)
    requires IsRun(r) && Flips(r, owner, name, old', new', key) && IsUnmistaken(r, owner, name, old', new', key)
    requires RuleIsLast(r, owner, name)
    requires Differs(Value(old', key), Value(new', key))
    ensures k < |r.grades| && AtOrInside(r.grades[k].path, Join(RuleKeys(owner, name)))
    ensures ReportsFlip(Final(r.grades, r.grades[k]), FlipDirection(r.host, new', AtProperty(owner)), r.perspective)
  {
    var n, keys;
    n := RuleKeyIsReported(r, owner, name, old', new', key);
    k, keys := GradeOfPlace(r, n, 0);
    assert RuleKeys(owner, name) + [key] <= keys;
    GradeInRule(r, k, n, 0, keys, owner, name, old', new', key);
    RuleEntryPath(owner, name, keys);
    if Silenced(r.grades, r.grades[k].path) {
      k := SilencerReportsTheFlip(r, owner, name, old', new', key, k, keys);
    }
  }

  /** What silences an entry within the carrier stands there too. */
  lemma SilencerReportsTheFlip(
      r: Run, owner: seq<string>, name: string, old': Dict, new': Dict, key: string, k: nat, keys: seq<string>)
      returns (w: nat)
    requires IsRun(r) && Flips(r, owner, name, old', new', key) && IsUnmistaken(r, owner, name, old', new', key)
    requires RuleIsLast(r, owner, name)
    requires k < |r.grades| && r.grades[k].path == Join(keys) && Shows(r.before, r.after, keys)
    requires RuleKeys(owner, name) + [key] <= keys && Silenced(r.grades, r.grades[k].path)
    ensures w < |r.grades| && AtOrInside(r.grades[w].path, Join(RuleKeys(owner, name)))
    ensures !Silenced(r.grades, r.grades[w].path)
    ensures ReportsFlip(r.grades[w], FlipDirection(r.host, new', AtProperty(owner)), r.perspective)
  {
    var rule := RuleKeys(owner, name);
    w := SilencingLeavesAWitness(r.grades, r.grades[k].path);
    var n, p, around := PlaceOfGrade(r, w);
    RuleIsShown(r, owner, name, old', new', key);
    ItemOfGrade(r, w, n, p, around);
    NoEntryAround(r, n, around, rule);
    PathsMeet(keys, around, rule + [key]);
    BelowTheRule(around, rule, key);
    GradeInRule(r, w, n, p, around, owner, name, old', new', key);
    RuleEntryPath(owner, name, around);
  }

  lemma BelowTheRule(around: seq<string>, rule: seq<string>, key: string)
    requires around <= rule + [key] || rule + [key] <= around
    requires !(around <= rule)
    ensures rule < around && around[|rule|] == key
  {
    if around <= rule + [key] {
      PrefixesAreNested(rule + [key], around, rule);
    }
  }

  /** A key of a rule that differs for the diff is reported by an item at or below it. */
  lemma RuleKeyIsReported(
      r: Run, owner: seq<string>, name: string, old': Dict, new': Dict, key: string) returns (n: nat)
    requires IsRun(r) && HoldsRule(r.before, owner, name, old') && HoldsRule(r.after, owner, name, new')
    requires Differs(Value(old', key), Value(new', key))
    ensures n < |r.items| && TypeOf(r.items[n].kind).Some? && r.blocks[n] != []
    ensures RuleKeys(owner, name) + [key] <= r.items[n].segs
  {
    var rule := RuleKeys(owner, name);
    assert (rule + [key])[..|rule|] == rule;
    ValueBelow(r.before, rule, old', key);
    ValueBelow(r.after, rule, new', key);
    var place;
    n, place := DifferenceIsReported(r.items, r.before, r.after, rule + [key]);
  }

  /** Where the diff sees no difference at the carrier, every entry in the rule is untested or silenced. */
  lemma UnseenFlipIsUntested(r: Run, owner: seq<string>, name: string, old': Dict, new': Dict, key: string, k: nat)
    requires IsRun(r) && Flips(r, owner, name, old', new', key) && IsUnmistaken(r, owner, name, old', new', key)
    requires RuleIsLast(r, owner, name)
    requires !Differs(Value(old', key), Value(new', key))
    requires k < |r.grades| && AtOrInside(r.grades[k].path, Join(RuleKeys(owner, name)))
    ensures r.grades[k].direction == Some(Untested)
  {
    var rule := RuleKeys(owner, name);
    var n, p, keys := PlaceOfGrade(r, k);
    RuleIsShown(r, owner, name, old', new', key);
    WellNamedAbove(r.before, r.after, rule + [key], rule);
    InsideMeansBelow(r.before, r.after, keys, rule);
    ItemOfGrade(r, k, n, p, keys);
    NoEntryAround(r, n, keys, rule);
    assert rule < keys;
    ValueBelow(r.before, rule, old', key);
    ValueBelow(r.after, rule, new', key);
    NoEntryInTheCarrier(r, n, keys, rule, key);
    GradeInRule(r, k, n, p, keys, owner, name, old', new', key);
  }

  lemma NoEntryInTheCarrier(r: Run, n: nat, keys: seq<string>, rule: seq<string>, key: string)
    requires IsDiff(r.items, r.before, r.after) && ItemAt(r, n, keys) && BothDicts(r.before, r.after, rule)
    requires rule < keys
    requires !Differs(At(r.before, rule + [key]), At(r.after, rule + [key]))
    ensures keys[|rule|] != key
  {
    NoDifferenceNoItem(r.items, r.before, r.after, n, rule, key);
    ItemsAreBelowDicts(r.items, r.before, r.after, n, rule);
    LeadsElsewhere(keys, r.items[n].segs, rule, key);
  }

  lemma LeadsElsewhere(keys: seq<string>, segs: seq<string>, rule: seq<string>, key: string)
    requires rule < keys && segs <= keys && !(segs <= rule) && !(rule + [key] <= segs)
    ensures keys[|rule|] != key
  {
    PrefixesAreNested(keys, segs, rule);
    assert segs[..|rule| + 1] == rule + [segs[|rule|]] && keys[|rule|] == segs[|rule|];
  }
}
