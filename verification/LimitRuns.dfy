/**
 * What a report says of changed thresholds and bounds: the change of a threshold is reported after silencing
 * exactly if the diff sees it at the key that carries it, and the entries of a bound group say together
 * what the rule of limits says of each of its bounds.
 */
module LimitRuns {
  import opened Wrappers
  import opened JsonTrees
  import opened Breaking
  import opened NumberProbes
  import opened Thresholds
  import opened Paths
  import opened Lookups
  import opened QualityRules
  import opened Guarantees
  import opened BoundRules
  import opened Rules
  import opened Selection
  import opened Changelog
  import opened Detector
  import opened DetectorTheorems
  import opened SummaryTheorems
  import opened Diffs
  import opened Places
  import opened Runs
  import opened BoundEntries
  import opened TakenKeys
  import BoundGroups
  import EnumRuns
  import Enums

  // ---------------------------------------------------------------- The entries at a key of two dicts

  /** Nothing silences the entry of a key of two dicts. */
  lemma KeyIsNotSilenced(r: Run, segs: seq<string>, key: string)
    requires IsRun(r) && BothDicts(r.before, r.after, segs) && WellNamed(r.before, r.after, segs + [key])
    ensures !Silenced(r.grades, Join(segs + [key]))
  {
    if w: nat :| w < |r.grades| && IsElement(r.grades[w]) && Inside(Join(segs + [key]), r.grades[w].path) {
      var n, p, around := PlaceOfGrade(r, w);
      ItemOfGrade(r, w, n, p, around);
      NoEntryAround(r, n, around, segs);
      InsideMeansBelow(r.before, r.after, segs + [key], around);
      AboveTheKey(segs, key, around);
    }
  }

  lemma AboveTheKey(segs: seq<string>, key: string, around: seq<string>)
    requires around < segs + [key]
    ensures around <= segs
  {
    PrefixesAreNested(segs + [key], around, segs);
  }

  /** What is written like the path of a key stands at the key or below it. */
  lemma GradeAtTheKey(r: Run, j: nat, segs: seq<string>, key: string)
      returns (n: nat, p: nat, keys: seq<string>)
    requires IsRun(r) && WellNamed(r.before, r.after, segs + [key])
    requires j < |r.grades| && r.grades[j].path == Join(segs + [key])
    ensures GradeAt(r, j, n, p, keys) && segs + [key] <= keys
  {
    n, p, keys := PlaceOfGrade(r, j);
    InsideMeansBelow(r.before, r.after, keys, segs + [key]);
  }

  // ---------------------------------------------------------------- Thresholds

  /** A scalar, or a list of numbers, as limits are. */
  predicate IsLimit(v: Json) {
    IsScalar(v) || (v.Arr? && forall n :: 0 <= n < |v.items| ==> v.items[n].Num?)
  }

  predicate LimitAt(d: Dict, key: string) { key in d ==> IsLimit(d[key]) }

  lemma NothingInALimit(v: Json, keys: seq<string>, w: Json)
    requires IsLimit(v) && Stands(v, keys, w)
    ensures keys == [] && (IsScalar(w) || w == v)
  {
  }

  lemma LimitsShowNothing(d: Dict, key: string, keys: seq<string>)
    requires LimitAt(d, key) && keys != [] && keys[0] == key && ShowsIn(Obj(d), keys)
    ensures keys == [key]
  {
    if v :| Stands(Obj(d), keys, v) {
      NothingInALimit(d[key], keys[1..], v);
    } else {
      var front, last := keys[..|keys| - 1], Text(keys[|keys| - 1]);
      var items :| Stands(Obj(d), front, Arr(items)) && last in items;
      NoTextAmongLimits(d, key, front, items, last);
    }
  }

  lemma NoTextAmongLimits(d: Dict, key: string, front: seq<string>, items: seq<Json>, last: Json)
    requires LimitAt(d, key) && (front != [] ==> front[0] == key) && Stands(Obj(d), front, Arr(items)) && last.Text?
    ensures last !in items
  {
    NothingInALimit(d[key], front[1..], Arr(items));
  }

  /** Nothing stands below a limit. */
  lemma NothingBelowLimits(
      before: Json, after: Json, segs: seq<string>, f: Dict, g: Dict, key: string, keys: seq<string>)
    requires At(before, segs) == Some(Obj(f)) && At(after, segs) == Some(Obj(g))
    requires LimitAt(f, key) && LimitAt(g, key) && Shows(before, after, keys) && segs + [key] <= keys
    ensures keys == segs + [key]
  {
    var more := keys[|segs|..];
    assert keys == segs + more && more[0] == key;
    if ShowsIn(before, keys) {
      ShownBelow(before, segs, more);
      LimitsShowNothing(f, key, more);
    } else {
      ShownBelow(after, segs, more);
      LimitsShowNothing(g, key, more);
    }
  }

  /** Two guarantees with numeric thresholds in one unit, whose change is carried by `key`. */
  ghost predicate MovesThreshold(r: Run, owner: seq<string>, name: string, old': Dict, new': Dict, key: string) {
    && HoldsVersions(r, owner, name, old', new')
    && IsGuarantee(r.host, old', AtProperty(owner)) && IsGuarantee(r.host, new', AtProperty(owner))
    && NumericThreshold(r.host, old') && NumericThreshold(r.host, new')
    && IsPercent(r.host, old') == IsPercent(r.host, new')
    && Carrier(old', new', THRESHOLDS) == Some(key) && LimitAt(old', key) && LimitAt(new', key)
  }

  /** The true change of the numbers that a threshold accepts. */
  ghost function TrueThresholdDirection(host: Host, before: Dict, after: Dict): Direction
    requires NumericThreshold(host, before) && NumericThreshold(host, after)
  {
    TrueDirection(
      ThresholdOf(host, before).value.Accepts(), ThresholdOf(host, after).value.Accepts(), CountsRows(host, after))
  }

  /** Where a key of a rule stands. */
  function RuleKey(owner: seq<string>, name: string, key: string): seq<string> { RuleKeys(owner, name) + [key] }

  /** The entry of the carrier is graded with the true change. */
  lemma ThresholdEntryIsGraded(
      r: Run, e: ChangelogEntry, owner: seq<string>, name: string, old': Dict, new': Dict, key: string)
    requires MovesThreshold(r, owner, name, old', new', key)
    requires e.path == Join(RuleKey(owner, name, key)) && LastQuality(e.path, Join(owner))
    ensures FirstVerdict(DefaultRules(r.host), e, r.before, r.after)
      == Evaluates("quality-constraint-changed", TrueThresholdDirection(r.host, old', new'))
  {
    var keys := RuleKey(owner, name, key);
    RuleEntryPath(owner, name, keys);
    assert keys[|owner| + 2..] == [key];
    CarrierChanged(old', new', THRESHOLDS);
    QualityPathReads(Join(owner), name, key, e.path);
    RuleIsRead(r.before, owner, name, key, old');
    RuleIsRead(r.after, owner, name, key, new');
    ThresholdGroupReportsOnce(r.host, old', new', e.kind, key, AtProperty(owner));
    QualityRuleAnswers(r.host, e, r.before, r.after);
  }

  /** The quality rule comes first. */
  lemma QualityRuleAnswers(host: Host, e: ChangelogEntry, before: Json, after: Json)
    requires QualityEntryDirection(host, e, before, after).Some?
    ensures FirstVerdict(DefaultRules(host), e, before, after)
         == AnswerGrading(QualityConstraint, QualityEntryDirection(host, e, before, after))
  {
    var rules := DefaultRules(host);
    assert rules[0](e, before, after) == Evaluate(host, DEFAULT_RULES[0], e, before, after);
    assert DEFAULT_RULES[0] == QualityConstraint;
  }

  /** Some final grade at `keys` has direction `d`. */
  ghost predicate ReportedAt(r: Run, keys: seq<string>, d: Direction) {
    exists j :: 0 <= j < |r.grades| && r.grades[j].path == Join(keys)
      && ReportsFlip(Final(r.grades, r.grades[j]), d, r.perspective)
  }

  lemma CarrierStands(r: Run, owner: seq<string>, name: string, old': Dict, new': Dict, key: string)
    requires MovesThreshold(r, owner, name, old', new', key)
    ensures BothDicts(r.before, r.after, RuleKeys(owner, name))
    ensures At(r.before, RuleKey(owner, name, key)) == Value(old', key)
    ensures At(r.after, RuleKey(owner, name, key)) == Value(new', key)
  {
    ValueBelow(r.before, RuleKeys(owner, name), old', key);
    ValueBelow(r.after, RuleKeys(owner, name), new', key);
  }

  /** Every final grade at the carrier reports the true change. */
  lemma CarrierGradeIsTrue(r: Run, owner: seq<string>, name: string, old': Dict, new': Dict, key: string, j: nat)
    requires IsRun(r) && MovesThreshold(r, owner, name, old', new', key)
    requires WellNamed(r.before, r.after, RuleKey(owner, name, key))
    requires LastQuality(Join(RuleKey(owner, name, key)), Join(owner))
    requires j < |r.grades| && r.grades[j].path == Join(RuleKey(owner, name, key))
    ensures ReportsFlip(Final(r.grades, r.grades[j]), TrueThresholdDirection(r.host, old', new'), r.perspective)
  {
    CarrierStands(r, owner, name, old', new', key);
    KeyIsNotSilenced(r, RuleKeys(owner, name), key);
    GradeOfEntry(r, j);
    ThresholdEntryIsGraded(r, EntryOf(r, j), owner, name, old', new', key);
  }

  /**
   * The change of a threshold between two guarantees is reported at the key that carries it if and only if the
   * diff sees a difference there.
   */
  lemma ThresholdChangeIsReported(r: Run, owner: seq<string>, name: string, old': Dict, new': Dict, key: string)
    requires IsRun(r) && MovesThreshold(r, owner, name, old', new', key)
    requires WellNamed(r.before, r.after, RuleKey(owner, name, key))
    requires LastQuality(Join(RuleKey(owner, name, key)), Join(owner))
    ensures ReportedAt(r, RuleKey(owner, name, key), TrueThresholdDirection(r.host, old', new'))
      <==> Differs(Value(old', key), Value(new', key))
  {
    if Differs(Value(old', key), Value(new', key)) {
      var j := SeenChangeHasAGrade(r, owner, name, old', new', key);
      CarrierGradeIsTrue(r, owner, name, old', new', key, j);
    } else {
      forall j: nat | j < |r.grades|
        ensures r.grades[j].path != Join(RuleKey(owner, name, key))
      {
        UnseenChangeHasNoGrade(r, owner, name, old', new', key, j);
      }
    }
  }

  lemma SeenChangeHasAGrade(r: Run, owner: seq<string>, name: string, old': Dict, new': Dict, key: string)
      returns (j: nat)
    requires IsRun(r) && MovesThreshold(r, owner, name, old', new', key)
    requires Differs(Value(old', key), Value(new', key))
    ensures j < |r.grades| && r.grades[j].path == Join(RuleKey(owner, name, key))
  {
    var n := RuleKeyIsReported(r, owner, name, old', new', key);
    var keys;
    j, keys := GradeOfPlace(r, n, 0);
    NothingBelowLimits(r.before, r.after, RuleKeys(owner, name), old', new', key, keys);
  }

  lemma UnseenChangeHasNoGrade(
      r: Run, owner: seq<string>, name: string, old': Dict, new': Dict, key: string, j: nat)
    requires IsRun(r) && MovesThreshold(r, owner, name, old', new', key)
    requires WellNamed(r.before, r.after, RuleKey(owner, name, key))
    requires !Differs(Value(old', key), Value(new', key)) && j < |r.grades|
    ensures r.grades[j].path != Join(RuleKey(owner, name, key))
  {
    if r.grades[j].path == Join(RuleKey(owner, name, key)) {
      var n, p, keys := GradeAtTheKey(r, j, RuleKeys(owner, name), key);
      CarrierStands(r, owner, name, old', new', key);
      NoGradeAtTheKey(r, j, n, p, keys, RuleKeys(owner, name), key);
    }
  }

  lemma NoGradeAtTheKey(
      r: Run, j: nat, n: nat, p: nat, keys: seq<string>, segs: seq<string>, key: string)
    requires IsDiff(r.items, r.before, r.after) && BothDicts(r.before, r.after, segs)
    requires GradeAt(r, j, n, p, keys) && !Differs(At(r.before, segs + [key]), At(r.after, segs + [key]))
    ensures !(segs + [key] <= keys)
  {
    if segs + [key] <= keys {
      ItemOfGrade(r, j, n, p, keys);
      NoEntryInTheCarrier(r, n, keys, segs, key);
    }
  }

  // ---------------------------------------------------------------- Scalars at a key of two dicts

  predicate ScalarAt(d: Dict, key: string) { key in d ==> IsScalar(d[key]) }

  /** Two dicts at `segs`, with scalars or nothing under `key`. */
  ghost predicate HoldsScalars(r: Run, segs: seq<string>, f: Dict, g: Dict, key: string) {
    && At(r.before, segs) == Some(Obj(f)) && At(r.after, segs) == Some(Obj(g))
    && ScalarAt(f, key) && ScalarAt(g, key)
  }

  /** The entry of the change of a scalar. */
  function ScalarEntry(host: Host, segs: seq<string>, f: Dict, g: Dict, key: string): ChangelogEntry
    requires KindOf(f, g, key).Some?
  {
    ChangelogEntry(Join(segs + [key]), KindOf(f, g, key).value, ValueText(host, f, key), ValueText(host, g, key))
  }

  lemma ScalarsBelow(r: Run, segs: seq<string>, f: Dict, g: Dict, key: string)
    requires HoldsScalars(r, segs, f, g, key)
    ensures BothDicts(r.before, r.after, segs)
    ensures At(r.before, segs + [key]) == Value(f, key) && At(r.after, segs + [key]) == Value(g, key)
  {
    ValueBelow(r.before, segs, f, key);
    ValueBelow(r.after, segs, g, key);
  }

  /** What the item of the diff is that reports a scalar. */
  lemma ScalarItem(r: Run, segs: seq<string>, f: Dict, g: Dict, key: string, n: nat)
    requires IsDiff(r.items, r.before, r.after) && HoldsScalars(r, segs, f, g, key) && ItemAt(r, n, segs + [key])
    ensures r.items[n].segs == segs + [key] && Value(f, key) != Value(g, key)
    ensures key in f && key in g ==> Replaces(r.items[n], f[key], g[key])
    ensures !(key in f && key in g) ==>
      && r.items[n].kind == (if key in f then ItemRemoved else ItemAdded)
      && Some(r.items[n].payload) == if key in f then Value(f, key) else Value(g, key)
  {
    ScalarsBelow(r, segs, f, g, key);
    var place := EnumRuns.PartOfItem(r, n, segs + [key], segs);
    PlaceIsTheKey(segs, key, place, r.items[n].segs);
    if key in f && key in g {
      ScalarsAreReplaced(r.items[n], r.before, r.after, place);
    } else {
      LoneReport(r.items[n], r.before, r.after, place);
    }
  }

  lemma PlaceIsTheKey(segs: seq<string>, key: string, place: seq<string>, at: seq<string>)
    requires place <= at <= segs + [key] && !(place <= segs)
    ensures place == at == segs + [key]
  {
    PrefixesAreNested(segs + [key], place, segs);
    assert place == at[..|place|] && at == (segs + [key])[..|at|];
  }

  /** The grade at a scalar is that of its entry. */
  lemma ScalarGradeIs(
      r: Run, segs: seq<string>, f: Dict, g: Dict, key: string, j: nat, n: nat, p: nat, keys: seq<string>)
    requires IsDiff(r.items, r.before, r.after) && HoldsScalars(r, segs, f, g, key)
    requires GradeAt(r, j, n, p, keys) && keys == segs + [key]
    ensures KindOf(f, g, key).Some? && EntryOf(r, j) == ScalarEntry(r.host, segs, f, g, key)
  {
    ItemOfGrade(r, j, n, p, keys);
    ScalarItem(r, segs, f, g, key, n);
    if key in f && key in g {
      ChangedScalarEntry(r, segs, f, g, key, j, n, p);
    } else {
      LoneScalarEntry(r, segs, f, g, key, j, n, p);
    }
  }

  lemma ChangedScalarEntry(r: Run, segs: seq<string>, f: Dict, g: Dict, key: string, j: nat, n: nat, p: nat)
    requires ScalarAt(f, key) && ScalarAt(g, key) && key in f && key in g && f[key] != g[key]
    requires GradeAt(r, j, n, p, segs + [key]) && r.items[n].segs == segs + [key]
    requires Replaces(r.items[n], f[key], g[key])
    ensures KindOf(f, g, key).Some? && EntryOf(r, j) == ScalarEntry(r.host, segs, f, g, key)
  {
    assert p == 0 && r.blocks[n][p] == OwnEntry(r.items[n]);
  }

  lemma LoneScalarEntry(r: Run, segs: seq<string>, f: Dict, g: Dict, key: string, j: nat, n: nat, p: nat)
    requires ScalarAt(f, key) && ScalarAt(g, key) && (key in f) != (key in g)
    requires GradeAt(r, j, n, p, segs + [key]) && r.items[n].segs == segs + [key]
    requires r.items[n].kind == (if key in f then ItemRemoved else ItemAdded)
    requires Some(r.items[n].payload) == if key in f then Value(f, key) else Value(g, key)
    ensures KindOf(f, g, key).Some? && EntryOf(r, j) == ScalarEntry(r.host, segs, f, g, key)
  {
    assert IsScalar(r.items[n].payload);
    assert p == 0 && r.blocks[n][p] == OwnEntry(r.items[n]);
  }

  /** A scalar that changed is reported. */
  lemma ScalarIsReported(r: Run, segs: seq<string>, f: Dict, g: Dict, key: string) returns (n: nat)
    requires IsDiff(r.items, r.before, r.after) && HoldsScalars(r, segs, f, g, key) && KindOf(f, g, key).Some?
    ensures n < |r.items| && r.items[n].segs == segs + [key] && TypeOf(r.items[n].kind).Some?
  {
    ScalarsBelow(r, segs, f, g, key);
    if key in f && key in g {
      n := ScalarChangeIsReported(r.items, r.before, r.after, segs, key);
    } else {
      n := ComingOrGoingIsReported(r.items, r.before, r.after, segs, key);
    }
  }

  /** A scalar that changed has a grade. */
  lemma ScalarHasAGrade(r: Run, segs: seq<string>, f: Dict, g: Dict, key: string)
      returns (j: nat, n: nat, keys: seq<string>)
    requires IsRun(r) && HoldsScalars(r, segs, f, g, key) && KindOf(f, g, key).Some?
    ensures GradeAt(r, j, n, 0, keys) && segs + [key] <= keys
  {
    n := ScalarIsReported(r, segs, f, g, key);
    assert r.blocks[n] != [];
    j, keys := GradeOfPlace(r, n, 0);
  }

  // ---------------------------------------------------------------- Bounds

  /** Where the options of a property stand. */
  function OptionsKeys(owner: seq<string>): seq<string> { owner + ["logicalTypeOptions"] }

  function BoundKeys(owner: seq<string>, key: string): seq<string> { OptionsKeys(owner) + [key] }

  /** The options of the property at `owner` are `d`, and no other split of their path leads elsewhere. */
  ghost predicate HoldsOptions(tree: Json, owner: seq<string>, d: Dict) {
    && NoNulls(tree) && tree.Obj? && At(tree, OptionsKeys(owner)) == Some(Obj(d))
    && forall v :: Reaches(tree, Join(OptionsKeys(owner)), v) ==> v == Obj(d)
  }

  /** The path of a bound mentions no section that an earlier rule looks for. */
  predicate ReadsAsBound(owner: seq<string>, key: string) {
    !Contains(Join(BoundKeys(owner, key)), ".quality.") && !Contains(Join(BoundKeys(owner, key)), ".relationships.")
  }

  /** A run over two versions of the options of a property, whose bounds in `group` are scalars. */
  ghost predicate BoundRun(r: Run, owner: seq<string>, old': Dict, new': Dict, group: seq<string>) {
    && IsRun(r) && owner != [] && owner[0] == "schema" && AtProperty(owner) && IsGroup(group)
    && HoldsOptions(r.before, owner, old') && HoldsOptions(r.after, owner, new')
    && forall k :: k in group ==>
      && ScalarAt(old', k) && ScalarAt(new', k) && ReadsAsBound(owner, k)
      && WellNamed(r.before, r.after, BoundKeys(owner, k))
  }

  /** The type of the property, as the rule looks it up. */
  function TypeOfProperty(tree: Json, owner: seq<string>): Json {
    Get(Fields(Lookup(tree, Join(owner))), "logicalType")
  }

  lemma OptionsAreRead(tree: Json, owner: seq<string>, d: Dict)
    requires owner != [] && HoldsOptions(tree, owner, d)
    ensures Lookup(tree, Join(OptionsKeys(owner))) == Obj(d)
  {
    var path := Join(OptionsKeys(owner));
    JoinAppend(owner, ["logicalTypeOptions"]);
    assert path[|path| - 1] == 's' && !EndsWith(path, ".");
    assert Reaches(tree, path, Obj(d));
    LookupIsExact(tree, path, Obj(d));
  }

  lemma PropertyOfOptions(owner: seq<string>)
    requires owner != []
    ensures RemoveSuffix(Join(OptionsKeys(owner)), ".logicalTypeOptions") == Join(owner)
  {
    JoinAppend(owner, ["logicalTypeOptions"]);
    assert "." + "logicalTypeOptions" == ".logicalTypeOptions";
    assert Join(OptionsKeys(owner)) == Join(owner) + ".logicalTypeOptions";
  }

  lemma GroupKeysAreBounds(group: seq<string>, key: string)
    requires IsGroup(group) && key in group
    ensures key in BOUND_KEYS && Group(key) == group
  {
  }

  lemma BoundPathSegments(owner: seq<string>, key: string)
    requires owner != [] && owner[0] == "schema" && AtProperty(owner) && NoDot(key)
    ensures Join(BoundKeys(owner, key)) == Join(OptionsKeys(owner)) + "." + key
    ensures var s := Split(Join(BoundKeys(owner, key)));
      |s| >= 4 && s[0] == "schema" && s[|s| - 2] == "logicalTypeOptions"
  {
    Enums.OwnerSegments(owner);
    PropertySegments(Join(owner));
    JoinAppend(OptionsKeys(owner), [key]);
    assert BoundKeys(owner, key) == owner + ["logicalTypeOptions", key];
    JoinAppend(owner, ["logicalTypeOptions", key]);
    JoinTwo("logicalTypeOptions", key);
    SplitTwoMore(Join(owner), "logicalTypeOptions", key);
  }

  lemma BoundEntryIs(e: ChangelogEntry, owner: seq<string>, key: string)
    requires owner != [] && owner[0] == "schema" && AtProperty(owner) && ReadsAsBound(owner, key)
    requires key in BOUND_KEYS && e.path == Join(BoundKeys(owner, key))
    ensures IsBoundEntry(e, Join(OptionsKeys(owner)), key)
  {
    BoundKeysArePlain(key);
    BoundPathSegments(owner, key);
    assert BoundKeys(owner, key) == owner + ["logicalTypeOptions", key];
    InSchemaPath(owner, ["logicalTypeOptions", key]);
  }

  /** Unless it raises, the rule of limits says of a bound what BoundRules.Reported says. */
  lemma BoundVerdict(r: Run, owner: seq<string>, old': Dict, new': Dict, group: seq<string>, key: string)
    requires BoundRun(r, owner, old', new', group) && key in group && KindOf(old', new', key).Some?
    ensures var e := ScalarEntry(r.host, OptionsKeys(owner), old', new', key);
      var verdict := FirstVerdict(DefaultRules(r.host), e, r.before, r.after);
      verdict.Evaluates? ==>
        Graded(verdict.direction) == Reported(r.host, old', new', TypeOfProperty(r.after, owner), key)
  {
    var e := ScalarEntry(r.host, OptionsKeys(owner), old', new', key);
    GroupKeysAreBounds(group, key);
    BoundEntryIs(e, owner, key);
    OptionsAreRead(r.before, owner, old');
    OptionsAreRead(r.after, owner, new');
    PropertyOfOptions(owner);
    BoundRuleAnswers(r.host, e, r.before, r.after, Join(OptionsKeys(owner)), key);
  }

  /** Every final grade at a bound says what the rule of limits says of it. */
  lemma GradeOfBound(
      r: Run, owner: seq<string>, old': Dict, new': Dict, group: seq<string>, key: string, j: nat)
    requires BoundRun(r, owner, old', new', group) && key in group
    requires j < |r.grades| && r.grades[j].path == Join(BoundKeys(owner, key))
    ensures KindOf(old', new', key).Some?
    ensures var final := Final(r.grades, r.grades[j]);
      && final.direction.Some? && final.level == LevelOf(final.direction.value, r.perspective)
      && Graded(final.direction.value) == Reported(r.host, old', new', TypeOfProperty(r.after, owner), key)
  {
    var segs := OptionsKeys(owner);
    var n, p, keys := GradeAtTheKey(r, j, segs, key);
    assert HoldsScalars(r, segs, old', new', key);
    NothingBelowLimits(r.before, r.after, segs, old', new', key, keys);
    ScalarGradeIs(r, segs, old', new', key, j, n, p, keys);
    ScalarsBelow(r, segs, old', new', key);
    KeyIsNotSilenced(r, segs, key);
    BoundGrade(r, owner, old', new', group, key, j);
  }

  lemma BoundGrade(r: Run, owner: seq<string>, old': Dict, new': Dict, group: seq<string>, key: string, j: nat)
    requires BoundRun(r, owner, old', new', group) && key in group && KindOf(old', new', key).Some?
    requires j < |r.grades| && |r.grades| == |r.result.details|
    requires EntryOf(r, j) == ScalarEntry(r.host, OptionsKeys(owner), old', new', key)
    ensures var g := r.grades[j];
      && g.direction.Some? && g.level == LevelOf(g.direction.value, r.perspective)
      && Graded(g.direction.value) == Reported(r.host, old', new', TypeOfProperty(r.after, owner), key)
  {
    GradeOfEntry(r, j);
    BoundVerdict(r, owner, old', new', group, key);
  }

  /**
   * A changed bound has a final grade, which is not silenced, with the direction that the rule of limits gives
   * it; a bound that did not change has none.
   */
  lemma BoundChangeIsReported(
      r: Run, owner: seq<string>, old': Dict, new': Dict, group: seq<string>, key: string, d: Direction)
    requires BoundRun(r, owner, old', new', group) && key in group
    ensures ReportedAt(r, BoundKeys(owner, key), d) <==>
      && KindOf(old', new', key).Some?
      && Reported(r.host, old', new', TypeOfProperty(r.after, owner), key) == Graded(d)
  {
    if ReportedAt(r, BoundKeys(owner, key), d) {
      var j: nat :| j < |r.grades| && r.grades[j].path == Join(BoundKeys(owner, key))
        && ReportsFlip(Final(r.grades, r.grades[j]), d, r.perspective);
      GradeOfBound(r, owner, old', new', group, key, j);
    } else if KindOf(old', new', key).Some? {
      var j := BoundHasAGrade(r, owner, old', new', group, key);
      GradeOfBound(r, owner, old', new', group, key, j);
    }
  }

  lemma BoundHasAGrade(r: Run, owner: seq<string>, old': Dict, new': Dict, group: seq<string>, key: string)
      returns (j: nat)
    requires BoundRun(r, owner, old', new', group) && key in group && KindOf(old', new', key).Some?
    ensures j < |r.grades| && r.grades[j].path == Join(BoundKeys(owner, key))
  {
    var segs := OptionsKeys(owner);
    assert HoldsScalars(r, segs, old', new', key);
    var n, keys;
    j, n, keys := ScalarHasAGrade(r, segs, old', new', key);
    NothingBelowLimits(r.before, r.after, segs, old', new', key, keys);
  }

  // ---------------------------------------------------------------- Groups of bounds

  /** Some final grade at a bound of the group says that the contract moves in direction `d`. */
  ghost predicate GroupReports(r: Run, owner: seq<string>, group: seq<string>, d: Direction) {
    exists k :: k in group && MovesAt(r, BoundKeys(owner, k), d)
  }

  ghost predicate MovesAt(r: Run, keys: seq<string>, d: Direction) {
    ReportedAt(r, keys, d) || ReportedAt(r, keys, Both)
  }

  lemma GroupSays(r: Run, owner: seq<string>, old': Dict, new': Dict, group: seq<string>, d: Direction)
    requires BoundRun(r, owner, old', new', group)
    ensures GroupReports(r, owner, group, d)
      <==> BoundGroups.SomeEntry(r.host, old', new', TypeOfProperty(r.after, owner), group, d)
  {
    var propertyType := TypeOfProperty(r.after, owner);
    forall k | k in group
      ensures MovesAt(r, BoundKeys(owner, k), d) <==> BoundGroups.Says(r.host, old', new', propertyType, k, d)
    {
      BoundChangeIsReported(r, owner, old', new', group, k, d);
      BoundChangeIsReported(r, owner, old', new', group, k, Both);
    }
  }

  /** The report covers the change of what the group accepts: each loss and each gain shows at some bound. */
  ghost predicate GroupIsCovered(r: Run, owner: seq<string>, old': Dict, new': Dict, group: seq<string>) {
    var t := TrueGroupDirection(r.host, old', new', TypeOfProperty(r.after, owner), group);
    && (t in [Tightens, Both] ==> GroupReports(r, owner, group, Tightens))
    && (t in [Loosens, Both] ==> GroupReports(r, owner, group, Loosens))
  }

  /**
   * Over a whole run: if no bound of the group is merely updated, the final grade at the carrier is the true
   * change of what the group accepts, and those at the other bounds are untested.
   */
  lemma ReplacedGroupIsReported(
      r: Run, owner: seq<string>, old': Dict, new': Dict, group: seq<string>, key: string, d: Direction)
    requires BoundRun(r, owner, old', new', group) && key in group && KindOf(old', new', key).Some?
    requires Readable(r.host, old', group) && Readable(r.host, new', group)
    requires forall k :: k in group ==> KindOf(old', new', k) != Some(Updated)
    requires d == if Some(key) == Carrier(old', new', group)
      then TrueGroupDirection(r.host, old', new', TypeOfProperty(r.after, owner), group) else Untested
    ensures ReportedAt(r, BoundKeys(owner, key), d)
  {
    GroupKeysAreBounds(group, key);
    BoundGroups.ReplacedGroupReportsOnce(r.host, old', new', TypeOfProperty(r.after, owner), key);
    BoundChangeIsReported(r, owner, old', new', group, key, d);
  }

  /** Over a whole run: with an updated bound, the report covers the change exactly if nothing hides behind it. */
  lemma UpdatedGroupIsReported(
      r: Run, owner: seq<string>, old': Dict, new': Dict, group: seq<string>, key: string)
    requires BoundRun(r, owner, old', new', group) && key in group && KindOf(old', new', key) == Some(Updated)
    requires Readable(r.host, old', group) && Readable(r.host, new', group)
    ensures GroupIsCovered(r, owner, old', new', group)
      <==> !BoundGroups.Hides(r.host, old', new', TypeOfProperty(r.after, owner), key)
  {
    GroupKeysAreBounds(group, key);
    GroupSays(r, owner, old', new', group, Tightens);
    GroupSays(r, owner, old', new', group, Loosens);
    BoundGroups.UpdatedGroupIsCovered(r.host, old', new', TypeOfProperty(r.after, owner), key);
  }
}
