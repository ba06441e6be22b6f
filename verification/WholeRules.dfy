/**
 * Quality rules that come or go as a whole: what the entry of the rule itself reports.
 */
module WholeRules {
  import opened Wrappers
  import opened JsonTrees
  import opened Breaking
  import opened Paths
  import opened Lookups
  import opened QualityRules
  import opened Guarantees
  import opened Rules
  import opened Selection
  import opened Changelog
  import opened Detector
  import opened DetectorTheorems
  import opened SummaryTheorems
  import opened Diffs
  import opened Places
  import opened Runs
  import opened LimitRuns
  import EnumRuns

  /** A rule without any fields is no guarantee. */
  lemma NoRuleIsNoGuarantee(host: Host, atProperty: bool)
    ensures GuaranteeStatus(host, map[], atProperty) == Some(false)
  {
  }

  /** What it means to the data that a rule comes or goes. */
  function WholeDirection(host: Host, rule: Dict, atProperty: bool, came: bool): Direction {
    if !IsGuarantee(host, rule, atProperty) then Untested else if came then Tightens else Loosens
  }

  lemma WholeRuleIsGraded(host: Host, rule: Dict, atProperty: bool)
    requires GuaranteeStatus(host, rule, atProperty).Some?
    ensures QualityDirection(host, map[], rule, Added, "", atProperty)
         == Graded(WholeDirection(host, rule, atProperty, true))
    ensures QualityDirection(host, rule, map[], Removed, "", atProperty)
         == Graded(WholeDirection(host, rule, atProperty, false))
  {
    NoRuleIsNoGuarantee(host, atProperty);
  }

  /** Nothing stands at the path of the rule, however it is split. */
  ghost predicate HoldsNoRule(tree: Json, owner: seq<string>, name: string) {
    NoNulls(tree) && tree.Obj? && forall v :: !Reaches(tree, Join(owner) + QUALITY + name, v)
  }

  /** The rule is in one version only: in the second if it `came`, in the first if it went. */
  ghost predicate ComesOrGoes(r: Run, owner: seq<string>, name: string, rule: Dict, came: bool) {
    && owner != [] && owner[0] == "schema" && name != "" && NoDot(name)
    && HoldsRule(if came then r.after else r.before, owner, name, rule)
    && HoldsNoRule(if came then r.before else r.after, owner, name)
    && BothDicts(r.before, r.after, owner + ["quality"])
  }

  lemma NoRuleIsRead(tree: Json, owner: seq<string>, name: string)
    requires owner != [] && name != "" && NoDot(name) && HoldsNoRule(tree, owner, name)
    ensures QualityRuleAt(tree, QualityPath(Join(owner), name, "")) == map[]
    ensures At(tree, RuleKeys(owner, name)).None?
  {
    RulePath(owner, name);
    var path := Join(owner) + QUALITY + name;
    assert path[|path| - 1] == name[|name| - 1] && name[|name| - 1] in name;
    assert !EndsWith(path, ".");
    LookupIsExact(tree, path, Null);
    if At(tree, RuleKeys(owner, name)).Some? {
      assert Reaches(tree, path, At(tree, RuleKeys(owner, name)).value);
    }
  }

  lemma WholePathReads(owner: string, name: string, path: string)
    requires NoDot(name) && path == owner + QUALITY + name && LastQuality(path, owner) && InSchema(path)
    ensures ParseQualityPath(path) == Some(QualityPath(owner, name, ""))
  {
    CutAtQuality(owner, name);
    BeforeNoDot(name);
  }

  lemma RulePathIsInSchema(owner: seq<string>, name: string)
    requires owner != [] && owner[0] == "schema"
    ensures Join(RuleKeys(owner, name)) == Join(owner) + QUALITY + name && InSchema(Join(RuleKeys(owner, name)))
    ensures RuleKeys(owner, name) == owner + ["quality"] + [name]
  {
    RulePath(owner, name);
    InSchemaPath(owner, ["quality", name]);
    assert RuleKeys(owner, name) == owner + ["quality"] + [name];
  }

  /** The answer for the entry of the rule. */
  lemma WholeRuleAnswer(
      r: Run, e: ChangelogEntry, owner: seq<string>, name: string, rule: Dict, came: bool)
    requires ComesOrGoes(r, owner, name, rule, came) && e.path == Join(RuleKeys(owner, name))
    requires LastQuality(e.path, Join(owner)) && e.kind == if came then Added else Removed
    ensures var verdict := FirstVerdict(DefaultRules(r.host), e, r.before, r.after);
      verdict.Evaluates? ==> verdict.direction == WholeDirection(r.host, rule, AtProperty(owner), came)
  {
    RulePathIsInSchema(owner, name);
    WholePathReads(Join(owner), name, e.path);
    RuleIsRead(if came then r.after else r.before, owner, name, "", rule);
    NoRuleIsRead(if came then r.before else r.after, owner, name);
    QualityRuleAnswers(r.host, e, r.before, r.after);
    if GuaranteeStatus(r.host, rule, AtProperty(owner)).Some? {
      WholeRuleIsGraded(r.host, rule, AtProperty(owner));
    }
  }

  lemma KindOfLoneItem(r: Run, n: nat, segs: seq<string>, key: string)
    requires IsDiff(r.items, r.before, r.after) && ItemAt(r, n, segs + [key]) && BothDicts(r.before, r.after, segs)
    requires At(r.before, segs + [key]).Some? != At(r.after, segs + [key]).Some?
    ensures r.items[n].kind == if At(r.before, segs + [key]).Some? then ItemRemoved else ItemAdded
  {
    var place := EnumRuns.PartOfItem(r, n, segs + [key], segs);
    PlaceIsTheKey(segs, key, place, r.items[n].segs);
    LoneReport(r.items[n], r.before, r.after, place);
  }

  /** The grades at the path of the rule are those of the rule that came or went. */
  lemma KindAtTheRule(r: Run, owner: seq<string>, name: string, rule: Dict, came: bool, j: nat)
    requires IsRun(r) && ComesOrGoes(r, owner, name, rule, came)
    requires WellNamed(r.before, r.after, RuleKeys(owner, name))
    requires j < |r.grades| && r.grades[j].path == Join(RuleKeys(owner, name))
    ensures r.grades[j].kind == if came then Added else Removed
  {
    var segs := owner + ["quality"];
    RulePathIsInSchema(owner, name);
    NoRuleIsRead(if came then r.before else r.after, owner, name);
    var n, p, keys := GradeAtTheKey(r, j, segs, name);
    SamePathSamePlace(keys, segs + [name]);
    ItemOfGrade(r, j, n, p, keys);
    KindOfLoneItem(r, n, segs, name);
    KindOfGrade(r, j, n, p, keys);
  }

  lemma SamePathSamePlace(keys: seq<string>, all: seq<string>)
    requires all <= keys && Join(keys) == Join(all) && all != []
    ensures keys == all
  {
    if keys != all {
      var more := keys[|all|..];
      assert keys == all + more;
      JoinAppend(all, more);
    }
  }

  /** An entry of an added or removed item is added or removed. */
  lemma KindOfGrade(r: Run, j: nat, n: nat, p: nat, keys: seq<string>)
    requires IsRun(r) && GradeAt(r, j, n, p, keys) && r.items[n].kind in [ItemAdded, ItemRemoved]
    ensures Some(r.grades[j].kind) == TypeOf(r.items[n].kind)
  {
    GradeOfEntry(r, j);
    DetailKind(r.items[n], r.blocks[n], p, keys);
  }

  lemma DetailKind(it: DiffItem, entries: seq<Detail>, p: nat, keys: seq<string>)
    requires DetailsOf(it, entries) && Placed(it, entries, p, keys)
    ensures Some(entries[p].kind) == TypeOf(it.kind)
  {
    if p == 0 {
      OwnEntryIs(it, entries);
    }
  }

  /** Every final grade at the rule's own path says what the rule means. */
  lemma WholeGradeIsTrue(r: Run, owner: seq<string>, name: string, rule: Dict, came: bool, j: nat)
    requires IsRun(r) && ComesOrGoes(r, owner, name, rule, came)
    requires WellNamed(r.before, r.after, RuleKeys(owner, name))
    requires LastQuality(Join(RuleKeys(owner, name)), Join(owner))
    requires j < |r.grades| && r.grades[j].path == Join(RuleKeys(owner, name))
    ensures ReportsFlip(
      Final(r.grades, r.grades[j]), WholeDirection(r.host, rule, AtProperty(owner), came), r.perspective)
  {
    KindAtTheRule(r, owner, name, rule, came, j);
    RulePathIsInSchema(owner, name);
    KeyIsNotSilenced(r, owner + ["quality"], name);
    GradeOfEntry(r, j);
    WholeRuleAnswer(r, EntryOf(r, j), owner, name, rule, came);
  }

  /**
   * A rule that comes or goes as a whole has a final grade at its own path: if it is a guarantee, the contract
   * tightens when it comes and loosens when it goes, and if not, nothing that is tested changes.
   */
  lemma WholeRuleIsReported(r: Run, owner: seq<string>, name: string, rule: Dict, came: bool, d: Direction)
    requires IsRun(r) && ComesOrGoes(r, owner, name, rule, came)
    requires WellNamed(r.before, r.after, RuleKeys(owner, name))
    requires LastQuality(Join(RuleKeys(owner, name)), Join(owner))
    ensures ReportedAt(r, RuleKeys(owner, name), d) <==>
      d == if !IsGuarantee(r.host, rule, AtProperty(owner)) then Untested else if came then Tightens else Loosens
  {
    var j := WholeRuleHasAGrade(r, owner, name, rule, came);
    WholeGradeIsTrue(r, owner, name, rule, came, j);
    if ReportedAt(r, RuleKeys(owner, name), d) {
      var k: nat :| k < |r.grades| && r.grades[k].path == Join(RuleKeys(owner, name))
        && ReportsFlip(Final(r.grades, r.grades[k]), d, r.perspective);
      WholeGradeIsTrue(r, owner, name, rule, came, k);
    }
  }

  lemma WholeRuleHasAGrade(r: Run, owner: seq<string>, name: string, rule: Dict, came: bool) returns (j: nat)
    requires IsRun(r) && ComesOrGoes(r, owner, name, rule, came)
    ensures j < |r.grades| && r.grades[j].path == Join(RuleKeys(owner, name))
  {
    RulePathIsInSchema(owner, name);
    NoRuleIsRead(if came then r.before else r.after, owner, name);
    j := ComingOrGoingIsListed(r, owner + ["quality"], name);
  }
}
