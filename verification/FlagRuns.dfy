/**
 * What a report says of columns that become required or unique, or stop being it.
 */
module FlagRuns {
  import opened Wrappers
  import opened JsonTrees
  import opened Breaking
  import opened Paths
  import opened QualityRules
  import opened BoundRules
  import opened Rules
  import opened Selection
  import opened Changelog
  import opened Detector
  import opened SummaryTheorems
  import opened Diffs
  import opened Places
  import opened Runs
  import opened LimitRuns
  import opened Datasets
  import opened Requirements
  import Enums
  import TakenKeys
  import Levels

  // ---------------------------------------------------------------- The rule that grades a flag

  /** The path of a flag, in a schema and in no section that an earlier rule looks for. */
  predicate IsFlagPath(path: string, head: string, key: string) {
    && path == head + "." + key && InSchema(path) && |Split(path)| >= 3 && Split(path)[0] == "schema"
    && !Contains(path, ".quality.") && !Contains(path, ".relationships.")
  }

  lemma EarlyRulesSkip(host: Host, e: ChangelogEntry, before: Json, after: Json, head: string, key: string)
    requires IsFlagPath(e.path, head, key) && NoDot(key) && key != "physicalName"
    ensures Evaluate(host, QualityConstraint, e, before, after).Skips?
    ensures Evaluate(host, RelationshipChanged, e, before, after).Skips?
    ensures Evaluate(host, FreshnessChanged, e, before, after).Skips?
    ensures Evaluate(host, PhysicalNameChanged, e, before, after).Skips?
  {
    assert QualityEntryDirection(host, e, before, after).None?;
    assert RelationshipDirection(e, before, after).None?;
    assert FreshnessDirection(host, e, before, after).None?;
    assert "." + "physicalName" == ".physicalName";
    TakenKeys.EndsInKey(head, key, "physicalName");
  }

  lemma RequiredRuleAnswers(host: Host, e: ChangelogEntry, before: Json, after: Json, head: string)
    requires IsFlagPath(e.path, head, "required")
    ensures FirstVerdict(DefaultRules(host), e, before, after)
         == Evaluates(RuleId(RequiredChanged), FlagDirection(e))
  {
    EarlyRulesSkip(host, e, before, after, head, "required");
    assert "." + "required" == ".required";
    TakenKeys.EndsInKey(head, "required", "required");
    forall n | 0 <= n < 4
      ensures Evaluate(host, DEFAULT_RULES[n], e, before, after).Skips?
    {
      FirstFour(n);
    }
    FirstThatApplies(host, DEFAULT_RULES, 4, e, before, after);
    VerdictOfRule(host, e, before, after);
  }

  lemma FirstFour(n: nat)
    requires n < 4
    ensures DEFAULT_RULES[n] in [QualityConstraint, RelationshipChanged, FreshnessChanged, PhysicalNameChanged]
  {
  }

  /** The rules between. */
  lemma FieldRulesSkip(host: Host, e: ChangelogEntry, before: Json, after: Json, head: string)
    requires IsFlagPath(e.path, head, "unique")
    requires Split(e.path)[|Split(e.path)| - 2] != "properties" || e.kind.Updated?
    ensures Evaluate(host, RequiredChanged, e, before, after).Skips?
    ensures Evaluate(host, SchemaAddedOrRemoved, e, before, after).Skips?
    ensures Evaluate(host, PropertyAddedOrRemoved, e, before, after).Skips?
    ensures Evaluate(host, TypeChanged, e, before, after).Skips?
  {
    assert "." + "required" == ".required" && "." + "logicalType" == ".logicalType";
    assert "." + "physicalType" == ".physicalType";
    TakenKeys.EndsInKey(head, "unique", "required");
    TakenKeys.EndsInKey(head, "unique", "logicalType");
    TakenKeys.EndsInKey(head, "unique", "physicalType");
  }

  lemma UniqueRuleAnswers(host: Host, e: ChangelogEntry, before: Json, after: Json, head: string)
    requires IsFlagPath(e.path, head, "unique")
    requires Split(e.path)[|Split(e.path)| - 2] != "properties" || e.kind.Updated?
    ensures FirstVerdict(DefaultRules(host), e, before, after)
         == Evaluates(RuleId(UniqueConstraint), FlagDirection(e))
  {
    EarlyRulesSkip(host, e, before, after, head, "unique");
    FieldRulesSkip(host, e, before, after, head);
    EndsInUnique(e.path, head);
    forall n | 0 <= n < 8
      ensures Evaluate(host, DEFAULT_RULES[n], e, before, after).Skips?
    {
      FirstEight(n);
    }
    FirstThatApplies(host, DEFAULT_RULES, 8, e, before, after);
    VerdictOfRule(host, e, before, after);
  }

  lemma EndsInUnique(path: string, head: string)
    requires path == head + "." + "unique"
    ensures EndsWithAny(path, [".unique", ".uniqueItems"])
  {
    assert "." + "unique" == ".unique";
    TakenKeys.EndsInKey(head, "unique", "unique");
    var suffixes := [".unique", ".uniqueItems"];
    assert EndsWith(path, suffixes[0]);
  }

  lemma FirstEight(n: nat)
    requires n < 8
    ensures DEFAULT_RULES[n] in [
      QualityConstraint, RelationshipChanged, FreshnessChanged, PhysicalNameChanged, RequiredChanged,
      SchemaAddedOrRemoved, PropertyAddedOrRemoved, TypeChanged]
  {
  }

  // ---------------------------------------------------------------- Whole runs

  /** What a flag of a column admits. */
  function Admits(key: string, flag: bool): Column -> bool {
    if key == "required" then NoNull(flag) else NoRepeat(flag)
  }

  /** A run over two versions of a column, whose flag `key` reads as a boolean. */
  ghost predicate FlagRun(
      r: Run, owner: seq<string>, f: Dict, g: Dict, key: string, old': bool, new': bool)
  {
    IsRun(r) && HoldsFlag(r, owner, f, g, key, old', new')
  }

  ghost predicate HoldsFlag(
      r: Run, owner: seq<string>, f: Dict, g: Dict, key: string, old': bool, new': bool)
  {
    && |owner| >= 2 && owner[0] == "schema" && (key == "required" || key == "unique")
    && HoldsScalars(r, owner, f, g, key) && WellNamed(r.before, r.after, owner + [key])
    && IsFlagPath(Join(owner + [key]), Join(owner), key)
    && (key == "unique" ==> Split(Join(owner + [key]))[|Split(Join(owner + [key]))| - 2] != "properties")
    && Rules.Flag(ValueText(r.host, f, key)) == Some(old') && Rules.Flag(ValueText(r.host, g, key)) == Some(new')
  }

  /** The true change of the columns that pass. */
  ghost function TrueFlagDirection(key: string, old': bool, new': bool): Direction {
    TrueChange(Admits(key, old'), Admits(key, new'))
  }

  lemma FlagVerdict(r: Run, owner: seq<string>, f: Dict, g: Dict, key: string, old': bool, new': bool)
    requires HoldsFlag(r, owner, f, g, key, old', new') && KindOf(f, g, key).Some?
    ensures var verdict := FirstVerdict(DefaultRules(r.host), ScalarEntry(r.host, owner, f, g, key), r.before, r.after);
      verdict.Evaluates? && verdict.direction == TrueFlagDirection(key, old', new')
  {
    var e := ScalarEntry(r.host, owner, f, g, key);
    FlagMoves(e, old', new');
    TrueFlags(key, old', new');
    FlagRuleAnswers(r.host, e, r.before, r.after, Join(owner), key);
  }

  lemma TrueFlags(key: string, old': bool, new': bool)
    ensures TrueFlagDirection(key, old', new') == if old' == new' then Untested else if new' then Tightens else Loosens
  {
    RequiredColumns(old', new');
    UniqueColumns(old', new');
  }

  lemma FlagRuleAnswers(host: Host, e: ChangelogEntry, before: Json, after: Json, head: string, key: string)
    requires IsFlagPath(e.path, head, key) && (key == "required" || key == "unique")
    requires key == "unique" ==> Split(e.path)[|Split(e.path)| - 2] != "properties"
    ensures var verdict := FirstVerdict(DefaultRules(host), e, before, after);
      verdict.Evaluates? && verdict.direction == FlagDirection(e)
  {
    if key == "required" {
      RequiredRuleAnswers(host, e, before, after, head);
    } else {
      UniqueRuleAnswers(host, e, before, after, head);
    }
  }

  /** Every final grade at the flag has the true direction. */
  lemma FlagGradeIsTrue(
      r: Run, owner: seq<string>, f: Dict, g: Dict, key: string, old': bool, new': bool, j: nat)
    requires FlagRun(r, owner, f, g, key, old', new')
    requires j < |r.grades| && r.grades[j].path == Join(owner + [key])
    ensures KindOf(f, g, key).Some?
    ensures ReportsFlip(Final(r.grades, r.grades[j]), TrueFlagDirection(key, old', new'), r.perspective)
  {
    var n, p, keys := GradeAtTheKey(r, j, owner, key);
    NothingBelowLimits(r.before, r.after, owner, f, g, key, keys);
    ScalarGradeIs(r, owner, f, g, key, j, n, p, keys);
    ScalarsBelow(r, owner, f, g, key);
    KeyIsNotSilenced(r, owner, key);
    GradeOfEntry(r, j);
    FlagVerdict(r, owner, f, g, key, old', new');
  }

  /**
   * A column that becomes required or unique, or stops being it, has a final grade of the direction of the columns
   * that pass; it is an error for the consumer exactly if some column passes that did not, and for the producer
   * exactly if some column passes no longer. Without a change there is no grade.
   */
  lemma FlagIsReported(
      r: Run, owner: seq<string>, f: Dict, g: Dict, key: string, old': bool, new': bool, d: Direction)
    requires FlagRun(r, owner, f, g, key, old', new')
    ensures ReportedAt(r, owner + [key], d) <==> KindOf(f, g, key).Some? && d == TrueFlagDirection(key, old', new')
  {
    if KindOf(f, g, key).Some? {
      var j := FlagHasAGrade(r, owner, f, g, key, old', new');
      FlagGradeIsTrue(r, owner, f, g, key, old', new', j);
    }
    if ReportedAt(r, owner + [key], d) {
      ReportedFlagIsTrue(r, owner, f, g, key, old', new', d);
    }
  }

  lemma ReportedFlagIsTrue(
      r: Run, owner: seq<string>, f: Dict, g: Dict, key: string, old': bool, new': bool, d: Direction)
    requires FlagRun(r, owner, f, g, key, old', new') && ReportedAt(r, owner + [key], d)
    ensures KindOf(f, g, key).Some? && d == TrueFlagDirection(key, old', new')
  {
    var k: nat :| k < |r.grades| && r.grades[k].path == Join(owner + [key])
      && ReportsFlip(Final(r.grades, r.grades[k]), d, r.perspective);
    FlagGradeIsTrue(r, owner, f, g, key, old', new', k);
  }

  lemma FlagHasAGrade(r: Run, owner: seq<string>, f: Dict, g: Dict, key: string, old': bool, new': bool)
      returns (j: nat)
    requires FlagRun(r, owner, f, g, key, old', new') && KindOf(f, g, key).Some?
    ensures j < |r.grades| && r.grades[j].path == Join(owner + [key])
  {
    var n, keys;
    j, n, keys := ScalarHasAGrade(r, owner, f, g, key);
    NothingBelowLimits(r.before, r.after, owner, f, g, key, keys);
  }

  /** Some column passes the one version and not the other. */
  ghost predicate SomeColumn(accepts: Column -> bool, rejects: Column -> bool) {
    exists column :: accepts(column) && !rejects(column)
  }

  lemma FlagLevel(
      r: Run, owner: seq<string>, f: Dict, g: Dict, key: string, old': bool, new': bool, j: nat)
    requires FlagRun(r, owner, f, g, key, old', new')
    requires j < |r.grades| && r.grades[j].path == Join(owner + [key])
    ensures var before, after := Admits(key, old'), Admits(key, new');
      Final(r.grades, r.grades[j]).level ==
        if Levels.Hurts(r.perspective, SomeColumn(after, before), SomeColumn(before, after)) then Error else Info
  {
    FlagGradeIsTrue(r, owner, f, g, key, old', new', j);
    LevelOfColumns(r.perspective, Admits(key, old'), Admits(key, new'));
  }

  lemma LevelOfColumns(perspective: Perspective, before: Column -> bool, after: Column -> bool)
    ensures LevelOf(TrueChange(before, after), perspective) ==
      if Levels.Hurts(perspective, SomeColumn(after, before), SomeColumn(before, after)) then Error else Info
  {
    Levels.LevelOfAChange(perspective, SomeColumn(after, before), SomeColumn(before, after));
  }
}
