/**
 * Reversing a change: what v1 -> v2 means to a consumer, v2 -> v1 means to a producer.
 */
module Duality {
  import opened Wrappers
  import opened JsonTrees
  import opened Breaking
  import opened Paths
  import opened Lookups
  import opened QualityRules
  import opened Rules
  import opened Selection
  import opened Detector

  function ReverseKind(kind: ChangeType): ChangeType {
    match kind
    case Added => Removed
    case Removed => Added
    case Updated => Updated
  }

  /** The entry of the reversed comparison. */
  function Reverse(e: ChangelogEntry): ChangelogEntry {
    ChangelogEntry(e.path, ReverseKind(e.kind), e.newValue, e.oldValue)
  }

  function ReverseAll(entries: seq<ChangelogEntry>): (r: seq<ChangelogEntry>)
    ensures |r| == |entries| && forall k :: 0 <= k < |entries| ==> r[k] == Reverse(entries[k])
  {
    seq(|entries|, k requires 0 <= k < |entries| => Reverse(entries[k]))
  }

  /** The rules that treat v1 and v2 alike; the others look a type or a carrier up in v2. */
  predicate TreatsVersionsAlike(name: RuleName) {
    !name.QualityConstraint? && !name.RelationshipChanged? && !name.ValidationConstraint?
  }

  /** An enum as a whole is added or removed, never updated. */
  predicate EnumIsWhole(e: ChangelogEntry) { EndsWith(e.path, ".enum") ==> !e.kind.Updated? }

  function MirrorVerdict(v: Verdict): Verdict {
    if v.Evaluates? then Evaluates(v.ruleId, Mirror(v.direction)) else v
  }

  lemma KeysOfUnion(a: Dict, b: Dict)
    ensures (a + b).Keys == (b + a).Keys
  {
  }

  lemma RelationshipAppliesAlike(e: ChangelogEntry, before: Json, after: Json)
    ensures RelationshipDirection(Reverse(e), after, before).None? <==> RelationshipDirection(e, before, after).None?
  {
    match CutLast(e.path, ".relationships.")
    case None =>
    case Some((owner, rest)) =>
      KeysOfUnion(Fields(Lookup(before, owner + ".relationships")), Fields(Lookup(after, owner + ".relationships")));
  }

  lemma QualityAppliesAlike(host: Host, e: ChangelogEntry, before: Json, after: Json)
    ensures QualityEntryDirection(host, Reverse(e), after, before).None?
      <==> QualityEntryDirection(host, e, before, after).None?
  {
  }

  lemma ValidationAppliesAlike(host: Host, e: ChangelogEntry, before: Json, after: Json)
    ensures ValidationDirection(host, Reverse(e), after, before).None?
      <==> ValidationDirection(host, e, before, after).None?
  {
  }

  lemma KeyAppliesAlike(e: ChangelogEntry, before: Json, after: Json)
    ensures KeyDirection(Reverse(e), after, before).None? <==> KeyDirection(e, before, after).None?
  {
  }

  lemma EnumAppliesAlike(host: Host, e: ChangelogEntry, before: Json, after: Json)
    ensures EnumDirection(host, Reverse(e), after, before).None? <==> EnumDirection(host, e, before, after).None?
  {
  }

  lemma FreshnessAppliesAlike(host: Host, e: ChangelogEntry, before: Json, after: Json)
    ensures FreshnessDirection(host, Reverse(e), after, before).None?
      <==> FreshnessDirection(host, e, before, after).None?
  {
  }

  /** Every rule applies to the reversed entry exactly if it applies to the entry. */
  lemma RulesApplyAlike(host: Host, name: RuleName, e: ChangelogEntry, before: Json, after: Json)
    ensures Evaluate(host, name, Reverse(e), after, before).Skips? <==> Evaluate(host, name, e, before, after).Skips?
  {
    match name
    case QualityConstraint => QualityAppliesAlike(host, e, before, after);
    case RelationshipChanged => RelationshipAppliesAlike(e, before, after);
    case ValidationConstraint => ValidationAppliesAlike(host, e, before, after);
    case KeyConstraint => KeyAppliesAlike(e, before, after);
    case EnumConstraint => EnumAppliesAlike(host, e, before, after);
    case FreshnessChanged => FreshnessAppliesAlike(host, e, before, after);
    case _ =>
  }

  function MirrorOption(d: Option<Direction>): Option<Direction> {
    if d.Some? then Some(Mirror(d.value)) else None
  }

  function MirrorGrading(g: Option<Grading>): Option<Grading> {
    if g.Some? && g.value.Graded? then Some(Graded(Mirror(g.value.direction))) else g
  }

  lemma AddedOrRemovedMirrors(kind: ChangeType)
    ensures AddedOrRemoved(ReverseKind(kind)) == MirrorOption(AddedOrRemoved(kind))
  {
  }

  lemma FlagMirrors(e: ChangelogEntry)
    ensures FlagDirection(Reverse(e)) == Mirror(FlagDirection(e))
  {
  }

  lemma KeyFlagMirrors(direction: Direction, before: Json, after: Json, path: string)
    ensures var forth, back := KeyFlagDirection(direction, before, after, path),
              KeyFlagDirection(Mirror(direction), after, before, path);
      if forth.Graded? && back.Graded? then back.direction == Mirror(forth.direction)
      else forth.Graded? || back.Graded? || forth == back
  {
  }

  /** The keys of v2 are counted only if v1 has no composite one, so only one of the directions may raise. */
  lemma KeyMirrors(e: ChangelogEntry, before: Json, after: Json)
    ensures var forth, back := KeyDirection(e, before, after), KeyDirection(Reverse(e), after, before);
      back == MirrorGrading(forth) || (forth == Some(Raises)) != (back == Some(Raises))
  {
    FlagMirrors(e);
    KeyFlagMirrors(FlagDirection(e), before, after, BeforeFirst(e.path, ".properties."));
  }

  lemma EnumMirrors(host: Host, e: ChangelogEntry, before: Json, after: Json)
    requires EnumIsWhole(e)
    ensures EnumDirection(host, Reverse(e), after, before) == MirrorGrading(EnumDirection(host, e, before, after))
  {
  }

  lemma FreshnessMirrors(host: Host, e: ChangelogEntry, before: Json, after: Json)
    ensures FreshnessDirection(host, Reverse(e), after, before)
      == MirrorGrading(FreshnessDirection(host, e, before, after))
  {
  }

  lemma VectorMirrors(e: ChangelogEntry)
    ensures VectorDirection(Reverse(e)) == MirrorOption(VectorDirection(e))
  {
    AddedOrRemovedMirrors(e.kind);
  }

  lemma TypeMirrors(e: ChangelogEntry)
    ensures TypeDirection(Reverse(e)) == MirrorOption(TypeDirection(e))
  {
  }

  lemma PhysicalNameMirrors(e: ChangelogEntry)
    ensures PhysicalNameDirection(Reverse(e)) == MirrorOption(PhysicalNameDirection(e))
  {
  }

  lemma FlagsMirror(e: ChangelogEntry)
    ensures RequiredDirection(Reverse(e)) == MirrorOption(RequiredDirection(e))
    ensures UniqueDirection(Reverse(e)) == MirrorOption(UniqueDirection(e))
  {
    FlagMirrors(e);
  }

  lemma ElementsMirror(e: ChangelogEntry)
    ensures SchemaDirection(Reverse(e)) == MirrorOption(SchemaDirection(e))
    ensures PropertyDirection(Reverse(e)) == MirrorOption(PropertyDirection(e))
  {
    AddedOrRemovedMirrors(e.kind);
  }

  /**
   * A rule that treats the versions alike swaps tightening with loosening. Where one version's properties
   * are no dicts, grading a key flag may raise in one of the two directions only.
   */
  lemma RulesMirror(host: Host, name: RuleName, e: ChangelogEntry, before: Json, after: Json)
    requires TreatsVersionsAlike(name) && EnumIsWhole(e)
    ensures var forth, back := Evaluate(host, name, e, before, after), Evaluate(host, name, Reverse(e), after, before);
      back == MirrorVerdict(forth) || (name.KeyConstraint? && forth.Fails? != back.Fails?)
  {
    match name
    case FreshnessChanged => FreshnessMirrors(host, e, before, after);
    case PhysicalNameChanged => PhysicalNameMirrors(e);
    case RequiredChanged => FlagsMirror(e);
    case SchemaAddedOrRemoved => ElementsMirror(e);
    case PropertyAddedOrRemoved => ElementsMirror(e);
    case TypeChanged => TypeMirrors(e);
    case UniqueConstraint => FlagsMirror(e);
    case KeyConstraint => KeyMirrors(e, before, after);
    case EnumConstraint => EnumMirrors(host, e, before, after);
    case VectorShape => VectorMirrors(e);
    case MetadataFallback =>
  }

  // ---------------------------------------------------------------- Whole runs

  lemma {:induction false} SelectsAlike(host: Host, names: seq<RuleName>, e: ChangelogEntry, before: Json, after: Json)
    ensures Select(host, names, Reverse(e), after, before) == Select(host, names, e, before, after)
  {
    if names != [] {
      RulesApplyAlike(host, names[0], e, before, after);
      SelectsAlike(host, names[1..], e, before, after);
    }
  }

  ghost predicate GradedAlike(host: Host, e: ChangelogEntry, before: Json, after: Json) {
    EnumIsWhole(e) && RuleFor(host, e, before, after).Some?
      && TreatsVersionsAlike(RuleFor(host, e, before, after).value)
  }

  function MirrorGrade(g: Grade): Grade {
    g.(kind := ReverseKind(g.kind), direction := if g.direction.Some? then Some(Mirror(g.direction.value)) else None,
       oldValue := g.newValue, newValue := g.oldValue)
  }

  /** The identity of a graded entry does not depend on the direction of the comparison. */
  ghost predicate SameEntry(forth: Grade, back: Grade) {
    back.ruleId == forth.ruleId && back.path == forth.path && back.kind == ReverseKind(forth.kind)
  }

  lemma VerdictsOfReverse(host: Host, e: ChangelogEntry, before: Json, after: Json)
    ensures var forth := FirstVerdict(DefaultRules(host), e, before, after);
            var back := FirstVerdict(DefaultRules(host), Reverse(e), after, before);
            && (forth.Evaluates? && back.Evaluates? ==> back.ruleId == forth.ruleId)
            && (GradedAlike(host, e, before, after) && forth.Evaluates? && back.Evaluates? ==>
                  back == MirrorVerdict(forth))
  {
    VerdictOfRule(host, e, before, after);
    VerdictOfRule(host, Reverse(e), after, before);
    SelectsAlike(host, DEFAULT_RULES, e, before, after);
    match RuleFor(host, e, before, after)
    case None =>
    case Some(name) =>
      EvaluatesUnderItsId(host, name, e, before, after);
      EvaluatesUnderItsId(host, name, Reverse(e), after, before);
      if GradedAlike(host, e, before, after) {
        RulesMirror(host, name, e, before, after);
      }
  }

  /** The two grades of an entry and of its reverse. */
  ghost predicate Mirrors(host: Host, e: ChangelogEntry, before: Json, after: Json, forth: Grade, back: Grade) {
    SameEntry(forth, back) && (GradedAlike(host, e, before, after) ==> back == MirrorGrade(forth))
  }

  /** One entry, before silencing. */
  lemma ClassifyMirrors(host: Host, e: ChangelogEntry, before: Json, after: Json, forth: Grade, back: Grade)
    requires Classify(DefaultRules(host), e, Consumer, before, after) == Some(forth)
    requires Classify(DefaultRules(host), Reverse(e), Producer, after, before) == Some(back)
    ensures Mirrors(host, e, before, after, forth, back)
  {
    VerdictsOfReverse(host, e, before, after);
  }

  /** Every entry of a run that classifies is classified by itself. */
  lemma {:induction false} ClassifiedEach(
      rules: seq<Rule>, entries: seq<ChangelogEntry>, perspective: Perspective, before: Json, after: Json,
      grades: seq<Grade>, k: nat)
    requires ClassifyAll(rules, entries, perspective, before, after) == Some(grades)
    ensures |grades| == |entries|
    ensures k < |entries| ==> Classify(rules, entries[k], perspective, before, after) == Some(grades[k])
  {
    if entries != [] {
      var n := |entries| - 1;
      var front := ClassifyAll(rules, entries[..n], perspective, before, after).value;
      ClassifiedEach(rules, entries[..n], perspective, before, after, front, k);
    }
  }

  /**
   * Consumer grades of v1 -> v2 are producer grades of v2 -> v1, silencing included, for every entry
   * graded by a rule that treats the versions alike, whatever other entries the run has.
   */
  lemma ReversalDuality(host: Host, entries: seq<ChangelogEntry>, before: Json, after: Json, k: nat)
    requires ClassifyAll(DefaultRules(host), entries, Consumer, before, after).Some?
    requires ClassifyAll(DefaultRules(host), ReverseAll(entries), Producer, after, before).Some?
    requires k < |entries| && GradedAlike(host, entries[k], before, after)
    ensures var forth := ClassifyAll(DefaultRules(host), entries, Consumer, before, after).value;
            var back := ClassifyAll(DefaultRules(host), ReverseAll(entries), Producer, after, before).value;
            && k < |forth| && k < |back|
            && Finals(back)[k] == MirrorGrade(Finals(forth)[k])
            && Finals(back)[k].level == Finals(forth)[k].level
  {
    var forth := ClassifyAll(DefaultRules(host), entries, Consumer, before, after).value;
    var back := ClassifyAll(DefaultRules(host), ReverseAll(entries), Producer, after, before).value;
    forall n: nat
      ensures |forth| == |back| == |entries|
      ensures n < |entries| ==> Mirrors(host, entries[n], before, after, forth[n], back[n])
    {
      ClassifiedEach(DefaultRules(host), entries, Consumer, before, after, forth, n);
      ClassifiedEach(DefaultRules(host), ReverseAll(entries), Producer, after, before, back, n);
      if n < |entries| {
        ClassifyMirrors(host, entries[n], before, after, forth[n], back[n]);
      }
    }
    SilencedAlike(forth, back, forth[k].path);
  }

  lemma SilencedAlike(forth: seq<Grade>, back: seq<Grade>, path: string)
    requires |forth| == |back| && forall n: nat :: n < |forth| ==> SameEntry(forth[n], back[n])
    ensures Silenced(forth, path) <==> Silenced(back, path)
  {
    assert forall n: nat :: n < |forth| ==> IsElement(forth[n]) == IsElement(back[n]) && forth[n].path == back[n].path;
  }
}
