/**
 * Which of the default rules grades an entry: the first that applies, and the fallback if none of the
 * others does.
 */
module Selection {
  import opened Wrappers
  import opened JsonTrees
  import opened Breaking
  import opened QualityRules
  import opened Rules

  /** The first rule of `names` that applies. */
  ghost function Select(
      host: Host, names: seq<RuleName>, e: ChangelogEntry, before: Json, after: Json): Option<RuleName> {
    if names == [] then None
    else if !Evaluate(host, names[0], e, before, after).Skips? then Some(names[0])
    else Select(host, names[1..], e, before, after)
  }

  lemma {:induction false} SelectedRuleAnswers(host: Host, n: nat, e: ChangelogEntry, before: Json, after: Json)
    requires n <= |DEFAULT_RULES|
    ensures FirstVerdict(DefaultRules(host)[n..], e, before, after) ==
      match Select(host, DEFAULT_RULES[n..], e, before, after)
      case None => Skips
      case Some(name) => Evaluate(host, name, e, before, after)
    decreases |DEFAULT_RULES| - n
  {
    if n < |DEFAULT_RULES| {
      SelectedRuleAnswers(host, n + 1, e, before, after);
      var rules := DefaultRules(host);
      assert rules[n..][1..] == rules[n + 1..] && DEFAULT_RULES[n..][1..] == DEFAULT_RULES[n + 1..];
      assert rules[n..][0] == rules[n] && DEFAULT_RULES[n..][0] == DEFAULT_RULES[n];
      assert rules[n](e, before, after) == Evaluate(host, DEFAULT_RULES[n], e, before, after);
    }
  }

  /** The rule that grades an entry. */
  ghost function RuleFor(host: Host, e: ChangelogEntry, before: Json, after: Json): Option<RuleName> {
    Select(host, DEFAULT_RULES, e, before, after)
  }

  lemma VerdictOfRule(host: Host, e: ChangelogEntry, before: Json, after: Json)
    ensures FirstVerdict(DefaultRules(host), e, before, after) ==
      match RuleFor(host, e, before, after)
      case None => Skips
      case Some(name) => Evaluate(host, name, e, before, after)
  {
    SelectedRuleAnswers(host, 0, e, before, after);
    assert DefaultRules(host)[0..] == DefaultRules(host) && DEFAULT_RULES[0..] == DEFAULT_RULES;
  }

  lemma EvaluatesUnderItsId(host: Host, name: RuleName, e: ChangelogEntry, before: Json, after: Json)
    ensures var v := Evaluate(host, name, e, before, after); v.Evaluates? ==> v.ruleId == RuleId(name)
  {
  }

  lemma {:induction false} FirstThatApplies(
      host: Host, names: seq<RuleName>, n: nat, e: ChangelogEntry, before: Json, after: Json)
    requires n < |names| && !Evaluate(host, names[n], e, before, after).Skips?
    requires forall k :: 0 <= k < n ==> Evaluate(host, names[k], e, before, after).Skips?
    ensures Select(host, names, e, before, after) == Some(names[n])
  {
    if n > 0 {
      assert forall k :: 0 <= k < n - 1 ==> names[1..][k] == names[k + 1];
      assert Evaluate(host, names[0], e, before, after).Skips?;
      FirstThatApplies(host, names[1..], n - 1, e, before, after);
    }
  }

  lemma {:induction false} SelectedApplies(
      host: Host, names: seq<RuleName>, e: ChangelogEntry, before: Json, after: Json)
    ensures var selected := Select(host, names, e, before, after);
      selected.Some? ==> selected.value in names && !Evaluate(host, selected.value, e, before, after).Skips?
  {
    if names != [] {
      SelectedApplies(host, names[1..], e, before, after);
    }
  }

  /** The last rule of a list is selected exactly if all others skip. */
  lemma {:induction false} LastIsSelected(
      host: Host, names: seq<RuleName>, last: RuleName, e: ChangelogEntry, before: Json, after: Json)
    requires last !in names && !Evaluate(host, last, e, before, after).Skips?
    ensures Select(host, names + [last], e, before, after).Some?
    ensures Select(host, names + [last], e, before, after) == Some(last) <==>
      forall name :: name in names ==> Evaluate(host, name, e, before, after).Skips?
  {
    var all := names + [last];
    if names != [] {
      assert all[1..] == names[1..] + [last] && names == [names[0]] + names[1..];
      LastIsSelected(host, names[1..], last, e, before, after);
    }
  }

  /** The fallback grades exactly what every other rule leaves. */
  lemma FallbackTakesTheRest(host: Host, e: ChangelogEntry, before: Json, after: Json)
    ensures RuleFor(host, e, before, after).Some?
    ensures RuleFor(host, e, before, after) == Some(MetadataFallback) <==>
      forall name: RuleName :: name != MetadataFallback ==> Evaluate(host, name, e, before, after).Skips?
  {
    EveryRuleIsListed();
    LastIsSelected(host, DEFAULT_RULES[..13], MetadataFallback, e, before, after);
  }

  lemma EveryRuleIsListed()
    ensures DEFAULT_RULES == DEFAULT_RULES[..13] + [MetadataFallback]
    ensures forall name: RuleName :: name in DEFAULT_RULES[..13] <==> name != MetadataFallback
  {
    var rules := DEFAULT_RULES[..13];
    assert rules[0] == QualityConstraint && rules[1] == RelationshipChanged && rules[2] == FreshnessChanged;
    assert rules[3] == PhysicalNameChanged && rules[4] == RequiredChanged && rules[5] == SchemaAddedOrRemoved;
    assert rules[6] == PropertyAddedOrRemoved && rules[7] == TypeChanged && rules[8] == UniqueConstraint;
    assert rules[9] == KeyConstraint && rules[10] == ValidationConstraint && rules[11] == EnumConstraint;
    assert rules[12] == VectorShape;
  }

  /** The id of the rule that grades an entry is the fallback's exactly if every other rule skips. */
  lemma FallbackIsNamed(host: Host, e: ChangelogEntry, before: Json, after: Json)
    requires FirstVerdict(DefaultRules(host), e, before, after).Evaluates?
    ensures FirstVerdict(DefaultRules(host), e, before, after).ruleId == FALLBACK_ID <==>
      RuleFor(host, e, before, after) == Some(MetadataFallback)
  {
    VerdictOfRule(host, e, before, after);
    FallbackTakesTheRest(host, e, before, after);
    var name := RuleFor(host, e, before, after).value;
    EvaluatesUnderItsId(host, name, e, before, after);
    OnlyTheFallbackHasItsId(name);
  }

  lemma OnlyTheFallbackHasItsId(name: RuleName)
    ensures RuleId(name) == FALLBACK_ID <==> name == MetadataFallback
  {
    assert FALLBACK_ID[0] == 'm';
    assert RuleId(name)[0] == 'm' <==> name == MetadataFallback;
  }
}
