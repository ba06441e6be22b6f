/**
 * No guarantee changes silently: what a quality rule's guarantee depends on, and what the entries
 * of the rule report when it appears, disappears or has its threshold replaced.
 */
module Guarantees {
  import opened Wrappers
  import opened JsonTrees
  import opened Breaking
  import opened NumberProbes
  import opened Thresholds
  import opened Paths
  import opened QualityRules

  /** A dict of a contract dumped without its unset fields. */
  ghost predicate NoNullValues(d: Dict) { forall k :: k in d ==> d[k] != Null }

  ghost predicate AgreeOn(a: Dict, b: Dict, keys: seq<string>) {
    forall k :: k in keys ==> Get(a, k) == Get(b, k)
  }

  lemma RestrictReadsKeys(a: Dict, b: Dict, keys: seq<string>)
    requires NoNullValues(a) && NoNullValues(b) && AgreeOn(a, b, keys)
    ensures Restrict(a, keys) == Restrict(b, keys)
  {
    forall k | k in keys
      ensures k in a <==> k in b
    {
      assert Get(a, k) == Get(b, k);
    }
  }

  /** Whether a rule is a guarantee, or finding out raises, depends only on the decisive keys and the thresholds. */
  lemma GuaranteeReadsDecisiveKeys(host: Host, a: Dict, b: Dict, atProperty: bool)
    requires NoNullValues(a) && NoNullValues(b) && AgreeOn(a, b, DECISIVE + THRESHOLDS)
    ensures GuaranteeStatus(host, a, atProperty) == GuaranteeStatus(host, b, atProperty)
  {
    DecisiveKeysAgree(a, b);
    RestrictReadsKeys(a, b, THRESHOLDS);
    RestrictReadsKeys(a, b, METRIC_FIELDS);
  }

  lemma DecisiveKeysAgree(a: Dict, b: Dict)
    requires AgreeOn(a, b, DECISIVE + THRESHOLDS)
    ensures AgreeOn(a, b, METRIC_FIELDS) && AgreeOn(a, b, THRESHOLDS)
    ensures Get(a, "severity") == Get(b, "severity") && Get(a, "type") == Get(b, "type")
    ensures Get(a, "engine") == Get(b, "engine") && Get(a, "implementation") == Get(b, "implementation")
    ensures Get(a, "query") == Get(b, "query") && Get(a, "metric") == Get(b, "metric")
  {
    var keys := DECISIVE + THRESHOLDS;
    assert forall n :: 0 <= n < 8 ==> keys[n] == DECISIVE[n];
    assert keys[0] in keys && keys[1] in keys && keys[2] in keys && keys[3] in keys;
    assert keys[4] in keys && keys[5] in keys && keys[6] in keys && keys[7] in keys;
  }

  /** A rule becomes or stops being a guarantee. */
  predicate StatusFlips(host: Host, before: Dict, after: Dict, atProperty: bool) {
    var was, is' := GuaranteeStatus(host, before, atProperty), GuaranteeStatus(host, after, atProperty);
    was.Some? && is'.Some? && was != is'
  }

  /**
   * When a rule becomes or stops being a guarantee, one of its keys carries the change; exactly the
   * entries under that key are graded, with the direction of the change, and all others are untested.
   */
  lemma FlipIsCarriedOnce(host: Host, before: Dict, after: Dict, kind: ChangeType, field: string, atProperty: bool)
    requires NoNullValues(before) && NoNullValues(after) && field != "" && StatusFlips(host, before, after, atProperty)
    ensures Carrier(before, after, DECISIVE + THRESHOLDS).Some?
    ensures QualityDirection(host, before, after, kind, field, atProperty) ==
      Graded(if Some(BeforeFirst(field, ".")) != Carrier(before, after, DECISIVE + THRESHOLDS) then Untested
             else if IsGuarantee(host, after, atProperty) then Tightens else Loosens)
  {
    CarrierChanged(before, after, DECISIVE + THRESHOLDS);
    if AgreeOn(before, after, DECISIVE + THRESHOLDS) {
      GuaranteeReadsDecisiveKeys(host, before, after, atProperty);
    }
  }

  // ---------------------------------------------------------------- Thresholds

  function ThresholdOf(host: Host, rule: Dict): Option<Threshold> { ToThreshold(ThresholdQuality(host, rule)) }

  /** A threshold of numbers, in a unit that the model takes. */
  ghost predicate NumericThreshold(host: Host, rule: Dict) {
    ThresholdOf(host, rule).Some? && ThresholdOf(host, rule).value.Numeric() && !UnitRaises(host, rule)
  }

  /** Whether a library metric counts rows, rather than a percentage of them or a query's result. */
  predicate CountsRows(host: Host, rule: Dict) { !IsPercent(host, rule) && IsLibrary(rule) }

  lemma ThresholdFieldsHaveNoDots(field: string)
    requires field in THRESHOLDS
    ensures BeforeFirst(field, ".") != "arguments" && field != ""
  {
    var top := BeforeFirst(field, ".");
    assert field[0] == 'm';
    assert top <= field;
  }

  lemma ThresholdDirectionIsExact(host: Host, before: Dict, after: Dict)
    requires NumericThreshold(host, before) && NumericThreshold(host, after)
    requires IsPercent(host, before) == IsPercent(host, after)
    requires Carrier(before, after, THRESHOLDS).Some?
    ensures ThresholdDirection(host, before, after, Carrier(before, after, THRESHOLDS).value) ==
      Graded(TrueDirection(ThresholdOf(host, before).value.Accepts(), ThresholdOf(host, after).value.Accepts(),
                           CountsRows(host, after)))
  {
    CompareThresholdsIsExact(ThresholdOf(host, before).value, ThresholdOf(host, after).value, CountsRows(host, after));
  }

  /**
   * Between two guarantees with numeric thresholds and the same unit, the carrier's entry reports the
   * true direction between the thresholds, and every other threshold entry is untested.
   */
  lemma ThresholdGroupReportsOnce(
      host: Host, before: Dict, after: Dict, kind: ChangeType, field: string, atProperty: bool)
    requires IsGuarantee(host, before, atProperty) && IsGuarantee(host, after, atProperty)
    requires NumericThreshold(host, before) && NumericThreshold(host, after)
    requires IsPercent(host, before) == IsPercent(host, after) && field in THRESHOLDS
    ensures QualityDirection(host, before, after, kind, field, atProperty) ==
      Graded(if Some(field) != Carrier(before, after, THRESHOLDS) then Untested
             else TrueDirection(ThresholdOf(host, before).value.Accepts(), ThresholdOf(host, after).value.Accepts(),
                                CountsRows(host, after)))
  {
    ThresholdFieldsHaveNoDots(field);
    if Some(field) == Carrier(before, after, THRESHOLDS) {
      ThresholdDirectionIsExact(host, before, after);
    }
  }

  /** If no threshold key changed, nothing changed between the thresholds: no change lacks a carrier. */
  lemma NoThresholdChangeWithoutACarrier(host: Host, before: Dict, after: Dict)
    requires NoNullValues(before) && NoNullValues(after)
    requires Carrier(before, after, THRESHOLDS).None?
    ensures ThresholdOf(host, before) == ThresholdOf(host, after)
  {
    CarrierChanged(before, after, THRESHOLDS);
    RestrictReadsKeys(before, after, THRESHOLDS);
  }

  /**
   * A threshold that is a word cannot be compared with a number: replacing it by a number, or counting
   * against it, raises.
   */
  lemma WordsAmongNumbersRaise(host: Host, before: Dict, after: Dict, more: bool)
    requires ThresholdOf(host, before).Some? && ThresholdOf(host, before).value.value == Words
    requires NumericThreshold(host, after) && IsPercent(host, before) == IsPercent(host, after)
    requires Carrier(before, after, THRESHOLDS).Some?
    ensures ThresholdDirection(host, before, after, Carrier(before, after, THRESHOLDS).value) == Raises
    ensures RuleCountDirection(host, before, more) == Raises
  {
    var t, u := ThresholdOf(host, before).value, ThresholdOf(host, after).value;
    var bounds := t.Bounds() + u.Bounds();
    assert bounds[0] == Words && bounds[2].Number?;
    var counted := [Number(0.0)] + t.Bounds();
    assert counted[0] == Number(0.0) && counted[1] == Words;
  }

  // ---------------------------------------------------------------- A carrier that was only reordered

  /** The first changed key that is set in v2 is the carrier. */
  lemma {:induction false} FirstChangeCarries(before: Dict, after: Dict, keys: seq<string>, n: nat)
    requires n < |keys| && forall k :: 0 <= k < n ==> Get(before, keys[k]) == Get(after, keys[k])
    requires Get(before, keys[n]) != Get(after, keys[n]) && Get(after, keys[n]) != Null
    ensures Carrier(before, after, keys) == Some(keys[n])
  {
    if n == 0 {
      assert Changed(before, after, keys)[0] == keys[0];
    } else {
      FirstChangeCarries(before, after, keys[1..], n - 1);
      assert Get(before, keys[0]) == Get(after, keys[0]);
      assert Changed(before, after, keys) == Changed(before, after, keys[1..]);
      assert keys[1..][n - 1] == keys[n];
    }
  }

  /**
   * If `arguments` changed, be it only in the order of a list, and nothing before it in the decisive
   * keys did, then an entry for a new threshold is untested although it made the rule a guarantee.
   */
  lemma ReorderedArgumentsHideANewThreshold(
      host: Host, before: Dict, after: Dict, kind: ChangeType, field: string, atProperty: bool)
    requires NoNullValues(before) && NoNullValues(after) && field in THRESHOLDS
    requires StatusFlips(host, before, after, atProperty) && IsGuarantee(host, after, atProperty)
    requires forall k :: 0 <= k < 6 ==> Get(before, DECISIVE[k]) == Get(after, DECISIVE[k])
    requires Get(before, "arguments") != Get(after, "arguments") && Get(after, "arguments") != Null
    ensures QualityDirection(host, before, after, kind, field, atProperty) == Graded(Untested)
  {
    var keys := DECISIVE + THRESHOLDS;
    assert forall k :: 0 <= k < 8 ==> keys[k] == DECISIVE[k];
    FirstChangeCarries(before, after, keys, 6);
    ThresholdFieldsHaveNoDots(field);
    FlipIsCarriedOnce(host, before, after, kind, field, atProperty);
  }
}
