/**
 * What the keys of a threshold mean: which numbers pass a rule that sets one of them, and which key decides
 * where several are set.
 */
module ThresholdKeys {
  import opened Wrappers
  import opened JsonTrees
  import opened Breaking
  import opened NumberProbes
  import opened Thresholds

  /** Which numbers pass, by the name of the key and its limit. */
  predicate Meets(key: string, limit: real, actual: real) {
    || (key == "mustBe" && actual == limit)
    || (key == "mustNotBe" && actual != limit)
    || (key == "mustBeGreaterThan" && actual > limit)
    || (key == "mustBeGreaterOrEqualTo" && actual >= limit)
    || (key == "mustBeLessThan" && actual < limit)
    || (key == "mustBeLessOrEqualTo" && actual <= limit)
  }

  /** No key before `n` is set, in the order in which they are read. */
  ghost predicate NoneBefore(quality: Dict, n: nat)
    requires n <= |THRESHOLDS|
  {
    forall k :: 0 <= k < n ==> Get(quality, THRESHOLDS[k]) == Null
  }

  /** The first key that is set decides, if it holds one number: exactly the numbers it names pass. */
  lemma SingleLimitMeans(quality: Dict, n: nat, limit: real)
    requires n < 6 && NoneBefore(quality, n) && Get(quality, THRESHOLDS[n]) == Num(limit)
    ensures ToThreshold(quality).Some? && ToThreshold(quality).value.Numeric()
    ensures forall x :: ToThreshold(quality).value.Passes(x) <==> Meets(THRESHOLDS[n], limit, x)
  {
    TheKeysInOrder(quality);
    assert n > 0 ==> Get(quality, THRESHOLDS[0]) == Null;
    assert n > 1 ==> Get(quality, THRESHOLDS[1]) == Null;
    assert n > 2 ==> Get(quality, THRESHOLDS[2]) == Null;
    assert n > 3 ==> Get(quality, THRESHOLDS[3]) == Null;
    assert n > 4 ==> Get(quality, THRESHOLDS[4]) == Null;
  }

  lemma TheKeysInOrder(quality: Dict)
    ensures |THRESHOLDS| == 8
    ensures THRESHOLDS[0] == "mustBe" && THRESHOLDS[1] == "mustNotBe" && THRESHOLDS[2] == "mustBeGreaterThan"
    ensures THRESHOLDS[3] == "mustBeGreaterOrEqualTo" && THRESHOLDS[4] == "mustBeLessThan"
    ensures THRESHOLDS[5] == "mustBeLessOrEqualTo" && THRESHOLDS[6] == "mustBeBetween"
    ensures THRESHOLDS[7] == "mustNotBeBetween"
  {
  }

  /** A pair of limits admits what lies between them, ends included, or what does not. */
  lemma PairOfLimitsMeans(quality: Dict, n: nat, low: real, high: real)
    requires (n == 6 || n == 7) && NoneBefore(quality, n) && Get(quality, THRESHOLDS[n]) == Arr([Num(low), Num(high)])
    ensures ToThreshold(quality).Some? && ToThreshold(quality).value.Numeric()
    ensures forall x :: ToThreshold(quality).value.Passes(x) <==> (low <= x <= high) == (n == 6)
  {
    TheKeysInOrder(quality);
    EarlierKeysAreUnset(quality, n);
  }

  lemma EarlierKeysAreUnset(quality: Dict, n: nat)
    requires 6 <= n <= 8 && NoneBefore(quality, n)
    ensures Get(quality, "mustBe") == Get(quality, "mustNotBe") == Get(quality, "mustBeGreaterThan") == Null
    ensures Get(quality, "mustBeGreaterOrEqualTo") == Get(quality, "mustBeLessThan") == Null
    ensures Get(quality, "mustBeLessOrEqualTo") == Null
    ensures n > 6 ==> Get(quality, "mustBeBetween") == Null
    ensures n > 7 ==> Get(quality, "mustNotBeBetween") == Null
  {
    TheKeysInOrder(quality);
    assert forall k :: 0 <= k < 6 ==> Get(quality, THRESHOLDS[k]) == Null;
  }

  /** Without any of the keys, or with any other number of values in a pair, there is nothing to compare with. */
  lemma NothingToCompareWith(quality: Dict, n: nat)
    requires 6 <= n <= 8 && NoneBefore(quality, n)
    requires n < 8 ==>
      Get(quality, THRESHOLDS[n]).Arr? && |Get(quality, THRESHOLDS[n]).items| != 2
    ensures ToThreshold(quality).None?
  {
    TheKeysInOrder(quality);
    EarlierKeysAreUnset(quality, n);
  }

  /** A single limit. */
  function Single(op: Op, limit: Bound): Threshold { Threshold(op, limit, Missing) }

  /** Between words, and between a boolean and a boolean or a number, the direction stays open. */
  lemma OtherLimitsAreOpen(op: Op, one: Bound, other: Op, two: Bound, integers: bool)
    requires (one.Words? && two.Words?) || (one.Boolean? && (two.Number? || two.Boolean?))
    ensures CompareThresholds(Single(op, one), Single(other, two), integers) == Graded(Undetermined)
    ensures CompareThresholds(Single(other, two), Single(op, one), integers) == Graded(Undetermined)
  {
    OnlyBounds(Single(op, one), Single(other, two));
    OnlyBounds(Single(other, two), Single(op, one));
  }

  lemma OnlyBounds(t: Threshold, u: Threshold)
    requires t.value2.Missing? && u.value2.Missing?
    ensures forall b :: b in t.Bounds() + u.Bounds() <==> b == t.value || b == u.value || b == Missing
  {
    var bounds := t.Bounds() + u.Bounds();
    assert bounds[0] == t.value && bounds[1] == Missing && bounds[2] == u.value && bounds[3] == Missing;
  }

  /** How limits of other types are read. */
  lemma LimitsOfOtherTypes(word: string, flag: bool, items: seq<Json>, fields: Dict)
    ensures BoundOf(Text(word)) == Words && BoundOf(Flag(flag)) == Boolean
    ensures BoundOf(Arr(items)) == BoundOf(Obj(fields)) == Unhashable
  {
  }
}
