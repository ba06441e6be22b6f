/**
 * Pairing the quality rules of two versions of a contract: a greedy matching in
 * five tiers, then one shared key for the two rules of every pair.
 */
module Pairing {
  import opened Wrappers
  import opened JsonTrees
  import opened Decimals

  /** One item of a dict of quality rules; the dict is a sequence of them, in insertion order. */
  datatype Keyed = Keyed(key: string, rule: Dict)

  const TIERS: nat := 5
  const CHECK_FIELDS: seq<string> := ["type", "metric", "rule", "query", "engine", "implementation"]

  /** The key of a nameless rule: digits in square brackets. */
  predicate IsPositional(key: string) {
    |key| >= 3 && key[0] == '[' && key[|key| - 1] == ']' && forall n :: 1 <= n < |key| - 1 ==> IsDigit(key[n])
  }

  function Name(item: Keyed): Option<string> {
    if IsPositional(item.key) then None else Some(item.key)
  }

  /** Whether `tier` lets rule `a` of the first version pair with rule `b` of the second. */
  predicate Test(tier: nat, a: Keyed, b: Keyed) {
    || (tier == 0 && Get(a.rule, "id") != Null && Get(a.rule, "id") == Get(b.rule, "id"))
    || (tier == 1 && Name(a).Some? && Name(a) == Name(b))
    || (tier == 2 && a.rule == b.rule)
    || (tier == 3 && forall n :: 0 <= n < |CHECK_FIELDS| ==>
      Get(a.rule, CHECK_FIELDS[n]) == Get(b.rule, CHECK_FIELDS[n]))
    || (tier == 4 && Name(a).None? && Name(b).None?)
  }

  // ---------------------------------------------------------------- The greedy matching

  /** Rule `j` of the second version may pair with rule `i` of the first at `tier`. */
  datatype Candidate = Candidate(tier: nat, j: nat, i: nat)

  ghost predicate Before(b: Candidate, c: Candidate) {
    b.tier < c.tier || (b.tier == c.tier && (b.j < c.j || (b.j == c.j && b.i < c.i)))
  }

  ghost predicate Applies(side1: seq<Keyed>, side2: seq<Keyed>, c: Candidate) {
    c.tier < TIERS && c.j < |side2| && c.i < |side1| && Test(c.tier, side1[c.i], side2[c.j])
  }

  ghost predicate Share(b: Candidate, c: Candidate) {
    b.i == c.i || b.j == c.j
  }

  ghost predicate Blocked(m: set<Candidate>, c: Candidate) {
    exists b :: b in m && Before(b, c) && Share(b, c)
  }

  ghost predicate IsMatching(side1: seq<Keyed>, side2: seq<Keyed>, m: set<Candidate>) {
    && (forall c :: c in m ==> Applies(side1, side2, c))
    && (forall b, c :: b in m && c in m && Share(b, c) ==> b == c)
  }

  /**
   * The greedy matching: every possible pair that is not made lost one of its two rules
   * to a pair made earlier, at a lower tier or, within a tier, at a lower position.
   */
  ghost predicate IsGreedy(side1: seq<Keyed>, side2: seq<Keyed>, m: set<Candidate>) {
    && IsMatching(side1, side2, m)
    && (forall c :: Applies(side1, side2, c) && c !in m ==> Blocked(m, c))
  }

  /** The two readings of a matching agree: index in side2 -> index in side1. */
  ghost predicate Represents(pairs: map<nat, nat>, m: set<Candidate>) {
    && (forall c :: c in m ==> c.j in pairs && pairs[c.j] == c.i)
    && (forall j :: j in pairs ==> exists t :: Candidate(t, j, pairs[j]) in m)
  }

  /** Greediness, for the candidates before `pos`. */
  ghost predicate GreedyUpTo(side1: seq<Keyed>, side2: seq<Keyed>, m: set<Candidate>, pos: Candidate) {
    && IsMatching(side1, side2, m)
    && (forall c :: c in m ==> Before(c, pos))
    && (forall c :: Applies(side1, side2, c) && Before(c, pos) && c !in m ==> Blocked(m, c))
  }

  /** Candidate (tier, j, i) is passed over because its test fails or rule `i` is taken. */
  lemma PassOver(
      side1: seq<Keyed>, side2: seq<Keyed>, m: set<Candidate>, pairs: map<nat, nat>, tier: nat, j: nat, i: nat)
    requires GreedyUpTo(side1, side2, m, Candidate(tier, j, i)) && Represents(pairs, m)
    requires tier < TIERS && j < |side2| && i < |side1|
    requires i in pairs.Values || !Test(tier, side1[i], side2[j])
    ensures GreedyUpTo(side1, side2, m, Candidate(tier, j, i + 1))
  {
    var c := Candidate(tier, j, i);
    if i in pairs.Values {
      var j' :| j' in pairs && pairs[j'] == i;
      var t' :| Candidate(t', j', i) in m;
      assert Before(Candidate(t', j', i), c) && Share(Candidate(t', j', i), c);
      assert Blocked(m, c);
    }
    forall d | Applies(side1, side2, d) && Before(d, Candidate(tier, j, i + 1)) && d !in m
      ensures Blocked(m, d)
    {
      assert Before(d, c) || d == c;
    }
  }

  /** Every candidate of a rule `j` that is already paired is blocked by that pair. */
  lemma PassOverPaired(side1: seq<Keyed>, side2: seq<Keyed>, m: set<Candidate>, pairs: map<nat, nat>, tier: nat, j: nat)
    requires GreedyUpTo(side1, side2, m, Candidate(tier, j, 0)) && Represents(pairs, m)
    requires j in pairs
    ensures GreedyUpTo(side1, side2, m, Candidate(tier, j + 1, 0))
  {
    var t' :| Candidate(t', j, pairs[j]) in m;
    var b := Candidate(t', j, pairs[j]);
    forall d | Applies(side1, side2, d) && Before(d, Candidate(tier, j + 1, 0)) && d !in m
      ensures Blocked(m, d)
    {
      if !Before(d, Candidate(tier, j, 0)) {
        assert Before(b, d) && Share(b, d);
      }
    }
  }

  /** Pairing (tier, j, i) decides every remaining candidate of `j` at this tier. */
  lemma Pair(side1: seq<Keyed>, side2: seq<Keyed>, m: set<Candidate>, pairs: map<nat, nat>, tier: nat, j: nat, i: nat)
    requires GreedyUpTo(side1, side2, m, Candidate(tier, j, i)) && Represents(pairs, m)
    requires Applies(side1, side2, Candidate(tier, j, i))
    requires j !in pairs && i !in pairs.Values
    ensures GreedyUpTo(side1, side2, m + {Candidate(tier, j, i)}, Candidate(tier, j + 1, 0))
    ensures Represents(pairs[j := i], m + {Candidate(tier, j, i)})
    ensures pairs[j := i].Values == pairs.Values + {i}
  {
    var c := Candidate(tier, j, i);
    var m' := m + {c};
    forall b | b in m
      ensures !Share(b, c)
    {
      assert pairs[b.j] == b.i;
    }
    forall d | Applies(side1, side2, d) && Before(d, Candidate(tier, j + 1, 0)) && d !in m'
      ensures Blocked(m', d)
    {
      if Before(d, c) {
        var b :| b in m && Before(b, d) && Share(b, d);
        assert b in m';
      } else {
        assert c in m' && Before(c, d) && Share(c, d);
      }
    }
    var pairs' := pairs[j := i];
    forall j' | j' in pairs'
      ensures exists t :: Candidate(t, j', pairs'[j']) in m'
    {
      if j' == j {
        assert Candidate(tier, j', pairs'[j']) in m';
      } else {
        var t :| Candidate(t, j', pairs[j']) in m;
        assert Candidate(t, j', pairs'[j']) in m';
      }
    }
    forall v | v in pairs.Values + {i}
      ensures v in pairs'.Values
    {
      if v == i {
        assert pairs'[j] == v;
      } else {
        var j' :| j' in pairs && pairs[j'] == v;
        assert pairs'[j'] == v;
      }
    }
  }

  method MatchInTiers(side1: seq<Keyed>, side2: seq<Keyed>)
      returns (pairs: map<nat, nat>, paired1: set<nat>, ghost m: set<Candidate>)
    ensures IsGreedy(side1, side2, m)
    ensures Represents(pairs, m)
    ensures paired1 == pairs.Values
  {
    pairs, paired1, m := map[], {}, {};
    for tier := 0 to TIERS
      invariant GreedyUpTo(side1, side2, m, Candidate(tier, 0, 0))
      invariant Represents(pairs, m) && paired1 == pairs.Values
    {
      for j := 0 to |side2|
        invariant GreedyUpTo(side1, side2, m, Candidate(tier, j, 0))
        invariant Represents(pairs, m) && paired1 == pairs.Values
      {
        if j in pairs {
          PassOverPaired(side1, side2, m, pairs, tier, j);
          continue;
        }
        var i := 0;
        while i < |side1|
          invariant i <= |side1| && j !in pairs
          invariant GreedyUpTo(side1, side2, m, Candidate(tier, j, i))
          invariant Represents(pairs, m) && paired1 == pairs.Values
        {
          if i !in paired1 && Test(tier, side1[i], side2[j]) {
            Pair(side1, side2, m, pairs, tier, j, i);
            m := m + {Candidate(tier, j, i)};
            pairs, paired1 := pairs[j := i], paired1 + {i};
            break;
          }
          PassOver(side1, side2, m, pairs, tier, j, i);
          i := i + 1;
        }
        assert GreedyUpTo(side1, side2, m, Candidate(tier, j + 1, 0));
      }
      assert GreedyUpTo(side1, side2, m, Candidate(tier + 1, 0, 0));
    }
  }

  /** The greedy matching is unique, so `IsGreedy` says exactly which rules are paired. */
  lemma {:induction false} GreedyIsUnique(side1: seq<Keyed>, side2: seq<Keyed>, m: set<Candidate>, n: set<Candidate>)
    requires IsGreedy(side1, side2, m) && IsGreedy(side1, side2, n)
    ensures m == n
  {
    forall c
      ensures c in m <==> c in n
    {
      GreedyAgrees(side1, side2, m, n, c);
    }
  }

  lemma {:induction false} GreedyAgrees(
      side1: seq<Keyed>, side2: seq<Keyed>, m: set<Candidate>, n: set<Candidate>, c: Candidate)
    requires IsGreedy(side1, side2, m) && IsGreedy(side1, side2, n)
    ensures c in m <==> c in n
    decreases c.tier, c.j, c.i
  {
    if c in m && c !in n {
      var b :| b in n && Before(b, c) && Share(b, c);
      GreedyAgrees(side1, side2, m, n, b);
    } else if c in n && c !in m {
      var b :| b in m && Before(b, c) && Share(b, c);
      GreedyAgrees(side1, side2, m, n, b);
    }
  }

  // ---------------------------------------------------------------- One key for the two rules of a pair

  function WithName(rule: Dict, name: Option<string>): Dict {
    if name.Some? && name.value != "" then rule["name" := Text(name.value)] else rule
  }

  /** The two rules of a pair as they are stored: a changed name is put back for the diff to report. */
  function StoredRule(own: Keyed, other: Keyed): Dict {
    if Name(own) == Name(other) then own.rule else WithName(own.rule, Name(own))
  }

  function SharedKey(a: Keyed, b: Keyed, positionsFromV1: bool): string {
    if Name(b).Some? && b.key != "" then b.key
    else if Name(a).Some? && a.key != "" then a.key
    else if positionsFromV1 then a.key
    else b.key
  }

  ghost predicate PositionsFromV1(side1: seq<Keyed>, pairs: map<nat, nat>) {
    exists i :: 0 <= i < |side1| && Name(side1[i]).None? && i !in pairs.Values
  }

  ghost predicate ValidPairs(side1: seq<Keyed>, side2: seq<Keyed>, pairs: map<nat, nat>) {
    && (forall j :: j in pairs ==> j < |side2| && pairs[j] < |side1|)
    && (forall j, k :: j in pairs && k in pairs && pairs[j] == pairs[k] ==> j == k)
  }

  /** The rules of the first version that no pair holds, under their own keys. */
  ghost function Unpaired1(side1: seq<Keyed>, pairs: map<nat, nat>, n: nat): (out: map<string, Dict>)
    requires n <= |side1|
  {
    if n == 0 then map[]
    else if n - 1 in pairs.Values then Unpaired1(side1, pairs, n - 1)
    else Unpaired1(side1, pairs, n - 1)[side1[n - 1].key := side1[n - 1].rule]
  }

  /** Both results after the first `n` rules of the second version have been stored, in order. */
  ghost function Rekeyed(side1: seq<Keyed>, side2: seq<Keyed>, pairs: map<nat, nat>, n: nat)
      : (out: (map<string, Dict>, map<string, Dict>))
    requires ValidPairs(side1, side2, pairs) && n <= |side2|
  {
    if n == 0 then (Unpaired1(side1, pairs, |side1|), map[])
    else
      var (out1, out2) := Rekeyed(side1, side2, pairs, n - 1);
      var b := side2[n - 1];
      if n - 1 !in pairs then (out1, out2[b.key := b.rule])
      else
        var a := side1[pairs[n - 1]];
        var shared := SharedKey(a, b, PositionsFromV1(side1, pairs));
        (out1[shared := StoredRule(a, b)], out2[shared := StoredRule(b, a)])
  }

  /** The two versions' rules as the greedy pairing stores them. */
  ghost predicate IsPairing(side1: seq<Keyed>, side2: seq<Keyed>, out1: map<string, Dict>, out2: map<string, Dict>) {
    exists m, pairs | IsGreedy(side1, side2, m) && Represents(pairs, m) && ValidPairs(side1, side2, pairs) ::
      (out1, out2) == Rekeyed(side1, side2, pairs, |side2|)
  }

  lemma GreedyPairsAreValid(side1: seq<Keyed>, side2: seq<Keyed>, m: set<Candidate>, pairs: map<nat, nat>)
    requires IsMatching(side1, side2, m) && Represents(pairs, m)
    ensures ValidPairs(side1, side2, pairs)
  {
    forall j | j in pairs
      ensures j < |side2| && pairs[j] < |side1|
    {
      var t :| Candidate(t, j, pairs[j]) in m;
    }
    forall j, k | j in pairs && k in pairs && pairs[j] == pairs[k]
      ensures j == k
    {
      var t :| Candidate(t, j, pairs[j]) in m;
      var u :| Candidate(u, k, pairs[k]) in m;
      assert Share(Candidate(t, j, pairs[j]), Candidate(u, k, pairs[k]));
    }
  }

  /**
   * The quality rules of both versions, paired rules under one key: `Rekeyed` of the one
   * greedy matching.
   */
  method PairQuality(side1: seq<Keyed>, side2: seq<Keyed>)
      returns (out1: map<string, Dict>, out2: map<string, Dict>, ghost m: set<Candidate>, ghost pairs: map<nat, nat>)
    ensures IsGreedy(side1, side2, m) && Represents(pairs, m) && ValidPairs(side1, side2, pairs)
    ensures (out1, out2) == Rekeyed(side1, side2, pairs, |side2|)
    ensures IsPairing(side1, side2, out1, out2)
  {
    var matched, paired1;
    matched, paired1, m := MatchInTiers(side1, side2);
    pairs := matched;
    GreedyPairsAreValid(side1, side2, m, pairs);
    var positionsFromV1 := exists i :: 0 <= i < |side1| && Name(side1[i]).None? && i !in paired1;
    out1, out2 := map[], map[];
    for i := 0 to |side1|
      invariant out1 == Unpaired1(side1, pairs, i)
    {
      if i !in paired1 {
        out1 := out1[side1[i].key := side1[i].rule];
      }
    }
    for j := 0 to |side2|
      invariant (out1, out2) == Rekeyed(side1, side2, pairs, j)
    {
      if j !in matched {
        out2 := out2[side2[j].key := side2[j].rule];
        continue;
      }
      var a, b := side1[matched[j]], side2[j];
      var rule1, rule2 := a.rule, b.rule;
      if Name(a) != Name(b) {
        rule1, rule2 := WithName(rule1, Name(a)), WithName(rule2, Name(b));
      }
      var shared := SharedKey(a, b, positionsFromV1);
      out1, out2 := out1[shared := rule1], out2[shared := rule2];
    }
  }
}
