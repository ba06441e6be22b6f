/**
 * Which rules of two versions are taken for one another, said of the rules themselves: by id, by name, by
 * content, by what they check, and nameless ones last.
 */
module PairedChecks {
  import opened Wrappers
  import opened JsonTrees
  import opened Thresholds
  import opened QualityRules
  import opened Guarantees
  import opened Pairing

  // ---------------------------------------------------------------- What makes two rules one

  predicate SameId(a: Keyed, b: Keyed) { Get(a.rule, "id") != Null && Get(a.rule, "id") == Get(b.rule, "id") }

  predicate SameName(a: Keyed, b: Keyed) { !IsPositional(a.key) && a.key == b.key }

  /** They run the same check, whatever it is compared with. */
  predicate SameCheck(a: Dict, b: Dict) {
    && Get(a, "type") == Get(b, "type") && Get(a, "metric") == Get(b, "metric") && Get(a, "rule") == Get(b, "rule")
    && Get(a, "query") == Get(b, "query") && Get(a, "engine") == Get(b, "engine")
    && Get(a, "implementation") == Get(b, "implementation")
  }

  predicate BothNameless(a: Keyed, b: Keyed) { IsPositional(a.key) && IsPositional(b.key) }

  /** The reasons to pair two rules, the strongest first. */
  datatype Reason = ById | ByName | ByContent | ByCheck | ByLackOfNames

  predicate Relates(reason: Reason, a: Keyed, b: Keyed) {
    match reason
    case ById => SameId(a, b)
    case ByName => SameName(a, b)
    case ByContent => a.rule == b.rule
    case ByCheck => SameCheck(a.rule, b.rule)
    case ByLackOfNames => BothNameless(a, b)
  }

  function Rank(reason: Reason): nat {
    match reason
    case ById => 0
    case ByName => 1
    case ByContent => 2
    case ByCheck => 3
    case ByLackOfNames => 4
  }

  lemma CheckFieldsAre(a: Dict, b: Dict)
    ensures SameCheck(a, b) <==>
      forall n :: 0 <= n < |CHECK_FIELDS| ==> Get(a, CHECK_FIELDS[n]) == Get(b, CHECK_FIELDS[n])
  {
    assert CHECK_FIELDS[0] == "type" && CHECK_FIELDS[1] == "metric" && CHECK_FIELDS[2] == "rule";
    assert CHECK_FIELDS[3] == "query" && CHECK_FIELDS[4] == "engine" && CHECK_FIELDS[5] == "implementation";
  }

  /** The tiers are the reasons, by rank. */
  lemma TiersAreReasons(reason: Reason, a: Keyed, b: Keyed)
    ensures Test(Rank(reason), a, b) <==> Relates(reason, a, b)
    ensures Rank(reason) < TIERS
  {
    CheckFieldsAre(a.rule, b.rule);
  }

  lemma ReasonOfTier(tier: nat) returns (reason: Reason)
    requires tier < TIERS
    ensures Rank(reason) == tier
  {
    reason := if tier == 0 then ById else if tier == 1 then ByName else if tier == 2 then ByContent
              else if tier == 3 then ByCheck else ByLackOfNames;
  }

  // ---------------------------------------------------------------- Which pairs are made

  /** No stronger reason relates rule `i` or rule `j` to any rule, and this one relates them to no other. */
  ghost predicate IsClaimed(side1: seq<Keyed>, side2: seq<Keyed>, reason: Reason, i: nat, j: nat)
    requires i < |side1| && j < |side2|
  {
    && Relates(reason, side1[i], side2[j])
    && (forall k, r :: 0 <= k < |side2| && Relates(r, side1[i], side2[k]) ==>
          Rank(r) > Rank(reason) || (r == reason && k == j))
    && (forall k, r :: 0 <= k < |side1| && Relates(r, side1[k], side2[j]) ==>
          Rank(r) > Rank(reason) || (r == reason && k == i))
  }

  /** Two rules that nothing else claims are paired, for the strongest reason there is. */
  lemma ClaimedRulesArePaired(
      side1: seq<Keyed>, side2: seq<Keyed>, m: set<Candidate>, reason: Reason, i: nat, j: nat)
    requires IsGreedy(side1, side2, m) && i < |side1| && j < |side2| && IsClaimed(side1, side2, reason, i, j)
    ensures Candidate(Rank(reason), j, i) in m
  {
    var c := Candidate(Rank(reason), j, i);
    TiersAreReasons(reason, side1[i], side2[j]);
    if c !in m {
      var b :| b in m && Before(b, c) && Share(b, c);
      NothingComesBefore(side1, side2, reason, i, j, b);
    }
  }

  lemma NothingComesBefore(
      side1: seq<Keyed>, side2: seq<Keyed>, reason: Reason, i: nat, j: nat, b: Candidate)
    requires i < |side1| && j < |side2| && IsClaimed(side1, side2, reason, i, j) && Applies(side1, side2, b)
    requires Share(b, Candidate(Rank(reason), j, i))
    ensures !Before(b, Candidate(Rank(reason), j, i))
  {
    var r := ReasonOfTier(b.tier);
    TiersAreReasons(r, side1[b.i], side2[b.j]);
    if b.i == i {
      assert Relates(r, side1[i], side2[b.j]);
    } else {
      assert Relates(r, side1[b.i], side2[j]);
    }
  }

  /** Whatever is paired is paired for a reason. */
  lemma PairsHaveAReason(side1: seq<Keyed>, side2: seq<Keyed>, m: set<Candidate>, c: Candidate) returns (reason: Reason)
    requires IsMatching(side1, side2, m) && c in m
    ensures Rank(reason) == c.tier && Relates(reason, side1[c.i], side2[c.j])
  {
    reason := ReasonOfTier(c.tier);
    TiersAreReasons(reason, side1[c.i], side2[c.j]);
  }

  /** What the check counts is judged by the same severity, arguments, unit and thresholds. */
  ghost predicate IsComparedAlike(a: Dict, b: Dict) {
    NoNullValues(a) && NoNullValues(b) && AgreeOn(a, b, ["severity", "arguments", "unit"] + THRESHOLDS)
  }

  /**
   * Two rules that are paired for what they check have the same type, metric, query, engine and implementation;
   * if severity, arguments, unit and thresholds agree too, both are guarantees or neither.
   */
  lemma PairedChecksAgree(
      host: Host, side1: seq<Keyed>, side2: seq<Keyed>, m: set<Candidate>, i: nat, j: nat, atProperty: bool)
    requires IsMatching(side1, side2, m) && Candidate(3, j, i) in m
    ensures i < |side1| && j < |side2| && SameCheck(side1[i].rule, side2[j].rule)
    ensures IsComparedAlike(side1[i].rule, side2[j].rule) ==>
      GuaranteeStatus(host, side1[i].rule, atProperty) == GuaranteeStatus(host, side2[j].rule, atProperty)
  {
    var c := Candidate(3, j, i);
    var a, b := side1[c.i].rule, side2[c.j].rule;
    assert Applies(side1, side2, c);
    CheckFieldsAre(a, b);
    if IsComparedAlike(a, b) {
      ChecksAndTheRest(a, b);
      GuaranteeReadsDecisiveKeys(host, a, b, atProperty);
    }
  }

  lemma ChecksAndTheRest(a: Dict, b: Dict)
    requires SameCheck(a, b) && AgreeOn(a, b, ["severity", "arguments", "unit"] + THRESHOLDS)
    ensures AgreeOn(a, b, DECISIVE + THRESHOLDS)
  {
    var rest := ["severity", "arguments", "unit"] + THRESHOLDS;
    assert rest[0] in rest && rest[1] in rest && rest[2] in rest;
    assert forall n :: 0 <= n < 8 ==> rest[n + 3] == THRESHOLDS[n] && rest[n + 3] in rest;
    forall k | k in DECISIVE + THRESHOLDS
      ensures Get(a, k) == Get(b, k)
    {
      if k in THRESHOLDS {
        var n :| 0 <= n < |THRESHOLDS| && THRESHOLDS[n] == k;
        assert rest[n + 3] == k;
      } else {
        assert k in DECISIVE;
      }
    }
  }

  // ---------------------------------------------------------------- One rule on each side

  /** Two rules with different names and no ids. */
  ghost predicate AreNamedApart(a: Keyed, b: Keyed) {
    && Get(a.rule, "id") == Get(b.rule, "id") == Null
    && !IsPositional(a.key) && !IsPositional(b.key) && a.key != b.key && a.key != "" && b.key != ""
  }

  /**
   * Of two versions with one rule each, under different names, the rules are stored under the name of the second
   * one if and only if they run the same check; otherwise each stays under its own.
   */
  lemma RenamedIffSameCheck(a: Keyed, b: Keyed, out1: map<string, Dict>, out2: map<string, Dict>)
    requires AreNamedApart(a, b) && IsPairing([a], [b], out1, out2)
    ensures SameCheck(a.rule, b.rule) ==>
      && out1 == map[b.key := a.rule["name" := Text(a.key)]]
      && out2 == map[b.key := b.rule["name" := Text(b.key)]]
    ensures !SameCheck(a.rule, b.rule) ==> out1 == map[a.key := a.rule] && out2 == map[b.key := b.rule]
  {
    var m, pairs :| IsGreedy([a], [b], m) && Represents(pairs, m) && ValidPairs([a], [b], pairs)
      && (out1, out2) == Rekeyed([a], [b], pairs, 1);
    OnlyTheirChecks(a, b, m, pairs);
    assert Rekeyed([a], [b], pairs, 0) == (Unpaired1([a], pairs, 1), map[]);
    assert Unpaired1([a], pairs, 0) == map[];
    assert 0 in pairs ==> pairs[0] == 0;
    assert 0 in pairs.Values <==> 0 in pairs;
  }

  lemma OnlyTheirChecks(a: Keyed, b: Keyed, m: set<Candidate>, pairs: map<nat, nat>)
    requires AreNamedApart(a, b) && IsGreedy([a], [b], m) && Represents(pairs, m) && ValidPairs([a], [b], pairs)
    ensures 0 in pairs <==> SameCheck(a.rule, b.rule)
  {
    if 0 in pairs {
      var t :| Candidate(t, 0, pairs[0]) in m;
      var reason := PairsHaveAReason([a], [b], m, Candidate(t, 0, pairs[0]));
    } else if SameCheck(a.rule, b.rule) {
      var reason := if a.rule == b.rule then ByContent else ByCheck;
      assert Relates(reason, a, b);
      assert IsClaimed([a], [b], reason, 0, 0);
      ClaimedRulesArePaired([a], [b], m, reason, 0, 0);
    }
  }
}
