/**
 * The promise of the pairing: a reordered list of rules is the same dict of rules once both
 * versions are keyed and paired.
 */
module Reordering {
  import opened Wrappers
  import opened JsonTrees
  import opened Counting
  import opened Keying
  import opened Pairing
  import opened PairingConserves

  // ---------------------------------------------------------------- A reordered copy

  /** `perm` lists the numbers below its length, each once. */
  ghost predicate IsOrder(perm: seq<nat>) {
    && (forall j :: 0 <= j < |perm| ==> perm[j] < |perm|)
    && (forall j, k :: 0 <= j < k < |perm| ==> perm[j] != perm[k])
  }

  /** `items2` lists the rules of `items1` in the order `perm`. */
  ghost predicate IsPermutation(items1: seq<Dict>, items2: seq<Dict>, perm: seq<nat>) {
    && |items1| == |items2| == |perm| && IsOrder(perm)
    && (forall j :: 0 <= j < |perm| ==> items2[j] == items1[perm[j]])
  }

  /** Two keyed rules say the same under the same name, whatever their positions. */
  predicate SameRule(a: Keyed, b: Keyed) { a.rule == b.rule && Name(a) == Name(b) }

  /** `side2` holds the rules of `side1` in the order `perm`. */
  ghost predicate Copies(side1: seq<Keyed>, side2: seq<Keyed>, perm: seq<nat>) {
    && |side1| == |side2| == |perm| && IsOrder(perm)
    && (forall j :: 0 <= j < |perm| ==> SameRule(side1[perm[j]], side2[j]))
  }

  predicate HasId(item: Dict) { Get(item, "id") != Null }

  ghost predicate IdsDiffer(side: seq<Keyed>) {
    forall i, j :: 0 <= i < j < |side| && HasId(side[i].rule) ==> Get(side[i].rule, "id") != Get(side[j].rule, "id")
  }

  /** A keyed version and a reordered copy of it, with their greedy matching. */
  ghost predicate Reordered(side1: seq<Keyed>, side2: seq<Keyed>, perm: seq<nat>, m: set<Candidate>) {
    && WellKeyed(side1) && WellKeyed(side2) && IdsDiffer(side1) && Copies(side1, side2, perm)
    && IsGreedy(side1, side2, m)
  }

  /** A rule with an id or a name is paired with its own copy. */
  lemma MarkedRulesMeetTheirCopies(side1: seq<Keyed>, side2: seq<Keyed>, perm: seq<nat>, m: set<Candidate>, j: nat)
    requires Reordered(side1, side2, perm, m)
    requires j < |side2| && (HasId(side2[j].rule) || Name(side2[j]).Some?)
    ensures Candidate(if HasId(side2[j].rule) then 0 else 1, j, perm[j]) in m
  {
    var c := Candidate(if HasId(side2[j].rule) then 0 else 1, j, perm[j]);
    assert SameRule(side1[perm[j]], side2[j]) && Applies(side1, side2, c);
    forall b | b in m && Before(b, c)
      ensures !Share(b, c)
    {
      MarkedMeetsOwnCopy(side1, side2, perm, m, b);
    }
    assert !Blocked(m, c);
  }

  lemma MarkedMeetsOwnCopy(side1: seq<Keyed>, side2: seq<Keyed>, perm: seq<nat>, m: set<Candidate>, b: Candidate)
    requires Reordered(side1, side2, perm, m) && b in m && b.tier <= 1
    ensures b.i == perm[b.j] && (b.tier == 0 ==> HasId(side2[b.j].rule))
  {
    assert Applies(side1, side2, b);
    assert SameRule(side1[perm[b.j]], side2[b.j]);
  }

  /** The unmarked rules that say exactly what `rule` says. */
  ghost function Alike(side: seq<Keyed>, rule: Dict): set<nat> {
    set i: nat | i < |side| && !HasId(side[i].rule) && Name(side[i]).None? && side[i].rule == rule
  }

  lemma AlikeSize(side1: seq<Keyed>, side2: seq<Keyed>, perm: seq<nat>, rule: Dict)
    requires Copies(side1, side2, perm)
    ensures |Alike(side2, rule)| <= |Alike(side1, rule)|
  {
    var f := map j | j in Alike(side2, rule) :: perm[j];
    InjectiveSize(Alike(side2, rule), f);
    assert f.Values <= Alike(side1, rule);
    SubsetSize(f.Values, Alike(side1, rule));
  }

  /** At tier 2 an unmarked rule meets an unmarked rule that says the same. */
  lemma EqualsAreAlike(side1: seq<Keyed>, side2: seq<Keyed>, perm: seq<nat>, m: set<Candidate>, b: Candidate)
    requires Reordered(side1, side2, perm, m)
    requires b in m && b.tier == 2 && !HasId(side1[b.i].rule) && Name(side1[b.i]).None?
    ensures b.j in Alike(side2, side1[b.i].rule)
  {
    assert Applies(side1, side2, b);
    if Name(side2[b.j]).Some? {
      MarkedRulesMeetTheirCopies(side1, side2, perm, m, b.j);
      assert Share(b, Candidate(1, b.j, perm[b.j]));
    }
  }

  /** The partner that blocks an unmarked rule `i` from rule `j`: another rule that says the same. */
  lemma BlockerIsAlike(side1: seq<Keyed>, side2: seq<Keyed>, perm: seq<nat>, m: set<Candidate>, j: nat, i: nat)
      returns (k: nat)
    requires Reordered(side1, side2, perm, m) && j < |side2| && i in Alike(side1, side2[j].rule)
    requires forall c :: c in m && c.j == j ==> c.tier > 2
    ensures k != j && k in Alike(side2, side2[j].rule) && Candidate(2, k, i) in m
  {
    var c := Candidate(2, j, i);
    assert Applies(side1, side2, c);
    var b :| b in m && Before(b, c) && Share(b, c);
    assert b.j != j && b.i == i;
    assert Applies(side1, side2, b) && b.tier >= 2;
    k := b.j;
    EqualsAreAlike(side1, side2, perm, m, b);
  }

  /** An unmarked rule is paired by tier 2, with a rule that says the same. */
  lemma UnmarkedRulesMeetEquals(side1: seq<Keyed>, side2: seq<Keyed>, perm: seq<nat>, m: set<Candidate>, j: nat)
    requires Reordered(side1, side2, perm, m)
    requires j < |side2| && !HasId(side2[j].rule) && Name(side2[j]).None?
    ensures exists c :: c in m && c.j == j && c.tier <= 2
  {
    if forall c :: c in m && c.j == j ==> c.tier > 2 {
      var rule := side2[j].rule;
      var s1, s2 := Alike(side1, rule), Alike(side2, rule);
      assert j in s2;
      AlikeSize(side1, side2, perm, rule);
      forall i | i in s1
        ensures exists k: nat :: k in s2 - {j} && Candidate(2, k, i) in m
      {
        var k := BlockerIsAlike(side1, side2, perm, m, j, i);
      }
      var f: map<nat, nat> := map i | i in s1 :: var k: nat :| k in s2 - {j} && Candidate(2, k, i) in m; k;
      forall x, y | x in s1 && y in s1 && f[x] == f[y]
        ensures x == y
      {
        assert Share(Candidate(2, f[x], x), Candidate(2, f[y], y));
      }
      InjectiveSize(s1, f);
      SubsetSize(f.Values, s2 - {j});
      assert false;
    }
  }

  /** Every pair joins two rules that say the same under the same name. */
  lemma PairsAreCopies(
      side1: seq<Keyed>, side2: seq<Keyed>, perm: seq<nat>, m: set<Candidate>, pairs: map<nat, nat>, j: nat)
    requires Reordered(side1, side2, perm, m) && Represents(pairs, m) && j < |side2|
    ensures j in pairs && pairs[j] < |side1| && SameRule(side1[pairs[j]], side2[j])
  {
    assert SameRule(side1[perm[j]], side2[j]);
    if HasId(side2[j].rule) || Name(side2[j]).Some? {
      MarkedRulesMeetTheirCopies(side1, side2, perm, m, j);
    } else {
      UnmarkedRulesMeetEquals(side1, side2, perm, m, j);
      var c :| c in m && c.j == j && c.tier <= 2;
      assert Applies(side1, side2, c);
      UnmarkedMeetsUnmarked(side1, side2, perm, m, c);
    }
  }

  lemma UnmarkedMeetsUnmarked(side1: seq<Keyed>, side2: seq<Keyed>, perm: seq<nat>, m: set<Candidate>, c: Candidate)
    requires Reordered(side1, side2, perm, m)
    requires c in m && c.tier <= 2 && !HasId(side2[c.j].rule) && Name(side2[c.j]).None?
    ensures c.tier == 2 && Name(side1[c.i]).None?
  {
    assert Applies(side1, side2, c);
    if Name(side1[c.i]).Some? {
      var k := PositionOf(perm, c.i);
      assert SameRule(side1[perm[k]], side2[k]);
      MarkedRulesMeetTheirCopies(side1, side2, perm, m, k);
      assert Share(c, Candidate(1, k, c.i));
    }
  }

  // ---------------------------------------------------------------- After pairing

  ghost predicate AllPaired(side1: seq<Keyed>, side2: seq<Keyed>, pairs: map<nat, nat>)
    requires ValidPairs(side1, side2, pairs)
  {
    && (forall j :: 0 <= j < |side2| ==> j in pairs && SameRule(side1[pairs[j]], side2[j]))
    && (forall i: nat :: i < |side1| ==> i in pairs.Values)
  }

  lemma EveryRuleMeetsACopy(
      side1: seq<Keyed>, side2: seq<Keyed>, perm: seq<nat>, m: set<Candidate>, pairs: map<nat, nat>)
    requires Reordered(side1, side2, perm, m) && Represents(pairs, m) && ValidPairs(side1, side2, pairs)
    ensures AllPaired(side1, side2, pairs)
  {
    forall j | 0 <= j < |side2|
      ensures j in pairs && SameRule(side1[pairs[j]], side2[j])
    {
      PairsAreCopies(side1, side2, perm, m, pairs, j);
    }
    Onto(pairs, |side1|);
  }

  lemma {:induction false} NothingUnpaired(side1: seq<Keyed>, pairs: map<nat, nat>, n: nat)
    requires n <= |side1| && forall i: nat :: i < |side1| ==> i in pairs.Values
    ensures Unpaired1(side1, pairs, n) == map[]
  {
    if n > 0 {
      NothingUnpaired(side1, pairs, n - 1);
    }
  }

  lemma {:induction false} CopiesStoreTheSame(side1: seq<Keyed>, side2: seq<Keyed>, pairs: map<nat, nat>, n: nat)
    requires ValidPairs(side1, side2, pairs) && n <= |side2| && AllPaired(side1, side2, pairs)
    ensures Rekeyed(side1, side2, pairs, n).0 == Rekeyed(side1, side2, pairs, n).1
  {
    if n == 0 {
      NothingUnpaired(side1, pairs, |side1|);
    } else {
      CopiesStoreTheSame(side1, side2, pairs, n - 1);
      assert SameRule(side1[pairs[n - 1]], side2[n - 1]);
    }
  }

  /** Whatever the pairing makes of a keyed version and a reordered copy of it is one and the same dict. */
  lemma CopiesArePairedAlike(
      side1: seq<Keyed>, side2: seq<Keyed>, perm: seq<nat>, m: set<Candidate>, pairs: map<nat, nat>)
    requires Reordered(side1, side2, perm, m) && Represents(pairs, m) && ValidPairs(side1, side2, pairs)
    ensures var (out1, out2) := Rekeyed(side1, side2, pairs, |side2|); out1 == out2 && |out1| == |side1|
  {
    EveryRuleMeetsACopy(side1, side2, perm, m, pairs);
    CopiesStoreTheSame(side1, side2, pairs, |side2|);
    KeptNamesAreFree(side1, side2, pairs);
    PairingConservesRules(side1, side2, m, pairs);
  }

  lemma KeptNamesAreFree(side1: seq<Keyed>, side2: seq<Keyed>, pairs: map<nat, nat>)
    requires ValidPairs(side1, side2, pairs) && AllPaired(side1, side2, pairs)
    ensures RenamesAreFree(side1, side2, pairs)
  {
    forall j | j in pairs
      ensures RenameIsFree(side1, side2, pairs, j)
    {
      assert SameRule(side1[pairs[j]], side2[j]);
    }
  }

  /** Rules of one id have one name in both versions. */
  ghost predicate IdsKeepNames(side1: seq<Keyed>, side2: seq<Keyed>) {
    forall i, j :: 0 <= i < |side1| && 0 <= j < |side2| && Test(0, side1[i], side2[j]) ==>
      Name(side1[i]) == Name(side2[j])
  }

  ghost predicate NamesAreKeys(side: seq<Keyed>) {
    forall i :: 0 <= i < |side| ==> Get(side[i].rule, "name") == Null
  }

  /** If the pairing makes one dict of both versions, the second is a reordered copy of the first. */
  lemma EqualAreCopies(
      side1: seq<Keyed>, side2: seq<Keyed>, m: set<Candidate>, pairs: map<nat, nat>) returns (perm: seq<nat>)
    requires WellKeyed(side1) && WellKeyed(side2) && NamesAreKeys(side1) && NamesAreKeys(side2)
    requires IsGreedy(side1, side2, m) && Represents(pairs, m) && ValidPairs(side1, side2, pairs)
    requires RenamesAreFree(side1, side2, pairs)
    requires var (out1, out2) := Rekeyed(side1, side2, pairs, |side2|); out1 == out2
    ensures Copies(side1, side2, perm)
  {
    PairingConservesRules(side1, side2, m, pairs);
    forall j | 0 <= j < |side2|
      ensures j in pairs && SameRule(side1[pairs[j]], side2[j])
    {
      StoredAlikeIsPaired(side1, side2, m, pairs, j);
    }
    perm := OrderOf(side1, side2, pairs);
  }

  lemma OrderOf(side1: seq<Keyed>, side2: seq<Keyed>, pairs: map<nat, nat>) returns (perm: seq<nat>)
    requires ValidPairs(side1, side2, pairs) && |side1| == |side2|
    requires forall j :: 0 <= j < |side2| ==> j in pairs && SameRule(side1[pairs[j]], side2[j])
    ensures Copies(side1, side2, perm)
  {
    perm := seq(|side2|, j requires 0 <= j < |side2| => pairs[j]);
    forall j, k | 0 <= j < k < |perm|
      ensures perm[j] != perm[k]
    {
      assert pairs[j] != pairs[k];
    }
  }

  lemma StoredAlikeIsPaired(side1: seq<Keyed>, side2: seq<Keyed>, m: set<Candidate>, pairs: map<nat, nat>, j: nat)
    requires WellKeyed(side1) && WellKeyed(side2) && NamesAreKeys(side1) && NamesAreKeys(side2)
    requires IsGreedy(side1, side2, m) && Represents(pairs, m) && ValidPairs(side1, side2, pairs)
    requires RenamesAreFree(side1, side2, pairs) && j < |side2|
    requires var (out1, out2) := Rekeyed(side1, side2, pairs, |side2|); out1 == out2
    ensures j in pairs && SameRule(side1[pairs[j]], side2[j])
  {
    FreeRenamesKeepKeysDistinct(side1, side2, m, pairs);
    StoredUnderTheirKeys(side1, side2, pairs);
    Rekeyed2Rule(side1, side2, pairs, |side2|, j);
    var i := KeyOfBoth(side1, side2, pairs, j);
    Rekeyed1Rule(side1, side2, pairs, |side2|, i);
    KeysMeetOnlyInPairs(side1, side2, m, pairs, i, j);
    PairStoresAlike(side1, side2, pairs, i, j);
  }

  lemma KeyOfBoth(side1: seq<Keyed>, side2: seq<Keyed>, pairs: map<nat, nat>, j: nat) returns (i: nat)
    requires ValidPairs(side1, side2, pairs) && j < |side2| && Stored2(side1, side2, pairs, j)
    requires var (out1, out2) := Rekeyed(side1, side2, pairs, |side2|);
      out1 == out2 && out1.Keys == Elements(Keys1(side1, side2, pairs))
    ensures i < |side1| && Key1(side1, side2, pairs, i) == Key2(side1, side2, pairs, j)
  {
    var keys, key := Keys1(side1, side2, pairs), Key2(side1, side2, pairs, j);
    assert key in keys;
    i :| i < |side1| && keys[i] == key;
  }

  lemma PairStoresAlike(side1: seq<Keyed>, side2: seq<Keyed>, pairs: map<nat, nat>, i: nat, j: nat)
    requires WellKeyed(side1) && WellKeyed(side2) && NamesAreKeys(side1) && NamesAreKeys(side2)
    requires ValidPairs(side1, side2, pairs) && i < |side1| && j in pairs && pairs[j] == i
    requires Rule1(side1, side2, pairs, i) == Rule2(side1, side2, pairs, j)
    ensures SameRule(side1[i], side2[j])
  {
    assert Partner(pairs, i) == j;
    StoredAlikeIsTheSame(side1[i], side2[j]);
  }

  lemma StoredAlikeIsTheSame(a: Keyed, b: Keyed)
    requires StoredRule(a, b) == StoredRule(b, a) && Get(a.rule, "name") == Null && Get(b.rule, "name") == Null
    requires a.key != "" && b.key != ""
    ensures SameRule(a, b)
  {
    StoredName(a, b);
    StoredName(b, a);
  }

  lemma StoredName(a: Keyed, b: Keyed)
    requires Get(a.rule, "name") == Null && a.key != ""
    ensures Get(StoredRule(a, b), "name") == if Name(a) != Name(b) && Name(a).Some? then Text(a.key) else Null
  {
  }

  /** The pairing makes one dict of two keyed versions exactly if one is a reordered copy of the other. */
  lemma PairedAlikeIffCopies(side1: seq<Keyed>, side2: seq<Keyed>, m: set<Candidate>, pairs: map<nat, nat>)
    requires WellKeyed(side1) && WellKeyed(side2) && NamesAreKeys(side1) && NamesAreKeys(side2)
    requires IdsDiffer(side1) && IdsKeepNames(side1, side2)
    requires IsGreedy(side1, side2, m) && Represents(pairs, m) && ValidPairs(side1, side2, pairs)
    ensures var (out1, out2) := Rekeyed(side1, side2, pairs, |side2|);
            out1 == out2 <==> exists perm :: Copies(side1, side2, perm)
  {
    var (out1, out2) := Rekeyed(side1, side2, pairs, |side2|);
    if out1 == out2 {
      FreshIdRenamesAreFree(side1, side2, m, pairs);
      var perm := EqualAreCopies(side1, side2, m, pairs);
    }
    if perm :| Copies(side1, side2, perm) {
      CopiesArePairedAlike(side1, side2, perm, m, pairs);
    }
  }

  // ---------------------------------------------------------------- Reordered lists

  lemma NormalizedNames(items: seq<Dict>)
    ensures NamesAreKeys(Normalized(items)) && WellKeyed(Normalized(items))
  {
    NormalizedLosesClashes(items);
    forall k | 0 <= k < |Normalized(items)|
      ensures Get(Normalized(items)[k].rule, "name") == Null
    {
      var i := StoredIsARule(items, k);
      EntryKeepsId(items[i]);
    }
  }

  lemma NormalizedIdsDiffer(items: seq<Dict>)
    requires Distinguishable(items)
    ensures IdsDiffer(Normalized(items))
  {
    NormalizedLosesClashes(items);
    var side := Normalized(items);
    forall k, l | 0 <= k < l < |side| && HasId(side[k].rule)
      ensures Get(side[k].rule, "id") != Get(side[l].rule, "id")
    {
      var x := StoredIsARule(items, k);
      var y := StoredIsARule(items, l);
      EntryKeepsId(items[x]);
      EntryKeepsId(items[y]);
      assert x != y;
      assert x < y || y < x;
    }
  }

  /** Rules of one id are one rule, and have one name. */
  lemma SameIdSameName(items1: seq<Dict>, items2: seq<Dict>, perm: seq<nat>, i: nat, j: nat)
    requires Distinguishable(items1) && IsPermutation(items1, items2, perm)
    requires i < |Normalized(items1)| && j < |Normalized(items2)|
    requires Test(0, Normalized(items1)[i], Normalized(items2)[j])
    ensures Name(Normalized(items1)[i]) == Name(Normalized(items2)[j])
  {
    var x := StoredIsARule(items1, i);
    var y := StoredIsARule(items2, j);
    EntryKeepsId(items1[x]);
    EntryKeepsId(items2[y]);
    assert x == perm[y];
    PositionalKeyIsPositional(x);
    PositionalKeyIsPositional(y);
  }

  lemma OneIdOneName(items1: seq<Dict>, items2: seq<Dict>, perm: seq<nat>)
    requires Distinguishable(items1) && IsPermutation(items1, items2, perm)
    ensures IdsKeepNames(Normalized(items1), Normalized(items2))
  {
    forall i, j | 0 <= i < |Normalized(items1)| && 0 <= j < |Normalized(items2)|
        && Test(0, Normalized(items1)[i], Normalized(items2)[j])
      ensures Name(Normalized(items1)[i]) == Name(Normalized(items2)[j])
    {
      SameIdSameName(items1, items2, perm, i, j);
    }
  }

  lemma PairingKeepsBothSides(
      items1: seq<Dict>, items2: seq<Dict>, perm: seq<nat>, m: set<Candidate>, pairs: map<nat, nat>)
    requires Distinguishable(items1) && IsPermutation(items1, items2, perm)
    requires IsGreedy(Normalized(items1), Normalized(items2), m) && Represents(pairs, m)
    requires ValidPairs(Normalized(items1), Normalized(items2), pairs)
    ensures var (out1, out2) := Rekeyed(Normalized(items1), Normalized(items2), pairs, |Normalized(items2)|);
            |out1| == |Normalized(items1)| && |out2| == |Normalized(items2)|
  {
    var side1, side2 := Normalized(items1), Normalized(items2);
    NormalizedNames(items1);
    NormalizedNames(items2);
    OneIdOneName(items1, items2, perm);
    FreshIdRenamesAreFree(side1, side2, m, pairs);
    PairingConservesRules(side1, side2, m, pairs);
  }

  /**
   * Exactly when a reordering is invisible: the diff sees no change if and only if the rules that keying
   * kept of the second list are, by name and content, those that it kept of the first.
   */
  lemma InvisibleIffSurvivorsMatch(
      items1: seq<Dict>, items2: seq<Dict>, perm: seq<nat>, m: set<Candidate>, pairs: map<nat, nat>)
    requires Distinguishable(items1) && IsPermutation(items1, items2, perm)
    requires IsGreedy(Normalized(items1), Normalized(items2), m) && Represents(pairs, m)
    requires ValidPairs(Normalized(items1), Normalized(items2), pairs)
    ensures var (out1, out2) := Rekeyed(Normalized(items1), Normalized(items2), pairs, |Normalized(items2)|);
            out1 == out2 <==> exists order :: Copies(Normalized(items1), Normalized(items2), order)
  {
    NormalizedNames(items1);
    NormalizedNames(items2);
    NormalizedIdsDiffer(items1);
    OneIdOneName(items1, items2, perm);
    PairedAlikeIffCopies(Normalized(items1), Normalized(items2), m, pairs);
  }

  /** Keyed without a clash, a reordered list is a reordered copy. */
  lemma KeyedListsAreCopies(items1: seq<Dict>, items2: seq<Dict>, perm: seq<nat>)
    requires IsPermutation(items1, items2, perm) && KeysDiffer(items1) && KeysDiffer(items2)
    ensures Copies(Normalized(items1), Normalized(items2), perm)
  {
    NormalizedKeepsEveryRule(items1);
    NormalizedKeepsEveryRule(items2);
    forall j | 0 <= j < |perm|
      ensures SameRule(Normalized(items1)[perm[j]], Normalized(items2)[j])
    {
      PositionalKeyIsPositional(j);
      PositionalKeyIsPositional(perm[j]);
    }
  }

  /**
   * A contract against a reordered copy of itself: after pairing, both lists of rules are one
   * and the same dict, so the diff sees no change.
   */
  lemma ReorderingIsInvisible(
      items1: seq<Dict>, items2: seq<Dict>, perm: seq<nat>, m: set<Candidate>, pairs: map<nat, nat>)
    requires Distinguishable(items1) && IsPermutation(items1, items2, perm)
    requires KeysDiffer(items1) && KeysDiffer(items2)
    requires IsGreedy(Normalized(items1), Normalized(items2), m) && Represents(pairs, m)
    requires ValidPairs(Normalized(items1), Normalized(items2), pairs)
    ensures var (out1, out2) := Rekeyed(Normalized(items1), Normalized(items2), pairs, |Normalized(items2)|);
            out1 == out2 && |out1| == |items1|
  {
    NormalizedNames(items1);
    NormalizedNames(items2);
    NormalizedIdsDiffer(items1);
    KeyedListsAreCopies(items1, items2, perm);
    NormalizedLosesClashes(items1);
    CopiesArePairedAlike(Normalized(items1), Normalized(items2), perm, m, pairs);
  }

  /** In particular if no rule is named like a position, and no two share a name or an id. */
  lemma PlainReorderingIsInvisible(
      items1: seq<Dict>, items2: seq<Dict>, perm: seq<nat>, m: set<Candidate>, pairs: map<nat, nat>)
    requires Distinguishable(items1) && IsPermutation(items1, items2, perm)
    requires forall i :: 0 <= i < |items1| && Get(items1[i], "name").Text? ==>
      !IsPositional(Get(items1[i], "name").text)
    requires IsGreedy(Normalized(items1), Normalized(items2), m) && Represents(pairs, m)
    requires ValidPairs(Normalized(items1), Normalized(items2), pairs)
    ensures var (out1, out2) := Rekeyed(Normalized(items1), Normalized(items2), pairs, |Normalized(items2)|);
            out1 == out2 && |out1| == |items1|
  {
    ReorderedAreDistinguishable(items1, items2, perm);
    PlainNamesDiffer(items1);
    PlainNamesDiffer(items2);
    ReorderingIsInvisible(items1, items2, perm, m, pairs);
  }

  lemma ReorderedAreDistinguishable(items1: seq<Dict>, items2: seq<Dict>, perm: seq<nat>)
    requires Distinguishable(items1) && IsPermutation(items1, items2, perm)
    ensures Distinguishable(items2)
  {
    forall j, k | 0 <= j < k < |items2|
      ensures HasName(items2[j]) ==> Get(items2[j], "name") != Get(items2[k], "name")
      ensures Get(items2[j], "id") != Null ==> Get(items2[j], "id") != Get(items2[k], "id")
    {
      var x, y := if perm[j] < perm[k] then perm[j] else perm[k], if perm[j] < perm[k] then perm[k] else perm[j];
      assert x < y;
    }
  }

  /** If one of the two lists is keyed without a clash, the diff sees no change exactly if the other one is too. */
  lemma InvisibleIffKeysDiffer(
      items1: seq<Dict>, items2: seq<Dict>, perm: seq<nat>, m: set<Candidate>, pairs: map<nat, nat>)
    requires Distinguishable(items1) && IsPermutation(items1, items2, perm)
    requires IsGreedy(Normalized(items1), Normalized(items2), m) && Represents(pairs, m)
    requires ValidPairs(Normalized(items1), Normalized(items2), pairs)
    ensures var (out1, out2) := Rekeyed(Normalized(items1), Normalized(items2), pairs, |Normalized(items2)|);
            KeysDiffer(items1) || KeysDiffer(items2) ==> (out1 == out2 <==> KeysDiffer(items1) && KeysDiffer(items2))
  {
    if KeysDiffer(items1) && KeysDiffer(items2) {
      ReorderingIsInvisible(items1, items2, perm, m, pairs);
    } else {
      NormalizedLosesClashes(items1);
      NormalizedLosesClashes(items2);
      PairingKeepsBothSides(items1, items2, perm, m, pairs);
    }
  }
}
