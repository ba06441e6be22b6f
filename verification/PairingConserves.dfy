/**
 * What the re-keying of paired quality rules keeps: when no rule is lost, and that
 * after it two rules have the same key exactly if they were paired.
 */
module PairingConserves {
  import opened Wrappers
  import opened JsonTrees
  import opened Pairing

  /** A dict's keys differ, and normalization never makes an empty one. */
  ghost predicate WellKeyed(side: seq<Keyed>) {
    && (forall i :: 0 <= i < |side| ==> side[i].key != "")
    && (forall i, j :: 0 <= i < j < |side| ==> side[i].key != side[j].key)
  }

  ghost predicate Distinct<T>(s: seq<T>) {
    forall i, j :: 0 <= i < j < |s| ==> s[i] != s[j]
  }

  ghost function Elements<T>(s: seq<T>): set<T> {
    set x | x in s
  }

  /** A sequence has as many elements as positions exactly when no element repeats. */
  lemma {:induction false} SizeOfElements<T>(s: seq<T>)
    ensures |Elements(s)| <= |s|
    ensures |Elements(s)| == |s| <==> Distinct(s)
  {
    if s != [] {
      var front, last := s[..|s| - 1], s[|s| - 1];
      SizeOfElements(front);
      assert s == front + [last];
      assert Elements(s) == Elements(front) + {last};
      if last in front {
        var i :| 0 <= i < |front| && front[i] == last;
        assert s[i] == s[|s| - 1];
        assert Elements(s) == Elements(front);
      } else if Distinct(front) {
        assert Distinct(s);
      } else {
        var i, j :| 0 <= i < j < |front| && front[i] == front[j];
        assert s[i] == s[j];
      }
    }
  }

  ghost function Shared(side1: seq<Keyed>, side2: seq<Keyed>, pairs: map<nat, nat>, j: nat): string
    requires ValidPairs(side1, side2, pairs) && j in pairs
  {
    SharedKey(side1[pairs[j]], side2[j], PositionsFromV1(side1, pairs))
  }

  ghost function Partner(pairs: map<nat, nat>, i: nat): (j: nat)
    requires i in pairs.Values
    ensures j in pairs && pairs[j] == i
  {
    var j :| j in pairs && pairs[j] == i;
    j
  }

  /** The key under which rule `i` of the first version is stored, and the rule stored there. */
  ghost function Key1(side1: seq<Keyed>, side2: seq<Keyed>, pairs: map<nat, nat>, i: nat): string
    requires ValidPairs(side1, side2, pairs) && i < |side1|
  {
    if i in pairs.Values then Shared(side1, side2, pairs, Partner(pairs, i)) else side1[i].key
  }

  ghost function Rule1(side1: seq<Keyed>, side2: seq<Keyed>, pairs: map<nat, nat>, i: nat): Dict
    requires ValidPairs(side1, side2, pairs) && i < |side1|
  {
    if i in pairs.Values then StoredRule(side1[i], side2[Partner(pairs, i)]) else side1[i].rule
  }

  ghost function Key2(side1: seq<Keyed>, side2: seq<Keyed>, pairs: map<nat, nat>, j: nat): string
    requires ValidPairs(side1, side2, pairs) && j < |side2|
  {
    if j in pairs then Shared(side1, side2, pairs, j) else side2[j].key
  }

  ghost function Rule2(side1: seq<Keyed>, side2: seq<Keyed>, pairs: map<nat, nat>, j: nat): Dict
    requires ValidPairs(side1, side2, pairs) && j < |side2|
  {
    if j in pairs then StoredRule(side2[j], side1[pairs[j]]) else side2[j].rule
  }

  ghost function Keys1(side1: seq<Keyed>, side2: seq<Keyed>, pairs: map<nat, nat>): (keys: seq<string>)
    requires ValidPairs(side1, side2, pairs)
    ensures |keys| == |side1|
  {
    seq(|side1|, i requires 0 <= i < |side1| => Key1(side1, side2, pairs, i))
  }

  ghost function Keys2(side1: seq<Keyed>, side2: seq<Keyed>, pairs: map<nat, nat>): (keys: seq<string>)
    requires ValidPairs(side1, side2, pairs)
    ensures |keys| == |side2|
  {
    seq(|side2|, j requires 0 <= j < |side2| => Key2(side1, side2, pairs, j))
  }

  // ---------------------------------------------------------------- The stored keys and rules

  ghost predicate OwnKey(side1: seq<Keyed>, pairs: map<nat, nat>, n: nat, k: string)
    requires n <= |side1|
  {
    exists i :: 0 <= i < n && i !in pairs.Values && side1[i].key == k
  }

  ghost predicate SharedKeyBelow(side1: seq<Keyed>, side2: seq<Keyed>, pairs: map<nat, nat>, n: nat, k: string)
    requires ValidPairs(side1, side2, pairs)
  {
    exists j :: 0 <= j < n && j in pairs && Shared(side1, side2, pairs, j) == k
  }

  lemma {:induction false} UnpairedHolds(side1: seq<Keyed>, pairs: map<nat, nat>, n: nat, k: string)
    requires n <= |side1|
    ensures k in Unpaired1(side1, pairs, n) <==> OwnKey(side1, pairs, n, k)
  {
    if n > 0 {
      UnpairedHolds(side1, pairs, n - 1, k);
    }
  }

  lemma {:induction false} UnpairedRule(side1: seq<Keyed>, pairs: map<nat, nat>, n: nat, i: nat)
    requires i < n <= |side1| && WellKeyed(side1) && i !in pairs.Values
    ensures var out := Unpaired1(side1, pairs, n); side1[i].key in out && out[side1[i].key] == side1[i].rule
  {
    if i < n - 1 {
      UnpairedRule(side1, pairs, n - 1, i);
    }
  }

  lemma {:induction false} Rekeyed1Holds(side1: seq<Keyed>, side2: seq<Keyed>, pairs: map<nat, nat>, n: nat, k: string)
    requires ValidPairs(side1, side2, pairs) && n <= |side2|
    ensures k in Rekeyed(side1, side2, pairs, n).0 <==>
              OwnKey(side1, pairs, |side1|, k) || SharedKeyBelow(side1, side2, pairs, n, k)
  {
    if n == 0 {
      UnpairedHolds(side1, pairs, |side1|, k);
    } else {
      Rekeyed1Holds(side1, side2, pairs, n - 1, k);
      if n - 1 in pairs {
        assert SharedKeyBelow(side1, side2, pairs, n, k)
          <==> SharedKeyBelow(side1, side2, pairs, n - 1, k) || Shared(side1, side2, pairs, n - 1) == k;
      } else {
        assert SharedKeyBelow(side1, side2, pairs, n, k) <==> SharedKeyBelow(side1, side2, pairs, n - 1, k);
      }
    }
  }

  /** While keys are distinct, no later pair overwrites the rule stored for rule `i`. */
  lemma {:induction false} Rekeyed1Rule(side1: seq<Keyed>, side2: seq<Keyed>, pairs: map<nat, nat>, n: nat, i: nat)
    requires ValidPairs(side1, side2, pairs) && n <= |side2| && WellKeyed(side1)
    requires i < |side1| && (i in pairs.Values ==> Partner(pairs, i) < n)
    requires Distinct(Keys1(side1, side2, pairs))
    ensures var k, out := Key1(side1, side2, pairs, i), Rekeyed(side1, side2, pairs, n).0;
            k in out && out[k] == Rule1(side1, side2, pairs, i)
  {
    if n == 0 {
      UnpairedRule(side1, pairs, |side1|, i);
    } else if i in pairs.Values && Partner(pairs, i) == n - 1 {
    } else {
      Rekeyed1Rule(side1, side2, pairs, n - 1, i);
      if n - 1 in pairs {
        var keys, i0 := Keys1(side1, side2, pairs), pairs[n - 1];
        assert Partner(pairs, i0) == n - 1;
        assert keys[i] != keys[i0];
      }
    }
  }

  lemma {:induction false} Rekeyed2Holds(side1: seq<Keyed>, side2: seq<Keyed>, pairs: map<nat, nat>, n: nat)
    requires ValidPairs(side1, side2, pairs) && n <= |side2|
    ensures Rekeyed(side1, side2, pairs, n).1.Keys == Elements(Keys2(side1, side2, pairs)[..n])
  {
    var keys := Keys2(side1, side2, pairs);
    if n > 0 {
      Rekeyed2Holds(side1, side2, pairs, n - 1);
      assert keys[..n] == keys[..n - 1] + [keys[n - 1]];
      assert Rekeyed(side1, side2, pairs, n).1
          == Rekeyed(side1, side2, pairs, n - 1).1[keys[n - 1] := Rule2(side1, side2, pairs, n - 1)];
    }
  }

  lemma {:induction false} Rekeyed2Rule(side1: seq<Keyed>, side2: seq<Keyed>, pairs: map<nat, nat>, n: nat, j: nat)
    requires ValidPairs(side1, side2, pairs) && j < n <= |side2|
    requires Distinct(Keys2(side1, side2, pairs))
    ensures var k, out := Key2(side1, side2, pairs, j), Rekeyed(side1, side2, pairs, n).1;
            k in out && out[k] == Rule2(side1, side2, pairs, j)
  {
    if j < n - 1 {
      Rekeyed2Rule(side1, side2, pairs, n - 1, j);
      var keys := Keys2(side1, side2, pairs);
      assert keys[j] != keys[n - 1];
    }
  }

  /** The results hold exactly the keys of the rules, so they are as large as the versions iff no keys clash. */
  lemma StoredUnderTheirKeys(side1: seq<Keyed>, side2: seq<Keyed>, pairs: map<nat, nat>)
    requires ValidPairs(side1, side2, pairs)
    ensures var (out1, out2) := Rekeyed(side1, side2, pairs, |side2|);
            && out1.Keys == Elements(Keys1(side1, side2, pairs))
            && out2.Keys == Elements(Keys2(side1, side2, pairs))
            && (|out1| == |side1| <==> Distinct(Keys1(side1, side2, pairs)))
            && (|out2| == |side2| <==> Distinct(Keys2(side1, side2, pairs)))
  {
    var (out1, out2) := Rekeyed(side1, side2, pairs, |side2|);
    var keys1, keys2 := Keys1(side1, side2, pairs), Keys2(side1, side2, pairs);
    SizeOfElements(keys1);
    SizeOfElements(keys2);
    Rekeyed2Holds(side1, side2, pairs, |side2|);
    assert keys2[..|side2|] == keys2;
    forall k
      ensures k in out1 <==> k in keys1
    {
      Rekeyed1Holds(side1, side2, pairs, |side2|, k);
      Keys1Are(side1, side2, pairs, k);
    }
    assert |out1| == |out1.Keys| && |out2| == |out2.Keys|;
  }

  lemma Keys1Are(side1: seq<Keyed>, side2: seq<Keyed>, pairs: map<nat, nat>, k: string)
    requires ValidPairs(side1, side2, pairs)
    ensures k in Keys1(side1, side2, pairs) <==>
              OwnKey(side1, pairs, |side1|, k) || SharedKeyBelow(side1, side2, pairs, |side2|, k)
  {
    var keys := Keys1(side1, side2, pairs);
    if k in keys {
      var i :| 0 <= i < |side1| && keys[i] == k;
      if i in pairs.Values {
        assert Shared(side1, side2, pairs, Partner(pairs, i)) == k;
      }
    }
    if OwnKey(side1, pairs, |side1|, k) {
      var i :| 0 <= i < |side1| && i !in pairs.Values && side1[i].key == k;
      assert keys[i] == k;
    }
    if SharedKeyBelow(side1, side2, pairs, |side2|, k) {
      var j :| 0 <= j < |side2| && j in pairs && Shared(side1, side2, pairs, j) == k;
      assert Partner(pairs, pairs[j]) == j;
      assert keys[pairs[j]] == k;
    }
  }

  // ---------------------------------------------------------------- When no rule is lost

  ghost predicate Named(side: seq<Keyed>, name: Option<string>) {
    exists i :: 0 <= i < |side| && Name(side[i]) == name
  }

  /**
   * No pair takes a name that another rule still needs: a rule that loses its name leaves it
   * unused in the second version, and a rule that gets a new name gets one that the first version
   * does not use, or uses for a rule whose pair has a name of its own.
   */
  ghost predicate RenamesAreFree(side1: seq<Keyed>, side2: seq<Keyed>, pairs: map<nat, nat>)
    requires ValidPairs(side1, side2, pairs)
  {
    forall j :: j in pairs ==> RenameIsFree(side1, side2, pairs, j)
  }

  ghost predicate RenameIsFree(side1: seq<Keyed>, side2: seq<Keyed>, pairs: map<nat, nat>, j: nat)
    requires ValidPairs(side1, side2, pairs) && j in pairs
  {
    var a, b := Name(side1[pairs[j]]), Name(side2[j]);
    && (a.Some? && b.None? ==> !Named(side2, a))
    && (b.Some? && a != b ==> forall i :: 0 <= i < |side1| && Name(side1[i]) == b ==> KeepsAName(side2, pairs, i))
  }

  ghost predicate KeepsAName(side2: seq<Keyed>, pairs: map<nat, nat>, i: nat)
    requires forall j :: j in pairs ==> j < |side2|
  {
    i in pairs.Values && Name(side2[Partner(pairs, i)]).Some?
  }

  lemma ClashIn1(side1: seq<Keyed>, side2: seq<Keyed>, m: set<Candidate>, pairs: map<nat, nat>, x: nat, y: nat)
    requires IsGreedy(side1, side2, m) && Represents(pairs, m) && ValidPairs(side1, side2, pairs)
    requires WellKeyed(side1) && WellKeyed(side2)
    requires x < |side1| && y < |side1| && RenamesAreFree(side1, side2, pairs)
    requires y in pairs.Values
    requires Key1(side1, side2, pairs, x) == Key1(side1, side2, pairs, y)
    ensures x == y
  {
    var jy := Partner(pairs, y);
    assert jy in pairs && pairs[jy] == y;
    if x in pairs.Values {
      var jx := Partner(pairs, x);
      assert jx in pairs && pairs[jx] == x;
    } else if Name(side1[x]).None? {
      assert PositionsFromV1(side1, pairs);
    }
  }

  lemma ClashIn2(side1: seq<Keyed>, side2: seq<Keyed>, m: set<Candidate>, pairs: map<nat, nat>, x: nat, y: nat)
    requires IsGreedy(side1, side2, m) && Represents(pairs, m) && ValidPairs(side1, side2, pairs)
    requires WellKeyed(side1) && WellKeyed(side2)
    requires x < |side2| && y < |side2| && RenamesAreFree(side1, side2, pairs)
    requires y in pairs
    requires Key2(side1, side2, pairs, x) == Key2(side1, side2, pairs, y)
    ensures x == y
  {
    if x !in pairs && Name(side2[x]).None? {
      NamelessLeftOnOneSide(side1, side2, m, pairs);
    }
  }

  /** Unpaired nameless rules remain on at most one side, so their positions cannot meet. */
  lemma NamelessLeftOnOneSide(side1: seq<Keyed>, side2: seq<Keyed>, m: set<Candidate>, pairs: map<nat, nat>)
    requires IsGreedy(side1, side2, m) && Represents(pairs, m)
    ensures PositionsFromV1(side1, pairs) ==> forall j :: 0 <= j < |side2| && j !in pairs ==> Name(side2[j]).Some?
  {
    if PositionsFromV1(side1, pairs) {
      var i :| 0 <= i < |side1| && Name(side1[i]).None? && i !in pairs.Values;
      forall j | 0 <= j < |side2| && j !in pairs
        ensures Name(side2[j]).Some?
      {
        UnpairedPassNoTest(side1, side2, m, pairs, 4, j, i);
      }
    }
  }

  /** Two rules left unpaired fail every tier's test. */
  lemma UnpairedPassNoTest(
      side1: seq<Keyed>, side2: seq<Keyed>, m: set<Candidate>, pairs: map<nat, nat>, tier: nat, j: nat, i: nat)
    requires IsGreedy(side1, side2, m) && Represents(pairs, m)
    requires tier < TIERS && j < |side2| && i < |side1| && j !in pairs && i !in pairs.Values
    ensures !Test(tier, side1[i], side2[j])
  {
    var c := Candidate(tier, j, i);
    assert c !in m;
    assert forall b :: b in m ==> !Share(b, c);
    assert !Blocked(m, c);
  }

  /**
   * Each version keeps all of its rules exactly when no rename takes a name another rule needs.
   */
  lemma PairingConservesRules(side1: seq<Keyed>, side2: seq<Keyed>, m: set<Candidate>, pairs: map<nat, nat>)
    requires WellKeyed(side1) && WellKeyed(side2)
    requires IsGreedy(side1, side2, m) && Represents(pairs, m) && ValidPairs(side1, side2, pairs)
    ensures var (out1, out2) := Rekeyed(side1, side2, pairs, |side2|);
            |out1| == |side1| && |out2| == |side2| <==> RenamesAreFree(side1, side2, pairs)
  {
    StoredUnderTheirKeys(side1, side2, pairs);
    var keys1, keys2 := Keys1(side1, side2, pairs), Keys2(side1, side2, pairs);
    if RenamesAreFree(side1, side2, pairs) {
      FreeRenamesKeepKeysDistinct(side1, side2, m, pairs);
    } else {
      var j :| j in pairs && !RenameIsFree(side1, side2, pairs, j);
      TakenNameClashes(side1, side2, pairs, j);
    }
  }

  lemma FreeRenamesKeepKeysDistinct(side1: seq<Keyed>, side2: seq<Keyed>, m: set<Candidate>, pairs: map<nat, nat>)
    requires WellKeyed(side1) && WellKeyed(side2)
    requires IsGreedy(side1, side2, m) && Represents(pairs, m) && ValidPairs(side1, side2, pairs)
    requires RenamesAreFree(side1, side2, pairs)
    ensures Distinct(Keys1(side1, side2, pairs)) && Distinct(Keys2(side1, side2, pairs))
  {
    forall x, y | 0 <= x < y < |side1|
      ensures Key1(side1, side2, pairs, x) != Key1(side1, side2, pairs, y)
    {
      if Key1(side1, side2, pairs, x) == Key1(side1, side2, pairs, y) {
        if y in pairs.Values {
          ClashIn1(side1, side2, m, pairs, x, y);
        } else if x in pairs.Values {
          ClashIn1(side1, side2, m, pairs, y, x);
        }
      }
    }
    forall x, y | 0 <= x < y < |side2|
      ensures Key2(side1, side2, pairs, x) != Key2(side1, side2, pairs, y)
    {
      if Key2(side1, side2, pairs, x) == Key2(side1, side2, pairs, y) {
        if y in pairs {
          ClashIn2(side1, side2, m, pairs, x, y);
        } else if x in pairs {
          ClashIn2(side1, side2, m, pairs, y, x);
        }
      }
    }
  }

  lemma TakenNameClashes(side1: seq<Keyed>, side2: seq<Keyed>, pairs: map<nat, nat>, j: nat)
    requires WellKeyed(side1) && WellKeyed(side2) && ValidPairs(side1, side2, pairs) && j in pairs
    requires !RenameIsFree(side1, side2, pairs, j)
    ensures !Distinct(Keys1(side1, side2, pairs)) || !Distinct(Keys2(side1, side2, pairs))
  {
    var keys1, keys2 := Keys1(side1, side2, pairs), Keys2(side1, side2, pairs);
    var a, b := Name(side1[pairs[j]]), Name(side2[j]);
    if a.Some? && b.None? {
      var k :| 0 <= k < |side2| && Name(side2[k]) == a;
      assert keys2[j] == keys2[k] && j != k;
    } else {
      var i :| 0 <= i < |side1| && Name(side1[i]) == b && !KeepsAName(side2, pairs, i);
      assert Partner(pairs, pairs[j]) == j;
      assert keys1[i] == keys1[pairs[j]] && i != pairs[j];
    }
  }

  ghost predicate Stored1(side1: seq<Keyed>, side2: seq<Keyed>, pairs: map<nat, nat>, i: nat)
    requires ValidPairs(side1, side2, pairs) && i < |side1|
  {
    var k, out1 := Key1(side1, side2, pairs, i), Rekeyed(side1, side2, pairs, |side2|).0;
    k in out1 && out1[k] == Rule1(side1, side2, pairs, i)
  }

  ghost predicate Stored2(side1: seq<Keyed>, side2: seq<Keyed>, pairs: map<nat, nat>, j: nat)
    requires ValidPairs(side1, side2, pairs) && j < |side2|
  {
    var k, out2 := Key2(side1, side2, pairs, j), Rekeyed(side1, side2, pairs, |side2|).1;
    k in out2 && out2[k] == Rule2(side1, side2, pairs, j)
  }

  /**
   * When renames are free, every rule is stored under its key, paired rules under one key, and a
   * key occurs in both results only for a pair: the diff compares exactly the paired rules.
   */
  lemma SharedKeysArePairs(side1: seq<Keyed>, side2: seq<Keyed>, m: set<Candidate>, pairs: map<nat, nat>)
    requires WellKeyed(side1) && WellKeyed(side2)
    requires IsGreedy(side1, side2, m) && Represents(pairs, m) && ValidPairs(side1, side2, pairs)
    requires RenamesAreFree(side1, side2, pairs)
    ensures forall i :: 0 <= i < |side1| ==> Stored1(side1, side2, pairs, i)
    ensures forall j :: 0 <= j < |side2| ==> Stored2(side1, side2, pairs, j)
    ensures forall i, j :: 0 <= i < |side1| && 0 <= j < |side2| ==>
      (Key1(side1, side2, pairs, i) == Key2(side1, side2, pairs, j) <==> j in pairs && pairs[j] == i)
  {
    FreeRenamesKeepKeysDistinct(side1, side2, m, pairs);
    forall i | 0 <= i < |side1|
      ensures Stored1(side1, side2, pairs, i)
    {
      Rekeyed1Rule(side1, side2, pairs, |side2|, i);
    }
    forall j | 0 <= j < |side2|
      ensures Stored2(side1, side2, pairs, j)
    {
      Rekeyed2Rule(side1, side2, pairs, |side2|, j);
    }
    forall i, j | 0 <= i < |side1| && 0 <= j < |side2|
      ensures Key1(side1, side2, pairs, i) == Key2(side1, side2, pairs, j) <==> j in pairs && pairs[j] == i
    {
      KeysMeetOnlyInPairs(side1, side2, m, pairs, i, j);
    }
  }

  lemma KeysMeetOnlyInPairs(
      side1: seq<Keyed>, side2: seq<Keyed>, m: set<Candidate>, pairs: map<nat, nat>, i: nat, j: nat)
    requires WellKeyed(side1) && WellKeyed(side2) && i < |side1| && j < |side2|
    requires IsGreedy(side1, side2, m) && Represents(pairs, m) && ValidPairs(side1, side2, pairs)
    requires RenamesAreFree(side1, side2, pairs)
    ensures Key1(side1, side2, pairs, i) == Key2(side1, side2, pairs, j) <==> j in pairs && pairs[j] == i
  {
    if j in pairs {
      assert Partner(pairs, pairs[j]) == j;
      if Key1(side1, side2, pairs, i) == Key2(side1, side2, pairs, j) {
        ClashIn1(side1, side2, m, pairs, i, pairs[j]);
      }
    } else if i in pairs.Values {
      var k := Partner(pairs, i);
      if Key1(side1, side2, pairs, i) == Key2(side1, side2, pairs, j) {
        assert Key1(side1, side2, pairs, i) == Key2(side1, side2, pairs, k);
        ClashIn2(side1, side2, m, pairs, j, k);
      }
    } else {
      UnpairedPassNoTest(side1, side2, m, pairs, 1, j, i);
      UnpairedPassNoTest(side1, side2, m, pairs, 4, j, i);
    }
  }

  /** Where the rules of a pair have different names, neither name is used in the other version. */
  ghost predicate FreshOrSame(side1: seq<Keyed>, side2: seq<Keyed>, e: Candidate) {
    e.i < |side1| && e.j < |side2| &&
    var a, b := Name(side1[e.i]), Name(side2[e.j]);
    a == b || ((b.Some? ==> !Named(side1, b)) && (a.Some? ==> !Named(side2, a)))
  }

  /** That of every pair made by id. */
  ghost predicate IdPairsAreFresh(side1: seq<Keyed>, side2: seq<Keyed>, m: set<Candidate>) {
    forall e :: e in m && e.tier == 0 ==> FreshOrSame(side1, side2, e)
  }

  lemma FreshIdRenamesAreFree(side1: seq<Keyed>, side2: seq<Keyed>, m: set<Candidate>, pairs: map<nat, nat>)
    requires WellKeyed(side1) && WellKeyed(side2)
    requires IsGreedy(side1, side2, m) && Represents(pairs, m) && ValidPairs(side1, side2, pairs)
    requires IdPairsAreFresh(side1, side2, m)
    ensures RenamesAreFree(side1, side2, pairs)
  {
    forall j | j in pairs
      ensures RenameIsFree(side1, side2, pairs, j)
    {
      var i := pairs[j];
      var t :| Candidate(t, j, i) in m;
      if Name(side1[i]) != Name(side2[j]) && t > 0 {
        NewNameIsFresh(side1, side2, m, Candidate(t, j, i));
        OldNameIsFresh(side1, side2, m, Candidate(t, j, i));
      }
    }
  }

  lemma NewNameIsFresh(side1: seq<Keyed>, side2: seq<Keyed>, m: set<Candidate>, c: Candidate)
    requires WellKeyed(side1) && WellKeyed(side2)
    requires IsGreedy(side1, side2, m) && IdPairsAreFresh(side1, side2, m)
    requires c in m && c.tier > 0 && Name(side1[c.i]) != Name(side2[c.j])
    ensures Name(side2[c.j]).Some? ==> !Named(side1, Name(side2[c.j]))
  {
    var b := Name(side2[c.j]);
    forall i | b.Some? && 0 <= i < |side1|
      ensures Name(side1[i]) != b
    {
      var d := Candidate(1, c.j, i);
      assert d in m ==> Share(d, c);
      assert forall e :: e in m && Before(e, d) && Share(e, d) ==> e.i == i && e.tier <= 1 && e.j != c.j;
      assert forall e :: e in m && e.i == i && e.tier <= 1 && e.j != c.j && Name(side1[i]) == b ==> e.tier == 0;
    }
  }

  lemma OldNameIsFresh(side1: seq<Keyed>, side2: seq<Keyed>, m: set<Candidate>, c: Candidate)
    requires WellKeyed(side1) && WellKeyed(side2)
    requires IsGreedy(side1, side2, m) && IdPairsAreFresh(side1, side2, m)
    requires c in m && c.tier > 0 && Name(side1[c.i]) != Name(side2[c.j])
    ensures Name(side1[c.i]).Some? ==> !Named(side2, Name(side1[c.i]))
  {
    var a := Name(side1[c.i]);
    forall j | a.Some? && 0 <= j < |side2|
      ensures Name(side2[j]) != a
    {
      var d := Candidate(1, j, c.i);
      assert d in m ==> Share(d, c);
      assert forall e :: e in m && Before(e, d) && Share(e, d) ==> e.j == j && e.tier <= 1 && e.i != c.i;
      assert forall e :: e in m && e.j == j && e.tier <= 1 && e.i != c.i && Name(side2[j]) == a ==> e.tier == 0;
    }
  }

  /** If every pair made by id keeps its name, nothing is lost. */
  lemma KeptNamesLoseNothing(side1: seq<Keyed>, side2: seq<Keyed>, m: set<Candidate>, pairs: map<nat, nat>)
    requires WellKeyed(side1) && WellKeyed(side2)
    requires IsGreedy(side1, side2, m) && Represents(pairs, m) && ValidPairs(side1, side2, pairs)
    requires forall e :: e in m && e.tier == 0 ==> Name(side1[e.i]) == Name(side2[e.j])
    ensures var (out1, out2) := Rekeyed(side1, side2, pairs, |side2|); |out1| == |side1| && |out2| == |side2|
  {
    FreshIdRenamesAreFree(side1, side2, m, pairs);
    PairingConservesRules(side1, side2, m, pairs);
  }

  /** v1 {id 1 named a; b}, v2 {id 1 named b}: the rename takes a name in use, and v1's rule b is lost. */
  lemma RenamingOntoAUsedNameLosesARule(m: set<Candidate>, pairs: map<nat, nat>, x: Dict, y: Dict)
    requires Get(x, "id") == Text("1") && Get(y, "id") == Null
    requires IsGreedy([Keyed("a", x), Keyed("b", y)], [Keyed("b", x)], m) && Represents(pairs, m)
    requires ValidPairs([Keyed("a", x), Keyed("b", y)], [Keyed("b", x)], pairs)
    ensures Rekeyed([Keyed("a", x), Keyed("b", y)], [Keyed("b", x)], pairs, 1).0 == map["b" := x["name" := Text("a")]]
  {
    var side1, side2 := [Keyed("a", x), Keyed("b", y)], [Keyed("b", x)];
    var c := Candidate(0, 0, 0);
    assert Applies(side1, side2, c);
    assert forall b :: b in m && Before(b, c) ==> !Applies(side1, side2, b);
    assert c in m && pairs[0] == 0;
    assert 1 !in pairs.Values by {
      assert forall j :: j in pairs ==> j == 0;
    }
    assert 0 in pairs.Values;
    assert Unpaired1(side1, pairs, 0) == map[];
    assert Unpaired1(side1, pairs, 1) == map[];
    assert Unpaired1(side1, pairs, 2) == map["b" := y];
  }
}
