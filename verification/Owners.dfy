/**
 * Pairing the quality rules of whole contracts: of every schema object and property that both
 * versions have, at any depth.
 */
module Owners {
  import opened Wrappers
  import opened JsonTrees
  import opened Keying
  import opened Pairing
  import opened Reordering

  /** Where an owner stands in the one around it: by name, in `map`, or in `items`. */
  datatype Part = Named(name: string) | MapSide(side: string) | Items

  /** A schema object or property after keying; `fields` are its other fields. */
  datatype Owner = Owner(fields: Dict, quality: Option<seq<Keyed>>, parts: map<Part, Owner>)

  /** The same after pairing, when the order of the rules no longer matters. */
  datatype Paired = Paired(fields: Dict, quality: Option<map<string, Dict>>, parts: map<Part, Paired>)

  function AsDict(side: seq<Keyed>): map<string, Dict> {
    if side == [] then map[] else AsDict(side[..|side| - 1])[side[|side| - 1].key := side[|side| - 1].rule]
  }

  function QualityOf(o: Owner): Option<map<string, Dict>> {
    if o.quality.Some? then Some(AsDict(o.quality.value)) else None
  }

  /** An owner that the other version does not have. */
  function Alone(o: Owner): Paired {
    Paired(o.fields, QualityOf(o), map p | p in o.parts :: Alone(o.parts[p]))
  }

  /** Rules are paired only where both owners have some. */
  ghost predicate QualityPaired(a: Owner, b: Owner, x: Paired, y: Paired) {
    if a.quality.Some? && b.quality.Some?
    then x.quality.Some? && y.quality.Some?
      && IsPairing(a.quality.value, b.quality.value, x.quality.value, y.quality.value)
    else x.quality == QualityOf(a) && y.quality == QualityOf(b)
  }

  /** `x` and `y` are the owners `a` and `b`, their rules paired at every depth. */
  ghost predicate OwnersPaired(a: Owner, b: Owner, x: Paired, y: Paired)
    decreases a, 1
  {
    && x.fields == a.fields && y.fields == b.fields && QualityPaired(a, b, x, y)
    && x.parts.Keys == a.parts.Keys && y.parts.Keys == b.parts.Keys
    && forall p :: PartPaired(a, b, x.parts, y.parts, p)
  }

  /** What both versions have is paired, what only one has stays as it is. */
  ghost predicate PartPaired(a: Owner, b: Owner, xs: map<Part, Paired>, ys: map<Part, Paired>, p: Part)
    requires xs.Keys == a.parts.Keys && ys.Keys == b.parts.Keys
    decreases a, 0
  {
    if p in a.parts && p in b.parts then OwnersPaired(a.parts[p], b.parts[p], xs[p], ys[p])
    else (p in a.parts ==> xs[p] == Alone(a.parts[p])) && (p in b.parts ==> ys[p] == Alone(b.parts[p]))
  }

  method PairRules(a: Owner, b: Owner) returns (q1: Option<map<string, Dict>>, q2: Option<map<string, Dict>>)
    ensures QualityPaired(a, b, Paired(a.fields, q1, map[]), Paired(b.fields, q2, map[]))
  {
    q1, q2 := QualityOf(a), QualityOf(b);
    if a.quality.Some? && b.quality.Some? {
      var out1, out2, m, pairs := PairQuality(a.quality.value, b.quality.value);
      q1, q2 := Some(out1), Some(out2);
    }
  }

  method PairOwners(a: Owner, b: Owner) returns (x: Paired, y: Paired)
    ensures OwnersPaired(a, b, x, y)
    decreases a
  {
    var q1, q2 := PairRules(a, b);
    var parts1, parts2 := Alone(a).parts, Alone(b).parts;
    var todo := a.parts.Keys * b.parts.Keys;
    while todo != {}
      invariant todo <= a.parts.Keys * b.parts.Keys
      invariant parts1.Keys == a.parts.Keys && parts2.Keys == b.parts.Keys
      invariant forall p :: p !in todo ==> PartPaired(a, b, parts1, parts2, p)
    {
      var p :| p in todo;
      var part1, part2 := PairOwners(a.parts[p], b.parts[p]);
      parts1, parts2, todo := parts1[p := part1], parts2[p := part2], todo - {p};
    }
    x, y := Paired(a.fields, q1, parts1), Paired(b.fields, q2, parts2);
  }

  // ---------------------------------------------------------------- What pairing leaves alone

  /** The same owners with the same other fields, at any depth. */
  ghost predicate SameButRules(o: Owner, x: Paired) {
    x.fields == o.fields && x.parts.Keys == o.parts.Keys && forall p ::
      p in o.parts ==> SameButRules(o.parts[p], x.parts[p])
  }

  lemma {:induction false} AloneIsTheSame(o: Owner)
    ensures SameButRules(o, Alone(o))
  {
    forall p | p in o.parts
      ensures SameButRules(o.parts[p], Alone(o).parts[p])
    {
      AloneIsTheSame(o.parts[p]);
    }
  }

  /** Pairing touches nothing but rules. */
  lemma {:induction false} OnlyRulesChange(a: Owner, b: Owner, x: Paired, y: Paired)
    requires OwnersPaired(a, b, x, y)
    ensures SameButRules(a, x) && SameButRules(b, y)
  {
    forall p
      ensures p in a.parts ==> SameButRules(a.parts[p], x.parts[p])
      ensures p in b.parts ==> SameButRules(b.parts[p], y.parts[p])
    {
      assert PartPaired(a, b, x.parts, y.parts, p);
      if p in a.parts && p in b.parts {
        OnlyRulesChange(a.parts[p], b.parts[p], x.parts[p], y.parts[p]);
      } else if p in a.parts {
        AloneIsTheSame(a.parts[p]);
      } else if p in b.parts {
        AloneIsTheSame(b.parts[p]);
      }
    }
  }

  // ---------------------------------------------------------------- Reordered contracts

  /** Two keyed lists of the same rules in different order, keyed without a clash. */
  ghost predicate SameRules(side1: seq<Keyed>, side2: seq<Keyed>) {
    exists items1, items2, perm ::
      && Distinguishable(items1) && IsPermutation(items1, items2, perm) && KeysDiffer(items1) && KeysDiffer(items2)
      && side1 == Normalized(items1) && side2 == Normalized(items2)
  }

  /** Two contracts that differ only in the order of the rules of their owners. */
  ghost predicate DifferInOrder(a: Owner, b: Owner) {
    && a.fields == b.fields && a.parts.Keys == b.parts.Keys
    && (a.quality.Some? <==> b.quality.Some?) && (a.quality.Some? ==> SameRules(a.quality.value, b.quality.value))
    && forall p :: p in a.parts ==> DifferInOrder(a.parts[p], b.parts[p])
  }

  lemma SameRulesPairAlike(side1: seq<Keyed>, side2: seq<Keyed>, out1: map<string, Dict>, out2: map<string, Dict>)
    requires SameRules(side1, side2) && IsPairing(side1, side2, out1, out2)
    ensures out1 == out2
  {
    var items1, items2, perm :|
      && Distinguishable(items1) && IsPermutation(items1, items2, perm) && KeysDiffer(items1) && KeysDiffer(items2)
      && side1 == Normalized(items1) && side2 == Normalized(items2);
    var m, pairs :| IsGreedy(side1, side2, m) && Represents(pairs, m) && ValidPairs(side1, side2, pairs)
      && (out1, out2) == Rekeyed(side1, side2, pairs, |side2|);
    ReorderingIsInvisible(items1, items2, perm, m, pairs);
  }

  /** A whole contract against a copy with its rules reordered: paired, the two are one and the same. */
  lemma {:induction false} ReorderedContractsAreEqual(a: Owner, b: Owner, x: Paired, y: Paired)
    requires DifferInOrder(a, b) && OwnersPaired(a, b, x, y)
    ensures x == y
  {
    if a.quality.Some? {
      SameRulesPairAlike(a.quality.value, b.quality.value, x.quality.value, y.quality.value);
    }
    forall p | p in a.parts
      ensures x.parts[p] == y.parts[p]
    {
      assert PartPaired(a, b, x.parts, y.parts, p);
      ReorderedContractsAreEqual(a.parts[p], b.parts[p], x.parts[p], y.parts[p]);
    }
    assert x.parts == y.parts;
  }

  /** An owner that only one version has keeps its rules. */
  lemma {:induction false} RulesAloneStay(side: seq<Keyed>, n: nat)
    requires n < |side| && forall k :: n < k < |side| ==> side[k].key != side[n].key
    ensures side[n].key in AsDict(side) && AsDict(side)[side[n].key] == side[n].rule
  {
    if n < |side| - 1 {
      RulesAloneStay(side[..|side| - 1], n);
    }
  }

  lemma OwnersAloneStay(o: Owner, side: seq<Keyed>)
    ensures Alone(o).fields == o.fields && Alone(o).parts.Keys == o.parts.Keys
    ensures o.quality == Some(side) ==> Alone(o).quality == Some(AsDict(side))
    ensures o.quality.None? ==> Alone(o).quality.None?
  {
  }
}
