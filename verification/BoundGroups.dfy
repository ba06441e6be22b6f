/**
 * What the entries of an inclusive bound and its exclusive partner say together.
 */
module BoundGroups {
  import opened Wrappers
  import opened JsonTrees
  import opened Breaking
  import opened NumberProbes
  import opened QualityRules
  import opened BoundRules

  /** The bound `key` as the property's values compare with it. */
  function Scaled(host: Host, options: Dict, propertyType: Json, key: string): Limit {
    Scale(LimitOf(host, options, key), propertyType)
  }

  /** An integer rejected by a bound, on the far side of it. */
  function Beyond(form: Form, v: real): real {
    if form.lower then (v.Floor - 1) as real else (Ceiling(v) + 1) as real
  }

  lemma BoundsRejectSomething(form: Form, v: real)
    ensures InDomain(Beyond(form, v), true) && !Accepts(form, Limit(v), Beyond(form, v))
  {
  }

  /**
   * If no bound of the group is merely updated, the carrier's entry reports the true change of
   * what the group accepts and every other entry is untested.
   */
  lemma ReplacedGroupReportsOnce(host: Host, before: Dict, after: Dict, propertyType: Json, key: string)
    requires IsGroup(Group(key)) && KindOf(before, after, key).Some?
    requires forall k :: k in Group(key) ==> KindOf(before, after, k) != Some(Updated)
    requires Readable(host, before, Group(key)) && Readable(host, after, Group(key))
    ensures Reported(host, before, after, propertyType, key)
         == Graded(if Some(key) == Carrier(before, after, Group(key))
                   then TrueGroupDirection(host, before, after, propertyType, Group(key)) else Untested)
  {
    var group := Group(key);
    assert key in group;
    if PartnerSet(key, group, before, after) {
      if Some(key) == Carrier(before, after, group) {
        ReplacedDirectionIsExact(host, before, after, propertyType, key);
      }
    } else {
      LoneBoundCarries(host, before, after, propertyType, key);
    }
  }

  /** A bound added or removed without a partner carries its own change. */
  lemma LoneBoundCarries(host: Host, before: Dict, after: Dict, propertyType: Json, key: string)
    requires IsGroup(Group(key)) && KindOf(before, after, key) in [Some(Added), Some(Removed)]
    requires !PartnerSet(key, Group(key), before, after)
    requires Readable(host, before, Group(key)) && Readable(host, after, Group(key))
    ensures Some(key) == Carrier(before, after, Group(key))
    ensures Reported(host, before, after, propertyType, key)
         == Graded(TrueGroupDirection(host, before, after, propertyType, Group(key)))
  {
    var group := Group(key);
    GroupOf(key);
    var n := if key == group[0] then 0 else 1;
    assert group[n] == key && group[1 - n] != key;
    LoneBoundIsTheCarrier(before, after, group, n);
    LoneBoundIsTrue(host, before, after, propertyType, group, n);
  }

  lemma LoneBoundIsTheCarrier(before: Dict, after: Dict, group: seq<string>, n: nat)
    requires IsGroup(group) && n < 2 && Get(before, group[n]) != Get(after, group[n])
    requires Get(before, group[1 - n]) == Get(after, group[1 - n])
    ensures Some(group[n]) == Carrier(before, after, group)
  {
    CarrierChanged(before, after, group);
  }

  /** Without a partner, the group accepts what its one bound accepts. */
  lemma LoneBoundDecides(host: Host, options: Dict, propertyType: Json, group: seq<string>, n: nat)
    requires IsGroup(group) && n < 2 && Get(options, group[1 - n]) == Null
    ensures forall y ::
      GroupAccepts(host, options, group, propertyType)(y)
        == Accepts(FormOf(group[n]), Scaled(host, options, propertyType, group[n]), y)
  {
    forall y
      ensures GroupAccepts(host, options, group, propertyType)(y)
        == Accepts(FormOf(group[n]), Scaled(host, options, propertyType, group[n]), y)
    {
      GroupAcceptsBoth(host, options, group, propertyType, y);
    }
  }

  /** A bound added or removed without a partner tightens or loosens what is accepted. */
  lemma LoneBoundIsTrue(host: Host, before: Dict, after: Dict, propertyType: Json, group: seq<string>, n: nat)
    requires IsGroup(group) && n < 2 && Get(before, group[1 - n]) == Get(after, group[1 - n]) == Null
    requires Get(before, group[n]) == Null || Get(after, group[n]) == Null
    requires Get(before, group[n]) != Get(after, group[n])
    requires Readable(host, before, group) && Readable(host, after, group)
    ensures TrueGroupDirection(host, before, after, propertyType, group)
         == if Get(before, group[n]) == Null then Tightens else Loosens
  {
    var accepts1, accepts2 := GroupAccepts(host, before, group, propertyType),
      GroupAccepts(host, after, group, propertyType);
    LoneBoundDecides(host, before, propertyType, group, n);
    LoneBoundDecides(host, after, propertyType, group, n);
    var added := Get(before, group[n]) == Null;
    var limit := Scaled(host, if added then after else before, propertyType, group[n]);
    assert limit.Limit? && Scaled(host, if added then before else after, propertyType, group[n]).Absent?;
    var x := Beyond(FormOf(group[n]), limit.value);
    BoundsRejectSomething(FormOf(group[n]), limit.value);
    if added {
      LessIsTightening(accepts1, accepts2, HoldsIntegers(propertyType), x);
    } else {
      LessIsTightening(accepts2, accepts1, HoldsIntegers(propertyType), x);
    }
  }

  // ---------------------------------------------------------------- Groups with an updated bound

  predicate Says(host: Host, before: Dict, after: Dict, propertyType: Json, key: string, d: Direction) {
    && KindOf(before, after, key).Some?
    && (Reported(host, before, after, propertyType, key) == Graded(d)
      || Reported(host, before, after, propertyType, key) == Graded(Both))
  }

  ghost predicate SomeEntry(
      host: Host, before: Dict, after: Dict, propertyType: Json, group: seq<string>, d: Direction)
  {
    exists k :: k in group && Says(host, before, after, propertyType, k, d)
  }

  /** Whatever the group's accepted set gained or lost, some entry reports. */
  ghost predicate Covered(host: Host, before: Dict, after: Dict, propertyType: Json, group: seq<string>) {
    var t := TrueGroupDirection(host, before, after, propertyType, group);
    && (t in [Tightens, Both] ==> SomeEntry(host, before, after, propertyType, group, Tightens))
    && (t in [Loosens, Both] ==> SomeEntry(host, before, after, propertyType, group, Loosens))
  }

  /** The first integer a lower bound accepts, or the last one an upper bound accepts. */
  function Edge(form: Form, v: real): int {
    match form
    case Form(true, false) => Ceiling(v)
    case Form(true, true) => v.Floor + 1
    case Form(false, false) => v.Floor
    case Form(false, true) => Ceiling(v) - 1
  }

  /** Bound `g` at `w` rejects something that bound `f` at `v`, on the same side, accepts. */
  predicate Cuts(f: Form, v: real, g: Form, w: real, integers: bool) {
    if integers then (if f.lower then Edge(g, w) > Edge(f, v) else Edge(g, w) < Edge(f, v))
    else (if f.lower then w > v else w < v) || (v == w && g.exclusive && !f.exclusive)
  }

  lemma CutsIsExact(f: Form, v: real, g: Form, w: real, integers: bool)
    requires f.lower == g.lower
    ensures Cuts(f, v, g, w, integers) <==>
      exists x :: InDomain(x, integers) && Accepts(f, Limit(v), x) && !Accepts(g, Limit(w), x)
  {
    if integers {
      EdgeSeparates(f, v);
      EdgeSeparates(g, w);
      if Cuts(f, v, g, w, true) {
        assert InDomain(Edge(f, v) as real, true);
      }
    } else if Cuts(f, v, g, w, false) {
      var x := if v == w then v else (v + w) / 2.0;
      assert InDomain(x, false) && Accepts(f, Limit(v), x) && !Accepts(g, Limit(w), x);
    }
  }

  /** A bound accepts the integers on its side of its edge. */
  lemma EdgeSeparates(f: Form, v: real)
    ensures forall x :: InDomain(x, true) ==>
      (Accepts(f, Limit(v), x) <==> if f.lower then x.Floor >= Edge(f, v) else x.Floor <= Edge(f, v))
  {
  }

  function Partner(key: string): string {
    if key == "minimum" then "exclusiveMinimum"
    else if key == "exclusiveMinimum" then "minimum"
    else if key == "maximum" then "exclusiveMaximum"
    else "maximum"
  }

  function Moved(host: Host, before: Dict, after: Dict, key: string): Direction {
    MovedDirection(key, Parse(host, ValueText(host, before, key)), Parse(host, ValueText(host, after, key)))
  }

  /**
   * The bound `key` is updated and its partner's change is hidden behind it: an exclusive partner
   * is added that rejects some old values while `key` does not tighten, or a partner is removed
   * that rejected some of the new values while `key` does not loosen.
   */
  ghost predicate Hides(host: Host, before: Dict, after: Dict, propertyType: Json, key: string)
  {
    var other := Partner(key);
    && KindOf(before, after, key) == Some(Updated)
    && ((KindOf(before, after, other) == Some(Added) && !FormOf(key).exclusive
          && Moved(host, before, after, key) != Tightens
          && CutsAway(host, before, after, propertyType, key, other))
      || (KindOf(before, after, other) == Some(Removed)
          && Moved(host, before, after, key) != Loosens
          && CutsAway(host, after, before, propertyType, key, other)))
  }

  /** The bound `other` of one version rejects something that the bound `key` of the other accepts. */
  ghost predicate CutsAway(host: Host, one: Dict, two: Dict, propertyType: Json, key: string, other: string) {
    var v, w := Scaled(host, one, propertyType, key), Scaled(host, two, propertyType, other);
    v.Limit? && w.Limit? && Cuts(FormOf(key), v.value, FormOf(other), w.value, HoldsIntegers(propertyType))
  }

  lemma GroupOf(key: string)
    requires IsGroup(Group(key))
    ensures key == Group(key)[0] || key == Group(key)[1]
    ensures Partner(key) == if key == Group(key)[0] then Group(key)[1] else Group(key)[0]
    ensures Group(Partner(key)) == Group(key) && Partner(Partner(key)) == key && Partner(key) != key
    ensures FormOf(key) == Form(Group(key) == MINIMA, key == Group(key)[1])
  {
  }

  lemma LimitIsParsed(host: Host, options: Dict, key: string)
    requires LimitOf(host, options, key).Limit?
    ensures Parse(host, ValueText(host, options, key)) == Reads(LimitOf(host, options, key).value)
  {
  }

  lemma MoveIsNested(key: string, v: real, w: real, x: real)
    requires IsGroup(Group(key))
    ensures var move := MovedDirection(key, Reads(v), Reads(w));
      var a, b := Accepts(FormOf(key), Limit(v), x), Accepts(FormOf(key), Limit(w), x);
      move in [Tightens, Loosens, Untested] && (move != Tightens ==> a ==> b) && (move != Loosens ==> b ==> a)
  {
    GroupOf(key);
  }

  /** A date compares with its midnights in seconds as with its days. */
  lemma ScaledAccepts(form: Form, v: real, propertyType: Json, x: real)
    ensures Accepts(form, Scale(Limit(v), propertyType), x) ==
      Accepts(form, Limit(v), if propertyType == Text("date") then x * 86400.0 else x)
  {
  }

  /** A move accepts less, more or the same, as its direction says. */
  lemma MovesAreNested(host: Host, before: Dict, after: Dict, propertyType: Json, key: string, x: real)
    requires IsGroup(Group(key)) && Get(before, key) != Null && Get(after, key) != Null
    requires Readable(host, before, Group(key)) && Readable(host, after, Group(key))
    ensures var a, b := Accepts(FormOf(key), Scaled(host, before, propertyType, key), x),
      Accepts(FormOf(key), Scaled(host, after, propertyType, key), x);
      && (Moved(host, before, after, key) != Tightens ==> a ==> b)
      && (Moved(host, before, after, key) != Loosens ==> b ==> a)
    ensures Moved(host, before, after, key) in [Tightens, Loosens, Untested]
  {
    GroupOf(key);
    var v, w := LimitOf(host, before, key), LimitOf(host, after, key);
    assert v.Limit? && w.Limit?;
    LimitIsParsed(host, before, key);
    LimitIsParsed(host, after, key);
    ScaledAccepts(FormOf(key), v.value, propertyType, x);
    ScaledAccepts(FormOf(key), w.value, propertyType, x);
    MoveIsNested(key, v.value, w.value, if propertyType == Text("date") then x * 86400.0 else x);
  }

  /** When both bounds of a group change, the first one set in v2 carries the grade, else the inclusive one. */
  lemma CarrierOfTwo(before: Dict, after: Dict, group: seq<string>)
    requires IsGroup(group) && forall k :: k in group ==> Get(before, k) != Get(after, k)
    ensures Carrier(before, after, group)
         == Some(if Get(after, group[0]) == Null && Get(after, group[1]) != Null then group[1] else group[0])
  {
    var first, second := group[0], group[1];
    assert first in group && second in group;
    var rest := group[1..];
    assert rest == [second] && rest[1..] == [];
    assert Changed(before, after, rest) == [second] + Changed(before, after, []);
    assert Changed(before, after, group) == [first] + Changed(before, after, rest);
    var changed := [first, second];
    assert Changed(before, after, group) == changed;
    assert changed[1..] == [second] && [second][1..] == [];
    assert FirstSet(after, [second]) == if Get(after, second) != Null then Some(second) else None;
    assert FirstSet(after, changed) == if Get(after, first) != Null then Some(first) else FirstSet(after, [second]);
  }

  /** What version `options` of the group accepts, bound by bound. */
  lemma AcceptsKeyAndPartner(host: Host, options: Dict, propertyType: Json, key: string, x: real)
    requires IsGroup(Group(key))
    ensures GroupAccepts(host, options, Group(key), propertyType)(x) <==>
      && Accepts(FormOf(key), Scaled(host, options, propertyType, key), x)
      && Accepts(FormOf(Partner(key)), Scaled(host, options, propertyType, Partner(key)), x)
  {
    GroupOf(key);
    GroupAcceptsBoth(host, options, Group(key), propertyType, x);
  }

  /** A value accepted by version `one` of `key` and rejected by version `two` of its partner. */
  ghost predicate CutAt(host: Host, one: Dict, two: Dict, propertyType: Json, key: string, x: real) {
    && InDomain(x, HoldsIntegers(propertyType))
    && Accepts(FormOf(key), Scaled(host, one, propertyType, key), x)
    && !Accepts(FormOf(Partner(key)), Scaled(host, two, propertyType, Partner(key)), x)
  }

  /** `CutsAway` holds exactly if some value of the domain is accepted by the one and rejected by the other. */
  lemma CutsAwayIsExact(host: Host, one: Dict, two: Dict, propertyType: Json, key: string)
    requires IsGroup(Group(key)) && Scaled(host, one, propertyType, key).Limit?
    requires Scaled(host, two, propertyType, Partner(key)).Limit?
    ensures CutsAway(host, one, two, propertyType, key, Partner(key)) <==>
      exists x :: CutAt(host, one, two, propertyType, key, x)
  {
    GroupOf(key);
    GroupOf(Partner(key));
    var f, g, integers := FormOf(key), FormOf(Partner(key)), HoldsIntegers(propertyType);
    var v, w := Scaled(host, one, propertyType, key).value, Scaled(host, two, propertyType, Partner(key)).value;
    CutsIsExact(f, v, g, w, integers);
    assert forall x ::
      CutAt(host, one, two, propertyType, key, x) ==
        (InDomain(x, integers) && Accepts(f, Limit(v), x) && !Accepts(g, Limit(w), x));
  }

  /** An updated bound reports its own move, whatever its partner does. */
  lemma UpdatedReportsItsMove(host: Host, before: Dict, after: Dict, propertyType: Json, key: string)
    requires IsGroup(Group(key)) && KindOf(before, after, key) == Some(Updated)
    ensures Reported(host, before, after, propertyType, key) == Graded(Moved(host, before, after, key))
  {
    GroupOf(key);
  }

  /** A value of the domain that one version of the group accepts and the other rejects. */
  ghost predicate Witness(host: Host, one: Dict, two: Dict, propertyType: Json, group: seq<string>, x: real) {
    Separates(GroupAccepts(host, one, group, propertyType), GroupAccepts(host, two, group, propertyType),
              HoldsIntegers(propertyType), x)
  }

  lemma TrueByWitness(host: Host, before: Dict, after: Dict, propertyType: Json, group: seq<string>)
    ensures TrueGroupDirection(host, before, after, propertyType, group) in [Tightens, Both] <==>
      exists x :: Witness(host, before, after, propertyType, group, x)
    ensures TrueGroupDirection(host, before, after, propertyType, group) in [Loosens, Both] <==>
      exists x :: Witness(host, after, before, propertyType, group, x)
  {
    var a, b := GroupAccepts(host, before, group, propertyType), GroupAccepts(host, after, group, propertyType);
    var integers := HoldsIntegers(propertyType);
    assert forall x :: Witness(host, before, after, propertyType, group, x) == Separates(a, b, integers, x);
    assert forall x :: Witness(host, after, before, propertyType, group, x) == Separates(b, a, integers, x);
  }

  /** Two bounds that both stay, moved or not: each loss and each gain is some bound's own move. */
  lemma MovedPairIsCovered(host: Host, before: Dict, after: Dict, propertyType: Json, key: string)
    requires IsGroup(Group(key)) && KindOf(before, after, key) == Some(Updated)
    requires KindOf(before, after, Partner(key)) in [None, Some(Updated)]
    requires Readable(host, before, Group(key)) && Readable(host, after, Group(key))
    ensures Covered(host, before, after, propertyType, Group(key))
  {
    var group, other := Group(key), Partner(key);
    GroupOf(key);
    GroupOf(other);
    TrueByWitness(host, before, after, propertyType, group);
    UpdatedReportsItsMove(host, before, after, propertyType, key);
    if KindOf(before, after, other).Some? {
      UpdatedReportsItsMove(host, before, after, propertyType, other);
    }
    if x :| Witness(host, before, after, propertyType, group, x) {
      SomeBoundMoved(host, before, after, propertyType, key, x);
    }
    if x :| Witness(host, after, before, propertyType, group, x) {
      SomeBoundMoved(host, before, after, propertyType, key, x);
    }
  }

  lemma SomeBoundMoved(host: Host, before: Dict, after: Dict, propertyType: Json, key: string, x: real)
    requires IsGroup(Group(key)) && KindOf(before, after, key) == Some(Updated)
    requires KindOf(before, after, Partner(key)) in [None, Some(Updated)]
    requires Readable(host, before, Group(key)) && Readable(host, after, Group(key))
    ensures Witness(host, before, after, propertyType, Group(key), x) ==>
      || Moved(host, before, after, key) == Tightens
      || (KindOf(before, after, Partner(key)).Some? && Moved(host, before, after, Partner(key)) == Tightens)
    ensures Witness(host, after, before, propertyType, Group(key), x) ==>
      || Moved(host, before, after, key) == Loosens
      || (KindOf(before, after, Partner(key)).Some? && Moved(host, before, after, Partner(key)) == Loosens)
  {
    AcceptsKeyAndPartner(host, before, propertyType, key, x);
    AcceptsKeyAndPartner(host, after, propertyType, key, x);
    MovesAreNested(host, before, after, propertyType, key, x);
    PartnerMovesAlike(host, before, after, propertyType, key, x);
  }

  /** The partner, moved or not. */
  lemma PartnerMovesAlike(host: Host, before: Dict, after: Dict, propertyType: Json, key: string, x: real)
    requires IsGroup(Group(key)) && KindOf(before, after, Partner(key)) in [None, Some(Updated)]
    requires Readable(host, before, Group(key)) && Readable(host, after, Group(key))
    ensures var other := Partner(key);
      var a, b := Accepts(FormOf(other), Scaled(host, before, propertyType, other), x),
        Accepts(FormOf(other), Scaled(host, after, propertyType, other), x);
      if KindOf(before, after, other).None? then a == b
      else
        && (Moved(host, before, after, other) != Tightens ==> a ==> b)
        && (Moved(host, before, after, other) != Loosens ==> b ==> a)
  {
    GroupOf(key);
    if KindOf(before, after, Partner(key)).Some? {
      MovesAreNested(host, before, after, propertyType, Partner(key), x);
    }
  }

  /**
   * Between version `one` without and version `two` with the partner of `key`: unless `key` itself
   * tightens, a loss is a value the partner cuts away; and a gain shows in the move of `key`.
   */
  lemma PartnerAppears(host: Host, one: Dict, two: Dict, propertyType: Json, key: string)
    requires IsGroup(Group(key)) && Get(one, key) != Null && Get(two, key) != Null
    requires Get(one, Partner(key)) == Null && Get(two, Partner(key)) != Null
    requires Readable(host, one, Group(key)) && Readable(host, two, Group(key))
    ensures Moved(host, one, two, key) != Tightens ==>
      ((exists x :: Witness(host, one, two, propertyType, Group(key), x))
        <==> CutsAway(host, one, two, propertyType, key, Partner(key)))
    ensures (exists x :: Witness(host, two, one, propertyType, Group(key), x)) ==> Moved(host, one, two, key) == Loosens
  {
    GroupOf(key);
    var group := Group(key);
    forall x
      ensures Moved(host, one, two, key) != Tightens ==>
        (Witness(host, one, two, propertyType, group, x) <==> CutAt(host, one, two, propertyType, key, x))
      ensures Witness(host, two, one, propertyType, group, x) ==> Moved(host, one, two, key) == Loosens
    {
      AcceptsKeyAndPartner(host, one, propertyType, key, x);
      AcceptsKeyAndPartner(host, two, propertyType, key, x);
      MovesAreNested(host, one, two, propertyType, key, x);
    }
    CutsAwayIsExact(host, one, two, propertyType, key);
  }

  lemma HiddenPartnerIsUntested(host: Host, before: Dict, after: Dict, propertyType: Json, key: string)
    requires IsGroup(Group(key)) && KindOf(before, after, key) == Some(Updated)
    requires KindOf(before, after, Partner(key)) == Some(Removed)
      || (KindOf(before, after, Partner(key)) == Some(Added) && !FormOf(key).exclusive)
    ensures Reported(host, before, after, propertyType, Partner(key)) == Graded(Untested)
  {
    var group, other := Group(key), Partner(key);
    GroupOf(key);
    CarrierOfTwo(before, after, group);
    assert key in group && PartnerSet(other, Group(other), before, after);
  }

  /** A partner added behind an inclusive bound, or removed, is untested: only the move of `key` is reported. */
  lemma OnlyTheMoveIsReported(host: Host, before: Dict, after: Dict, propertyType: Json, key: string, d: Direction)
    requires IsGroup(Group(key)) && KindOf(before, after, key) == Some(Updated)
    requires KindOf(before, after, Partner(key)) == Some(Removed)
      || (KindOf(before, after, Partner(key)) == Some(Added) && !FormOf(key).exclusive)
    requires Readable(host, before, Group(key)) && Readable(host, after, Group(key))
    requires d in [Tightens, Loosens]
    ensures SomeEntry(host, before, after, propertyType, Group(key), d) <==> Moved(host, before, after, key) == d
  {
    TwoEntries(host, before, after, propertyType, key, d);
    HiddenPartnerIsUntested(host, before, after, propertyType, key);
    UpdatedReportsItsMove(host, before, after, propertyType, key);
    MovesAreNested(host, before, after, propertyType, key, 0.0);
  }

  lemma TwoEntries(host: Host, before: Dict, after: Dict, propertyType: Json, key: string, d: Direction)
    requires IsGroup(Group(key))
    ensures SomeEntry(host, before, after, propertyType, Group(key), d) <==>
      Says(host, before, after, propertyType, key, d) || Says(host, before, after, propertyType, Partner(key), d)
  {
    GroupHasTwo(key);
  }

  lemma GroupHasTwo(key: string)
    requires IsGroup(Group(key))
    ensures forall k :: k in Group(key) <==> k == key || k == Partner(key)
  {
  }

  /** An inclusive partner that is added carries the grade, and reports the true change. */
  lemma InclusivePartnerCarries(host: Host, before: Dict, after: Dict, propertyType: Json, key: string)
    requires IsGroup(Group(key)) && KindOf(before, after, key) == Some(Updated)
    requires KindOf(before, after, Partner(key)) == Some(Added) && FormOf(key).exclusive
    requires Readable(host, before, Group(key)) && Readable(host, after, Group(key))
    ensures Covered(host, before, after, propertyType, Group(key))
  {
    var group, other := Group(key), Partner(key);
    GroupOf(key);
    CarrierOfTwo(before, after, group);
    assert PartnerSet(other, group, before, after);
    ReplacedDirectionIsExact(host, before, after, propertyType, other);
    assert other in group;
  }

  lemma MovedBackwards(host: Host, before: Dict, after: Dict, key: string)
    requires LimitOf(host, before, key).Limit? && LimitOf(host, after, key).Limit?
    ensures Moved(host, after, before, key) == Mirror(Moved(host, before, after, key))
  {
  }

  /**
   * With an updated bound in the group, the entries report every gain and every loss of what the
   * group accepts, except exactly when the change of its partner hides behind it.
   */
  lemma UpdatedGroupIsCovered(host: Host, before: Dict, after: Dict, propertyType: Json, key: string)
    requires IsGroup(Group(key)) && KindOf(before, after, key) == Some(Updated)
    requires Readable(host, before, Group(key)) && Readable(host, after, Group(key))
    ensures Covered(host, before, after, propertyType, Group(key)) <==> !Hides(host, before, after, propertyType, key)
  {
    var group, other := Group(key), Partner(key);
    if KindOf(before, after, other) in [None, Some(Updated)] {
      MovedPairIsCovered(host, before, after, propertyType, key);
    } else if KindOf(before, after, other) == Some(Added) && FormOf(key).exclusive {
      InclusivePartnerCarries(host, before, after, propertyType, key);
    } else {
      MoveBesideAPartner(host, before, after, propertyType, key);
    }
  }

  lemma MoveBesideAPartner(host: Host, before: Dict, after: Dict, propertyType: Json, key: string)
    requires IsGroup(Group(key)) && KindOf(before, after, key) == Some(Updated)
    requires KindOf(before, after, Partner(key)) == Some(Removed)
      || (KindOf(before, after, Partner(key)) == Some(Added) && !FormOf(key).exclusive)
    requires Readable(host, before, Group(key)) && Readable(host, after, Group(key))
    ensures Covered(host, before, after, propertyType, Group(key)) <==> !Hides(host, before, after, propertyType, key)
  {
    TrueByWitness(host, before, after, propertyType, Group(key));
    OnlyTheMoveIsReported(host, before, after, propertyType, key, Tightens);
    OnlyTheMoveIsReported(host, before, after, propertyType, key, Loosens);
    GroupOf(key);
    assert LimitOf(host, before, key).Limit? && LimitOf(host, after, key).Limit?;
    MovedBackwards(host, before, after, key);
    if KindOf(before, after, Partner(key)) == Some(Added) {
      PartnerAppears(host, before, after, propertyType, key);
    } else {
      PartnerAppears(host, after, before, propertyType, key);
    }
  }

  /** `minimum` 5 -> 1 with `exclusiveMinimum` 10 added: only a loosening is reported, though the set shrinks. */
  lemma RaisedBehindALoweredMinimum(host: Host, before: Dict, after: Dict)
    requires Get(before, "minimum") == Num(5.0) && Get(before, "exclusiveMinimum") == Null
    requires Get(after, "minimum") == Num(1.0) && Get(after, "exclusiveMinimum") == Num(10.0)
    requires forall r :: host.number(host.str(Num(r))) == Reads(r)
    ensures Hides(host, before, after, Text("number"), "minimum")
    ensures Reported(host, before, after, Text("number"), "minimum") == Graded(Loosens)
    ensures Reported(host, before, after, Text("number"), "exclusiveMinimum") == Graded(Untested)
    ensures TrueGroupDirection(host, before, after, Text("number"), MINIMA) in [Tightens, Both]
  {
    var key, number := "minimum", Text("number");
    GroupOf(key);
    assert host.number(host.str(Num(5.0))) == Reads(5.0);
    assert host.number(host.str(Num(1.0))) == Reads(1.0);
    assert host.number(host.str(Num(10.0))) == Reads(10.0);
    HiddenPartnerIsUntested(host, before, after, number, key);
    UpdatedReportsItsMove(host, before, after, number, key);
    PartnerAppears(host, before, after, number, key);
    TrueByWitness(host, before, after, number, MINIMA);
  }
}
